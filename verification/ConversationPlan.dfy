/**
The durable conversation plan (src/conversation-work.js): what each operation makes of a state. An
operation is refused, changes nothing, or yields the next snapshot, one revision later.
*/
module ConversationPlan {
  import opened Wrappers
  import opened WorkText

  const MAX_TASKS: nat := 64
  const MAX_TASK_NUMBER: nat := 999_999
  const MAX_GOAL_TEXT: nat := 2048
  const MAX_TASK_TITLE: nat := 512
  const MAX_DETAIL: nat := 1024

  datatype TaskStatus = Pending | InProgress | Completed | Blocked

  datatype GoalStatus = GoalActive | GoalCompleted | GoalBlocked

  // A task id "T<number>" is represented by its number.
  datatype Task = Task(id: nat, title: string, status: TaskStatus, evidence: Option<string>,
                       blockedReason: Option<string>, createdAt: string, updatedAt: string)

  datatype Goal = Goal(id: string, objective: string, status: GoalStatus, evidence: Option<string>,
                       evidenceRef: Option<string>, blockedReason: Option<string>, createdAt: string, updatedAt: string)

  datatype PendingCompletion = PendingCompletion(goal: Goal, tasks: seq<Task>, nextTaskNumber: nat, requestedAt: string)

  datatype State = State(revision: nat, nextTaskNumber: nat, goal: Option<Goal>, tasks: seq<Task>,
                         pendingCompletion: Option<PendingCompletion>)

  datatype Error =
    | TextInvalid
    | GoalMissing
    | GoalAlreadyCompleted
    | GoalAlreadyBlocked
    | GoalNotTerminal
    | GoalTasksUnfinished
    | GoalTasksActionable
    | TaskCapacity
    | TaskMissing
    | TaskIdInvalid
    | TaskActiveConflict
    | WorkPlanInvalid
    | RevisionConflict
    | StateInvalid
    | PersistFailed

  function EmptyState(): State {
    State(0, 1, None, [], None)
  }

  /** A plan as a caller supplies it. A missing field is None. */

  datatype PlanItem = PlanItem(id: Option<nat>, title: Option<string>, status: Option<TaskStatus>, detail: Option<string>)

  datatype Plan = Plan(revision: Option<nat>, objective: Option<string>, goalStatus: Option<GoalStatus>,
                       goalEvidence: Option<string>, goalBlockedReason: Option<string>, tasks: seq<PlanItem>)

  // A checked item: the id is that of a current task, or None for a new one.
  datatype Item = Item(id: Option<nat>, title: string, status: TaskStatus, detail: Option<string>)

  datatype CheckedPlan = CheckedPlan(objective: string, goalStatus: GoalStatus, goalEvidence: Option<string>,
                                     goalBlockedReason: Option<string>, tasks: seq<Item>)

  datatype Op =
    | SetGoal(objective: Option<string>, now: string, newId: string)
    | CompleteGoal(evidence: Option<string>, defer: bool, now: string)
    | ReopenGoal(now: string)
    | BlockGoal(reason: Option<string>, now: string)
    | Clear
    | ReplacePlan(plan: Plan, defer: bool, now: string, newId: string)
    | CommitPending(deliverable: Option<string>)
    | AddTask(title: Option<string>, now: string)
    | UpdateTask(id: nat, status: TaskStatus, detail: Option<string>, now: string)

  datatype Change = Refused(error: Error) | Unchanged | Next(state: State)

  predicate ValidTaskId(id: nat) {
    1 <= id <= MAX_TASK_NUMBER
  }

  function FindTask(tasks: seq<Task>, id: nat): (r: Option<nat>)
    ensures r.Some? ==> r.value < |tasks| && tasks[r.value].id == id
    ensures r.None? ==> forall i :: 0 <= i < |tasks| ==> tasks[i].id != id
  {
    if tasks == [] then None
    else if tasks[0].id == id then Some(0)
    else
      var rest := FindTask(tasks[1..], id);
      if rest.None? then None else Some(rest.value + 1)
  }

  predicate AllTasks(tasks: seq<Task>, allowed: set<TaskStatus>) {
    forall i :: 0 <= i < |tasks| ==> tasks[i].status in allowed
  }

  /** Goal operations. */

  function SetGoalNext(s: State, objective: Option<string>, now: string, newId: string): Change {
    var text := BoundedText(objective, MAX_GOAL_TEXT);
    if text.None? then Refused(TextInvalid)
    else
      var id := if s.goal.Some? then s.goal.value.id else newId;
      var createdAt := if s.goal.Some? then s.goal.value.createdAt else now;
      Next(s.(revision := s.revision + 1, pendingCompletion := None,
              goal := Some(Goal(id, text.value, GoalActive, None, None, None, createdAt, now))))
  }

  // Staging keeps the goal active and remembers the completed goal and tasks.
  function Staged(s: State, goal: Goal, tasks: seq<Task>, nextTaskNumber: nat, now: string): State {
    State(s.revision + 1, nextTaskNumber,
          Some(goal.(status := GoalActive, evidence := None, evidenceRef := None)), tasks,
          Some(PendingCompletion(goal, tasks, nextTaskNumber, now)))
  }

  function CompleteGoalNext(s: State, evidence: Option<string>, defer: bool, now: string): Change {
    if s.goal.None? then Refused(GoalMissing)
    else if s.goal.value.status.GoalCompleted? then Refused(GoalAlreadyCompleted)
    else if !AllTasks(s.tasks, {Completed}) then Refused(GoalTasksUnfinished)
    else
      var proof := BoundedText(evidence, MAX_DETAIL);
      if proof.None? then Refused(TextInvalid)
      else
        var goal := s.goal.value.(status := GoalCompleted, evidence := proof, evidenceRef := None,
                                  blockedReason := None, updatedAt := now);
        if defer then Next(Staged(s, goal, s.tasks, s.nextTaskNumber, now))
        else Next(s.(revision := s.revision + 1, pendingCompletion := None, goal := Some(goal)))
  }

  function ReopenGoalNext(s: State, now: string): Change {
    if s.goal.None? then Refused(GoalMissing)
    else if s.goal.value.status.GoalActive? then Refused(GoalNotTerminal)
    else
      Next(s.(revision := s.revision + 1, pendingCompletion := None,
              goal := Some(s.goal.value.(status := GoalActive, evidence := None, evidenceRef := None,
                                         blockedReason := None, updatedAt := now))))
  }

  function BlockGoalNext(s: State, reason: Option<string>, now: string): Change {
    if s.goal.None? then Refused(GoalMissing)
    else if s.goal.value.status.GoalCompleted? then Refused(GoalAlreadyCompleted)
    else if s.goal.value.status.GoalBlocked? then Refused(GoalAlreadyBlocked)
    else if !AllTasks(s.tasks, {Completed, Blocked}) then Refused(GoalTasksActionable)
    else
      var text := BoundedText(reason, MAX_DETAIL);
      if text.None? then Refused(TextInvalid)
      else
        Next(s.(revision := s.revision + 1, pendingCompletion := None,
                goal := Some(s.goal.value.(status := GoalBlocked, evidence := None, evidenceRef := None,
                                           blockedReason := text, updatedAt := now))))
  }

  function CommitPendingNext(s: State, deliverable: Option<string>): Change {
    if s.pendingCompletion.None? then Unchanged
    else
      var reference := BoundedText(deliverable, MAX_DETAIL);
      if reference.None? then Refused(TextInvalid)
      else
        var pending := s.pendingCompletion.value;
        Next(State(s.revision + 1, pending.nextTaskNumber, Some(pending.goal.(evidenceRef := reference)),
                   pending.tasks, None))
  }

  /** Task operations. */

  function AddTaskNext(s: State, title: Option<string>, now: string): Change {
    if |s.tasks| >= MAX_TASKS then Refused(TaskCapacity)
    else
      var text := BoundedText(title, MAX_TASK_TITLE);
      if text.None? then Refused(TextInvalid)
      else if s.nextTaskNumber > MAX_TASK_NUMBER then Refused(TaskCapacity)
      else
        var task := Task(s.nextTaskNumber, text.value, Pending, None, None, now, now);
        Next(s.(revision := s.revision + 1, nextTaskNumber := s.nextTaskNumber + 1, pendingCompletion := None,
                tasks := s.tasks + [task]))
  }

  function UpdateTaskNext(s: State, id: nat, status: TaskStatus, detail: Option<string>, now: string): Change {
    if !ValidTaskId(id) then Refused(TaskIdInvalid)
    else
      var index := FindTask(s.tasks, id);
      if index.None? then Refused(TaskMissing)
      else if status.InProgress? && exists i :: 0 <= i < |s.tasks| && i != index.value && s.tasks[i].status.InProgress?
      then Refused(TaskActiveConflict)
      else
        var text := BoundedText(detail, MAX_DETAIL);
        if (status.Completed? || status.Blocked?) && text.None? then Refused(TextInvalid)
        else
          var task := s.tasks[index.value].(status := status,
                                            evidence := if status.Completed? then text else None,
                                            blockedReason := if status.Blocked? then text else None,
                                            updatedAt := now);
          Next(s.(revision := s.revision + 1, pendingCompletion := None, tasks := s.tasks[index.value := task]))
  }

  /** Replacing the whole plan. */

  function KnownIds(tasks: seq<Task>): set<nat> {
    set i | 0 <= i < |tasks| :: tasks[i].id
  }

  // One item, when `seen` are the ids supplied before it and `next` is the number the next new task would get.
  function CheckItem(item: PlanItem, known: set<nat>, seen: set<nat>, next: nat): Result<Item, Error> {
    if item.id.Some? && !ValidTaskId(item.id.value) then Failure(TaskIdInvalid)
    else if item.id.Some? && item.id.value in seen then Failure(WorkPlanInvalid)
    else if item.id.Some? && item.id.value !in known && item.id.value != next then Failure(WorkPlanInvalid)
    else
      var id := if item.id.Some? && item.id.value in known then item.id else None;
      var title := BoundedText(item.title, MAX_TASK_TITLE);
      var status := if item.status.Some? then item.status.value else Pending;
      var detail := BoundedText(item.detail, MAX_DETAIL);
      if title.None? then Failure(TextInvalid)
      else if status.Completed? || status.Blocked? then
        if detail.None? then Failure(TextInvalid) else Success(Item(id, title.value, status, detail))
      else Success(Item(id, title.value, status, None))
  }

  function Seen(seen: set<nat>, item: PlanItem): set<nat> {
    if item.id.Some? then seen + {item.id.value} else seen
  }

  function CheckItems(items: seq<PlanItem>, known: set<nat>, seen: set<nat>, next: nat): Result<seq<Item>, Error> {
    if items == [] then Success([])
    else
      match CheckItem(items[0], known, seen, next)
      case Failure(e) => Failure(e)
      case Success(item) =>
        match CheckItems(items[1..], known, Seen(seen, items[0]), if item.id.None? then next + 1 else next)
        case Failure(e) => Failure(e)
        case Success(rest) => Success([item] + rest)
  }

  function CountInProgress(items: seq<Item>): nat {
    if items == [] then 0 else CountInProgress(items[..|items| - 1]) + if items[|items| - 1].status.InProgress? then 1 else 0
  }

  predicate AllItems(items: seq<Item>, allowed: set<TaskStatus>) {
    forall i :: 0 <= i < |items| ==> items[i].status in allowed
  }

  function NormalizePlan(plan: Plan, s: State): Result<CheckedPlan, Error> {
    if plan.objective.None? || |plan.tasks| > MAX_TASKS then Failure(WorkPlanInvalid)
    else
      var objective := BoundedText(plan.objective, MAX_GOAL_TEXT);
      var goalStatus := if plan.goalStatus.Some? then plan.goalStatus.value else GoalActive;
      var evidence := BoundedText(plan.goalEvidence, MAX_DETAIL);
      var reason := BoundedText(plan.goalBlockedReason, MAX_DETAIL);
      if objective.None? then Failure(TextInvalid)
      else if goalStatus.GoalCompleted? && evidence.None? then Failure(TextInvalid)
      else if goalStatus.GoalBlocked? && reason.None? then Failure(TextInvalid)
      else
        match CheckItems(plan.tasks, KnownIds(s.tasks), {}, s.nextTaskNumber)
        case Failure(e) => Failure(e)
        case Success(items) =>
          if CountInProgress(items) > 1 then Failure(TaskActiveConflict)
          else if goalStatus.GoalCompleted? && !AllItems(items, {Completed}) then Failure(GoalTasksUnfinished)
          else if goalStatus.GoalBlocked? && !AllItems(items, {Completed, Blocked}) then Failure(GoalTasksActionable)
          else
            Success(CheckedPlan(objective.value, goalStatus,
                                if goalStatus.GoalCompleted? then evidence else None,
                                if goalStatus.GoalBlocked? then reason else None, items))
  }

  function CountNew(items: seq<Item>): nat {
    if items == [] then 0 else (if items[0].id.None? then 1 else 0) + CountNew(items[1..])
  }

  function TaskFor(item: Item, tasks: seq<Task>, next: nat, now: string): Result<Task, Error> {
    var prior := if item.id.Some? then FindTask(tasks, item.id.value) else None;
    if item.id.Some? && prior.None? then Failure(TaskMissing)
    else
      Success(Task(if prior.Some? then tasks[prior.value].id else next, item.title, item.status,
                   if item.status.Completed? then item.detail else None,
                   if item.status.Blocked? then item.detail else None,
                   if prior.Some? then tasks[prior.value].createdAt else now, now))
  }

  function AssignTasks(items: seq<Item>, tasks: seq<Task>, next: nat, now: string): Result<seq<Task>, Error> {
    if items == [] then Success([])
    else
      match TaskFor(items[0], tasks, next, now)
      case Failure(e) => Failure(e)
      case Success(task) =>
        match AssignTasks(items[1..], tasks, if items[0].id.None? then next + 1 else next, now)
        case Failure(e) => Failure(e)
        case Success(rest) => Success([task] + rest)
  }

  function PlannedGoal(s: State, plan: CheckedPlan, now: string, newId: string): Goal {
    Goal(if s.goal.Some? then s.goal.value.id else newId, plan.objective, plan.goalStatus,
         plan.goalEvidence, None, plan.goalBlockedReason,
         if s.goal.Some? then s.goal.value.createdAt else now, now)
  }

  // What a checked plan makes of the state.
  function PlanOutcome(s: State, checked: CheckedPlan, defer: bool, now: string, newId: string): Change {
    if CountNew(checked.tasks) + s.nextTaskNumber > MAX_TASK_NUMBER + 1 then Refused(TaskCapacity)
    else
      match AssignTasks(checked.tasks, s.tasks, s.nextTaskNumber, now)
      case Failure(e) => Refused(e)
      case Success(tasks) =>
        var goal := PlannedGoal(s, checked, now, newId);
        var next := s.nextTaskNumber + CountNew(checked.tasks);
        if checked.goalStatus.GoalCompleted? && defer then Next(Staged(s, goal, tasks, next, now))
        else Next(State(s.revision + 1, next, Some(goal), tasks, None))
  }

  function ReplacePlanNext(s: State, plan: Plan, defer: bool, now: string, newId: string): Change {
    if plan.revision.Some? && plan.revision.value != s.revision then Refused(RevisionConflict)
    else
      match NormalizePlan(plan, s)
      case Failure(e) => Refused(e)
      case Success(checked) => PlanOutcome(s, checked, defer, now, newId)
  }

  function Apply(s: State, op: Op): Change {
    match op
    case SetGoal(objective, now, newId) => SetGoalNext(s, objective, now, newId)
    case CompleteGoal(evidence, defer, now) => CompleteGoalNext(s, evidence, defer, now)
    case ReopenGoal(now) => ReopenGoalNext(s, now)
    case BlockGoal(reason, now) => BlockGoalNext(s, reason, now)
    case Clear => Next(EmptyState().(revision := s.revision + 1))
    case ReplacePlan(plan, defer, now, newId) => ReplacePlanNext(s, plan, defer, now, newId)
    case CommitPending(deliverable) => CommitPendingNext(s, deliverable)
    case AddTask(title, now) => AddTaskNext(s, title, now)
    case UpdateTask(id, status, detail, now) => UpdateTaskNext(s, id, status, detail, now)
  }
}
