/** Reading a durable snapshot back (src/conversation-work.js:27-43, 289-360): drift is refused, never repaired. */
module PlanValidation {
  import opened Wrappers
  import opened WorkText
  import opened ConversationPlan

  // The largest revision that JavaScript can count exactly.
  const MAX_SAFE_INTEGER: nat := 9_007_199_254_740_991

  // An optional text is kept when absent and must be bounded when present.
  function OptionalText(value: Option<string>): Result<Option<string>, Error> {
    if value.None? then Success(None)
    else
      var text := BoundedText(value, MAX_DETAIL);
      if text.None? then Failure(TextInvalid) else Success(text)
  }

  function RequiredText(value: Option<string>, required: bool): Result<Option<string>, Error> {
    if required && value.None? then Failure(TextInvalid) else OptionalText(value)
  }

  function ValidateTask(task: Task, ids: set<nat>, nextTaskNumber: nat): Result<Task, Error> {
    if !ValidTaskId(task.id) then Failure(TaskIdInvalid)
    else if task.id in ids || task.id >= nextTaskNumber then Failure(StateInvalid)
    else
      var title := BoundedText(Some(task.title), MAX_TASK_TITLE);
      if title.None? then Failure(TextInvalid)
      else
        match RequiredText(task.evidence, task.status.Completed?)
        case Failure(e) => Failure(e)
        case Success(evidence) =>
          match RequiredText(task.blockedReason, task.status.Blocked?)
          case Failure(e) => Failure(e)
          case Success(reason) => Success(task.(title := title.value, evidence := evidence, blockedReason := reason))
  }

  function ValidateTasks(tasks: seq<Task>, ids: set<nat>, nextTaskNumber: nat): Result<seq<Task>, Error> {
    if tasks == [] then Success([])
    else
      match ValidateTask(tasks[0], ids, nextTaskNumber)
      case Failure(e) => Failure(e)
      case Success(task) =>
        match ValidateTasks(tasks[1..], ids + {tasks[0].id}, nextTaskNumber)
        case Failure(e) => Failure(e)
        case Success(rest) => Success([task] + rest)
  }

  function ValidateGoal(goal: Goal): Result<Goal, Error> {
    var objective := BoundedText(Some(goal.objective), MAX_GOAL_TEXT);
    if objective.None? then Failure(TextInvalid)
    else
      match RequiredText(goal.evidence, goal.status.GoalCompleted?)
      case Failure(e) => Failure(e)
      case Success(evidence) =>
        match RequiredText(goal.blockedReason, goal.status.GoalBlocked?)
        case Failure(e) => Failure(e)
        case Success(reason) =>
          match OptionalText(goal.evidenceRef)
          case Failure(e) => Failure(e)
          case Success(reference) =>
            Success(goal.(objective := objective.value, evidence := evidence, blockedReason := reason,
                          evidenceRef := reference))
  }

  function CountActive(tasks: seq<Task>): nat {
    if tasks == [] then 0 else CountActive(tasks[..|tasks| - 1]) + if tasks[|tasks| - 1].status.InProgress? then 1 else 0
  }

  // A completed goal has only completed tasks, and a blocked goal only completed or blocked ones.
  predicate Agrees(goal: Option<Goal>, tasks: seq<Task>) {
    && (goal.Some? && goal.value.status.GoalCompleted? ==> AllTasks(tasks, {Completed}))
    && (goal.Some? && goal.value.status.GoalBlocked? ==> AllTasks(tasks, {Completed, Blocked}))
  }

  // The part of a snapshot that is checked the same way for the live plan and for a pending completion.
  function ValidatePart(goal: Option<Goal>, tasks: seq<Task>, nextTaskNumber: nat): Result<(Option<Goal>, seq<Task>), Error> {
    if nextTaskNumber < 1 || nextTaskNumber > MAX_TASK_NUMBER + 1 || |tasks| > MAX_TASKS then Failure(StateInvalid)
    else
      match ValidateTasks(tasks, {}, nextTaskNumber)
      case Failure(e) => Failure(e)
      case Success(checked) =>
        if CountActive(checked) > 1 then Failure(StateInvalid)
        else if goal.None? then Success((None, checked))
        else
          match ValidateGoal(goal.value)
          case Failure(e) => Failure(e)
          case Success(g) => if Agrees(Some(g), checked) then Success((Some(g), checked)) else Failure(StateInvalid)
  }

  function ValidatePending(pending: Option<PendingCompletion>): Result<Option<PendingCompletion>, Error> {
    if pending.None? then Success(None)
    else
      var p := pending.value;
      if !p.goal.status.GoalCompleted? then Failure(StateInvalid)
      else
        match ValidatePart(Some(p.goal), p.tasks, p.nextTaskNumber)
        case Failure(e) => Failure(e)
        case Success((goal, tasks)) =>
          if goal.None? || !AllTasks(tasks, {Completed}) then Failure(StateInvalid)
          else Success(Some(p.(goal := goal.value, tasks := tasks)))
  }

  function ValidateSnapshot(s: State): Result<State, Error> {
    if s.revision > MAX_SAFE_INTEGER then Failure(StateInvalid)
    else
      match ValidatePart(s.goal, s.tasks, s.nextTaskNumber)
      case Failure(e) => Failure(e)
      case Success((goal, tasks)) =>
        match ValidatePending(s.pendingCompletion)
        case Failure(e) => Failure(e)
        case Success(pending) => Success(s.(goal := goal, tasks := tasks, pendingCompletion := pending))
  }

  /** What a run keeps true of its state. */

  predicate CleanOption(value: Option<string>) {
    value.Some? ==> Clean(value.value, MAX_DETAIL)
  }

  predicate GoodTask(task: Task, nextTaskNumber: nat) {
    && 1 <= task.id < nextTaskNumber
    && Clean(task.title, MAX_TASK_TITLE)
    && task.evidence.Some? == task.status.Completed? && CleanOption(task.evidence)
    && task.blockedReason.Some? == task.status.Blocked? && CleanOption(task.blockedReason)
  }

  predicate GoodTasks(tasks: seq<Task>, nextTaskNumber: nat) {
    && 1 <= nextTaskNumber <= MAX_TASK_NUMBER + 1
    && |tasks| <= MAX_TASKS
    && (forall i :: 0 <= i < |tasks| ==> GoodTask(tasks[i], nextTaskNumber))
    && (forall i, k :: 0 <= i < k < |tasks| ==> tasks[i].id != tasks[k].id)
    && (forall i, k :: 0 <= i < k < |tasks| ==> !(tasks[i].status.InProgress? && tasks[k].status.InProgress?))
  }

  predicate GoodGoal(goal: Goal) {
    && Clean(goal.objective, MAX_GOAL_TEXT)
    && goal.evidence.Some? == goal.status.GoalCompleted? && CleanOption(goal.evidence)
    && goal.blockedReason.Some? == goal.status.GoalBlocked? && CleanOption(goal.blockedReason)
    && CleanOption(goal.evidenceRef)
  }

  // While a completion is pending, the live plan is that completion with the goal still active.
  predicate PendingMatches(s: State) {
    s.pendingCompletion.Some? ==>
      var p := s.pendingCompletion.value;
      && GoodGoal(p.goal) && p.goal.status.GoalCompleted?
      && s.goal == Some(p.goal.(status := GoalActive, evidence := None, evidenceRef := None))
      && s.tasks == p.tasks && s.nextTaskNumber == p.nextTaskNumber
      && AllTasks(s.tasks, {Completed})
  }

  // Everything but the agreement of goal and tasks.
  predicate Sound(s: State) {
    && GoodTasks(s.tasks, s.nextTaskNumber)
    && (s.goal.Some? ==> GoodGoal(s.goal.value))
    && PendingMatches(s)
  }

  predicate Good(s: State) {
    Sound(s) && Agrees(s.goal, s.tasks)
  }

  /** Validation accepts a sound state exactly when goal and tasks agree, and then changes nothing. */

  lemma RequiredTextIsIdentity(value: Option<string>, required: bool)
    requires CleanOption(value) && (required ==> value.Some?)
    ensures RequiredText(value, required) == Success(value)
  {
    if value.Some? {
      CleanIsUnchanged(value.value, MAX_DETAIL);
    }
  }

  lemma ValidateTaskIsIdentity(task: Task, ids: set<nat>, nextTaskNumber: nat)
    requires GoodTask(task, nextTaskNumber) && nextTaskNumber <= MAX_TASK_NUMBER + 1 && task.id !in ids
    ensures ValidateTask(task, ids, nextTaskNumber) == Success(task)
  {
    CleanIsUnchanged(task.title, MAX_TASK_TITLE);
    RequiredTextIsIdentity(task.evidence, task.status.Completed?);
    RequiredTextIsIdentity(task.blockedReason, task.status.Blocked?);
  }

  lemma {:induction false} ValidateTasksIsIdentity(tasks: seq<Task>, ids: set<nat>, nextTaskNumber: nat)
    requires nextTaskNumber <= MAX_TASK_NUMBER + 1
    requires forall i :: 0 <= i < |tasks| ==> GoodTask(tasks[i], nextTaskNumber) && tasks[i].id !in ids
    requires forall i, k :: 0 <= i < k < |tasks| ==> tasks[i].id != tasks[k].id
    ensures ValidateTasks(tasks, ids, nextTaskNumber) == Success(tasks)
  {
    if tasks != [] {
      ValidateTaskIsIdentity(tasks[0], ids, nextTaskNumber);
      hide ValidateTask, GoodTask;
      ValidateTasksIsIdentity(tasks[1..], ids + {tasks[0].id}, nextTaskNumber);
      assert [tasks[0]] + tasks[1..] == tasks;
    }
  }

  lemma {:induction false} AtMostOneActive(tasks: seq<Task>)
    requires forall i, k :: 0 <= i < k < |tasks| ==> !(tasks[i].status.InProgress? && tasks[k].status.InProgress?)
    ensures CountActive(tasks) <= 1
    ensures (forall i :: 0 <= i < |tasks| ==> !tasks[i].status.InProgress?) ==> CountActive(tasks) == 0
  {
    if tasks != [] {
      AtMostOneActive(tasks[..|tasks| - 1]);
    }
  }

  lemma ValidateGoalIsIdentity(goal: Goal)
    requires GoodGoal(goal)
    ensures ValidateGoal(goal) == Success(goal)
  {
    CleanIsUnchanged(goal.objective, MAX_GOAL_TEXT);
    RequiredTextIsIdentity(goal.evidence, goal.status.GoalCompleted?);
    RequiredTextIsIdentity(goal.blockedReason, goal.status.GoalBlocked?);
    RequiredTextIsIdentity(goal.evidenceRef, false);
  }

  lemma ValidatePartExact(goal: Option<Goal>, tasks: seq<Task>, nextTaskNumber: nat)
    requires GoodTasks(tasks, nextTaskNumber) && (goal.Some? ==> GoodGoal(goal.value))
    ensures ValidatePart(goal, tasks, nextTaskNumber)
      == if Agrees(goal, tasks) then Success((goal, tasks)) else Failure(StateInvalid)
  {
    ValidateTasksIsIdentity(tasks, {}, nextTaskNumber);
    AtMostOneActive(tasks);
    if goal.Some? {
      ValidateGoalIsIdentity(goal.value);
    }
    hide ValidateGoal, GoodGoal, GoodTask;
  }

  /** A sound state is accepted if and only if its goal and tasks agree; then it is returned as it was. */
  lemma ValidateSnapshotExact(s: State)
    requires Sound(s) && s.revision <= MAX_SAFE_INTEGER
    ensures ValidateSnapshot(s) == if Agrees(s.goal, s.tasks) then Success(s) else Failure(StateInvalid)
  {
    ValidatePartExact(s.goal, s.tasks, s.nextTaskNumber);
    if s.pendingCompletion.Some? {
      var p := s.pendingCompletion.value;
      ValidatePartExact(Some(p.goal), p.tasks, p.nextTaskNumber);
    }
    hide ValidatePart, GoodGoal, GoodTasks;
  }
}
