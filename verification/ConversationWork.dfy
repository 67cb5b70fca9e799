/**
The plan object (src/conversation-work.js:13-283). An operation computes the next snapshot from the current
state in one synchronous step and then waits for its persistence and its output; other operations may be
called while it waits.
*/
module ConversationWork {
  import opened Wrappers
  import opened WorkText
  import opened ConversationPlan

  // Where the one commit that may be in progress stands.
  datatype Phase = Idle | Persisting(next: State) | Emitting

  datatype Work = Work(state: State, phase: Phase)

  // What a caller sees when its call first returns control.
  datatype Started = Failed(error: Error) | Settled(snapshot: State) | Waiting(snapshot: State)

  function BeginCommit(w: Work, next: State): (Work, Started) {
    if w.phase != Idle || next.revision != w.state.revision + 1 then (w, Failed(RevisionConflict))
    else (w.(phase := Persisting(next)), Waiting(next))
  }

  function StartChange(w: Work, change: Change): (Work, Started) {
    match change
    case Refused(e) => (w, Failed(e))
    case Unchanged => (w, Settled(w.state))
    case Next(next) => BeginCommit(w, next)
  }

  function Start(w: Work, op: Op): (Work, Started) {
    StartChange(w, Apply(w.state, op))
  }

  // Clearing the conversation: its marker is already durable, so the plan is not persisted again.
  function StartClearUnpersisted(w: Work): (Work, Started) {
    var next := EmptyState().(revision := w.state.revision + 1);
    if w.phase != Idle then (w, Failed(RevisionConflict)) else (Work(next, Emitting), Waiting(next))
  }

  function PersistSettled(w: Work, ok: bool): Work {
    if !w.phase.Persisting? then w
    else if ok then Work(w.phase.next, Emitting)
    else w.(phase := Idle)
  }

  // A failed output cannot undo the commit.
  function OutputSettled(w: Work, ok: bool): Work {
    if w.phase.Emitting? then w.(phase := Idle) else w
  }

  class ConversationWork {
    var state: State
    var committing: bool
    // The snapshot a commit has handed to persist, until that settles.
    var snapshot: Option<State>

    constructor ()
      ensures Valid() && Contents() == Work(EmptyState(), Idle)
    {
      state := EmptyState();
      committing := false;
      snapshot := None;
    }

    ghost predicate Valid()
      reads this
    {
      snapshot.Some? ==> committing
    }

    ghost function Contents(): Work
      reads this
    {
      Work(state, if !committing then Idle else if snapshot.Some? then Persisting(snapshot.value) else Emitting)
    }

    method Commit(next: State, persist: bool) returns (r: Started)
      requires Valid()
      modifies this
      ensures Valid()
      ensures persist ==> (Contents(), r) == BeginCommit(old(Contents()), next)
      ensures persist && (old(committing) || next.revision != old(state).revision + 1) ==>
        r == Failed(RevisionConflict) && Contents() == old(Contents())
      ensures persist && !old(committing) && next.revision == old(state).revision + 1 ==>
        r == Waiting(next) && state == old(state) && committing && snapshot == Some(next)
      ensures !persist && (old(committing) || next.revision != old(state).revision + 1) ==>
        r == Failed(RevisionConflict) && Contents() == old(Contents())
      ensures !persist && !old(committing) && next.revision == old(state).revision + 1 ==>
        r == Waiting(next) && Contents() == Work(next, Emitting)
    {
      if committing || next.revision != state.revision + 1 {
        return Failed(RevisionConflict);
      }
      committing := true;
      if persist {
        snapshot := Some(next);
      } else {
        state := next;
      }
      return Waiting(next);
    }

    method SettlePersist(ok: bool)
      requires Valid()
      modifies this
      ensures Valid()
      ensures Contents() == PersistSettled(old(Contents()), ok)
      ensures state == (if old(snapshot).Some? && ok then old(snapshot).value else old(state)) && snapshot.None?
      ensures committing == if old(snapshot).Some? then ok else old(committing)
    {
      if snapshot.Some? {
        if ok {
          state := snapshot.value;
        } else {
          committing := false;
        }
        snapshot := None;
      }
    }

    method SettleOutput(ok: bool)
      requires Valid()
      modifies this
      ensures Valid()
      ensures Contents() == OutputSettled(old(Contents()), ok)
      ensures state == old(state) && snapshot == old(snapshot) && committing == old(snapshot).Some?
    {
      if committing && snapshot.None? {
        committing := false;
      }
    }

    method SetGoal(objective: Option<string>, now: string, newId: string) returns (r: Started)
      requires Valid()
      modifies this
      ensures Valid() && (Contents(), r) == Start(old(Contents()), Op.SetGoal(objective, now, newId))
    {
      var text := BoundedText(objective, MAX_GOAL_TEXT);
      if text.None? {
        return Failed(TextInvalid);
      }
      var prior := state.goal;
      var goal := Goal(if prior.Some? then prior.value.id else newId, text.value, GoalActive, None, None, None,
                       if prior.Some? then prior.value.createdAt else now, now);
      r := Commit(state.(revision := state.revision + 1, pendingCompletion := None, goal := Some(goal)), true);
    }

    method CompleteGoal(evidence: Option<string>, defer: bool, now: string) returns (r: Started)
      requires Valid()
      modifies this
      ensures Valid() && (Contents(), r) == Start(old(Contents()), Op.CompleteGoal(evidence, defer, now))
    {
      if state.goal.None? {
        return Failed(GoalMissing);
      }
      var goal := state.goal.value;
      if goal.status.GoalCompleted? {
        return Failed(GoalAlreadyCompleted);
      }
      if exists i | 0 <= i < |state.tasks| :: !state.tasks[i].status.Completed? {
        return Failed(GoalTasksUnfinished);
      }
      var proof := BoundedText(evidence, MAX_DETAIL);
      if proof.None? {
        return Failed(TextInvalid);
      }
      goal := goal.(status := GoalCompleted, evidence := proof, evidenceRef := None, blockedReason := None, updatedAt := now);
      if defer {
        r := StageCompletion(goal, state.tasks, state.nextTaskNumber, now);
      } else {
        r := Commit(state.(revision := state.revision + 1, pendingCompletion := None, goal := Some(goal)), true);
      }
    }

    method StageCompletion(goal: Goal, tasks: seq<Task>, nextTaskNumber: nat, now: string) returns (r: Started)
      requires Valid()
      modifies this
      ensures Valid() && (Contents(), r) == BeginCommit(old(Contents()), Staged(old(state), goal, tasks, nextTaskNumber, now))
    {
      var pending := PendingCompletion(goal, tasks, nextTaskNumber, now);
      var active := goal.(status := GoalActive, evidence := None, evidenceRef := None);
      r := Commit(State(state.revision + 1, pending.nextTaskNumber, Some(active), pending.tasks, Some(pending)), true);
    }

    method ReopenGoal(now: string) returns (r: Started)
      requires Valid()
      modifies this
      ensures Valid() && (Contents(), r) == Start(old(Contents()), Op.ReopenGoal(now))
    {
      if state.goal.None? {
        return Failed(GoalMissing);
      }
      var goal := state.goal.value;
      if !(goal.status.GoalCompleted? || goal.status.GoalBlocked?) {
        return Failed(GoalNotTerminal);
      }
      goal := goal.(status := GoalActive, evidence := None, evidenceRef := None, blockedReason := None, updatedAt := now);
      r := Commit(state.(revision := state.revision + 1, pendingCompletion := None, goal := Some(goal)), true);
    }

    method BlockGoal(reason: Option<string>, now: string) returns (r: Started)
      requires Valid()
      modifies this
      ensures Valid() && (Contents(), r) == Start(old(Contents()), Op.BlockGoal(reason, now))
    {
      if state.goal.None? {
        return Failed(GoalMissing);
      }
      var goal := state.goal.value;
      if goal.status.GoalCompleted? {
        return Failed(GoalAlreadyCompleted);
      }
      if goal.status.GoalBlocked? {
        return Failed(GoalAlreadyBlocked);
      }
      if exists i | 0 <= i < |state.tasks| :: !(state.tasks[i].status.Completed? || state.tasks[i].status.Blocked?) {
        return Failed(GoalTasksActionable);
      }
      var text := BoundedText(reason, MAX_DETAIL);
      if text.None? {
        return Failed(TextInvalid);
      }
      goal := goal.(status := GoalBlocked, evidence := None, evidenceRef := None, blockedReason := text, updatedAt := now);
      r := Commit(state.(revision := state.revision + 1, pendingCompletion := None, goal := Some(goal)), true);
    }

    method Clear(persist: bool) returns (r: Started)
      requires Valid()
      modifies this
      ensures Valid()
      ensures persist ==> (Contents(), r) == Start(old(Contents()), Op.Clear)
      ensures !persist ==> (Contents(), r) == StartClearUnpersisted(old(Contents()))
      ensures var cleared := State(old(state).revision + 1, 1, None, [], None);
        && r == (if old(committing) then Failed(RevisionConflict) else Waiting(cleared))
        && (old(committing) ==> Contents() == old(Contents()))
        && (!old(committing) ==> committing && state == (if persist then old(state) else cleared)
                                 && snapshot == if persist then Some(cleared) else None)
    {
      r := Commit(EmptyState().(revision := state.revision + 1), persist);
    }

    method CommitPendingCompletion(deliverable: Option<string>) returns (r: Started)
      requires Valid()
      modifies this
      ensures Valid() && (Contents(), r) == Start(old(Contents()), Op.CommitPending(deliverable))
    {
      if state.pendingCompletion.None? {
        return Settled(state);
      }
      var pending := state.pendingCompletion.value;
      var reference := BoundedText(deliverable, MAX_DETAIL);
      if reference.None? {
        return Failed(TextInvalid);
      }
      r := Commit(State(state.revision + 1, pending.nextTaskNumber, Some(pending.goal.(evidenceRef := reference)),
                        pending.tasks, None), true);
    }

    method AddTask(title: Option<string>, now: string) returns (r: Started)
      requires Valid()
      modifies this
      ensures Valid() && (Contents(), r) == Start(old(Contents()), Op.AddTask(title, now))
    {
      if |state.tasks| >= MAX_TASKS {
        return Failed(TaskCapacity);
      }
      var text := BoundedText(title, MAX_TASK_TITLE);
      if text.None? {
        return Failed(TextInvalid);
      }
      var number := state.nextTaskNumber;
      if number > MAX_TASK_NUMBER {
        return Failed(TaskCapacity);
      }
      var task := Task(number, text.value, Pending, None, None, now, now);
      r := Commit(state.(revision := state.revision + 1, nextTaskNumber := number + 1, pendingCompletion := None,
                         tasks := state.tasks + [task]), true);
    }

    method UpdateTask(id: nat, status: TaskStatus, detail: Option<string>, now: string) returns (r: Started)
      requires Valid()
      modifies this
      ensures Valid() && (Contents(), r) == Start(old(Contents()), Op.UpdateTask(id, status, detail, now))
    {
      if !ValidTaskId(id) {
        return Failed(TaskIdInvalid);
      }
      var index := FindTask(state.tasks, id);
      if index.None? {
        return Failed(TaskMissing);
      }
      if status.InProgress? && exists i | 0 <= i < |state.tasks| :: i != index.value && state.tasks[i].status.InProgress? {
        return Failed(TaskActiveConflict);
      }
      var text := BoundedText(detail, MAX_DETAIL);
      if (status.Completed? || status.Blocked?) && text.None? {
        return Failed(TextInvalid);
      }
      var task := state.tasks[index.value].(status := status, evidence := if status.Completed? then text else None,
                                            blockedReason := if status.Blocked? then text else None, updatedAt := now);
      r := Commit(state.(revision := state.revision + 1, pendingCompletion := None,
                         tasks := state.tasks[index.value := task]), true);
    }

    method ReplacePlan(plan: Plan, defer: bool, now: string, newId: string) returns (r: Started)
      requires Valid()
      modifies this
      ensures Valid() && (Contents(), r) == Start(old(Contents()), Op.ReplacePlan(plan, defer, now, newId))
    {
      hide PlanOutcome, NormalizePlan, BeginCommit;
      if plan.revision.Some? && plan.revision.value != state.revision {
        return Failed(RevisionConflict);
      }
      var normalized := NormalizePlanByTraversal(plan, state);
      if normalized.Failure? {
        return Failed(normalized.error);
      }
      r := CommitPlan(normalized.value, defer, now, newId);
    }

    // The part of replacePlan after the plan was normalized.
    method CommitPlan(checked: CheckedPlan, defer: bool, now: string, newId: string) returns (r: Started)
      requires Valid()
      modifies this
      ensures Valid()
      ensures (Contents(), r) == StartChange(old(Contents()), PlanOutcome(old(state), checked, defer, now, newId))
    {
      hide AssignTasks, CountNew;
      var tasks, next := AssignTaskNumbers(checked.tasks, state, now);
      if tasks.Failure? {
        return Failed(tasks.error);
      }
      var goal := PlannedGoal(state, checked, now, newId);
      if checked.goalStatus.GoalCompleted? && defer {
        r := StageCompletion(goal, tasks.value, next, now);
      } else {
        r := Commit(State(state.revision + 1, next, Some(goal), tasks.value, None), true);
      }
    }
  }

  /** The traversals of a supplied plan, with their running counters. */

  function Prepend<T>(done: seq<T>, rest: Result<seq<T>, Error>): Result<seq<T>, Error> {
    match rest
    case Success(items) => Success(done + items)
    case Failure(e) => Failure(e)
  }

  lemma PrependNothing<T>(rest: Result<seq<T>, Error>)
    ensures Prepend([], rest) == rest
  {
    if rest.Success? {
      assert [] + rest.value == rest.value;
    }
  }

  lemma PrependMore<T>(done: seq<T>, item: T, rest: Result<seq<T>, Error>)
    ensures Prepend(done, Prepend([item], rest)) == Prepend(done + [item], rest)
  {
    if rest.Success? {
      assert done + ([item] + rest.value) == (done + [item]) + rest.value;
    }
  }

  lemma CheckFrom(items: seq<PlanItem>, i: nat, known: set<nat>, seen: set<nat>, next: nat)
    requires i < |items|
    ensures var item := CheckItem(items[i], known, seen, next);
      CheckItems(items[i..], known, seen, next)
      == match item
         case Failure(e) => Failure(e)
         case Success(checked) =>
           Prepend([checked], CheckItems(items[i + 1..], known, Seen(seen, items[i]),
                                         if checked.id.None? then next + 1 else next))
  {
    hide CheckItem;
    assert items[i..][1..] == items[i + 1..] && items[i..][0] == items[i];
  }

  lemma AssignFrom(items: seq<Item>, i: nat, tasks: seq<Task>, next: nat, now: string)
    requires i < |items|
    ensures AssignTasks(items[i..], tasks, next, now)
      == match TaskFor(items[i], tasks, next, now)
         case Failure(e) => Failure(e)
         case Success(task) =>
           Prepend([task], AssignTasks(items[i + 1..], tasks, if items[i].id.None? then next + 1 else next, now))
    ensures CountNew(items[i..]) == (if items[i].id.None? then 1 else 0) + CountNew(items[i + 1..])
  {
    hide TaskFor;
    assert items[i..][1..] == items[i + 1..] && items[i..][0] == items[i];
  }

  method CheckPlanItems(items: seq<PlanItem>, s: State) returns (r: Result<seq<Item>, Error>, inProgress: nat)
    ensures r == CheckItems(items, KnownIds(s.tasks), {}, s.nextTaskNumber)
    ensures r.Success? ==> inProgress == CountInProgress(r.value)
  {
    var known := KnownIds(s.tasks);
    var ids: set<nat> := {};
    var nextTaskNumber := s.nextTaskNumber;
    var checked: seq<Item> := [];
    inProgress := 0;
    var i := 0;
    assert items[0..] == items;
    PrependNothing(CheckItems(items, known, {}, s.nextTaskNumber));
    hide CheckItems, CheckItem;
    while i < |items|
      invariant i <= |items|
      invariant inProgress == CountInProgress(checked)
      invariant CheckItems(items, known, {}, s.nextTaskNumber)
        == Prepend(checked, CheckItems(items[i..], known, ids, nextTaskNumber))
    {
      var item := CheckItem(items[i], known, ids, nextTaskNumber);
      CheckFrom(items, i, known, ids, nextTaskNumber);
      if item.Failure? {
        return Failure(item.error), 0;
      }
      if items[i].id.Some? {
        ids := ids + {items[i].id.value};
      }
      if item.value.id.None? {
        nextTaskNumber := nextTaskNumber + 1;
      }
      if item.value.status.InProgress? {
        inProgress := inProgress + 1;
      }
      PrependMore(checked, item.value, CheckItems(items[i + 1..], known, ids, nextTaskNumber));
      assert (checked + [item.value])[..|checked|] == checked;
      checked := checked + [item.value];
      i := i + 1;
    }
    NothingToCheck(items[i..], known, ids, nextTaskNumber);
    assert checked + [] == checked;
    return Success(checked), inProgress;
  }

  lemma NothingToCheck(items: seq<PlanItem>, known: set<nat>, seen: set<nat>, next: nat)
    requires items == []
    ensures CheckItems(items, known, seen, next) == Success([])
  {
  }

  method NormalizePlanByTraversal(plan: Plan, s: State) returns (r: Result<CheckedPlan, Error>)
    ensures r == NormalizePlan(plan, s)
  {
    if plan.objective.None? || |plan.tasks| > MAX_TASKS {
      return Failure(WorkPlanInvalid);
    }
    var objective := BoundedText(plan.objective, MAX_GOAL_TEXT);
    if objective.None? {
      return Failure(TextInvalid);
    }
    var goalStatus := if plan.goalStatus.Some? then plan.goalStatus.value else GoalActive;
    var evidence := if goalStatus.GoalCompleted? then BoundedText(plan.goalEvidence, MAX_DETAIL) else None;
    if goalStatus.GoalCompleted? && evidence.None? {
      return Failure(TextInvalid);
    }
    var reason := if goalStatus.GoalBlocked? then BoundedText(plan.goalBlockedReason, MAX_DETAIL) else None;
    if goalStatus.GoalBlocked? && reason.None? {
      return Failure(TextInvalid);
    }
    var items, inProgress := CheckPlanItems(plan.tasks, s);
    if items.Failure? {
      return Failure(items.error);
    }
    if inProgress > 1 {
      return Failure(TaskActiveConflict);
    }
    if goalStatus.GoalCompleted? && !AllItems(items.value, {Completed}) {
      return Failure(GoalTasksUnfinished);
    }
    if goalStatus.GoalBlocked? && !AllItems(items.value, {Completed, Blocked}) {
      return Failure(GoalTasksActionable);
    }
    return Success(CheckedPlan(objective.value, goalStatus, evidence, reason, items.value));
  }

  method AssignTaskNumbers(items: seq<Item>, s: State, now: string) returns (r: Result<seq<Task>, Error>, next: nat)
    ensures CountNew(items) + s.nextTaskNumber > MAX_TASK_NUMBER + 1 ==> r == Failure(TaskCapacity)
    ensures CountNew(items) + s.nextTaskNumber <= MAX_TASK_NUMBER + 1 ==>
      r == AssignTasks(items, s.tasks, s.nextTaskNumber, now)
    ensures r.Success? ==> next == s.nextTaskNumber + CountNew(items)
  {
    next := s.nextTaskNumber;
    if CountNew(items) + next > MAX_TASK_NUMBER + 1 {
      return Failure(TaskCapacity), next;
    }
    var tasks: seq<Task> := [];
    var i := 0;
    assert items[0..] == items;
    PrependNothing(AssignTasks(items, s.tasks, next, now));
    hide AssignTasks, CountNew, TaskFor;
    while i < |items|
      invariant i <= |items|
      invariant next + CountNew(items[i..]) == s.nextTaskNumber + CountNew(items)
      invariant AssignTasks(items, s.tasks, s.nextTaskNumber, now)
        == Prepend(tasks, AssignTasks(items[i..], s.tasks, next, now))
    {
      AssignFrom(items, i, s.tasks, next, now);
      var task := TaskFor(items[i], s.tasks, next, now);
      if task.Failure? {
        return Failure(task.error), next;
      }
      if items[i].id.None? {
        next := next + 1;
      }
      PrependMore(tasks, task.value, AssignTasks(items[i + 1..], s.tasks, next, now));
      tasks := tasks + [task.value];
      i := i + 1;
    }
    NothingToAssign(items[i..], s.tasks, next, now);
    assert tasks + [] == tasks;
    return Success(tasks), next;
  }

  lemma NothingToAssign(items: seq<Item>, tasks: seq<Task>, next: nat, now: string)
    requires items == []
    ensures AssignTasks(items, tasks, next, now) == Success([]) && CountNew(items) == 0
  {
  }
}
