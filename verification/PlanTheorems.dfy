/** What every plan operation keeps, and when it leaves a state that can be restored. */
module PlanTheorems {
  import opened Wrappers
  import opened WorkText
  import opened ConversationPlan
  import opened PlanValidation

  /** Checking and numbering the items of a plan. */

  predicate GoodItem(item: Item, known: set<nat>) {
    && Clean(item.title, MAX_TASK_TITLE)
    && (item.id.Some? ==> item.id.value in known)
    && item.detail.Some? == (item.status.Completed? || item.status.Blocked?)
    && CleanOption(item.detail)
  }

  lemma CheckItemIsGood(item: PlanItem, known: set<nat>, seen: set<nat>, next: nat)
    requires CheckItem(item, known, seen, next).Success?
    ensures GoodItem(CheckItem(item, known, seen, next).value, known)
  {
    BoundedTextIsClean(item.title, MAX_TASK_TITLE);
    BoundedTextIsClean(item.detail, MAX_DETAIL);
  }

  // The number the k-th task gets if it is new.
  function NumberAt(items: seq<Item>, next: nat, k: nat): nat
    requires k <= |items|
  {
    if k == 0 then next else NumberAt(items, next, k - 1) + if items[k - 1].id.None? then 1 else 0
  }

  lemma {:induction false} NumberAtTail(items: seq<Item>, next: nat, k: nat)
    requires 0 < k <= |items|
    ensures NumberAt(items, next, k)
      == NumberAt(items[1..], if items[0].id.None? then next + 1 else next, k - 1)
  {
    if k > 1 {
      NumberAtTail(items, next, k - 1);
    }
  }

  lemma {:induction false} NumberAtGrows(items: seq<Item>, next: nat, i: nat, k: nat)
    requires i <= k <= |items|
    ensures NumberAt(items, next, i) <= NumberAt(items, next, k)
  {
    if i < k {
      NumberAtGrows(items, next, i, k - 1);
    }
  }

  lemma {:induction false} NumberAtEnd(items: seq<Item>, next: nat)
    ensures NumberAt(items, next, |items|) == next + CountNew(items)
  {
    if items != [] {
      NumberAtEnd(items[1..], if items[0].id.None? then next + 1 else next);
      NumberAtTail(items, next, |items|);
    }
  }

  /** An accepted plan has one checked item per supplied item; a supplied id is either the id of a current
      task, never used twice, or exactly the number that the new task is about to get. */
  lemma {:induction false} CheckItemsExact(items: seq<PlanItem>, known: set<nat>, seen: set<nat>, next: nat)
    requires CheckItems(items, known, seen, next).Success?
    ensures var checked := CheckItems(items, known, seen, next).value;
      && |checked| == |items|
      && (forall k :: 0 <= k < |items| ==> GoodItem(checked[k], known))
      && (forall k :: 0 <= k < |items| && checked[k].id.Some? ==>
            checked[k].id == items[k].id && checked[k].id.value !in seen)
      && (forall k :: 0 <= k < |items| && items[k].id.Some? && checked[k].id.None? ==>
            items[k].id.value == NumberAt(checked, next, k) && items[k].id.value !in known)
      && (forall i, k :: 0 <= i < k < |items| && checked[i].id.Some? ==> checked[i].id != checked[k].id)
  {
    if items != [] {
      var item := CheckItem(items[0], known, seen, next).value;
      CheckItemIsGood(items[0], known, seen, next);
      var seen', next' := Seen(seen, items[0]), if item.id.None? then next + 1 else next;
      CheckItemsExact(items[1..], known, seen', next');
      var rest := CheckItems(items[1..], known, seen', next').value;
      var checked := CheckItems(items, known, seen, next).value;
      assert checked == [item] + rest && checked[1..] == rest;
      assert item.id.Some? ==> item.id == items[0].id && item.id.value in seen';
      hide CheckItem, CheckItems, GoodItem;
      forall k | 0 < k < |items|
        ensures checked[k] == rest[k - 1] && items[k] == items[1..][k - 1]
        ensures NumberAt(checked, next, k) == NumberAt(rest, next', k - 1)
      {
        NumberAtTail(checked, next, k);
      }
    }
  }

  // Every task of a checked plan is found or numbered: assignment never fails and numbers in order.
  lemma {:induction false} AssignTasksExact(items: seq<Item>, tasks: seq<Task>, next: nat, now: string)
    requires forall k :: 0 <= k < |items| ==> GoodItem(items[k], KnownIds(tasks))
    ensures AssignTasks(items, tasks, next, now).Success?
    ensures var numbered := AssignTasks(items, tasks, next, now).value;
      && |numbered| == |items|
      && (forall k :: 0 <= k < |items| ==>
            && numbered[k].id == (if items[k].id.Some? then items[k].id.value else NumberAt(items, next, k))
            && numbered[k].title == items[k].title && numbered[k].status == items[k].status
            && numbered[k].evidence == (if items[k].status.Completed? then items[k].detail else None)
            && numbered[k].blockedReason == (if items[k].status.Blocked? then items[k].detail else None))
  {
    if items != [] {
      var task := TaskFor(items[0], tasks, next, now);
      assert GoodItem(items[0], KnownIds(tasks));
      var next' := if items[0].id.None? then next + 1 else next;
      AssignTasksExact(items[1..], tasks, next', now);
      var rest := AssignTasks(items[1..], tasks, next', now).value;
      var numbered := AssignTasks(items, tasks, next, now).value;
      assert numbered == [task.value] + rest;
      hide TaskFor, AssignTasks, GoodItem;
      forall k | 0 < k < |items|
        ensures numbered[k] == rest[k - 1] && items[k] == items[1..][k - 1]
        ensures NumberAt(items, next, k) == NumberAt(items[1..], next', k - 1)
      {
        NumberAtTail(items, next, k);
      }
    }
  }

  lemma {:induction false} OneInProgress(items: seq<Item>)
    ensures CountInProgress(items) == 0 ==> forall i :: 0 <= i < |items| ==> !items[i].status.InProgress?
    ensures CountInProgress(items) <= 1 ==>
      forall i, k :: 0 <= i < k < |items| ==> !(items[i].status.InProgress? && items[k].status.InProgress?)
  {
    if items != [] {
      OneInProgress(items[..|items| - 1]);
    }
  }

  // The k-th task keeps a known id below the counter, or takes a number at or above it.
  lemma PlannedTaskIsGood(s: State, items: seq<Item>, now: string, k: nat)
    requires Sound(s) && k < |items|
    requires forall i :: 0 <= i < |items| ==> GoodItem(items[i], KnownIds(s.tasks))
    ensures AssignTasks(items, s.tasks, s.nextTaskNumber, now).Success?
    ensures var tasks := AssignTasks(items, s.tasks, s.nextTaskNumber, now).value;
      && |tasks| == |items|
      && GoodTask(tasks[k], s.nextTaskNumber + CountNew(items))
      && (items[k].id.Some? ==> tasks[k].id == items[k].id.value < s.nextTaskNumber)
      && (items[k].id.None? ==> s.nextTaskNumber <= tasks[k].id == NumberAt(items, s.nextTaskNumber, k))
  {
    var next := s.nextTaskNumber;
    AssignTasksExact(items, s.tasks, next, now);
    NumberAtEnd(items, next);
    NumberAtGrows(items, next, 0, k);
    NumberAtGrows(items, next, k + 1, |items|);
    assert GoodItem(items[k], KnownIds(s.tasks));
    hide AssignTasks, CountNew;
  }

  ghost predicate GoodItems(s: State, items: seq<Item>) {
    && |items| <= MAX_TASKS
    && (forall k :: 0 <= k < |items| ==> GoodItem(items[k], KnownIds(s.tasks)))
    && (forall i, k :: 0 <= i < k < |items| && items[i].id.Some? ==> items[i].id != items[k].id)
    && CountInProgress(items) <= 1
  }

  lemma PlannedIdsDiffer(s: State, items: seq<Item>, now: string, i: nat, k: nat)
    requires Sound(s) && GoodItems(s, items) && i < k < |items|
    ensures AssignTasks(items, s.tasks, s.nextTaskNumber, now).Success?
    ensures var tasks := AssignTasks(items, s.tasks, s.nextTaskNumber, now).value;
      |tasks| == |items| && tasks[i].id != tasks[k].id
  {
    PlannedTaskIsGood(s, items, now, i);
    PlannedTaskIsGood(s, items, now, k);
    NumberAtGrows(items, s.nextTaskNumber, i + 1, k);
    hide AssignTasks, Sound, GoodItem, GoodTask, CountNew;
  }

  // The tasks of an accepted plan, whatever the goal.
  lemma PlannedTasksAreGood(s: State, items: seq<Item>, now: string)
    requires Sound(s) && GoodItems(s, items)
    requires CountNew(items) + s.nextTaskNumber <= MAX_TASK_NUMBER + 1
    ensures AssignTasks(items, s.tasks, s.nextTaskNumber, now).Success?
    ensures GoodTasks(AssignTasks(items, s.tasks, s.nextTaskNumber, now).value, s.nextTaskNumber + CountNew(items))
  {
    var next := s.nextTaskNumber;
    AssignTasksExact(items, s.tasks, next, now);
    OneInProgress(items);
    hide AssignTasks, CountNew, CountInProgress, GoodTask, GoodItem;
    var tasks := AssignTasks(items, s.tasks, next, now).value;
    forall k | 0 <= k < |items|
      ensures GoodTask(tasks[k], next + CountNew(items))
    {
      PlannedTaskIsGood(s, items, now, k);
    }
    forall i, k | 0 <= i < k < |tasks|
      ensures tasks[i].id != tasks[k].id
    {
      PlannedIdsDiffer(s, items, now, i, k);
    }
  }

  ghost predicate GoodPlan(s: State, checked: CheckedPlan) {
    && GoodItems(s, checked.tasks)
    && Clean(checked.objective, MAX_GOAL_TEXT)
    && checked.goalEvidence.Some? == checked.goalStatus.GoalCompleted? && CleanOption(checked.goalEvidence)
    && checked.goalBlockedReason.Some? == checked.goalStatus.GoalBlocked? && CleanOption(checked.goalBlockedReason)
    && (checked.goalStatus.GoalCompleted? ==> AllItems(checked.tasks, {Completed}))
    && (checked.goalStatus.GoalBlocked? ==> AllItems(checked.tasks, {Completed, Blocked}))
  }

  /** A plan that normalizePlan accepts is good: checked texts, known ids used once, at most one task in progress,
      and a goal that agrees with the tasks. */
  lemma NormalizedPlanIsGood(plan: Plan, s: State)
    requires NormalizePlan(plan, s).Success?
    ensures var checked := NormalizePlan(plan, s).value;
      && GoodPlan(s, checked)
      && CheckItems(plan.tasks, KnownIds(s.tasks), {}, s.nextTaskNumber) == Success(checked.tasks)
  {
    BoundedTextIsClean(plan.objective, MAX_GOAL_TEXT);
    BoundedTextIsClean(plan.goalEvidence, MAX_DETAIL);
    BoundedTextIsClean(plan.goalBlockedReason, MAX_DETAIL);
    if CheckItems(plan.tasks, KnownIds(s.tasks), {}, s.nextTaskNumber).Success? {
      CheckItemsExact(plan.tasks, KnownIds(s.tasks), {}, s.nextTaskNumber);
    }
    hide CheckItems, CheckItem, GoodItem, CountInProgress, BoundedText, Trim;
  }

  lemma PlannedGoalAgrees(s: State, checked: CheckedPlan, tasks: seq<Task>, now: string, newId: string)
    requires GoodPlan(s, checked)
    requires |tasks| == |checked.tasks| && forall k :: 0 <= k < |tasks| ==> tasks[k].status == checked.tasks[k].status
    ensures Agrees(Some(PlannedGoal(s, checked, now, newId)), tasks)
    ensures GoodGoal(PlannedGoal(s, checked, now, newId))
  {
    hide GoodItems;
  }

  // What the plan's goal and tasks make of the state is good, staged or not.
  lemma PlannedStateIsGood(s: State, goal: Goal, tasks: seq<Task>, next: nat, now: string)
    requires GoodTasks(tasks, next) && GoodGoal(goal) && Agrees(Some(goal), tasks)
    ensures Good(State(s.revision + 1, next, Some(goal), tasks, None))
    ensures goal.status.GoalCompleted? ==> Good(Staged(s, goal, tasks, next, now))
    ensures Staged(s, goal, tasks, next, now).revision == s.revision + 1
  {
    hide GoodTasks, AllTasks;
  }

  lemma AssignedStatuses(s: State, items: seq<Item>, tasks: seq<Task>, now: string)
    requires GoodItems(s, items) && AssignTasks(items, s.tasks, s.nextTaskNumber, now) == Success(tasks)
    ensures |tasks| == |items| && forall k :: 0 <= k < |tasks| ==> tasks[k].status == items[k].status
  {
    AssignTasksExact(items, s.tasks, s.nextTaskNumber, now);
    hide AssignTasks, GoodItem, CountInProgress;
  }

  lemma AssignedPlanIsGood(s: State, checked: CheckedPlan, tasks: seq<Task>, now: string, newId: string)
    requires Sound(s) && GoodPlan(s, checked)
    requires AssignTasks(checked.tasks, s.tasks, s.nextTaskNumber, now) == Success(tasks)
    requires CountNew(checked.tasks) + s.nextTaskNumber <= MAX_TASK_NUMBER + 1
    ensures GoodTasks(tasks, s.nextTaskNumber + CountNew(checked.tasks))
    ensures GoodGoal(PlannedGoal(s, checked, now, newId))
    ensures Agrees(Some(PlannedGoal(s, checked, now, newId)), tasks)
  {
    hide AssignTasks, CountNew, CountInProgress, Sound, GoodTasks, Agrees, GoodItem, GoodGoal, PlannedGoal, AllItems;
    PlannedTasksAreGood(s, checked.tasks, now);
    AssignedStatuses(s, checked.tasks, tasks, now);
    PlannedGoalAgrees(s, checked, tasks, now, newId);
  }

  lemma PlanOutcomeIsGood(s: State, checked: CheckedPlan, defer: bool, now: string, newId: string)
    requires Sound(s) && GoodPlan(s, checked)
    requires PlanOutcome(s, checked, defer, now, newId).Next?
    ensures Good(PlanOutcome(s, checked, defer, now, newId).state)
    ensures PlanOutcome(s, checked, defer, now, newId).state.revision == s.revision + 1
  {
    hide AssignTasks, CountNew, Good, Sound, GoodPlan, GoodTasks, Agrees, GoodGoal, PlannedGoal, Staged;
    var tasks := AssignTasks(checked.tasks, s.tasks, s.nextTaskNumber, now).value;
    AssignedPlanIsGood(s, checked, tasks, now, newId);
    PlannedGoalStatus(s, checked, now, newId);
    PlannedStateIsGood(s, PlannedGoal(s, checked, now, newId), tasks, s.nextTaskNumber + CountNew(checked.tasks), now);
  }

  lemma PlannedGoalStatus(s: State, checked: CheckedPlan, now: string, newId: string)
    ensures PlannedGoal(s, checked, now, newId).status == checked.goalStatus
  {
  }

  lemma ReplacePlanKeepsSound(s: State, plan: Plan, defer: bool, now: string, newId: string)
    requires Sound(s) && ReplacePlanNext(s, plan, defer, now, newId).Next?
    ensures Good(ReplacePlanNext(s, plan, defer, now, newId).state)
    ensures ReplacePlanNext(s, plan, defer, now, newId).state.revision == s.revision + 1
  {
    hide NormalizePlan, PlanOutcome, Good, Sound, GoodPlan;
    NormalizedPlanIsGood(plan, s);
    PlanOutcomeIsGood(s, NormalizePlan(plan, s).value, defer, now, newId);
  }

  /** Which operations keep goal and tasks in agreement. */

  // Adding or changing a task does not look at the goal; every other operation keeps the agreement unaided.
  predicate KeepsAgreement(s: State, op: Op) {
    match op
    case AddTask(_, _) => s.goal.None? || s.goal.value.status.GoalActive?
    case UpdateTask(_, status, _, _) =>
      && (s.goal.Some? && s.goal.value.status.GoalCompleted? ==> status.Completed?)
      && (s.goal.Some? && s.goal.value.status.GoalBlocked? ==> status.Completed? || status.Blocked?)
    case _ => true
  }

  lemma AddTaskExact(s: State, title: Option<string>, now: string)
    requires Sound(s) && AddTaskNext(s, title, now).Next?
    ensures AddTaskNext(s, title, now).state.revision == s.revision + 1
    ensures Sound(AddTaskNext(s, title, now).state)
    ensures var n := AddTaskNext(s, title, now).state;
            Agrees(s.goal, s.tasks) ==> (Agrees(n.goal, n.tasks) <==> KeepsAgreement(s, AddTask(title, now)))
  {
    BoundedTextIsClean(title, MAX_TASK_TITLE);
    var n := AddTaskNext(s, title, now).state;
    assert n.tasks[|s.tasks|].status.Pending?;
    assert forall i :: 0 <= i < |s.tasks| ==> n.tasks[i] == s.tasks[i] && GoodTask(s.tasks[i], s.nextTaskNumber);
  }

  lemma UpdateTaskExact(s: State, id: nat, status: TaskStatus, detail: Option<string>, now: string)
    requires Sound(s) && UpdateTaskNext(s, id, status, detail, now).Next?
    ensures UpdateTaskNext(s, id, status, detail, now).state.revision == s.revision + 1
    ensures Sound(UpdateTaskNext(s, id, status, detail, now).state)
    ensures var n := UpdateTaskNext(s, id, status, detail, now).state;
            Agrees(s.goal, s.tasks) ==>
              (Agrees(n.goal, n.tasks) <==> KeepsAgreement(s, UpdateTask(id, status, detail, now)))
  {
    BoundedTextIsClean(detail, MAX_DETAIL);
    var n := UpdateTaskNext(s, id, status, detail, now).state;
    var index := FindTask(s.tasks, id).value;
    assert n.tasks[index].status == status;
    assert forall i :: 0 <= i < |s.tasks| && i != index ==> n.tasks[i] == s.tasks[i];
    assert GoodTask(s.tasks[index], s.nextTaskNumber);
  }

  /** Every operation steps the revision by one and keeps a state sound, whether its goal and tasks agree or not; after
      any but the two task operations they do agree. */
  lemma ApplyKeepsSound(s: State, op: Op)
    requires Sound(s) && Apply(s, op).Next?
    ensures Apply(s, op).state.revision == s.revision + 1
    ensures Sound(Apply(s, op).state)
    ensures !op.AddTask? && !op.UpdateTask? ==> Good(Apply(s, op).state)
  {
    hide ReplacePlanNext, AddTaskNext, UpdateTaskNext, BlockGoalNext, BoundedText;
    match op {
      case SetGoal(objective, now, newId) => BoundedTextIsClean(objective, MAX_GOAL_TEXT);
      case CompleteGoal(evidence, defer, now) => BoundedTextIsClean(evidence, MAX_DETAIL);
      case ReopenGoal(now) =>
      case BlockGoal(reason, now) => BlockKeepsSound(s, reason, now);
      case Clear =>
      case ReplacePlan(plan, defer, now, newId) => ReplacePlanKeepsSound(s, plan, defer, now, newId);
      case CommitPending(deliverable) => BoundedTextIsClean(deliverable, MAX_DETAIL);
      case AddTask(title, now) => AddTaskExact(s, title, now);
      case UpdateTask(id, status, detail, now) => UpdateTaskExact(s, id, status, detail, now);
    }
  }

  /** Every operation keeps a restorable state restorable exactly when KeepsAgreement holds before the call. */
  lemma ApplyExact(s: State, op: Op)
    requires Good(s) && Apply(s, op).Next?
    ensures Apply(s, op).state.revision == s.revision + 1
    ensures Sound(Apply(s, op).state)
    ensures Good(Apply(s, op).state) <==> KeepsAgreement(s, op)
    ensures s.revision < MAX_SAFE_INTEGER ==>
      (ValidateSnapshot(Apply(s, op).state).Success? <==> KeepsAgreement(s, op))
    ensures s.revision < MAX_SAFE_INTEGER && KeepsAgreement(s, op) ==>
      ValidateSnapshot(Apply(s, op).state) == Success(Apply(s, op).state)
  {
    ApplyKeepsSound(s, op);
    match op {
      case AddTask(title, now) => AddTaskExact(s, title, now);
      case UpdateTask(id, status, detail, now) => UpdateTaskExact(s, id, status, detail, now);
      case _ =>
    }
    hide ReplacePlanNext, AddTaskNext, UpdateTaskNext, BlockGoalNext, ValidateSnapshot, Sound;
    if s.revision < MAX_SAFE_INTEGER {
      ValidateSnapshotExact(Apply(s, op).state);
    }
  }

  lemma BlockKeepsSound(s: State, reason: Option<string>, now: string)
    requires Sound(s) && BlockGoalNext(s, reason, now).Next?
    ensures Good(BlockGoalNext(s, reason, now).state)
    ensures BlockGoalNext(s, reason, now).state.revision == s.revision + 1
  {
    BoundedTextIsClean(reason, MAX_DETAIL);
  }

  // A concrete run to a durable state that the next start refuses: complete the goal, then add a task.
  lemma AddTaskAfterCompletionIsNotRestorable()
    ensures var task := AddTask(Some("t"), "now");
      var s1 := Apply(EmptyState(), SetGoal(Some("g"), "now", "goal-1")).state;
      var s2 := Apply(s1, CompleteGoal(Some("done"), false, "now")).state;
      && Apply(s2, task).Next?
      && ValidateSnapshot(s2) == Success(s2)
      && ValidateSnapshot(Apply(s2, task).state).Failure?
  {
    CleanIsUnchanged("g", MAX_GOAL_TEXT);
    CleanIsUnchanged("done", MAX_DETAIL);
    CleanIsUnchanged("t", MAX_TASK_TITLE);
    var s1 := Apply(EmptyState(), SetGoal(Some("g"), "now", "goal-1")).state;
    ApplyExact(EmptyState(), SetGoal(Some("g"), "now", "goal-1"));
    var s2 := Apply(s1, CompleteGoal(Some("done"), false, "now")).state;
    ApplyExact(s1, CompleteGoal(Some("done"), false, "now"));
    ApplyExact(s2, AddTask(Some("t"), "now"));
  }

  /** Staged completion. */

  // Two states that differ only by the reference to the deliverable and the number of the revision.
  predicate SameButReference(direct: State, staged: State, reference: Option<string>) {
    && direct.goal.Some?
    && staged == direct.(revision := direct.revision + 1, goal := Some(direct.goal.value.(evidenceRef := reference)))
  }

  /** Staging a completion and committing it reaches what completing directly reaches. */
  lemma StagedThenCommittedIsDirect(s: State, evidence: Option<string>, now: string, deliverable: Option<string>)
    requires CompleteGoalNext(s, evidence, false, now).Next?
    requires BoundedText(deliverable, MAX_DETAIL).Some?
    ensures CompleteGoalNext(s, evidence, true, now).Next?
    ensures var staged := CompleteGoalNext(s, evidence, true, now).state;
      && staged.goal.value.status.GoalActive? && staged.pendingCompletion.Some?
      && CommitPendingNext(staged, deliverable).Next?
      && SameButReference(CompleteGoalNext(s, evidence, false, now).state,
                          CommitPendingNext(staged, deliverable).state, BoundedText(deliverable, MAX_DETAIL))
  {
  }

  lemma StagedPlanThenCommittedIsDirect(s: State, plan: Plan, now: string, newId: string, deliverable: Option<string>)
    requires ReplacePlanNext(s, plan, false, now, newId).Next?
    requires ReplacePlanNext(s, plan, false, now, newId).state.goal.value.status.GoalCompleted?
    requires BoundedText(deliverable, MAX_DETAIL).Some?
    ensures ReplacePlanNext(s, plan, true, now, newId).Next?
    ensures var staged := ReplacePlanNext(s, plan, true, now, newId).state;
      && staged.goal.value.status.GoalActive? && staged.pendingCompletion.Some?
      && CommitPendingNext(staged, deliverable).Next?
      && SameButReference(ReplacePlanNext(s, plan, false, now, newId).state,
                          CommitPendingNext(staged, deliverable).state, BoundedText(deliverable, MAX_DETAIL))
  {
    hide NormalizePlan, AssignTasks, CountNew;
  }

  /** While a completion is pending the live tasks are its tasks, all completed; any other committed edit
      cancels it or stages a replacement. */
  lemma PendingIsCancelledOrReplaced(s: State, op: Op)
    requires Sound(s) && Apply(s, op).Next?
    ensures s.pendingCompletion.Some? ==>
      s.tasks == s.pendingCompletion.value.tasks && AllTasks(s.tasks, {Completed}) && s.goal.value.status.GoalActive?
    ensures var n := Apply(s, op).state;
      n.pendingCompletion.Some? <==>
        || (op.CompleteGoal? && op.defer)
        || (op.ReplacePlan? && op.defer && op.plan.goalStatus == Some(GoalCompleted))
    ensures var n := Apply(s, op).state;
      n.pendingCompletion.Some? ==> n.pendingCompletion.value.tasks == n.tasks && AllTasks(n.tasks, {Completed})
  {
    if op.ReplacePlan? {
      PlanGoalStatus(op.plan, s);
    }
    hide NormalizePlan, AssignTasks, CountNew, CheckItems, GoodTasks, GoodGoal, BoundedText;
    ApplyKeepsSound(s, op);
  }

  lemma PlanGoalStatus(plan: Plan, s: State)
    ensures NormalizePlan(plan, s).Success? ==>
      NormalizePlan(plan, s).value.goalStatus == if plan.goalStatus.Some? then plan.goalStatus.value else GoalActive
  {
    hide CheckItems, CountInProgress;
  }

  /** Task ids are never used again. */

  ghost predicate HasTask(s: State, id: nat) {
    exists i :: 0 <= i < |s.tasks| && s.tasks[i].id == id
  }

  // Between clears the counter never falls, and a task that was not there before has a number never given out.
  lemma NewTasksHaveNewNumbers(s: State, op: Op, id: nat)
    requires Sound(s) && Apply(s, op).Next? && !op.Clear?
    ensures s.nextTaskNumber <= Apply(s, op).state.nextTaskNumber
    ensures HasTask(Apply(s, op).state, id) && !HasTask(s, id) ==> id >= s.nextTaskNumber
  {
    var n := Apply(s, op).state;
    match op {
      case ReplacePlan(plan, defer, now, newId) =>
        NormalizedPlanIsGood(plan, s);
        CheckItemsExact(plan.tasks, KnownIds(s.tasks), {}, s.nextTaskNumber);
        var items := NormalizePlan(plan, s).value.tasks;
        AssignTasksExact(items, s.tasks, s.nextTaskNumber, now);
        hide NormalizePlan, AssignTasks, CheckItems;
        if i :| 0 <= i < |n.tasks| && n.tasks[i].id == id {
          NumberAtGrows(items, s.nextTaskNumber, 0, i);
          assert GoodItem(items[i], KnownIds(s.tasks));
        }
      case UpdateTask(id', status, detail, now) =>
        var index := FindTask(s.tasks, id').value;
        assert forall i :: 0 <= i < |n.tasks| ==> n.tasks[i].id == s.tasks[i].id;
      case AddTask(title, now) =>
        assert forall i :: 0 <= i < |s.tasks| ==> n.tasks[i] == s.tasks[i];
      case _ =>
    }
  }

  // A number that was given out and whose task is gone does not come back.
  lemma GoneTaskStaysGone(s: State, op: Op, id: nat)
    requires Sound(s) && Apply(s, op).Next? && !op.Clear?
    requires id < s.nextTaskNumber && !HasTask(s, id)
    ensures id < Apply(s, op).state.nextTaskNumber && !HasTask(Apply(s, op).state, id)
  {
    NewTasksHaveNewNumbers(s, op, id);
  }

  // Operations one after another; a refused one changes nothing.
  function ApplyAll(s: State, ops: seq<Op>): State
    decreases |ops|
  {
    if ops == [] then s
    else ApplyAll(if Apply(s, ops[0]).Next? then Apply(s, ops[0]).state else s, ops[1..])
  }

  /** Between clears no task id is ever given to a second task. */
  lemma {:induction false} TaskIdsAreNeverReused(s: State, ops: seq<Op>, id: nat)
    requires Sound(s) && forall k :: 0 <= k < |ops| ==> !ops[k].Clear?
    requires id < s.nextTaskNumber && !HasTask(s, id)
    ensures !HasTask(ApplyAll(s, ops), id)
    decreases |ops|
  {
    hide Apply, Sound, HasTask;
    if ops != [] {
      if Apply(s, ops[0]).Next? {
        ApplyKeepsSound(s, ops[0]);
        GoneTaskStaysGone(s, ops[0], id);
        TaskIdsAreNeverReused(Apply(s, ops[0]).state, ops[1..], id);
      } else {
        TaskIdsAreNeverReused(s, ops[1..], id);
      }
    }
  }
}
