/** Which calls the plan accepts, what it answers the others, and what an accepted one makes of the plan. */
module PlanAcceptance {
  import opened Wrappers
  import opened WorkText
  import opened ConversationPlan
  import opened PlanTheorems

  // The text as it is kept: what a caller supplied, less the white space around it.
  ghost predicate Keeps(supplied: Option<string>, kept: string) {
    supplied.Some? && IsCore(supplied.value, kept)
  }

  /** The items of a supplied plan, each at its position. */

  ghost predicate IsKnown(s: State, id: nat) {
    exists i :: 0 <= i < |s.tasks| && s.tasks[i].id == id
  }

  // The item does not name a current task.
  ghost predicate IsNew(s: State, item: PlanItem) {
    item.id.None? || !IsKnown(s, item.id.value)
  }

  ghost function NewBefore(s: State, items: seq<PlanItem>, k: nat): nat
    requires k <= |items|
  {
    if k == 0 then 0 else NewBefore(s, items, k - 1) + if IsNew(s, items[k - 1]) then 1 else 0
  }

  // The number that the item's task has or gets.
  ghost function NumberOf(s: State, items: seq<PlanItem>, k: nat): nat
    requires k < |items|
  {
    if IsNew(s, items[k]) then s.nextTaskNumber + NewBefore(s, items, k) else items[k].id.value
  }

  function StatusOf(item: PlanItem): TaskStatus {
    if item.status.Some? then item.status.value else Pending
  }

  predicate NeedsDetail(status: TaskStatus) {
    status == Completed || status == Blocked
  }

  ghost predicate IsRepeated(items: seq<PlanItem>, k: nat)
    requires k < |items|
  {
    exists j :: 0 <= j < k && items[j].id == items[k].id
  }

  // An id is between 1 and 999999, was not supplied before, and is that of a current task or the one the item would get.
  ghost function ItemRefusal(s: State, items: seq<PlanItem>, k: nat): Option<Error>
    requires k < |items|
  {
    var item := items[k];
    if item.id.Some? && !(1 <= item.id.value <= 999_999) then Some(TaskIdInvalid)
    else if item.id.Some? && IsRepeated(items, k) then Some(WorkPlanInvalid)
    else if item.id.Some? && item.id.value != NumberOf(s, items, k) then Some(WorkPlanInvalid)
    else if !Fits(item.title, 512) then Some(TextInvalid)
    else if NeedsDetail(StatusOf(item)) && !Fits(item.detail, 1024) then Some(TextInvalid)
    else None
  }

  // The first item from k on that is refused decides.
  ghost function FirstRefusal(s: State, items: seq<PlanItem>, k: nat): Option<Error>
    requires k <= |items|
    decreases |items| - k
  {
    if k == |items| then None
    else if ItemRefusal(s, items, k).Some? then ItemRefusal(s, items, k)
    else FirstRefusal(s, items, k + 1)
  }

  predicate TwoInProgress(items: seq<PlanItem>) {
    exists j, k :: 0 <= j < k < |items| && StatusOf(items[j]).InProgress? && StatusOf(items[k]).InProgress?
  }

  predicate AllOf(items: seq<PlanItem>, allowed: set<TaskStatus>) {
    forall k :: 0 <= k < |items| ==> StatusOf(items[k]) in allowed
  }

  function GoalStatusOf(plan: Plan): GoalStatus {
    if plan.goalStatus.Some? then plan.goalStatus.value else GoalActive
  }

  // What is wrong with the contents of a plan, if anything.
  ghost function ContentRefusal(s: State, plan: Plan): Option<Error> {
    var status := GoalStatusOf(plan);
    if plan.objective.None? || |plan.tasks| > 64 then Some(WorkPlanInvalid)
    else if !Fits(plan.objective, 2048) then Some(TextInvalid)
    else if status.GoalCompleted? && !Fits(plan.goalEvidence, 1024) then Some(TextInvalid)
    else if status.GoalBlocked? && !Fits(plan.goalBlockedReason, 1024) then Some(TextInvalid)
    else if FirstRefusal(s, plan.tasks, 0).Some? then FirstRefusal(s, plan.tasks, 0)
    else if TwoInProgress(plan.tasks) then Some(TaskActiveConflict)
    else if status.GoalCompleted? && !AllOf(plan.tasks, {Completed}) then Some(GoalTasksUnfinished)
    else if status.GoalBlocked? && !AllOf(plan.tasks, {Completed, Blocked}) then Some(GoalTasksActionable)
    else None
  }

  // What a supplied plan is refused for, if it is: numbers go up to 999999.
  ghost function PlanRefusal(s: State, plan: Plan): Option<Error> {
    if plan.revision.Some? && plan.revision.value != s.revision then Some(RevisionConflict)
    else if ContentRefusal(s, plan).Some? then ContentRefusal(s, plan)
    else if s.nextTaskNumber + NewBefore(s, plan.tasks, |plan.tasks|) > 1_000_000 then Some(TaskCapacity)
    else None
  }

  /** What an accepted plan leaves. */

  ghost predicate IsTaskFor(s: State, items: seq<PlanItem>, k: nat, task: Task, now: string)
    requires k < |items|
  {
    var item, status := items[k], StatusOf(items[k]);
    && task.id == NumberOf(s, items, k) && task.status == status && Keeps(item.title, task.title)
    && (if status.Completed? then task.evidence.Some? && Keeps(item.detail, task.evidence.value) else task.evidence.None?)
    && (if status.Blocked? then task.blockedReason.Some? && Keeps(item.detail, task.blockedReason.value)
        else task.blockedReason.None?)
    && (if IsNew(s, item) then task.createdAt == now
        else exists i :: 0 <= i < |s.tasks| && s.tasks[i].id == task.id && s.tasks[i].createdAt == task.createdAt)
    && task.updatedAt == now
  }

  ghost predicate IsGoalFor(s: State, plan: Plan, goal: Goal, now: string, newId: string) {
    var status := GoalStatusOf(plan);
    && goal.status == status && Keeps(plan.objective, goal.objective)
    && (if status.GoalCompleted? then goal.evidence.Some? && Keeps(plan.goalEvidence, goal.evidence.value)
        else goal.evidence.None?)
    && (if status.GoalBlocked? then goal.blockedReason.Some? && Keeps(plan.goalBlockedReason, goal.blockedReason.value)
        else goal.blockedReason.None?)
    && goal.evidenceRef.None? && goal.updatedAt == now
    && goal.id == (if s.goal.Some? then s.goal.value.id else newId)
    && goal.createdAt == if s.goal.Some? then s.goal.value.createdAt else now
  }

  // A completed plan that is deferred stands as it would, but for its goal, which is active until the completion is committed.
  ghost predicate Replaces(s: State, plan: Plan, defer: bool, now: string, newId: string, n: State) {
    && n.revision == s.revision + 1
    && n.nextTaskNumber == s.nextTaskNumber + NewBefore(s, plan.tasks, |plan.tasks|)
    && |n.tasks| == |plan.tasks|
    && (forall k :: 0 <= k < |n.tasks| ==> IsTaskFor(s, plan.tasks, k, n.tasks[k], now))
    && n.goal.Some?
    && if GoalStatusOf(plan).GoalCompleted? && defer then
         && n.pendingCompletion.Some?
         && var p := n.pendingCompletion.value;
            IsGoalFor(s, plan, p.goal, now, newId) && p.tasks == n.tasks && p.nextTaskNumber == n.nextTaskNumber
            && p.requestedAt == now && n.goal.value == p.goal.(status := GoalActive, evidence := None)
       else n.pendingCompletion.None? && IsGoalFor(s, plan, n.goal.value, now, newId)
  }

  /** Checking the items. */

  ghost function SuppliedIds(items: seq<PlanItem>, k: nat): set<nat>
    requires k <= |items|
  {
    set j | 0 <= j < k && items[j].id.Some? :: items[j].id.value
  }

  lemma KnownIsKnown(s: State, id: nat)
    ensures id in KnownIds(s.tasks) <==> IsKnown(s, id)
  {
  }

  // What the check makes of an item that it does not refuse.
  ghost predicate IsItemFor(s: State, item: PlanItem, checked: Item) {
    && checked.id == (if IsNew(s, item) then None else item.id)
    && checked.status == StatusOf(item) && Keeps(item.title, checked.title)
    && (if NeedsDetail(StatusOf(item)) then checked.detail.Some? && Keeps(item.detail, checked.detail.value)
        else checked.detail.None?)
  }

  lemma CheckItemExact(s: State, items: seq<PlanItem>, k: nat)
    requires k < |items|
    ensures var checked := CheckItem(items[k], KnownIds(s.tasks), SuppliedIds(items, k),
                                     s.nextTaskNumber + NewBefore(s, items, k));
      match ItemRefusal(s, items, k)
      case Some(e) => checked == Failure(e)
      case None => checked.Success? && IsItemFor(s, items[k], checked.value)
  {
    hide BoundedText, Fits, IsCore, KnownIds, IsKnown, NewBefore, SuppliedIds, IsRepeated;
    var item := items[k];
    BoundedTextExact(item.title, MAX_TASK_TITLE);
    BoundedTextExact(item.detail, MAX_DETAIL);
    if item.id.Some? {
      KnownIsKnown(s, item.id.value);
      RepeatedIsSeen(items, k);
    }
  }

  lemma RepeatedIsSeen(items: seq<PlanItem>, k: nat)
    requires k < |items| && items[k].id.Some?
    ensures items[k].id.value in SuppliedIds(items, k) <==> IsRepeated(items, k)
  {
  }

  lemma SuppliedStep(items: seq<PlanItem>, k: nat)
    requires k < |items|
    ensures SuppliedIds(items, k + 1) == Seen(SuppliedIds(items, k), items[k])
  {
  }

  lemma {:induction false} CheckItemsExactly(s: State, items: seq<PlanItem>, k: nat)
    requires k <= |items|
    ensures var checked := CheckItems(items[k..], KnownIds(s.tasks), SuppliedIds(items, k),
                                      s.nextTaskNumber + NewBefore(s, items, k));
      match FirstRefusal(s, items, k)
      case Some(e) => checked == Failure(e)
      case None =>
        && checked.Success? && |checked.value| == |items| - k
        && forall i :: 0 <= i < |items| - k ==> IsItemFor(s, items[k + i], checked.value[i])
    decreases |items| - k
  {
    if k < |items| {
      hide ItemRefusal, CheckItem, KnownIds, SuppliedIds, Keeps, IsKnown, IsItemFor;
      CheckItemExact(s, items, k);
      SuppliedStep(items, k);
      CheckItemsExactly(s, items, k + 1);
      assert items[k..][0] == items[k] && items[k..][1..] == items[k + 1..];
    }
  }

  /** Counting. */

  lemma {:induction false} CountInProgressExact(items: seq<Item>)
    ensures CountInProgress(items) > 1
      <==> exists j, k :: 0 <= j < k < |items| && items[j].status.InProgress? && items[k].status.InProgress?
    ensures CountInProgress(items) > 0 <==> exists j :: 0 <= j < |items| && items[j].status.InProgress?
  {
    if items != [] {
      CountInProgressExact(items[..|items| - 1]);
    }
  }

  ghost predicate ItemsFor(s: State, plan: Plan, checked: seq<Item>) {
    |checked| == |plan.tasks| && forall k :: 0 <= k < |checked| ==> IsItemFor(s, plan.tasks[k], checked[k])
  }

  lemma StatusesAgree(s: State, plan: Plan, checked: seq<Item>)
    requires ItemsFor(s, plan, checked)
    ensures CountInProgress(checked) > 1 <==> TwoInProgress(plan.tasks)
    ensures forall allowed :: AllItems(checked, allowed) <==> AllOf(plan.tasks, allowed)
  {
    CountInProgressExact(checked);
    hide Keeps, IsNew, CountInProgress;
    assert forall k :: 0 <= k < |checked| ==> checked[k].status == StatusOf(plan.tasks[k]);
  }

  lemma {:induction false} NumbersAgree(s: State, plan: Plan, checked: seq<Item>, k: nat)
    requires ItemsFor(s, plan, checked) && k <= |checked|
    ensures NumberAt(checked, s.nextTaskNumber, k) == s.nextTaskNumber + NewBefore(s, plan.tasks, k)
  {
    if k > 0 {
      NumbersAgree(s, plan, checked, k - 1);
      assert IsItemFor(s, plan.tasks[k - 1], checked[k - 1]);
      hide Keeps, IsKnown, IsItemFor;
      NewIsNone(s, plan.tasks[k - 1], checked[k - 1]);
    }
  }

  lemma NewIsNone(s: State, item: PlanItem, checked: Item)
    requires IsItemFor(s, item, checked)
    ensures checked.id.None? <==> IsNew(s, item)
  {
  }

  /** The whole plan. */

  ghost predicate IsCheckedFor(s: State, plan: Plan, checked: CheckedPlan) {
    && ItemsFor(s, plan, checked.tasks)
    && checked.goalStatus == GoalStatusOf(plan) && Keeps(plan.objective, checked.objective)
    && (if GoalStatusOf(plan).GoalCompleted? then
          checked.goalEvidence.Some? && Keeps(plan.goalEvidence, checked.goalEvidence.value)
        else checked.goalEvidence.None?)
    && (if GoalStatusOf(plan).GoalBlocked? then
          checked.goalBlockedReason.Some? && Keeps(plan.goalBlockedReason, checked.goalBlockedReason.value)
        else checked.goalBlockedReason.None?)
  }

  lemma ItemsChecked(s: State, plan: Plan)
    ensures var checked := CheckItems(plan.tasks, KnownIds(s.tasks), {}, s.nextTaskNumber);
      match FirstRefusal(s, plan.tasks, 0)
      case Some(e) => checked == Failure(e)
      case None => checked.Success? && ItemsFor(s, plan, checked.value)
  {
    CheckItemsExactly(s, plan.tasks, 0);
    assert plan.tasks[0..] == plan.tasks && SuppliedIds(plan.tasks, 0) == {};
    hide CheckItems, FirstRefusal, IsItemFor;
  }

  lemma NormalizeExact(s: State, plan: Plan)
    ensures match ContentRefusal(s, plan)
      case Some(e) => NormalizePlan(plan, s) == Failure(e)
      case None => NormalizePlan(plan, s).Success? && IsCheckedFor(s, plan, NormalizePlan(plan, s).value)
  {
    hide CheckItems, FirstRefusal, ItemsFor, BoundedText, Fits, IsCore, TwoInProgress, AllOf, AllItems, CountInProgress, KnownIds;
    ItemsChecked(s, plan);
    BoundedTextExact(plan.objective, MAX_GOAL_TEXT);
    BoundedTextExact(plan.goalEvidence, MAX_DETAIL);
    BoundedTextExact(plan.goalBlockedReason, MAX_DETAIL);
    var checked := CheckItems(plan.tasks, KnownIds(s.tasks), {}, s.nextTaskNumber);
    if checked.Success? && FirstRefusal(s, plan.tasks, 0).None? {
      StatusesAgree(s, plan, checked.value);
    }
  }

  // The times of a numbered task.
  lemma {:induction false} AssignedTimes(items: seq<Item>, tasks: seq<Task>, next: nat, now: string)
    requires AssignTasks(items, tasks, next, now).Success?
    ensures var numbered := AssignTasks(items, tasks, next, now).value;
      && |numbered| == |items|
      && forall k :: 0 <= k < |items| ==>
           && numbered[k].updatedAt == now
           && (if items[k].id.None? then numbered[k].createdAt == now
               else exists i :: 0 <= i < |tasks| && tasks[i].id == items[k].id.value && tasks[i].createdAt == numbered[k].createdAt)
  {
    if items != [] {
      var next' := if items[0].id.None? then next + 1 else next;
      AssignedTimes(items[1..], tasks, next', now);
      var rest := AssignTasks(items[1..], tasks, next', now).value;
      var numbered := AssignTasks(items, tasks, next, now).value;
      assert numbered == [TaskFor(items[0], tasks, next, now).value] + rest;
      hide AssignTasks;
      forall k | 0 < k < |items|
        ensures numbered[k] == rest[k - 1] && items[k] == items[1..][k - 1]
      {
      }
    }
  }

  lemma TaskIsFor(s: State, plan: Plan, checked: CheckedPlan, now: string, k: nat)
    requires IsCheckedFor(s, plan, checked) && GoodItems(s, checked.tasks) && k < |checked.tasks|
    ensures AssignTasks(checked.tasks, s.tasks, s.nextTaskNumber, now).Success?
    ensures var tasks := AssignTasks(checked.tasks, s.tasks, s.nextTaskNumber, now).value;
      |tasks| == |plan.tasks| && IsTaskFor(s, plan.tasks, k, tasks[k], now)
  {
    AssignTasksExact(checked.tasks, s.tasks, s.nextTaskNumber, now);
    AssignedTimes(checked.tasks, s.tasks, s.nextTaskNumber, now);
    NumbersAgree(s, plan, checked.tasks, k);
    NewIsNone(s, plan.tasks[k], checked.tasks[k]);
    hide AssignTasks, NumberAt, NewBefore, IsNew, GoodItem, CountInProgress, Keeps;
  }

  /** A plan is refused for exactly what was said, and otherwise replaces the plan as was said. */
  lemma ReplacePlanExact(s: State, plan: Plan, defer: bool, now: string, newId: string)
    ensures match PlanRefusal(s, plan)
      case Some(e) => ReplacePlanNext(s, plan, defer, now, newId) == Refused(e)
      case None =>
        && ReplacePlanNext(s, plan, defer, now, newId).Next?
        && Replaces(s, plan, defer, now, newId, ReplacePlanNext(s, plan, defer, now, newId).state)
  {
    NormalizeExact(s, plan);
    if ContentRefusal(s, plan).None? {
      NormalizedPlanIsGood(plan, s);
      OutcomeExact(s, plan, NormalizePlan(plan, s).value, defer, now, newId);
    }
    hide ContentRefusal, NormalizePlan, PlanOutcome, Replaces, IsCheckedFor, GoodPlan, NewBefore;
  }

  lemma OutcomeExact(s: State, plan: Plan, checked: CheckedPlan, defer: bool, now: string, newId: string)
    requires IsCheckedFor(s, plan, checked) && GoodItems(s, checked.tasks)
    ensures var o := PlanOutcome(s, checked, defer, now, newId);
      if s.nextTaskNumber + NewBefore(s, plan.tasks, |plan.tasks|) > 1_000_000 then o == Refused(TaskCapacity)
      else o.Next? && Replaces(s, plan, defer, now, newId, o.state)
  {
    hide IsCheckedFor, GoodItems, AssignTasks, NewBefore, CountNew, IsTaskFor, IsGoalFor, PlannedGoal, PlanOutcome;
    AssignedFor(s, plan, checked, now);
    var tasks := AssignTasks(checked.tasks, s.tasks, s.nextTaskNumber, now).value;
    GoalIsFor(s, plan, checked, now, newId);
    OutcomeUnfolds(s, checked, tasks, defer, now, newId);
  }

  lemma AssignedFor(s: State, plan: Plan, checked: CheckedPlan, now: string)
    requires IsCheckedFor(s, plan, checked) && GoodItems(s, checked.tasks)
    ensures CountNew(checked.tasks) == NewBefore(s, plan.tasks, |plan.tasks|)
    ensures AssignTasks(checked.tasks, s.tasks, s.nextTaskNumber, now).Success?
    ensures var tasks := AssignTasks(checked.tasks, s.tasks, s.nextTaskNumber, now).value;
      |tasks| == |plan.tasks| && forall k :: 0 <= k < |tasks| ==> IsTaskFor(s, plan.tasks, k, tasks[k], now)
  {
    NumberAtEnd(checked.tasks, s.nextTaskNumber);
    NumbersAgree(s, plan, checked.tasks, |checked.tasks|);
    AssignTasksExact(checked.tasks, s.tasks, s.nextTaskNumber, now);
    hide AssignTasks, NumberAt, NewBefore, GoodItem, CountInProgress, CountNew, IsTaskFor, IsItemFor, Keeps;
    var tasks := AssignTasks(checked.tasks, s.tasks, s.nextTaskNumber, now).value;
    forall k | 0 <= k < |tasks|
      ensures IsTaskFor(s, plan.tasks, k, tasks[k], now)
    {
      TaskIsFor(s, plan, checked, now, k);
    }
  }

  lemma OutcomeUnfolds(s: State, checked: CheckedPlan, tasks: seq<Task>, defer: bool, now: string, newId: string)
    requires AssignTasks(checked.tasks, s.tasks, s.nextTaskNumber, now) == Success(tasks)
    ensures var o, next := PlanOutcome(s, checked, defer, now, newId), CountNew(checked.tasks) + s.nextTaskNumber;
      var goal := PlannedGoal(s, checked, now, newId);
      if next > 1_000_000 then o == Refused(TaskCapacity)
      else if checked.goalStatus.GoalCompleted? && defer then
        o == Next(State(s.revision + 1, next, Some(goal.(status := GoalActive, evidence := None, evidenceRef := None)), tasks,
                        Some(PendingCompletion(goal, tasks, next, now))))
      else o == Next(State(s.revision + 1, next, Some(goal), tasks, None))
  {
  }

  lemma GoalIsFor(s: State, plan: Plan, checked: CheckedPlan, now: string, newId: string)
    requires IsCheckedFor(s, plan, checked)
    ensures IsGoalFor(s, plan, PlannedGoal(s, checked, now, newId), now, newId)
    ensures PlannedGoal(s, checked, now, newId).status == GoalStatusOf(plan) == checked.goalStatus
    ensures PlannedGoal(s, checked, now, newId).evidenceRef.None?
  {
    hide Keeps, ItemsFor;
  }

  lemma {:induction false} AllNew(s: State, items: seq<PlanItem>, k: nat)
    requires k <= |items| && forall j :: 0 <= j < |items| ==> items[j].id.None?
    ensures NewBefore(s, items, k) == k
  {
    if k > 0 {
      AllNew(s, items, k - 1);
    }
  }

  lemma {:induction false} NoneRefused(s: State, items: seq<PlanItem>, k: nat)
    requires k <= |items| && forall j :: 0 <= j < |items| ==> ItemRefusal(s, items, j).None?
    ensures FirstRefusal(s, items, k).None?
    decreases |items| - k
  {
    if k < |items| {
      NoneRefused(s, items, k + 1);
    }
  }

  /** The first plan of a conversation, whose items have no ids, is accepted and numbered from the counter on. */
  lemma PlanWithoutIdsIsAccepted(s: State, plan: Plan, defer: bool, now: string, newId: string)
    requires plan.revision.None? && Fits(plan.objective, 2048) && GoalStatusOf(plan).GoalActive? && |plan.tasks| <= 64
    requires s.nextTaskNumber + |plan.tasks| <= 1_000_000 && !TwoInProgress(plan.tasks)
    requires forall k :: 0 <= k < |plan.tasks| ==>
      var item := plan.tasks[k];
      item.id.None? && Fits(item.title, 512) && (NeedsDetail(StatusOf(item)) ==> Fits(item.detail, 1024))
    ensures ReplacePlanNext(s, plan, defer, now, newId).Next?
    ensures var n := ReplacePlanNext(s, plan, defer, now, newId).state;
      |n.tasks| == |plan.tasks| && forall k :: 0 <= k < |n.tasks| ==>
        n.tasks[k].id == s.nextTaskNumber + k && Keeps(plan.tasks[k].title, n.tasks[k].title)
  {
    assert plan.objective.Some?;
    hide Fits, TwoInProgress, IsCore, ReplacePlanNext;
    NoneRefused(s, plan.tasks, 0);
    AllNew(s, plan.tasks, |plan.tasks|);
    hide FirstRefusal, ItemRefusal, NewBefore;
    ReplacePlanExact(s, plan, defer, now, newId);
    forall k | 0 <= k < |plan.tasks|
      ensures NumberOf(s, plan.tasks, k) == s.nextTaskNumber + k
    {
      AllNew(s, plan.tasks, k);
    }
    hide NumberOf;
    assert PlanRefusal(s, plan).None?;
    var n := ReplacePlanNext(s, plan, defer, now, newId).state;
    forall k | 0 <= k < |n.tasks|
      ensures n.tasks[k].id == s.nextTaskNumber + k && Keeps(plan.tasks[k].title, n.tasks[k].title)
    {
      assert IsTaskFor(s, plan.tasks, k, n.tasks[k], now);
    }
  }

  /** The other operations. */

  predicate HasTaskWith(tasks: seq<Task>, allowed: set<TaskStatus>) {
    exists i :: 0 <= i < |tasks| && tasks[i].status in allowed
  }

  // The first task with the id.
  ghost predicate IsFirst(tasks: seq<Task>, id: nat, i: int) {
    0 <= i < |tasks| && tasks[i].id == id && forall j :: 0 <= j < i ==> tasks[j].id != id
  }

  ghost predicate AnotherInProgress(tasks: seq<Task>, id: nat) {
    exists i, j :: IsFirst(tasks, id, i) && 0 <= j < |tasks| && j != i && tasks[j].status.InProgress?
  }

  // What an operation is refused for, if it is.
  ghost function OpRefusal(s: State, op: Op): Option<Error> {
    match op
    case SetGoal(objective, _, _) => if Fits(objective, 2048) then None else Some(TextInvalid)
    case CompleteGoal(evidence, _, _) =>
      if s.goal.None? then Some(GoalMissing)
      else if s.goal.value.status == GoalCompleted then Some(GoalAlreadyCompleted)
      else if HasTaskWith(s.tasks, {Pending, InProgress, Blocked}) then Some(GoalTasksUnfinished)
      else if !Fits(evidence, 1024) then Some(TextInvalid)
      else None
    case ReopenGoal(_) =>
      if s.goal.None? then Some(GoalMissing)
      else if s.goal.value.status == GoalActive then Some(GoalNotTerminal)
      else None
    case BlockGoal(reason, _) =>
      if s.goal.None? then Some(GoalMissing)
      else if s.goal.value.status == GoalCompleted then Some(GoalAlreadyCompleted)
      else if s.goal.value.status == GoalBlocked then Some(GoalAlreadyBlocked)
      else if HasTaskWith(s.tasks, {Pending, InProgress}) then Some(GoalTasksActionable)
      else if !Fits(reason, 1024) then Some(TextInvalid)
      else None
    case Clear => None
    case ReplacePlan(plan, _, _, _) => PlanRefusal(s, plan)
    case CommitPending(deliverable) =>
      if s.pendingCompletion.Some? && !Fits(deliverable, 1024) then Some(TextInvalid) else None
    case AddTask(title, _) =>
      if |s.tasks| >= 64 then Some(TaskCapacity)
      else if !Fits(title, 512) then Some(TextInvalid)
      else if s.nextTaskNumber > 999_999 then Some(TaskCapacity)
      else None
    case UpdateTask(id, status, detail, _) =>
      if !(1 <= id <= 999_999) then Some(TaskIdInvalid)
      else if !IsKnown(s, id) then Some(TaskMissing)
      else if status == InProgress && AnotherInProgress(s.tasks, id) then Some(TaskActiveConflict)
      else if NeedsDetail(status) && !Fits(detail, 1024) then Some(TextInvalid)
      else None
  }

  // A goal that a text ends: completed with evidence, or blocked for a reason.
  ghost predicate Ends(before: Goal, after: Goal, status: GoalStatus, text: Option<string>, now: string) {
    && after == before.(status := status, evidence := after.evidence, evidenceRef := None,
                        blockedReason := after.blockedReason, updatedAt := now)
    && (if status.GoalCompleted? then after.evidence.Some? && Keeps(text, after.evidence.value) else after.evidence.None?)
    && (if status.GoalBlocked? then after.blockedReason.Some? && Keeps(text, after.blockedReason.value)
        else after.blockedReason.None?)
  }

  // What an operation that is not refused makes of the plan.
  ghost predicate Becomes(s: State, op: Op, n: State) {
    && n.revision == s.revision + 1
    && match op
       case SetGoal(objective, now, newId) =>
         && n == s.(revision := n.revision, goal := n.goal, pendingCompletion := None) && n.goal.Some?
         && IsGoalFor(s, Plan(None, objective, None, None, None, []), n.goal.value, now, newId)
       case CompleteGoal(evidence, defer, now) =>
         if defer then
           && n == s.(revision := n.revision, goal := n.goal, pendingCompletion := n.pendingCompletion)
           && s.goal.Some? && n.goal.Some? && n.pendingCompletion.Some?
           && var p := n.pendingCompletion.value;
              Ends(s.goal.value, p.goal, GoalCompleted, evidence, now) && p.tasks == s.tasks
              && p.nextTaskNumber == s.nextTaskNumber && p.requestedAt == now
              && n.goal.value == p.goal.(status := GoalActive, evidence := None)
         else
           && n == s.(revision := n.revision, goal := n.goal, pendingCompletion := None)
           && s.goal.Some? && n.goal.Some? && Ends(s.goal.value, n.goal.value, GoalCompleted, evidence, now)
       case ReopenGoal(now) =>
         && n == s.(revision := n.revision, goal := n.goal, pendingCompletion := None)
         && s.goal.Some? && n.goal.Some? && Ends(s.goal.value, n.goal.value, GoalActive, None, now)
       case BlockGoal(reason, now) =>
         && n == s.(revision := n.revision, goal := n.goal, pendingCompletion := None)
         && s.goal.Some? && n.goal.Some? && Ends(s.goal.value, n.goal.value, GoalBlocked, reason, now)
       case Clear => n.goal.None? && n.tasks == [] && n.nextTaskNumber == 1 && n.pendingCompletion.None?
       case ReplacePlan(plan, defer, now, newId) => Replaces(s, plan, defer, now, newId, n)
       case CommitPending(deliverable) =>
         && s.pendingCompletion.Some? && n.pendingCompletion.None? && n.goal.Some?
         && var p := s.pendingCompletion.value;
            n.tasks == p.tasks && n.nextTaskNumber == p.nextTaskNumber
            && n.goal.value == p.goal.(evidenceRef := n.goal.value.evidenceRef)
            && n.goal.value.evidenceRef.Some? && Keeps(deliverable, n.goal.value.evidenceRef.value)
       case AddTask(title, now) =>
         && n == s.(revision := n.revision, tasks := n.tasks, nextTaskNumber := s.nextTaskNumber + 1, pendingCompletion := None)
         && |n.tasks| == |s.tasks| + 1 && n.tasks[..|s.tasks|] == s.tasks
         && var t := n.tasks[|s.tasks|];
            Keeps(title, t.title) && t == Task(s.nextTaskNumber, t.title, Pending, None, None, now, now)
       case UpdateTask(id, status, detail, now) =>
         && n == s.(revision := n.revision, tasks := n.tasks, pendingCompletion := None)
         && exists i :: IsFirst(s.tasks, id, i) && IsUpdate(s.tasks, n.tasks, i, status, detail, now)
  }

  ghost predicate IsUpdate(before: seq<Task>, after: seq<Task>, i: int, status: TaskStatus, detail: Option<string>,
                           now: string)
    requires 0 <= i < |before|
  {
    && |after| == |before| && (forall j :: 0 <= j < |before| && j != i ==> after[j] == before[j])
    && after[i] == before[i].(status := status, evidence := after[i].evidence, blockedReason := after[i].blockedReason,
                              updatedAt := now)
    && (if status.Completed? then after[i].evidence.Some? && Keeps(detail, after[i].evidence.value)
        else after[i].evidence.None?)
    && (if status.Blocked? then after[i].blockedReason.Some? && Keeps(detail, after[i].blockedReason.value)
        else after[i].blockedReason.None?)
  }

  /** Every operation is refused for exactly what was said, and otherwise does what was said. */
  lemma EveryOpIsExact(s: State, op: Op)
    ensures match OpRefusal(s, op)
      case Some(e) => Apply(s, op) == Refused(e)
      case None =>
        if op.CommitPending? && s.pendingCompletion.None? then Apply(s, op) == Unchanged
        else Apply(s, op).Next? && Becomes(s, op, Apply(s, op).state)
  {
    hide Fits, BoundedText, IsCore, HasTaskWith, AllTasks, ReplacePlanNext, PlanRefusal, Replaces, UpdateTaskNext;
    match op {
      case SetGoal(objective, now, newId) => BoundedTextExact(objective, MAX_GOAL_TEXT);
      case CompleteGoal(evidence, defer, now) =>
        BoundedTextExact(evidence, MAX_DETAIL);
        WithoutOthers(s.tasks);
      case ReopenGoal(now) =>
      case BlockGoal(reason, now) =>
        BoundedTextExact(reason, MAX_DETAIL);
        WithoutOthers(s.tasks);
      case Clear =>
      case ReplacePlan(plan, defer, now, newId) => ReplacePlanStepsOne(s, plan, defer, now, newId);
      case CommitPending(deliverable) => BoundedTextExact(deliverable, MAX_DETAIL);
      case AddTask(title, now) => BoundedTextExact(title, MAX_TASK_TITLE);
      case UpdateTask(id, status, detail, now) => UpdateIsExact(s, id, status, detail, now);
    }
  }

  lemma ReplacePlanStepsOne(s: State, plan: Plan, defer: bool, now: string, newId: string)
    ensures match PlanRefusal(s, plan)
      case Some(e) => ReplacePlanNext(s, plan, defer, now, newId) == Refused(e)
      case None =>
        && ReplacePlanNext(s, plan, defer, now, newId).Next?
        && Replaces(s, plan, defer, now, newId, ReplacePlanNext(s, plan, defer, now, newId).state)
        && ReplacePlanNext(s, plan, defer, now, newId).state.revision == s.revision + 1
  {
    hide PlanRefusal, ReplacePlanNext, IsTaskFor, IsGoalFor, NewBefore;
    ReplacePlanExact(s, plan, defer, now, newId);
  }

  lemma WithoutOthers(tasks: seq<Task>)
    ensures AllTasks(tasks, {Completed}) <==> !HasTaskWith(tasks, {Pending, InProgress, Blocked})
    ensures AllTasks(tasks, {Completed, Blocked}) <==> !HasTaskWith(tasks, {Pending, InProgress})
  {
    forall i | 0 <= i < |tasks|
      ensures tasks[i].status in {Completed} <==> !(tasks[i].status in {Pending, InProgress, Blocked})
      ensures tasks[i].status in {Completed, Blocked} <==> !(tasks[i].status in {Pending, InProgress})
    {
      match tasks[i].status {
        case Pending =>
        case InProgress =>
        case Completed =>
        case Blocked =>
      }
    }
  }

  lemma {:induction false} FindsFirst(tasks: seq<Task>, id: nat)
    ensures FindTask(tasks, id).Some? ==> IsFirst(tasks, id, FindTask(tasks, id).value)
  {
    if tasks != [] && tasks[0].id != id {
      FindsFirst(tasks[1..], id);
      if FindTask(tasks, id).Some? {
        var i := FindTask(tasks, id).value;
        assert forall j :: 0 < j < i ==> tasks[j] == tasks[1..][j - 1];
      }
    }
  }

  lemma UpdateIsExact(s: State, id: nat, status: TaskStatus, detail: Option<string>, now: string)
    ensures var op := UpdateTask(id, status, detail, now);
      match OpRefusal(s, op)
      case Some(e) => Apply(s, op) == Refused(e)
      case None => Apply(s, op).Next? && Becomes(s, op, Apply(s, op).state)
  {
    hide Fits, BoundedText, IsCore;
    BoundedTextExact(detail, MAX_DETAIL);
    FindsFirst(s.tasks, id);
    var index := FindTask(s.tasks, id);
    hide FindTask;
    if index.Some? {
      assert IsFirst(s.tasks, id, index.value);
      assert s.tasks[index.value].id == id;
    }
  }
}
