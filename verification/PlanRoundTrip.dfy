/** Printing a plan (src/conversation-work-projection.js) and passing it back. */
module PlanRoundTrip {
  import opened Wrappers
  import opened WorkText
  import opened ConversationPlan
  import opened PlanValidation
  import opened PlanTheorems
  import opened SnapshotAcceptance

  /** What may be printed. */

  predicate ValidText(value: string, maximum: nat) {
    |Trim(value)| > 0 && |value| <= maximum
  }

  predicate ValidTextOption(value: Option<string>, maximum: nat) {
    value.Some? && ValidText(value.value, maximum)
  }

  predicate PrintableTask(task: Task) {
    && ValidTaskId(task.id)
    && ValidText(task.title, MAX_TASK_TITLE)
    && (task.status.Completed? ==> ValidTextOption(task.evidence, MAX_DETAIL))
    && (task.status.Blocked? ==> ValidTextOption(task.blockedReason, MAX_DETAIL))
  }

  predicate PrintableGoal(goal: Goal, tasks: seq<Task>) {
    && ValidText(goal.objective, MAX_GOAL_TEXT)
    && (goal.status.GoalCompleted? ==> ValidTextOption(goal.evidence, MAX_DETAIL) && AllTasks(tasks, {Completed}))
    && (goal.status.GoalBlocked? ==>
          ValidTextOption(goal.blockedReason, MAX_DETAIL) && AllTasks(tasks, {Completed, Blocked}))
  }

  predicate RequireSnapshot(s: State) {
    && s.revision <= MAX_SAFE_INTEGER
    && |s.tasks| <= MAX_TASKS
    && (forall i :: 0 <= i < |s.tasks| ==> PrintableTask(s.tasks[i]))
    && |KnownIds(s.tasks)| == |s.tasks|
    && CountActive(s.tasks) <= 1
    && (s.goal.Some? ==> PrintableGoal(s.goal.value, s.tasks))
  }

  function PrintTask(task: Task): PlanItem {
    PlanItem(Some(task.id), Some(task.title), Some(task.status),
             if task.status.Completed? then task.evidence else if task.status.Blocked? then task.blockedReason else None)
  }

  function PrintTasks(tasks: seq<Task>): (r: seq<PlanItem>)
    ensures |r| == |tasks| && forall i :: 0 <= i < |r| ==> r[i] == PrintTask(tasks[i])
  {
    seq(|tasks|, i requires 0 <= i < |tasks| => PrintTask(tasks[i]))
  }

  function ProjectConversationWork(s: State): Option<Plan> {
    if !RequireSnapshot(s) then None
    else if s.goal.None? then Some(Plan(Some(s.revision), None, None, None, None, PrintTasks(s.tasks)))
    else
      var goal := s.goal.value;
      Some(Plan(Some(s.revision), Some(goal.objective), Some(goal.status),
                if goal.status.GoalCompleted? then goal.evidence else None,
                if goal.status.GoalBlocked? then goal.blockedReason else None, PrintTasks(s.tasks)))
  }

  /** A sound state can be printed exactly when its goal and tasks agree, as long as its revision can be counted. */

  lemma CleanIsValid(value: string, maximum: nat)
    requires Clean(value, maximum)
    ensures ValidText(value, maximum)
  {
    CleanIsUnchanged(value, maximum);
  }

  lemma {:induction false} DistinctIds(tasks: seq<Task>)
    requires forall i, k :: 0 <= i < k < |tasks| ==> tasks[i].id != tasks[k].id
    ensures |KnownIds(tasks)| == |tasks|
  {
    if tasks == [] {
      assert KnownIds(tasks) == {};
    } else {
      var rest, last := tasks[..|tasks| - 1], tasks[|tasks| - 1];
      DistinctIds(rest);
      assert KnownIds(tasks) == KnownIds(rest) + {last.id} by {
        assert forall i :: 0 <= i < |rest| ==> tasks[i] == rest[i];
      }
      assert last.id !in KnownIds(rest);
    }
  }

  lemma GoodTaskIsPrintable(task: Task, nextTaskNumber: nat)
    requires GoodTask(task, nextTaskNumber) && nextTaskNumber <= MAX_TASK_NUMBER + 1
    ensures PrintableTask(task)
  {
    CleanIsValid(task.title, MAX_TASK_TITLE);
    if task.evidence.Some? {
      CleanIsValid(task.evidence.value, MAX_DETAIL);
    }
    if task.blockedReason.Some? {
      CleanIsValid(task.blockedReason.value, MAX_DETAIL);
    }
  }

  lemma PrintableExact(s: State)
    requires Sound(s)
    ensures RequireSnapshot(s) <==> Agrees(s.goal, s.tasks) && s.revision <= MAX_SAFE_INTEGER
  {
    forall i | 0 <= i < |s.tasks|
      ensures PrintableTask(s.tasks[i])
    {
      GoodTaskIsPrintable(s.tasks[i], s.nextTaskNumber);
    }
    DistinctIds(s.tasks);
    AtMostOneActive(s.tasks);
    if s.goal.Some? {
      CleanIsValid(s.goal.value.objective, MAX_GOAL_TEXT);
      if s.goal.value.evidence.Some? {
        CleanIsValid(s.goal.value.evidence.value, MAX_DETAIL);
      }
      if s.goal.value.blockedReason.Some? {
        CleanIsValid(s.goal.value.blockedReason.value, MAX_DETAIL);
      }
    }
    hide PrintableTask, GoodTask, ValidText, Clean, CountActive;
  }

  /** Which states are printed at all, and as what. */

  predicate MayPrintTask(task: Task) {
    && 1 <= task.id <= 999_999 && Fits(Some(task.title), 512)
    && (task.status == Completed ==> Fits(task.evidence, 1024)) && (task.status == Blocked ==> Fits(task.blockedReason, 1024))
  }

  ghost predicate MayPrint(s: State) {
    && s.revision <= 9_007_199_254_740_991 && |s.tasks| <= 64
    && (forall i :: 0 <= i < |s.tasks| ==> MayPrintTask(s.tasks[i]))
    && (forall i, j :: 0 <= i < j < |s.tasks| ==> s.tasks[i].id != s.tasks[j].id)
    && !TwoActive(s.tasks)
    && (s.goal.Some? ==> MayPrintGoal(s.goal.value, s.tasks))
  }

  ghost predicate MayPrintGoal(goal: Goal, tasks: seq<Task>) {
    && Fits(Some(goal.objective), 2048) && TasksAllow(goal.status, tasks)
    && (goal.status == GoalCompleted ==> Fits(goal.evidence, 1024))
    && (goal.status == GoalBlocked ==> Fits(goal.blockedReason, 1024))
  }

  predicate IsPrintOf(task: Task, item: PlanItem) {
    && item.id == Some(task.id) && item.title == Some(task.title) && item.status == Some(task.status)
    && item.detail == match task.status
                      case Completed => task.evidence
                      case Blocked => task.blockedReason
                      case _ => None
  }

  // Printed in the form in which a plan is supplied.
  ghost predicate Prints(s: State, plan: Plan) {
    && plan.revision == Some(s.revision) && |plan.tasks| == |s.tasks|
    && (forall i :: 0 <= i < |s.tasks| ==> IsPrintOf(s.tasks[i], plan.tasks[i]))
    && match s.goal
       case None => plan.objective.None? && plan.goalStatus.None? && plan.goalEvidence.None? && plan.goalBlockedReason.None?
       case Some(goal) =>
         && plan.objective == Some(goal.objective) && plan.goalStatus == Some(goal.status)
         && plan.goalEvidence == (if goal.status == GoalCompleted then goal.evidence else None)
         && plan.goalBlockedReason == if goal.status == GoalBlocked then goal.blockedReason else None
  }

  lemma ValidTextExact(value: Option<string>, maximum: nat)
    ensures ValidTextOption(value, maximum) <==> Fits(value, maximum)
    ensures value.Some? ==> (ValidText(value.value, maximum) <==> Fits(value, maximum))
  {
    if value.Some? {
      TrimIsCore(value.value);
    }
    hide Trim, AllSpace, IsCore;
  }

  lemma TaskPrintExact(task: Task)
    ensures PrintableTask(task) <==> MayPrintTask(task)
  {
    ValidTextExact(Some(task.title), MAX_TASK_TITLE);
    ValidTextExact(task.evidence, MAX_DETAIL);
    ValidTextExact(task.blockedReason, MAX_DETAIL);
    hide ValidText, ValidTextOption, Fits;
  }

  lemma {:induction false} IdsCounted(tasks: seq<Task>)
    ensures |KnownIds(tasks)| <= |tasks|
    ensures |KnownIds(tasks)| == |tasks| <==> forall i, j :: 0 <= i < j < |tasks| ==> tasks[i].id != tasks[j].id
  {
    if tasks == [] {
      assert KnownIds(tasks) == {};
    } else {
      var rest, last := tasks[..|tasks| - 1], tasks[|tasks| - 1];
      IdsCounted(rest);
      assert forall i :: 0 <= i < |rest| ==> tasks[i] == rest[i];
      assert KnownIds(tasks) == KnownIds(rest) + {last.id};
      assert last.id in KnownIds(rest) <==> exists i :: 0 <= i < |rest| && tasks[i].id == last.id;
    }
  }

  lemma GoalPrintExact(goal: Goal, tasks: seq<Task>)
    ensures PrintableGoal(goal, tasks) <==> MayPrintGoal(goal, tasks)
  {
    ValidTextExact(Some(goal.objective), MAX_GOAL_TEXT);
    ValidTextExact(goal.evidence, MAX_DETAIL);
    ValidTextExact(goal.blockedReason, MAX_DETAIL);
    hide ValidText, ValidTextOption, Fits;
  }

  lemma RequiredExact(s: State)
    ensures RequireSnapshot(s) <==> MayPrint(s)
  {
    hide PrintableTask, MayPrintTask, PrintableGoal, MayPrintGoal, CountActive, TwoActive, KnownIds;
    forall i | 0 <= i < |s.tasks|
      ensures PrintableTask(s.tasks[i]) <==> MayPrintTask(s.tasks[i])
    {
      TaskPrintExact(s.tasks[i]);
    }
    IdsCounted(s.tasks);
    ActiveExact(s.tasks);
    if s.goal.Some? {
      GoalPrintExact(s.goal.value, s.tasks);
    }
  }

  /** A state is printed exactly when it may be, and then as itself in the form of a supplied plan. */
  lemma PrintingIsExact(s: State)
    ensures ProjectConversationWork(s).Some? <==> MayPrint(s)
    ensures ProjectConversationWork(s).Some? ==> Prints(s, ProjectConversationWork(s).value)
  {
    hide RequireSnapshot, MayPrint;
    RequiredExact(s);
  }

  /** Reading the printed items back. */

  function PrintedItem(task: Task): Item {
    Item(Some(task.id), task.title, task.status, PrintTask(task).detail)
  }

  function PrintedItems(tasks: seq<Task>): (r: seq<Item>)
    ensures |r| == |tasks| && forall i :: 0 <= i < |r| ==> r[i] == PrintedItem(tasks[i])
  {
    seq(|tasks|, i requires 0 <= i < |tasks| => PrintedItem(tasks[i]))
  }

  lemma CheckPrintedItem(task: Task, known: set<nat>, seen: set<nat>, next: nat)
    requires GoodTask(task, next) && next <= MAX_TASK_NUMBER + 1 && task.id in known && task.id !in seen
    ensures CheckItem(PrintTask(task), known, seen, next) == Success(PrintedItem(task))
  {
    CleanIsUnchanged(task.title, MAX_TASK_TITLE);
    if task.evidence.Some? {
      CleanIsUnchanged(task.evidence.value, MAX_DETAIL);
    }
    if task.blockedReason.Some? {
      CleanIsUnchanged(task.blockedReason.value, MAX_DETAIL);
    }
  }

  lemma {:induction false} CheckPrintedItems(tasks: seq<Task>, known: set<nat>, seen: set<nat>, next: nat)
    requires next <= MAX_TASK_NUMBER + 1
    requires forall i :: 0 <= i < |tasks| ==> GoodTask(tasks[i], next) && tasks[i].id in known && tasks[i].id !in seen
    requires forall i, k :: 0 <= i < k < |tasks| ==> tasks[i].id != tasks[k].id
    ensures CheckItems(PrintTasks(tasks), known, seen, next) == Success(PrintedItems(tasks))
  {
    if tasks == [] {
      assert PrintTasks(tasks) == [] && PrintedItems(tasks) == [];
    } else {
      hide CheckItem, GoodTask, PrintTask, PrintedItem;
      CheckPrintedItem(tasks[0], known, seen, next);
      PrintedHasId(tasks[0]);
      CheckPrintedItems(tasks[1..], known, seen + {tasks[0].id}, next);
      assert PrintTasks(tasks)[1..] == PrintTasks(tasks[1..]);
      assert PrintedItems(tasks) == [PrintedItem(tasks[0])] + PrintedItems(tasks[1..]);
    }
  }

  lemma {:induction false} PrintedCounts(tasks: seq<Task>)
    ensures CountInProgress(PrintedItems(tasks)) == CountActive(tasks)
    ensures CountNew(PrintedItems(tasks)) == 0
  {
    if tasks != [] {
      PrintedCounts(tasks[..|tasks| - 1]);
      assert PrintedItems(tasks)[..|tasks| - 1] == PrintedItems(tasks[..|tasks| - 1]);
    }
    NoneNew(PrintedItems(tasks));
  }

  lemma {:induction false} NoneNew(items: seq<Item>)
    requires forall i :: 0 <= i < |items| ==> items[i].id.Some?
    ensures CountNew(items) == 0
  {
    if items != [] {
      NoneNew(items[1..]);
    }
  }

  function Touched(tasks: seq<Task>, now: string): (r: seq<Task>)
    ensures |r| == |tasks| && forall i :: 0 <= i < |r| ==> r[i] == tasks[i].(updatedAt := now)
  {
    seq(|tasks|, i requires 0 <= i < |tasks| => tasks[i].(updatedAt := now))
  }

  lemma PrintedTaskFor(task: Task, all: seq<Task>, k: nat, next: nat, bound: nat, now: string)
    requires k < |all| && all[k] == task && GoodTask(task, bound)
    requires forall i, m :: 0 <= i < m < |all| ==> all[i].id != all[m].id
    ensures TaskFor(PrintedItem(task), all, next, now) == Success(task.(updatedAt := now))
  {
    assert FindTask(all, task.id) == Some(k);
  }

  lemma {:induction false} AssignPrinted(all: seq<Task>, from: nat, next: nat, bound: nat, now: string)
    requires from <= |all|
    requires forall i :: 0 <= i < |all| ==> GoodTask(all[i], bound)
    requires forall i, m :: 0 <= i < m < |all| ==> all[i].id != all[m].id
    ensures AssignTasks(PrintedItems(all[from..]), all, next, now) == Success(Touched(all[from..], now))
    decreases |all| - from
  {
    hide TaskFor, GoodTask, PrintedItem;
    if from == |all| {
      assert PrintedItems(all[from..]) == [] && Touched(all[from..], now) == [];
    } else {
      var items, touched := PrintedItems(all[from..]), Touched(all[from..], now);
      PrintedTaskFor(all[from], all, from, next, bound, now);
      AssignPrinted(all, from + 1, next, bound, now);
      assert items[0] == PrintedItem(all[from]) && items[0].id.Some? by {
        PrintedHasId(all[from]);
      }
      assert items[1..] == PrintedItems(all[from + 1..]);
      assert touched == [all[from].(updatedAt := now)] + Touched(all[from + 1..], now);
    }
  }

  lemma PrintedHasId(task: Task)
    ensures PrintedItem(task).id.Some? && PrintTask(task).id == Some(task.id)
  {
  }

  /** Printing a plan with a goal and passing it back unchanged, without deferral, leaves everything but the
      revision, the update times and the deliverable reference as it was, and cancels a pending completion. */
  lemma PrintedPlanRoundTrip(s: State, defer: bool, now: string, newId: string)
    requires Good(s) && s.revision <= MAX_SAFE_INTEGER && s.goal.Some? && (defer ==> !s.goal.value.status.GoalCompleted?)
    ensures ProjectConversationWork(s).Some?
    ensures ReplacePlanNext(s, ProjectConversationWork(s).value, defer, now, newId)
      == Next(State(s.revision + 1, s.nextTaskNumber, Some(s.goal.value.(evidenceRef := None, updatedAt := now)),
                    Touched(s.tasks, now), None))
  {
    hide RequireSnapshot, NormalizePlan, AssignTasks, CountNew, CountInProgress, CountActive, GoodTask;
    PrintableExact(s);
    NormalizePrinted(s);
    PrintedCounts(s.tasks);
    PrintedTasksAreKept(s, now);
    hide Good;
  }

  lemma PrintedTasksAreKept(s: State, now: string)
    requires Sound(s)
    ensures AssignTasks(PrintedItems(s.tasks), s.tasks, s.nextTaskNumber, now) == Success(Touched(s.tasks, now))
  {
    hide AssignTasks, GoodTask;
    AssignPrinted(s.tasks, 0, s.nextTaskNumber, s.nextTaskNumber, now);
    assert s.tasks[0..] == s.tasks;
  }

  lemma PrintedItemsAgree(s: State)
    requires Agrees(s.goal, s.tasks) && s.goal.Some?
    ensures s.goal.value.status.GoalCompleted? ==> AllItems(PrintedItems(s.tasks), {Completed})
    ensures s.goal.value.status.GoalBlocked? ==> AllItems(PrintedItems(s.tasks), {Completed, Blocked})
  {
  }

  lemma KeptText(value: Option<string>)
    requires value.Some? && CleanOption(value)
    ensures BoundedText(value, MAX_DETAIL) == value
  {
    CleanIsUnchanged(value.value, MAX_DETAIL);
  }

  lemma PrintedItemsAreChecked(s: State)
    requires Good(s)
    ensures CheckItems(PrintTasks(s.tasks), KnownIds(s.tasks), {}, s.nextTaskNumber) == Success(PrintedItems(s.tasks))
    ensures CountInProgress(PrintedItems(s.tasks)) <= 1
  {
    CheckPrintedItems(s.tasks, KnownIds(s.tasks), {}, s.nextTaskNumber);
    PrintedCounts(s.tasks);
    AtMostOneActive(s.tasks);
    hide CheckItems, CountInProgress, CountActive, CountNew, GoodTask;
  }

  lemma NormalizePrinted(s: State)
    requires Good(s) && s.goal.Some? && RequireSnapshot(s)
    ensures NormalizePlan(ProjectConversationWork(s).value, s)
      == Success(CheckedPlan(s.goal.value.objective, s.goal.value.status, s.goal.value.evidence,
                             s.goal.value.blockedReason, PrintedItems(s.tasks)))
  {
    hide RequireSnapshot, CheckItems, CountInProgress, AllItems, GoodTasks, BoundedText, Clean, PendingMatches;
    PrintedItemsAreChecked(s);
    PrintedItemsAgree(s);
    assert |s.tasks| <= MAX_TASKS by {
      FewTasks(s);
    }
    hide Agrees;
    var goal := s.goal.value;
    CleanIsUnchanged(goal.objective, MAX_GOAL_TEXT);
    if goal.evidence.Some? {
      KeptText(goal.evidence);
    }
    if goal.blockedReason.Some? {
      KeptText(goal.blockedReason);
    }
  }

  lemma FewTasks(s: State)
    requires Sound(s)
    ensures |s.tasks| <= MAX_TASKS
  {
  }

  /** Any id a caller supplies, of a current task or as a provisional label, is the id the task then has. */
  lemma SuppliedIdIsAssignedId(s: State, plan: Plan, defer: bool, now: string, newId: string, k: nat)
    requires ReplacePlanNext(s, plan, defer, now, newId).Next?
    requires k < |plan.tasks| && plan.tasks[k].id.Some?
    ensures var tasks := ReplacePlanNext(s, plan, defer, now, newId).state.tasks;
            |tasks| == |plan.tasks| && tasks[k].id == plan.tasks[k].id.value
  {
    NormalizedPlanIsGood(plan, s);
    var items := NormalizePlan(plan, s).value.tasks;
    CheckItemsExact(plan.tasks, KnownIds(s.tasks), {}, s.nextTaskNumber);
    AssignTasksExact(items, s.tasks, s.nextTaskNumber, now);
    hide NormalizePlan, CheckItems, AssignTasks, CountInProgress, GoodItem;
  }
}
