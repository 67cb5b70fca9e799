/** Which snapshots are read back, whatever they hold, and as what (src/conversation-work.js:289-360). */
module SnapshotAcceptance {
  import opened Wrappers
  import opened WorkText
  import opened ConversationPlan
  import opened PlanValidation

  /** What a snapshot has to be. */

  // A text that may be missing: what is there fits, and it is there where it has to be.
  predicate DetailFits(value: Option<string>, required: bool) {
    if value.None? then !required else Fits(value, 1024)
  }

  predicate TaskFits(task: Task, next: nat) {
    && 1 <= task.id <= 999_999 && task.id < next && Fits(Some(task.title), 512)
    && DetailFits(task.evidence, task.status == Completed) && DetailFits(task.blockedReason, task.status == Blocked)
  }

  predicate GoalFits(goal: Goal) {
    && Fits(Some(goal.objective), 2048)
    && DetailFits(goal.evidence, goal.status == GoalCompleted) && DetailFits(goal.blockedReason, goal.status == GoalBlocked)
    && DetailFits(goal.evidenceRef, false)
  }

  ghost predicate TasksFit(tasks: seq<Task>, next: nat) {
    && (forall i :: 0 <= i < |tasks| ==> TaskFits(tasks[i], next))
    && (forall i, j :: 0 <= i < j < |tasks| ==> tasks[i].id != tasks[j].id)
  }

  ghost predicate TwoActive(tasks: seq<Task>) {
    exists i, j :: 0 <= i < j < |tasks| && tasks[i].status == InProgress && tasks[j].status == InProgress
  }

  predicate TasksAllow(status: GoalStatus, tasks: seq<Task>) {
    && (status == GoalCompleted ==> forall i :: 0 <= i < |tasks| ==> tasks[i].status == Completed)
    && (status == GoalBlocked ==>
          forall i :: 0 <= i < |tasks| ==> tasks[i].status == Completed || tasks[i].status == Blocked)
  }

  // Ids are used once, one task at most is in progress, and a goal that has ended has no task left to do.
  ghost predicate PartFits(goal: Option<Goal>, tasks: seq<Task>, next: nat) {
    && 1 <= next <= 1_000_000 && |tasks| <= 64 && TasksFit(tasks, next) && !TwoActive(tasks)
    && (goal.Some? ==> GoalFits(goal.value) && TasksAllow(goal.value.status, tasks))
  }

  ghost predicate SnapshotFits(s: State) {
    && s.revision <= 9_007_199_254_740_991
    && PartFits(s.goal, s.tasks, s.nextTaskNumber)
    && (s.pendingCompletion.Some? ==>
          var p := s.pendingCompletion.value;
          p.goal.status == GoalCompleted && PartFits(Some(p.goal), p.tasks, p.nextTaskNumber))
  }

  /** What it is read as: itself, with the white space around its texts gone. */

  ghost predicate SameDetail(before: Option<string>, after: Option<string>) {
    if before.None? then after.None? else after.Some? && IsCore(before.value, after.value)
  }

  ghost predicate SameTask(before: Task, after: Task) {
    && after == before.(title := after.title, evidence := after.evidence, blockedReason := after.blockedReason)
    && IsCore(before.title, after.title)
    && SameDetail(before.evidence, after.evidence) && SameDetail(before.blockedReason, after.blockedReason)
  }

  ghost predicate SameGoal(before: Goal, after: Goal) {
    && after == before.(objective := after.objective, evidence := after.evidence, evidenceRef := after.evidenceRef,
                        blockedReason := after.blockedReason)
    && IsCore(before.objective, after.objective) && SameDetail(before.evidence, after.evidence)
    && SameDetail(before.evidenceRef, after.evidenceRef) && SameDetail(before.blockedReason, after.blockedReason)
  }

  ghost predicate SameTasks(before: seq<Task>, after: seq<Task>) {
    |after| == |before| && forall i :: 0 <= i < |before| ==> SameTask(before[i], after[i])
  }

  ghost predicate SameSnapshot(before: State, after: State) {
    && after.revision == before.revision && after.nextTaskNumber == before.nextTaskNumber
    && SameTasks(before.tasks, after.tasks)
    && (if before.goal.None? then after.goal.None? else after.goal.Some? && SameGoal(before.goal.value, after.goal.value))
    && (if before.pendingCompletion.None? then after.pendingCompletion.None?
        else
          && after.pendingCompletion.Some?
          && var p, q := before.pendingCompletion.value, after.pendingCompletion.value;
             SameGoal(p.goal, q.goal) && SameTasks(p.tasks, q.tasks) && q.nextTaskNumber == p.nextTaskNumber
             && q.requestedAt == p.requestedAt)
  }

  /** Each part of the validation. */

  lemma DetailExact(value: Option<string>, required: bool)
    ensures RequiredText(value, required).Success? <==> DetailFits(value, required)
    ensures RequiredText(value, required).Success? ==> SameDetail(value, RequiredText(value, required).value)
    ensures OptionalText(value).Success? <==> DetailFits(value, false)
    ensures OptionalText(value).Success? ==> SameDetail(value, OptionalText(value).value)
  {
    BoundedTextExact(value, MAX_DETAIL);
    hide BoundedText, IsCore, AllSpace;
  }

  lemma TaskExact(task: Task, ids: set<nat>, next: nat)
    requires next <= 1_000_000
    ensures ValidateTask(task, ids, next).Success? <==> TaskFits(task, next) && task.id !in ids
    ensures ValidateTask(task, ids, next).Success? ==> SameTask(task, ValidateTask(task, ids, next).value)
  {
    BoundedTextExact(Some(task.title), MAX_TASK_TITLE);
    DetailExact(task.evidence, task.status.Completed?);
    DetailExact(task.blockedReason, task.status.Blocked?);
    hide BoundedText, IsCore, Fits, RequiredText, DetailFits, SameDetail;
  }

  lemma {:induction false} TasksExact(tasks: seq<Task>, ids: set<nat>, next: nat)
    requires next <= 1_000_000
    ensures ValidateTasks(tasks, ids, next).Success?
      <==> TasksFit(tasks, next) && forall i :: 0 <= i < |tasks| ==> tasks[i].id !in ids
    ensures ValidateTasks(tasks, ids, next).Success? ==> SameTasks(tasks, ValidateTasks(tasks, ids, next).value)
  {
    hide ValidateTask, TaskFits, SameTask;
    if tasks != [] {
      var rest := tasks[1..];
      TaskExact(tasks[0], ids, next);
      TasksExact(rest, ids + {tasks[0].id}, next);
      assert forall i :: 0 < i < |tasks| ==> tasks[i] == rest[i - 1];
      assert forall i :: 0 <= i < |rest| ==> rest[i] == tasks[i + 1];
    }
  }

  lemma GoalExact(goal: Goal)
    ensures ValidateGoal(goal).Success? <==> GoalFits(goal)
    ensures ValidateGoal(goal).Success? ==> SameGoal(goal, ValidateGoal(goal).value)
  {
    BoundedTextExact(Some(goal.objective), MAX_GOAL_TEXT);
    DetailExact(goal.evidence, goal.status.GoalCompleted?);
    DetailExact(goal.blockedReason, goal.status.GoalBlocked?);
    DetailExact(goal.evidenceRef, false);
    hide BoundedText, IsCore, Fits, RequiredText, OptionalText, DetailFits, SameDetail;
  }

  lemma {:induction false} ActiveExact(tasks: seq<Task>)
    ensures CountActive(tasks) > 1 <==> TwoActive(tasks)
    ensures CountActive(tasks) > 0 <==> exists i :: 0 <= i < |tasks| && tasks[i].status.InProgress?
  {
    if tasks != [] {
      ActiveExact(tasks[..|tasks| - 1]);
    }
  }

  lemma StatusesKept(before: seq<Task>, after: seq<Task>)
    requires SameTasks(before, after)
    ensures forall i :: 0 <= i < |before| ==> after[i].status == before[i].status
    ensures TwoActive(after) <==> TwoActive(before)
    ensures AllTasks(after, {Completed}) <==> forall i :: 0 <= i < |before| ==> before[i].status == Completed
    ensures AllTasks(after, {Completed, Blocked})
      <==> forall i :: 0 <= i < |before| ==> before[i].status == Completed || before[i].status == Blocked
  {
    hide IsCore, SameDetail;
    assert forall i :: 0 <= i < |before| ==> SameTask(before[i], after[i]);
    hide SameTask;
    assert forall i :: 0 <= i < |before| ==> after[i].status == before[i].status;
  }

  lemma AgreementKept(before: Goal, after: Goal, tasks: seq<Task>, checked: seq<Task>)
    requires SameGoal(before, after) && SameTasks(tasks, checked)
    ensures Agrees(Some(after), checked) <==> TasksAllow(before.status, tasks)
  {
    StatusesKept(tasks, checked);
    assert after.status == before.status;
    hide SameTasks, AllTasks, SameGoal;
  }

  lemma PartExact(goal: Option<Goal>, tasks: seq<Task>, next: nat)
    ensures ValidatePart(goal, tasks, next).Success? <==> PartFits(goal, tasks, next)
    ensures ValidatePart(goal, tasks, next).Success? ==>
      var (g, ts) := ValidatePart(goal, tasks, next).value;
      && SameTasks(tasks, ts)
      && (if goal.None? then g.None? else g.Some? && SameGoal(goal.value, g.value))
  {
    hide ValidateTasks, ValidateGoal, TasksFit, GoalFits, SameTasks, SameGoal, CountActive, TwoActive, TasksAllow, Agrees;
    if 1 <= next <= 1_000_000 && |tasks| <= 64 {
      NoIdsYet(tasks, next);
      if goal.Some? {
        GoalExact(goal.value);
      }
      var checked := ValidateTasks(tasks, {}, next);
      if checked.Success? {
        ActiveExact(checked.value);
        StatusesKept(tasks, checked.value);
        if goal.Some? && ValidateGoal(goal.value).Success? {
          AgreementKept(goal.value, ValidateGoal(goal.value).value, tasks, checked.value);
        }
      }
    }
  }

  lemma NoIdsYet(tasks: seq<Task>, next: nat)
    requires next <= 1_000_000
    ensures ValidateTasks(tasks, {}, next).Success? <==> TasksFit(tasks, next)
    ensures ValidateTasks(tasks, {}, next).Success? ==> SameTasks(tasks, ValidateTasks(tasks, {}, next).value)
  {
    TasksExact(tasks, {}, next);
  }

  /** A snapshot is read back exactly when it is what a snapshot has to be, and then as itself. */
  lemma EverySnapshotIsExact(s: State)
    ensures ValidateSnapshot(s).Success? <==> SnapshotFits(s)
    ensures ValidateSnapshot(s).Success? ==> SameSnapshot(s, ValidateSnapshot(s).value)
  {
    PartExact(s.goal, s.tasks, s.nextTaskNumber);
    if s.pendingCompletion.Some? {
      PendingExact(s.pendingCompletion.value);
    }
    hide ValidatePart, PartFits, ValidatePending, SameTasks, SameGoal;
  }

  lemma PendingExact(p: PendingCompletion)
    ensures ValidatePending(Some(p)).Success?
      <==> p.goal.status == GoalCompleted && PartFits(Some(p.goal), p.tasks, p.nextTaskNumber)
    ensures ValidatePending(Some(p)).Success? ==>
      var q := ValidatePending(Some(p)).value;
      && q.Some? && SameGoal(p.goal, q.value.goal) && SameTasks(p.tasks, q.value.tasks)
      && q.value.nextTaskNumber == p.nextTaskNumber && q.value.requestedAt == p.requestedAt
  {
    PartExact(Some(p.goal), p.tasks, p.nextTaskNumber);
    var part := ValidatePart(Some(p.goal), p.tasks, p.nextTaskNumber);
    if part.Success? {
      StatusesKept(p.tasks, part.value.1);
    }
    hide ValidatePart, TaskFits, GoalFits, SameTask;
  }
}
