/**
Runs of the plan object beside its durable journal: calls at any moment, persistence that lands and is
reported later or fails, outputs that fail, clears of the whole conversation, and restarts at any point.
*/
module PlanRuns {
  import opened Wrappers
  import opened ConversationPlan
  import opened PlanValidation
  import opened PlanTheorems
  import opened ConversationWork

  // The journal records that bound the plan; all others are skipped by restore.
  datatype Record = WorkState(snapshot: State) | Cleared(workRevision: Option<nat>)

  /** Restore. */

  function LastWorkState(records: seq<Record>): Option<State> {
    if records == [] then None
    else if records[|records| - 1].WorkState? then Some(records[|records| - 1].snapshot)
    else LastWorkState(records[..|records| - 1])
  }

  function ClearedState(records: seq<Record>, workRevision: Option<nat>): Result<State, Error> {
    var prior := LastWorkState(records);
    match if prior.None? then Success(-1) else PriorRevision(prior.value)
    case Failure(e) => Failure(e)
    case Success(priorRevision) =>
      var revision := if workRevision.Some? then workRevision.value as int else priorRevision + 1;
      if revision > MAX_SAFE_INTEGER || revision < 0 || revision <= priorRevision then Failure(StateInvalid)
      else Success(EmptyState().(revision := revision))
  }

  function PriorRevision(prior: State): Result<int, Error> {
    match ValidateSnapshot(prior)
    case Failure(e) => Failure(e)
    case Success(valid) => Success(valid.revision)
  }

  function Restore(records: seq<Record>): Result<State, Error> {
    if records == [] then Success(EmptyState())
    else
      match records[|records| - 1]
      case WorkState(snapshot) => ValidateSnapshot(snapshot)
      case Cleared(workRevision) => ClearedState(records, workRevision)
  }

  /** The run. */

  // done lists, in order, the operations whose snapshots are in the journal; None is a conversation clear.
  datatype Sys = Sys(work: Work, journal: seq<Record>, landed: bool, done: seq<Option<Op>>, current: Option<Op>)

  datatype Event =
    | Call(op: Op)
    | ClearConversation
    | Land
    | PersistDone(ok: bool)
    | OutputDone(ok: bool)
    | Restart

  // A persist that is reported as failed appended nothing, and one reported as done appended its snapshot.
  // The marker of a conversation clear is appended and applied while no other plan operation is in progress.
  predicate Enabled(s: Sys, e: Event) {
    match e
    case Call(op) => s.work.state.revision < MAX_SAFE_INTEGER && KeepsAgreement(s.work.state, op)
    case ClearConversation => s.work.phase.Idle? && s.work.state.revision < MAX_SAFE_INTEGER
    case Land => s.work.phase.Persisting? && !s.landed
    case PersistDone(ok) => s.work.phase.Persisting? && ok == s.landed
    case OutputDone(_) => s.work.phase.Emitting?
    case Restart => true
  }

  function Advance(s: Sys, e: Event): Sys {
    match e
    case Call(op) =>
      var (work, started) := Start(s.work, op);
      if started.Waiting? then s.(work := work, landed := false, current := Some(op)) else s.(work := work)
    case ClearConversation =>
      s.(work := StartClearUnpersisted(s.work).0,
         journal := s.journal + [Cleared(Some(s.work.state.revision + 1))], done := s.done + [None])
    case Land =>
      if s.work.phase.Persisting? then
        s.(journal := s.journal + [WorkState(s.work.phase.next)], landed := true, done := s.done + [s.current])
      else s
    case PersistDone(ok) => s.(work := PersistSettled(s.work, ok), landed := false)
    case OutputDone(ok) => s.(work := OutputSettled(s.work, ok))
    case Restart =>
      match Restore(s.journal)
      case Success(state) => s.(work := Work(state, Idle), landed := false)
      case Failure(_) => s
  }

  /** What holds at every moment. */

  // The plan as the journal has it: the live state, or the snapshot that has landed but is not yet reported.
  function Durable(s: Sys): State {
    if s.work.phase.Persisting? && s.landed then s.work.phase.next else s.work.state
  }

  function RevisionOf(r: Record): int {
    match r
    case WorkState(snapshot) => snapshot.revision
    case Cleared(workRevision) => if workRevision.Some? then workRevision.value else -1
  }

  // Record k has revision k + 1.
  ghost predicate Consecutive(journal: seq<Record>) {
    forall k :: 0 <= k < |journal| ==> RevisionOf(journal[k]) == k + 1
  }

  ghost predicate AllRestorable(journal: seq<Record>) {
    forall k :: 0 <= k < |journal| && journal[k].WorkState? ==> Good(journal[k].snapshot)
  }

  // The plan reached by applying operations one after another, with nothing in between.
  function Replay(done: seq<Option<Op>>): Option<State> {
    if done == [] then Some(EmptyState())
    else
      var prior := Replay(done[..|done| - 1]);
      if prior.None? then None else ReplayOne(prior.value, done[|done| - 1])
  }

  function ReplayOne(s: State, op: Option<Op>): Option<State> {
    match op
    case None => Some(EmptyState().(revision := s.revision + 1))
    case Some(op) => if Apply(s, op).Next? then Some(Apply(s, op).state) else None
  }

  ghost predicate InFlight(s: Sys) {
    s.work.phase.Persisting? ==>
      && s.current.Some?
      && Apply(s.work.state, s.current.value) == Next(s.work.phase.next)
      && Good(s.work.phase.next)
      && s.work.phase.next.revision == s.work.state.revision + 1 <= MAX_SAFE_INTEGER
  }

  ghost predicate Inv(s: Sys) {
    && Good(s.work.state) && s.work.state.revision <= MAX_SAFE_INTEGER
    && InFlight(s)
    && Consecutive(s.journal) && AllRestorable(s.journal)
    && Durable(s).revision == |s.journal|
    && Restore(s.journal) == Success(Durable(s))
    && Replay(s.done) == Some(Durable(s))
  }

  lemma ReplayAppend(done: seq<Option<Op>>, op: Option<Op>)
    ensures Replay(done + [op]) == if Replay(done).None? then None else ReplayOne(Replay(done).value, op)
  {
    assert (done + [op])[..|done|] == done;
  }

  lemma RestoreLanded(journal: seq<Record>, snapshot: State)
    requires Good(snapshot) && snapshot.revision <= MAX_SAFE_INTEGER
    ensures Restore(journal + [WorkState(snapshot)]) == Success(snapshot)
  {
    ValidateSnapshotExact(snapshot);
    hide ValidateSnapshot;
  }

  lemma {:induction false} LastWorkStateIsOlder(records: seq<Record>)
    requires Consecutive(records) && AllRestorable(records)
    ensures var last := LastWorkState(records); last.Some? ==> Good(last.value) && last.value.revision <= |records|
  {
    if records != [] && records[|records| - 1].Cleared? {
      LastWorkStateIsOlder(records[..|records| - 1]);
    }
  }

  lemma RestoreCleared(journal: seq<Record>)
    requires Consecutive(journal) && AllRestorable(journal) && |journal| < MAX_SAFE_INTEGER
    ensures Restore(journal + [Cleared(Some(|journal| + 1))]) == Success(EmptyState().(revision := |journal| + 1))
  {
    var records := journal + [Cleared(Some(|journal| + 1))];
    assert records[..|records| - 1] == journal;
    LastWorkStateIsOlder(journal);
    assert LastWorkState(records) == LastWorkState(journal);
    var prior := LastWorkState(journal);
    hide LastWorkState, ValidateSnapshot, Good;
    if prior.Some? {
      ValidateGood(prior.value);
    }
  }

  lemma ValidateGood(s: State)
    requires Good(s) && s.revision <= MAX_SAFE_INTEGER
    ensures ValidateSnapshot(s) == Success(s)
  {
    ValidateSnapshotExact(s);
  }

  lemma JournalAppend(journal: seq<Record>, r: Record)
    requires Consecutive(journal) && AllRestorable(journal)
    requires RevisionOf(r) == |journal| + 1 && (r.WorkState? ==> Good(r.snapshot))
    ensures Consecutive(journal + [r]) && AllRestorable(journal + [r])
  {
    hide Good;
  }

  lemma CallKeepsInv(s: Sys, op: Op)
    requires Inv(s) && Enabled(s, Call(op))
    ensures Inv(Advance(s, Call(op)))
  {
    hide Apply, Good, Sound, KeepsAgreement, ValidateSnapshot, Restore, Replay, Consecutive, AllRestorable;
    if Apply(s.work.state, op).Next? {
      ApplyExact(s.work.state, op);
    }
  }

  lemma LandKeepsInv(s: Sys)
    requires Inv(s) && Enabled(s, Land)
    ensures Inv(Advance(s, Land))
  {
    var next := s.work.phase.next;
    hide Apply, Good, Restore, Replay, Consecutive, AllRestorable;
    RestoreLanded(s.journal, next);
    JournalAppend(s.journal, WorkState(next));
    ReplayAppend(s.done, s.current);
  }

  lemma EmptyIsGood(revision: nat)
    ensures Good(EmptyState().(revision := revision))
  {
  }

  lemma ClearKeepsInv(s: Sys)
    requires Inv(s) && Enabled(s, ClearConversation)
    ensures Inv(Advance(s, ClearConversation))
  {
    hide Apply, Good, Restore, Replay, Consecutive, AllRestorable;
    RestoreCleared(s.journal);
    JournalAppend(s.journal, Cleared(Some(s.work.state.revision + 1)));
    ReplayAppend(s.done, None);
    EmptyIsGood(s.work.state.revision + 1);
  }

  /** Every event keeps it: revisions in the journal are consecutive, the journal restores to the durable plan,
      and that plan is what the committed operations give one after another, so no update is lost. */
  lemma EventKeepsInv(s: Sys, e: Event)
    requires Inv(s) && Enabled(s, e)
    ensures Inv(Advance(s, e))
    ensures e.Restart? ==> Advance(s, e).work == Work(Durable(s), Idle)
  {
    match e {
      case Call(op) => CallKeepsInv(s, op);
      case ClearConversation => ClearKeepsInv(s);
      case Land => LandKeepsInv(s);
      case _ => hide Apply, Good, Restore, Replay, Consecutive, AllRestorable;
    }
  }

  function Run(s: Sys, events: seq<Event>): Sys
    decreases |events|
  {
    if events == [] then s else Run(Advance(s, events[0]), events[1..])
  }

  predicate RunEnabled(s: Sys, events: seq<Event>)
    decreases |events|
  {
    events != [] ==> Enabled(s, events[0]) && RunEnabled(Advance(s, events[0]), events[1..])
  }

  lemma {:induction false} RunKeepsInv(s: Sys, events: seq<Event>)
    requires Inv(s) && RunEnabled(s, events)
    ensures Inv(Run(s, events))
    decreases |events|
  {
    hide Inv, Enabled, Advance;
    if events != [] {
      EventKeepsInv(s, events[0]);
      RunKeepsInv(Advance(s, events[0]), events[1..]);
    }
  }

  const INITIAL := Sys(Work(EmptyState(), Idle), [], false, [], None)

  /** Over every run from a new conversation: when nothing is being persisted the live plan is the last one
      persisted, a restart brings it back, and the committed operations applied in order give it. */
  lemma EveryRunIsDurable(events: seq<Event>)
    requires RunEnabled(INITIAL, events)
    ensures var s := Run(INITIAL, events);
      && Consecutive(s.journal)
      && Replay(s.done) == Some(Durable(s))
      && Restore(s.journal) == Success(Durable(s))
      && (!s.work.phase.Persisting? ==> Restore(s.journal) == Success(s.work.state))
  {
    hide Run, RunEnabled;
    assert Inv(INITIAL) by {
      EmptyIsGood(0);
      hide Good;
    }
    RunKeepsInv(INITIAL, events);
  }

  /** What is live after a persist was reported is what a restart brings back exactly when the report was true: done where the
      record landed, failed where it did not. */
  lemma ReportIsTrueIffRestorable(s: Sys, ok: bool)
    requires Inv(s) && s.work.phase.Persisting?
    ensures var t := Advance(s, PersistDone(ok));
      Restore(t.journal) == Success(t.work.state) <==> ok == s.landed
  {
    hide Apply, Good, Restore, Replay, Consecutive, AllRestorable;
  }

  // A persist that is reported as failed although its record landed leaves the live plan behind the journal:
  // the next committed operation writes the same revision again.
  lemma LandedButReportedFailedRepeatsRevision(s: Sys, op: Op)
    requires Inv(s) && s.work.phase.Persisting? && s.landed
    requires s.work.state.revision < MAX_SAFE_INTEGER && KeepsAgreement(s.work.state, op)
    requires Apply(s.work.state, op).Next?
    ensures var failed := Advance(s, PersistDone(false));
      var again := Advance(Advance(failed, Call(op)), Land);
      && Restore(failed.journal) != Success(failed.work.state)
      && |again.journal| == |s.journal| + 1
      && RevisionOf(again.journal[|s.journal|]) == RevisionOf(again.journal[|s.journal| - 1])
  {
    hide Apply, Good, Sound, KeepsAgreement, ValidateSnapshot, Restore, Replay, AllRestorable;
    ApplyExact(s.work.state, op);
  }
}
