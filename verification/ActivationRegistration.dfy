/**
Selecting a registration and taking it back, and what a later owner concludes from the evidence left behind
(src/desktop-activation-registration.js, -rollback.js, -reconciliation.js, -rollback-reconciliation.js). The evidence
order is: child file, manifest swap, journal receipt; then rollback receipt, swap back, completion receipt.
*/
module ActivationRegistration {
  import opened ActivationJournal
  import opened Evidence
  import opened Wrappers

  datatype Revision = AbsentRevision | RevisionOf(digest: Digest)

  function Revised(bytes: Option<Bytes>): Revision {
    if bytes.None? then AbsentRevision else RevisionOf(Sha256(bytes.value))
  }

  datatype Candidate = Candidate(stageId: string, installationId: string, dataId: string, version: string,
                                 beforeRevision: Revision, desired: Digest)

  datatype Child = Child(identity: Identity, generation: string, version: string, pid: nat, startId: string)

  // The serialised forms, and the registration that a staged candidate asks for, if its staging is sound.
  datatype Formats = Formats(
    marker: (Identity, Digest) -> Bytes,
    parseCandidate: Bytes -> Option<Candidate>,
    registration: Candidate -> Option<Bytes>,
    child: Child -> Bytes,
    parseChild: Bytes -> Option<Child>,
    running: (Identity, string, string) -> Bytes,
    selection: (Identity, Revision, Revision, Digest) -> Bytes,
    intent: (Identity, string, string, Revision, Revision, Digest, Digest) -> Bytes,
    completion: (Identity, Digest, Revision, Revision) -> Bytes,
    activatePayload: (Identity, string, Digest) -> Digest,
    rollbackPayload: (Identity, string, string, Revision, Revision, Digest, Digest) -> Digest)

  /** The manifest transaction, as its callers may rely on it. */

  datatype Persistence = Saved | Unpublished | Unknown

  datatype Operation = Activate | RollBack

  datatype ManifestReceipt = ManifestReceipt(persistence: Persistence, before: Revision, persisted: Option<Revision>,
                                             payload: Digest)

  // published is history: which swaps ever took place. No step reads it.
  datatype World = World(entries: Directory, marker: Option<Bytes>, candidate: Option<Bytes>, before: Option<Bytes>,
                         child: Option<Bytes>, registration: Option<Bytes>, receipts: map<Operation, ManifestReceipt>,
                         published: set<Operation>)

  // How a swap turns out: whether the bytes were put in place, and which receipt, if any, is left.
  datatype Swap = Swap(publishes: bool, receipt: Option<Persistence>)

  // A saved receipt follows a publication. An unpublished one is only left where the old bytes are still there and
  // differ from the new.
  predicate Lawful(w: World, bytes: Option<Bytes>, swap: Swap) {
    && (swap.receipt == Some(Saved) ==> swap.publishes)
    && (swap.receipt == Some(Unpublished) ==> !swap.publishes && Revised(bytes) != Revised(w.registration))
  }

  // Returns the receipt that the caller sees; None where the transaction throws.
  function Transact(w: World, op: Operation, expected: Revision, bytes: Option<Bytes>, payload: Digest, swap: Swap)
    : (World, Option<ManifestReceipt>)
  {
    if op in w.receipts then
      (w, if w.receipts[op].payload == payload then Some(w.receipts[op]) else None)
    else if Revised(w.registration) != expected || !Lawful(w, bytes, swap) then (w, None)
    else
      var after := if swap.publishes then w.(registration := bytes, published := w.published + {op}) else w;
      if swap.receipt.None? then (after, None)
      else
        var receipt := ManifestReceipt(swap.receipt.value, expected,
                                       if swap.receipt.value.Saved? then Some(Revised(bytes)) else None, payload);
        (after.(receipts := w.receipts[op := receipt]), if receipt.persistence.Saved? then Some(receipt) else None)
  }

  /** Reading the evidence. */

  datatype PreparedState = PreparedState(journal: seq<Receipt>, candidate: Candidate, desired: Bytes)

  function DesiredBytes(f: Formats, w: World): Option<Bytes> {
    if w.candidate.Some? && f.parseCandidate(w.candidate.value).Some? then
      f.registration(f.parseCandidate(w.candidate.value).value)
    else None
  }

  // Every preparation file agrees with the first receipt of the journal.
  predicate CandidateAgrees(f: Formats, id: Identity, w: World, first: Receipt) {
    && w.marker == Some(f.marker(id, first.sha))
    && DesiredBytes(f, w).Some?
    && Sha256(w.candidate.value) == first.record.evidence
    && var candidate := f.parseCandidate(w.candidate.value).value;
    && candidate.installationId == id.installationId && candidate.dataId == id.dataId
    && candidate.beforeRevision == Revised(w.before)
    && candidate.desired == Sha256(DesiredBytes(f, w).value)
  }

  predicate HealthyOrSelected(phases: seq<Phase>) {
    && |phases| in {4, 5}
    && phases[3] == TrialHealthy && (|phases| == 5 ==> phases[4] == RegistrationCas)
  }

  function PreparedEvidence(c: Codec, f: Formats, id: Identity, w: World): Option<PreparedState> {
    if !Accepted(c, id, w.entries) then None
    else
      var journal := Receipts(c, id, w.entries);
      if !HealthyOrSelected(Phases(journal)) || !CandidateAgrees(f, id, w, journal[0]) then None
      else Some(PreparedState(journal, f.parseCandidate(w.candidate.value).value, DesiredBytes(f, w).value))
  }

  datatype ChildReading = NoChild | BadChild | GoodChild(bytes: Bytes, child: Child)

  function ReadChild(f: Formats, id: Identity, w: World, candidate: Candidate, running: Receipt): ChildReading {
    if w.child.None? then NoChild
    else
      var child := f.parseChild(w.child.value);
      if child.None? || f.child(child.value) != w.child.value || child.value.identity != id
        || child.value.version != candidate.version
        || running.record.evidence != Sha256(f.running(id, child.value.generation, child.value.version))
      then BadChild
      else GoodChild(w.child.value, child.value)
  }

  /** What reconciliation concludes about a selection. */

  datatype ChildState = NotRecorded | SameProcess | DifferentProcess | Unconfirmed

  datatype Verdict = UnknownOutcome | SelectedUnresolved | NotSelected

  function Classify(c: Codec, f: Formats, id: Identity, w: World, pointer: bool, observed: ChildState): Verdict {
    var evidence := PreparedEvidence(c, f, id, w);
    if evidence.None? then UnknownOutcome
    else
      var e := evidence.value;
      var child := ReadChild(f, id, w, e.candidate, e.journal[2]);
      if child.BadChild? || pointer || (child.GoodChild? && !observed.SameProcess?) then UnknownOutcome
      else
        var receipt := if Activate in w.receipts then Some(w.receipts[Activate]) else None;
        var before, after := Revised(w.before), RevisionOf(Sha256(e.desired));
        var beforeMatches := w.registration == w.before;
        var desiredMatches := w.registration == Some(e.desired);
        if receipt.Some? && !(receipt.value.before == before
                              && (receipt.value.persistence.Saved? ==> receipt.value.persisted == Some(after)))
        then UnknownOutcome
        else if |e.journal| == 5
          && (child.NoChild? || receipt.None? || !receipt.value.persistence.Saved?
              || e.journal[4].record.evidence != Sha256(f.selection(id, before, after, Sha256(child.bytes))))
        then UnknownOutcome
        else if receipt.Some? && receipt.value.persistence.Saved? && desiredMatches && child.GoodChild?
        then SelectedUnresolved
        else if ((receipt.None? && child.NoChild? && !desiredMatches)
                 || (receipt.Some? && receipt.value.persistence.Unpublished?))
          && beforeMatches && |e.journal| == 4
        then NotSelected
        else UnknownOutcome
  }

  /** What rollback reconciliation concludes. */

  datatype RollbackVerdict = UnknownRollback | Restored | NotPublished

  // The receipt at which the rollback of an accepted journal stands: 4 or 5.
  predicate RollbackShape(phases: seq<Phase>, pending: nat) {
    && pending in {4, 5} && |phases| in {pending + 1, pending + 2}
    && phases[3] == TrialHealthy && (pending == 5 ==> phases[4] == RegistrationCas)
    && phases[pending] == RollbackPending
    && (|phases| == pending + 2 ==> phases[pending + 1] == RollbackComplete)
  }

  datatype RollbackState = RollbackState(journal: seq<Receipt>, pending: nat, candidate: Candidate)

  // A rollback that was begun from a selection, with every file and receipt it rests on.
  function ObserveRollback(c: Codec, f: Formats, id: Identity, w: World, pointer: bool): (s: Option<RollbackState>)
    ensures s.Some? ==> RollbackShape(Phases(s.value.journal), s.value.pending)
  {
    if !Accepted(c, id, w.entries) then None
    else
      var journal := Receipts(c, id, w.entries);
      var pending: nat := if |journal| > 4 && journal[4].record.phase == RollbackPending then 4 else 5;
      if !RollbackShape(Phases(journal), pending) || !CandidateAgrees(f, id, w, journal[0]) then None
      else
        var candidate := f.parseCandidate(w.candidate.value).value;
        var child := ReadChild(f, id, w, candidate, journal[2]);
        var before, selected := Revised(w.before), RevisionOf(candidate.desired);
        if !child.GoodChild? || pointer || Activate !in w.receipts then None
        else
          var forward := w.receipts[Activate];
          if !forward.persistence.Saved? || forward.before != before || forward.persisted != Some(selected)
            || (pending == 5 && journal[4].record.evidence
                  != Sha256(f.selection(id, before, selected, Sha256(child.bytes))))
            || journal[pending].record.evidence
                 != Sha256(f.intent(id, candidate.stageId, child.child.generation, before, selected,
                                    Sha256(child.bytes), journal[pending - 1].sha))
          then None
          else Some(RollbackState(journal, pending, candidate))
  }

  function SettleRollback(f: Formats, id: Identity, w: World, s: RollbackState): RollbackVerdict
    requires RollbackShape(Phases(s.journal), s.pending)
  {
    var before, selected := Revised(w.before), RevisionOf(s.candidate.desired);
    var complete := |s.journal| == s.pending + 2;
    if RollBack !in w.receipts || w.receipts[RollBack].before != selected
      || (complete && s.journal[s.pending + 1].record.evidence
            != Sha256(f.completion(id, s.journal[s.pending].sha, selected, before)))
    then UnknownRollback
    else
      var back := w.receipts[RollBack];
      if back.persistence.Saved? && back.persisted == Some(before) && w.registration == w.before then Restored
      else if !complete && back.persistence.Unpublished? && back.persisted.None? && Revised(w.registration) == selected
      then NotPublished
      else UnknownRollback
  }

  function ClassifyRollback(c: Codec, f: Formats, id: Identity, w: World, pointer: bool): RollbackVerdict {
    var state := ObserveRollback(c, f, id, w, pointer);
    if state.None? then UnknownRollback else SettleRollback(f, id, w, state.value)
  }

  /** What a selection does, wherever it stops. */

  // childStored: the process is lost with that much of the child file stored. goesOn: it is still alive, and so is the
  // trial, when the child file is there, and after the swap. receiptStored: it is lost in the append.
  datatype Attempt = Attempt(child: Child, childStored: Option<nat>, goesOnToSwap: bool, swap: Swap, goesOnToAppend: bool,
                             receiptStored: Option<nat>)

  const CHILD_LIMIT := 2048

  function WithChild(w: World, bytes: Bytes, stored: Option<nat>): (World, bool) {
    if |bytes| > CHILD_LIMIT then (w, false)
    else if w.child.Some? then (w, w.child.value == bytes)
    else if stored.Some? && stored.value <= |bytes| then (w.(child := Some(bytes[..stored.value])), false)
    else (w.(child := Some(bytes)), true)
  }

  function WithPhase(c: Codec, id: Identity, w: World, phase: Phase, evidence: Digest, stored: Option<nat>)
    : (World, Option<Receipt>)
  {
    var appended := Appended(c, id, w.entries, phase, evidence, stored);
    (w.(entries := appended.1), appended.0)
  }

  // Selection starts only from a healthy trial whose prior registration still stands.
  predicate MaySelect(c: Codec, f: Formats, id: Identity, w: World, a: Attempt) {
    var e := PreparedEvidence(c, f, id, w);
    && e.Some? && |e.value.journal| == 4 && w.registration == w.before
    && a.child.identity == id && a.child.version == e.value.candidate.version
  }

  function SwapForward(f: Formats, id: Identity, w: World, swap: Swap): (World, Option<ManifestReceipt>)
    requires DesiredBytes(f, w).Some?
  {
    var candidate := f.parseCandidate(w.candidate.value).value;
    Transact(w, Activate, candidate.beforeRevision, DesiredBytes(f, w),
             f.activatePayload(id, candidate.stageId, Sha256(DesiredBytes(f, w).value)), swap)
  }

  function Selected(c: Codec, f: Formats, id: Identity, w: World, a: Attempt): World {
    if !MaySelect(c, f, id, w, a) then w
    else
      var bytes := f.child(a.child);
      var (w1, recorded) := WithChild(w, bytes, a.childStored);
      if !recorded || !a.goesOnToSwap then w1
      else
        var (w2, outcome) := SwapForward(f, id, w1, a.swap);
        var after := Revised(DesiredBytes(f, w));
        if outcome.None? || !outcome.value.persistence.Saved? || outcome.value.persisted != Some(after)
          || w2.registration != DesiredBytes(f, w) || !a.goesOnToAppend
        then w2
        else WithPhase(c, id, w2, RegistrationCas,
                       Sha256(f.selection(id, outcome.value.before, after, Sha256(bytes))), a.receiptStored).0
  }

  /** What a rollback does, wherever it stops. */

  datatype Retreat = Retreat(generation: string, pointer: bool, pendingStored: Option<nat>, goesOnToSwap: bool, swap: Swap,
                             goesOnToAppend: bool, completeStored: Option<nat>)

  function ChildFor(f: Formats, id: Identity, w: World, e: PreparedState): ChildReading
    requires |e.journal| > 2
  {
    ReadChild(f, id, w, e.candidate, e.journal[2])
  }

  predicate MayRollBack(c: Codec, f: Formats, id: Identity, w: World, t: Retreat) {
    var evidence := PreparedEvidence(c, f, id, w);
    && evidence.Some? && Activate in w.receipts && !t.pointer
    && var e := evidence.value;
    && var child := ChildFor(f, id, w, e);
    && var forward := w.receipts[Activate];
    && var desired := RevisionOf(e.candidate.desired);
    && child.GoodChild? && child.child.generation == t.generation
    && forward.persistence.Saved? && forward.before == Revised(w.before) && forward.persisted == Some(desired)
    && (|e.journal| == 4
        || e.journal[4].record.evidence == Sha256(f.selection(id, Revised(w.before), desired, Sha256(child.bytes))))
    && Revised(w.registration) == desired
  }

  function SwapBack(f: Formats, id: Identity, w: World, t: Retreat, e: PreparedState, childSha: Digest, pending: Digest)
    : (World, Option<ManifestReceipt>)
  {
    var desired := RevisionOf(e.candidate.desired);
    Transact(w, RollBack, desired, w.before,
             f.rollbackPayload(id, e.candidate.stageId, t.generation, desired, Revised(w.before), childSha, pending), t.swap)
  }

  function RolledBack(c: Codec, f: Formats, id: Identity, w: World, t: Retreat): World {
    if !MayRollBack(c, f, id, w, t) then w
    else
      var e := PreparedEvidence(c, f, id, w).value;
      var desired, before := RevisionOf(e.candidate.desired), Revised(w.before);
      var childSha := Sha256(w.child.value);
      var intent := f.intent(id, e.candidate.stageId, t.generation, before, desired, childSha,
                             e.journal[|e.journal| - 1].sha);
      var (w1, pending) := WithPhase(c, id, w, RollbackPending, Sha256(intent), t.pendingStored);
      if pending.None? || !t.goesOnToSwap then w1
      else
        var (w2, outcome) := SwapBack(f, id, w1, t, e, childSha, pending.value.sha);
        if outcome.None? || !outcome.value.persistence.Saved? || outcome.value.before != desired
          || outcome.value.persisted != Some(before) || w2.registration != w.before || !t.goesOnToAppend
        then w2
        else WithPhase(c, id, w2, RollbackComplete,
                       Sha256(f.completion(id, pending.value.sha, desired, before)), t.completeStored).0
  }

  /** The two operations as the code drives them, one durable step after another. */

  class RegistrationStore {
    var world: World

    constructor (world: World)
      ensures this.world == world
    {
      this.world := world;
    }

    method PersistChild(bytes: Bytes, stored: Option<nat>) returns (recorded: bool)
      modifies this
      ensures (world, recorded) == WithChild(old(world), bytes, stored)
    {
      if |bytes| > CHILD_LIMIT {
        return false;
      }
      if world.child.Some? {
        return world.child.value == bytes;
      }
      if stored.Some? && stored.value <= |bytes| {
        world := world.(child := Some(bytes[..stored.value]));
        return false;
      }
      world := world.(child := Some(bytes));
      return true;
    }

    method AppendPhase(c: Codec, id: Identity, phase: Phase, evidence: Digest, stored: Option<nat>)
      returns (receipt: Option<Receipt>)
      requires Faithful(c)
      modifies this
      ensures (world, receipt) == WithPhase(c, id, old(world), phase, evidence, stored)
    {
      var directory := new JournalDirectory(world.entries);
      receipt := directory.AppendPhase(c, id, phase, evidence, stored);
      world := world.(entries := directory.entries);
    }

    method SelectUnderOwnership(c: Codec, f: Formats, id: Identity, a: Attempt)
      requires Faithful(c)
      modifies this
      ensures world == Selected(c, f, id, old(world), a)
    {
      hide PreparedEvidence, Transact, WithChild, WithPhase;
      if !MaySelect(c, f, id, world, a) {
        return;
      }
      MaySelectHasDesired(c, f, id, world, a);
      var desired := DesiredBytes(f, world);
      var bytes := f.child(a.child);
      ghost var start := world;
      var recorded := PersistChild(bytes, a.childStored);
      if !recorded || !a.goesOnToSwap {
        return;
      }
      ChildOnly(start, bytes, a.childStored);
      var (swapped, outcome) := SwapForward(f, id, world, a.swap);
      world := swapped;
      if outcome.None? || !outcome.value.persistence.Saved? || outcome.value.persisted != Some(Revised(desired))
        || world.registration != desired || !a.goesOnToAppend
      {
        return;
      }
      var _ := AppendPhase(c, id, RegistrationCas,
                           Sha256(f.selection(id, outcome.value.before, Revised(desired), Sha256(bytes))), a.receiptStored);
    }

    method RollbackOwned(c: Codec, f: Formats, id: Identity, t: Retreat)
      requires Faithful(c)
      modifies this
      ensures world == RolledBack(c, f, id, old(world), t)
    {
      hide Transact, WithPhase, HealthyOrSelected, CandidateAgrees, Accepted, Receipts;
      if !MayRollBack(c, f, id, world, t) {
        return;
      }
      var e := PreparedEvidence(c, f, id, world).value;
      var desired, priorBytes := RevisionOf(e.candidate.desired), world.before;
      var before := Revised(priorBytes);
      var childSha := Sha256(world.child.value);
      MayRollBackHasReceipts(c, f, id, world, t);
      var intent := f.intent(id, e.candidate.stageId, t.generation, before, desired, childSha,
                             e.journal[|e.journal| - 1].sha);
      var pending := AppendPhase(c, id, RollbackPending, Sha256(intent), t.pendingStored);
      if pending.None? || !t.goesOnToSwap {
        return;
      }
      var (swapped, outcome) := SwapBack(f, id, world, t, e, childSha, pending.value.sha);
      world := swapped;
      if outcome.None? || !outcome.value.persistence.Saved? || outcome.value.before != desired
        || outcome.value.persisted != Some(before) || world.registration != priorBytes || !t.goesOnToAppend
      {
        return;
      }
      var _ := AppendPhase(c, id, RollbackComplete,
                           Sha256(f.completion(id, pending.value.sha, desired, before)), t.completeStored);
    }
  }

  lemma MaySelectHasDesired(c: Codec, f: Formats, id: Identity, w: World, a: Attempt)
    requires MaySelect(c, f, id, w, a)
    ensures DesiredBytes(f, w).Some?
  {
  }

  lemma ChildOnly(w: World, bytes: Bytes, stored: Option<nat>)
    ensures WithChild(w, bytes, stored).0 == w.(child := WithChild(w, bytes, stored).0.child)
    ensures WithChild(w, bytes, stored).1 ==> WithChild(w, bytes, stored).0.child == Some(bytes)
  {
  }

  lemma MayRollBackHasReceipts(c: Codec, f: Formats, id: Identity, w: World, t: Retreat)
    requires MayRollBack(c, f, id, w, t)
    ensures |PreparedEvidence(c, f, id, w).value.journal| in {4, 5} && w.child.Some?
  {
  }
}
