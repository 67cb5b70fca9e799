/**
What each verdict about a selection or a rollback rests on, and when either may begin, in terms of the files, the journal and
the manifest's receipts (src/desktop-activation-reconciliation.js, -rollback-reconciliation.js, -registration.js, -rollback.js).
*/
module VerdictRules {
  import opened ActivationJournal
  import opened ActivationRegistration
  import opened Evidence
  import opened Wrappers

  const HEALTHY: seq<Phase> := [Prepared, TrialStarting, TrialRunning, TrialHealthy]
  const SELECTED: seq<Phase> := [Prepared, TrialStarting, TrialRunning, TrialHealthy, RegistrationCas]

  // The journal holds receipts of exactly these phases.
  ghost predicate Recorded(c: Codec, id: Identity, w: World, phases: seq<Phase>) {
    Accepted(c, id, w.entries) && Phases(Receipts(c, id, w.entries)) == phases
  }

  ghost function ReceiptOf(c: Codec, id: Identity, w: World, k: nat): Receipt
    requires Accepted(c, id, w.entries) && k < |w.entries|
  {
    Receipts(c, id, w.entries)[k]
  }

  function RevisionAt(bytes: Option<Bytes>): Revision {
    if bytes.Some? then RevisionOf(Sha256(bytes.value)) else AbsentRevision
  }

  // Marker, candidate and prior registration are the ones that the first receipt recorded, and the candidate asks for these
  // bytes.
  ghost predicate FilesAgree(c: Codec, f: Formats, id: Identity, w: World, k: Candidate, desired: Bytes) {
    && Accepted(c, id, w.entries) && |w.entries| > 0
    && var first := ReceiptOf(c, id, w, 0);
    && w.marker == Some(f.marker(id, first.sha))
    && w.candidate.Some? && first.record.evidence == Sha256(w.candidate.value)
    && f.parseCandidate(w.candidate.value) == Some(k)
    && k.installationId == id.installationId && k.dataId == id.dataId && k.beforeRevision == RevisionAt(w.before)
    && f.registration(k) == Some(desired) && k.desired == Sha256(desired)
  }

  // The child file names a process of this activation, and the third receipt recorded that very process running.
  ghost predicate ChildAgrees(c: Codec, f: Formats, id: Identity, w: World, k: Candidate, child: Child) {
    && Accepted(c, id, w.entries) && |w.entries| > 2
    && w.child == Some(f.child(child)) && f.parseChild(f.child(child)) == Some(child)
    && child.identity == id && child.version == k.version
    && ReceiptOf(c, id, w, 2).record.evidence == Sha256(f.running(id, child.generation, child.version))
  }

  ghost predicate Settled(w: World, op: Operation, persistence: Persistence, before: Revision, persisted: Option<Revision>) {
    && op in w.receipts && w.receipts[op].persistence == persistence
    && w.receipts[op].before == before && w.receipts[op].persisted == persisted
  }

  // The fifth receipt, where there is one, is of this selection.
  ghost predicate SelectionAgrees(c: Codec, f: Formats, id: Identity, w: World, k: Candidate) {
    && Accepted(c, id, w.entries) && w.child.Some?
    && (|w.entries| > 4 ==>
          ReceiptOf(c, id, w, 4).record.evidence
            == Sha256(f.selection(id, RevisionAt(w.before), RevisionOf(k.desired), Sha256(w.child.value))))
  }

  /** The verdicts on a selection. */

  ghost predicate IsSelected(c: Codec, f: Formats, id: Identity, w: World, k: Candidate, desired: Bytes, child: Child) {
    && (Recorded(c, id, w, HEALTHY) || Recorded(c, id, w, SELECTED))
    && FilesAgree(c, f, id, w, k, desired) && ChildAgrees(c, f, id, w, k, child)
    && w.registration == Some(desired)
    && Settled(w, Activate, Saved, RevisionAt(w.before), Some(RevisionOf(k.desired)))
    && (Recorded(c, id, w, SELECTED) ==> SelectionAgrees(c, f, id, w, k))
  }

  // No swap can have taken place: none was recorded before a child was, or the one that was recorded did not publish.
  ghost predicate IsNotSelected(c: Codec, f: Formats, id: Identity, w: World, observed: ChildState, k: Candidate,
                                desired: Bytes)
  {
    && Recorded(c, id, w, HEALTHY) && FilesAgree(c, f, id, w, k, desired) && w.registration == w.before
    && if Activate !in w.receipts then w.child.None? && w.registration != Some(desired)
       else
         && w.receipts[Activate].persistence == Unpublished && w.receipts[Activate].before == RevisionAt(w.before)
         && (w.child.None? || (observed == SameProcess && exists child :: ChildAgrees(c, f, id, w, k, child)))
  }

  lemma HealthyPhases(ps: seq<Phase>)
    requires IsPath(ps)
    ensures HealthyOrSelected(ps) <==> ps == HEALTHY || ps == SELECTED
  {
    if HealthyOrSelected(ps) {
      FirstFour(ps);
    }
  }

  lemma FirstFour(ps: seq<Phase>)
    requires IsPath(ps) && |ps| > 3 && ps[3] == TrialHealthy
    ensures ps[0] == Prepared && ps[1] == TrialStarting && ps[2] == TrialRunning
  {
    assert ps[3] in Next(ps[2]) && ps[2] in Next(ps[1]) && ps[1] in Next(ps[0]);
  }

  lemma CandidateExact(c: Codec, f: Formats, id: Identity, w: World)
    requires Accepted(c, id, w.entries) && |w.entries| > 0
    ensures CandidateAgrees(f, id, w, ReceiptOf(c, id, w, 0)) <==> exists k, desired :: FilesAgree(c, f, id, w, k, desired)
    ensures forall k, desired :: FilesAgree(c, f, id, w, k, desired) ==>
      && f.parseCandidate(w.candidate.value).value == k && DesiredBytes(f, w) == Some(desired)
  {
    hide Accepted, Receipts;
    if CandidateAgrees(f, id, w, ReceiptOf(c, id, w, 0)) {
      assert FilesAgree(c, f, id, w, f.parseCandidate(w.candidate.value).value, DesiredBytes(f, w).value);
    }
  }

  lemma EvidenceExact(c: Codec, f: Formats, id: Identity, w: World)
    ensures PreparedEvidence(c, f, id, w).Some?
      <==> (Recorded(c, id, w, HEALTHY) || Recorded(c, id, w, SELECTED)) && exists k, desired :: FilesAgree(c, f, id, w, k, desired)
    ensures forall k, desired :: PreparedEvidence(c, f, id, w).Some? && FilesAgree(c, f, id, w, k, desired) ==>
      PreparedEvidence(c, f, id, w).value == PreparedState(Receipts(c, id, w.entries), k, desired)
  {
    hide Accepted, Receipts, CandidateAgrees, FilesAgree, HealthyOrSelected, IsPath;
    if Accepted(c, id, w.entries) {
      AcceptedIsPath(c, id, w.entries);
      HealthyPhases(Phases(Receipts(c, id, w.entries)));
      if |w.entries| > 0 {
        CandidateExact(c, f, id, w);
      }
    }
  }

  lemma ChildExact(c: Codec, f: Formats, id: Identity, w: World, k: Candidate)
    requires Accepted(c, id, w.entries) && |w.entries| > 2
    ensures var r := ReadChild(f, id, w, k, ReceiptOf(c, id, w, 2));
      && (r.NoChild? <==> w.child.None?)
      && (r.GoodChild? <==> exists child :: ChildAgrees(c, f, id, w, k, child))
      && (forall child :: ChildAgrees(c, f, id, w, k, child) ==> r == GoodChild(w.child.value, child))
  {
    hide Accepted, Receipts;
    var r := ReadChild(f, id, w, k, ReceiptOf(c, id, w, 2));
    if r.GoodChild? {
      assert ChildAgrees(c, f, id, w, k, r.child);
    }
  }

  /** Each verdict is given exactly when what it rests on is there, and no controller was published. */
  lemma VerdictExact(c: Codec, f: Formats, id: Identity, w: World, pointer: bool, observed: ChildState)
    ensures Classify(c, f, id, w, pointer, observed) == SelectedUnresolved
      <==> !pointer && observed == SameProcess && exists k, desired, child :: IsSelected(c, f, id, w, k, desired, child)
    ensures Classify(c, f, id, w, pointer, observed) == NotSelected
      <==> !pointer && exists k, desired :: IsNotSelected(c, f, id, w, observed, k, desired)
  {
    EvidenceExact(c, f, id, w);
    if exists k, desired :: FilesAgree(c, f, id, w, k, desired) {
      var k, desired :| FilesAgree(c, f, id, w, k, desired);
      TheFiles(c, f, id, w, k, desired);
      VerdictGiven(c, f, id, w, pointer, observed, k, desired);
    }
    hide FilesAgree, Accepted, Receipts, Classify, ChildAgrees, Recorded, Settled, SelectionAgrees;
  }

  lemma TheFiles(c: Codec, f: Formats, id: Identity, w: World, k: Candidate, desired: Bytes)
    requires FilesAgree(c, f, id, w, k, desired)
    ensures forall k', desired' :: FilesAgree(c, f, id, w, k', desired') ==> k' == k && desired' == desired
  {
  }

  lemma VerdictGiven(c: Codec, f: Formats, id: Identity, w: World, pointer: bool, observed: ChildState, k: Candidate,
                     desired: Bytes)
    requires FilesAgree(c, f, id, w, k, desired)
    ensures Classify(c, f, id, w, pointer, observed) == SelectedUnresolved
      <==> !pointer && observed == SameProcess && exists child :: IsSelected(c, f, id, w, k, desired, child)
    ensures Classify(c, f, id, w, pointer, observed) == NotSelected
      <==> !pointer && IsNotSelected(c, f, id, w, observed, k, desired)
  {
    EvidenceExact(c, f, id, w);
    if PreparedEvidence(c, f, id, w).Some? {
      ChildExact(c, f, id, w, k);
      hide FilesAgree, Accepted, Receipts, PreparedEvidence, ChildAgrees, ReadChild;
      if child :| ChildAgrees(c, f, id, w, k, child) {
        assert Classify(c, f, id, w, pointer, observed) == SelectedUnresolved
          <==> !pointer && observed == SameProcess && IsSelected(c, f, id, w, k, desired, child);
      }
    }
    hide FilesAgree, Accepted, Receipts, PreparedEvidence, ChildAgrees, ReadChild;
  }

  /** The verdicts on a rollback. */

  function RollbackPhases(pending: nat, complete: bool): seq<Phase> {
    (if pending == 4 then HEALTHY else SELECTED) + [RollbackPending] + if complete then [RollbackComplete] else []
  }

  // A rollback of a selection was begun, and its pending receipt recorded all that it rests on.
  ghost predicate IsBegun(c: Codec, f: Formats, id: Identity, w: World, k: Candidate, desired: Bytes, child: Child,
                          pending: nat, complete: bool)
  {
    && (pending == 4 || pending == 5) && Recorded(c, id, w, RollbackPhases(pending, complete))
    && FilesAgree(c, f, id, w, k, desired) && ChildAgrees(c, f, id, w, k, child)
    && Settled(w, Activate, Saved, RevisionAt(w.before), Some(RevisionOf(k.desired)))
    && |w.entries| > pending && (pending == 5 ==> SelectionAgrees(c, f, id, w, k))
    && ReceiptOf(c, id, w, pending).record.evidence
         == Sha256(f.intent(id, k.stageId, child.generation, RevisionAt(w.before), RevisionOf(k.desired),
                            Sha256(w.child.value), ReceiptOf(c, id, w, pending - 1).sha))
  }

  ghost predicate CompletionAgrees(c: Codec, f: Formats, id: Identity, w: World, k: Candidate, pending: nat, complete: bool) {
    complete ==>
      && Accepted(c, id, w.entries) && |w.entries| > pending + 1
      && ReceiptOf(c, id, w, pending + 1).record.evidence
           == Sha256(f.completion(id, ReceiptOf(c, id, w, pending).sha, RevisionOf(k.desired), RevisionAt(w.before)))
  }

  ghost predicate IsRestored(c: Codec, f: Formats, id: Identity, w: World, k: Candidate, desired: Bytes, child: Child,
                             pending: nat, complete: bool)
  {
    && IsBegun(c, f, id, w, k, desired, child, pending, complete) && CompletionAgrees(c, f, id, w, k, pending, complete)
    && Settled(w, RollBack, Saved, RevisionOf(k.desired), Some(RevisionAt(w.before))) && w.registration == w.before
  }

  ghost predicate IsNotPublished(c: Codec, f: Formats, id: Identity, w: World, k: Candidate, desired: Bytes, child: Child,
                                 pending: nat)
  {
    && IsBegun(c, f, id, w, k, desired, child, pending, false)
    && Settled(w, RollBack, Unpublished, RevisionOf(k.desired), None) && RevisionAt(w.registration) == RevisionOf(k.desired)
  }

  lemma ShapeExact(ps: seq<Phase>, pending: nat)
    requires IsPath(ps)
    ensures RollbackShape(ps, pending)
      <==> (pending == 4 || pending == 5) && (ps == RollbackPhases(pending, false) || ps == RollbackPhases(pending, true))
  {
    if RollbackShape(ps, pending) {
      FirstFour(ps);
      if |ps| == pending + 1 {
        assert ps == RollbackPhases(pending, false);
      } else {
        assert ps == RollbackPhases(pending, true);
      }
    }
  }

  // Where the rollback of a journal of this shape stands.
  lemma PendingAt(ps: seq<Phase>, pending: nat, complete: bool)
    requires (pending == 4 || pending == 5) && ps == RollbackPhases(pending, complete)
    ensures |ps| == pending + (if complete then 2 else 1) && (ps[4] == RollbackPending <==> pending == 4)
  {
  }

  lemma ObservedIsBegun(c: Codec, f: Formats, id: Identity, w: World, pointer: bool, k: Candidate, desired: Bytes,
                        pending: nat)
    requires FilesAgree(c, f, id, w, k, desired) && ObserveRollback(c, f, id, w, pointer).Some?
    requires pending == ObserveRollback(c, f, id, w, pointer).value.pending
    ensures !pointer && exists child, complete :: IsBegun(c, f, id, w, k, desired, child, pending, complete)
  {
    var journal := Receipts(c, id, w.entries);
    var ps := Phases(journal);
    AcceptedIsPath(c, id, w.entries);
    ShapeExact(ps, pending);
    ChildExact(c, f, id, w, k);
    CandidateExact(c, f, id, w);
    hide Accepted, Receipts, IsPath, CandidateAgrees, ChildAgrees, FilesAgree;
    var complete := |journal| == pending + 2;
    assert ps == RollbackPhases(pending, complete);
    var child := ReadChild(f, id, w, k, journal[2]).child;
    assert IsBegun(c, f, id, w, k, desired, child, pending, complete);
  }

  lemma BegunIsObserved(c: Codec, f: Formats, id: Identity, w: World, k: Candidate, desired: Bytes, child: Child,
                        pending: nat, complete: bool)
    requires IsBegun(c, f, id, w, k, desired, child, pending, complete)
    ensures ObserveRollback(c, f, id, w, false) == Some(RollbackState(Receipts(c, id, w.entries), pending, k))
  {
    var ps := Phases(Receipts(c, id, w.entries));
    AcceptedIsPath(c, id, w.entries);
    ShapeExact(ps, pending);
    PendingAt(ps, pending, complete);
    ChildExact(c, f, id, w, k);
    CandidateExact(c, f, id, w);
    hide Accepted, Receipts, IsPath, CandidateAgrees, ChildAgrees, FilesAgree, ReadChild;
  }

  lemma RollbackVerdictGiven(c: Codec, f: Formats, id: Identity, w: World, pointer: bool, k: Candidate, desired: Bytes,
                             child: Child, pending: nat, complete: bool)
    requires !pointer && IsBegun(c, f, id, w, k, desired, child, pending, complete)
    ensures ClassifyRollback(c, f, id, w, pointer) == Restored <==> IsRestored(c, f, id, w, k, desired, child, pending, complete)
    ensures ClassifyRollback(c, f, id, w, pointer) == NotPublished
      <==> !complete && IsNotPublished(c, f, id, w, k, desired, child, pending)
  {
    BegunIsObserved(c, f, id, w, k, desired, child, pending, complete);
    var ps := Phases(Receipts(c, id, w.entries));
    PendingAt(ps, pending, complete);
    hide Accepted, Receipts, ChildAgrees, FilesAgree, SelectionAgrees, ObserveRollback, RollbackPhases;
  }

  lemma ObservedHasFiles(c: Codec, f: Formats, id: Identity, w: World, pointer: bool) returns (k: Candidate, desired: Bytes)
    requires ObserveRollback(c, f, id, w, pointer).Some?
    ensures FilesAgree(c, f, id, w, k, desired)
  {
    CandidateExact(c, f, id, w);
    hide Accepted, Receipts, CandidateAgrees, FilesAgree, ReadChild;
    k, desired :| FilesAgree(c, f, id, w, k, desired);
  }

  /** Each verdict on a rollback is given exactly when what it rests on is there, and no controller was published. */
  lemma RollbackVerdictExact(c: Codec, f: Formats, id: Identity, w: World, pointer: bool)
    ensures ClassifyRollback(c, f, id, w, pointer) == Restored
      <==> !pointer && exists k, desired, child, pending, complete :: IsRestored(c, f, id, w, k, desired, child, pending, complete)
    ensures ClassifyRollback(c, f, id, w, pointer) == NotPublished
      <==> !pointer && exists k, desired, child, pending :: IsNotPublished(c, f, id, w, k, desired, child, pending)
  {
    hide ObserveRollback, IsBegun, CompletionAgrees, Settled, FilesAgree, SettleRollback;
    forall k, desired, child, pending, complete | !pointer && IsBegun(c, f, id, w, k, desired, child, pending, complete)
      ensures ClassifyRollback(c, f, id, w, pointer) == Restored
        <==> IsRestored(c, f, id, w, k, desired, child, pending, complete)
      ensures ClassifyRollback(c, f, id, w, pointer) == NotPublished
        <==> !complete && IsNotPublished(c, f, id, w, k, desired, child, pending)
    {
      RollbackVerdictGiven(c, f, id, w, pointer, k, desired, child, pending, complete);
    }
    if ObserveRollback(c, f, id, w, pointer).Some? {
      var k, desired := ObservedHasFiles(c, f, id, w, pointer);
      ObservedIsBegun(c, f, id, w, pointer, k, desired, ObserveRollback(c, f, id, w, pointer).value.pending);
    }
  }

  /** When a selection and a rollback may begin. */

  lemma SelectionMayBegin(c: Codec, f: Formats, id: Identity, w: World, a: Attempt)
    ensures MaySelect(c, f, id, w, a)
      <==> Recorded(c, id, w, HEALTHY) && w.registration == w.before && a.child.identity == id
           && exists k, desired :: FilesAgree(c, f, id, w, k, desired) && k.version == a.child.version
    ensures !MaySelect(c, f, id, w, a) ==> Selected(c, f, id, w, a) == w
  {
    EvidenceExact(c, f, id, w);
    hide Accepted, Receipts, PreparedEvidence, FilesAgree;
    if k, desired :| FilesAgree(c, f, id, w, k, desired) {
      TheFiles(c, f, id, w, k, desired);
    }
  }

  ghost predicate MayRetreat(c: Codec, f: Formats, id: Identity, w: World, t: Retreat, k: Candidate, desired: Bytes,
                             child: Child)
  {
    && (Recorded(c, id, w, HEALTHY) || (Recorded(c, id, w, SELECTED) && SelectionAgrees(c, f, id, w, k)))
    && FilesAgree(c, f, id, w, k, desired) && ChildAgrees(c, f, id, w, k, child) && child.generation == t.generation
    && Settled(w, Activate, Saved, RevisionAt(w.before), Some(RevisionOf(k.desired)))
    && RevisionAt(w.registration) == RevisionOf(k.desired)
  }

  lemma RetreatMayBegin(c: Codec, f: Formats, id: Identity, w: World, t: Retreat)
    ensures MayRollBack(c, f, id, w, t)
      <==> !t.pointer && exists k, desired, child :: MayRetreat(c, f, id, w, t, k, desired, child)
    ensures !MayRollBack(c, f, id, w, t) ==> RolledBack(c, f, id, w, t) == w
  {
    EvidenceExact(c, f, id, w);
    if k, desired :| FilesAgree(c, f, id, w, k, desired) {
      TheFiles(c, f, id, w, k, desired);
      if PreparedEvidence(c, f, id, w).Some? {
        RetreatGiven(c, f, id, w, t, k, desired);
      }
    }
    hide FilesAgree, Accepted, Receipts, PreparedEvidence, ChildAgrees, ReadChild, Recorded, SelectionAgrees, Settled;
  }

  lemma RetreatGiven(c: Codec, f: Formats, id: Identity, w: World, t: Retreat, k: Candidate, desired: Bytes)
    requires FilesAgree(c, f, id, w, k, desired) && PreparedEvidence(c, f, id, w).Some?
    ensures MayRollBack(c, f, id, w, t) <==> !t.pointer && exists child :: MayRetreat(c, f, id, w, t, k, desired, child)
  {
    EvidenceExact(c, f, id, w);
    ChildExact(c, f, id, w, k);
    hide FilesAgree, Accepted, Receipts, PreparedEvidence, ChildAgrees, ReadChild;
    if child :| ChildAgrees(c, f, id, w, k, child) {
      assert MayRollBack(c, f, id, w, t) <==> !t.pointer && MayRetreat(c, f, id, w, t, k, desired, child);
    }
  }
}
