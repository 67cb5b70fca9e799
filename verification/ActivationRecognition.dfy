/** The classifiers do answer: what each one says after a first attempt, by where the attempt stopped. */
module ActivationRecognition {
  import opened ActivationJournal
  import opened ActivationRegistration
  import opened Evidence
  import opened Wrappers

  // A first attempt, by the trial whose running receipt is in the journal.
  ghost predicate FirstAttempt(c: Codec, f: Formats, id: Identity, w: World, a: Attempt) {
    && MaySelect(c, f, id, w, a) && w.child.None? && w.receipts == map[]
    && |f.child(a.child)| <= CHILD_LIMIT && f.parseChild(f.child(a.child)) == Some(a.child)
    && PreparedEvidence(c, f, id, w).value.journal[2].record.evidence
       == Sha256(f.running(id, a.child.generation, a.child.version))
  }

  // The child file is whole.
  predicate ChildIsWhole(f: Formats, a: Attempt) {
    !(a.childStored.Some? && a.childStored.value <= |f.child(a.child)|)
  }

  // The swap leaves a receipt of this kind.
  predicate SwapLeaves(f: Formats, w: World, a: Attempt, p: Persistence) {
    a.goesOnToSwap && Lawful(w, DesiredBytes(f, w), a.swap) && a.swap.receipt == Some(p)
  }

  // Changing the child file, the registration or the receipts changes nothing that preparation recorded.
  lemma SameEvidence(c: Codec, f: Formats, id: Identity, w: World, w1: World)
    requires w1.entries == w.entries && w1.marker == w.marker && w1.candidate == w.candidate && w1.before == w.before
    ensures PreparedEvidence(c, f, id, w1) == PreparedEvidence(c, f, id, w)
    ensures DesiredBytes(f, w1) == DesiredBytes(f, w)
  {
  }

  /** After a first attempt whose receipt is not reached, the verdict names the swap exactly when its receipt does; a
      child file without a settled receipt leaves the outcome unknown. */
  lemma VerdictAfterFirstAttempt(c: Codec, f: Formats, id: Identity, w: World, a: Attempt)
    requires FirstAttempt(c, f, id, w, a) && ChildIsWhole(f, a) && !a.goesOnToAppend
    ensures var verdict := Classify(c, f, id, Selected(c, f, id, w, a), false, SameProcess);
      && (verdict == SelectedUnresolved <==> SwapLeaves(f, w, a, Saved))
      && (verdict == NotSelected <==> SwapLeaves(f, w, a, Unpublished))
  {
    hide Accepted, Receipts, CandidateAgrees, HealthyOrSelected, PreparedEvidence;
    Anchored(c, f, id, w);
    var now := Selected(c, f, id, w, a);
    var w1 := WithChild(w, f.child(a.child), a.childStored).0;
    assert w1 == w.(child := Some(f.child(a.child)));
    SameEvidence(c, f, id, w, w1);
    SameEvidence(c, f, id, w, now);
  }

  lemma Anchored(c: Codec, f: Formats, id: Identity, w: World)
    requires PreparedEvidence(c, f, id, w).Some?
    ensures var e := PreparedEvidence(c, f, id, w).value;
      && DesiredBytes(f, w) == Some(e.desired) && w.candidate.Some? && f.parseCandidate(w.candidate.value) == Some(e.candidate)
      && e.candidate.beforeRevision == Revised(w.before) && e.candidate.desired == Sha256(e.desired)
      && |e.journal| in {4, 5}
  {
  }

  /** Before the child file is begun, the verdict is that nothing was selected, unless the prior bytes are themselves
      the wanted ones. */
  lemma VerdictBeforeAttempt(c: Codec, f: Formats, id: Identity, w: World, a: Attempt, observed: ChildState)
    requires FirstAttempt(c, f, id, w, a)
    ensures Classify(c, f, id, w, false, observed) == NotSelected <==> w.before != DesiredBytes(f, w)
  {
    hide Accepted, Receipts, CandidateAgrees, HealthyOrSelected, PreparedEvidence;
    Anchored(c, f, id, w);
  }

  // The next receipt of the journal is within the size that the reader takes.
  predicate PhaseFits(c: Codec, id: Identity, w: World, phase: Phase, evidence: Digest) {
    Fits(c, RecordFor(c, id, w.entries, phase, evidence))
  }

  // A receipt that does not fit leaves a journal that nothing can be concluded from.
  lemma UnfitPhaseIsUnreadable(c: Codec, f: Formats, id: Identity, w: World, phase: Phase, evidence: Digest)
    requires Appendable(c, id, w.entries, phase) && !PhaseFits(c, id, w, phase, evidence)
    ensures var (now, receipt) := WithPhase(c, id, w, phase, evidence, None);
      && receipt.None? && !Accepted(c, id, now.entries)
      && (forall pointer, observed :: Classify(c, f, id, now, pointer, observed) == UnknownOutcome)
      && (forall pointer :: ClassifyRollback(c, f, id, now, pointer) == UnknownRollback)
  {
    var r := RecordFor(c, id, w.entries, phase, evidence);
    UnreadableLength(c, id, w.entries, r, |c.encode(r)|);
    hide Accepted;
  }

  // The digest that the receipt of a selection carries.
  function SelectionDigest(f: Formats, id: Identity, w: World, a: Attempt): Digest {
    Sha256(f.selection(id, Revised(w.before), Revised(DesiredBytes(f, w)), Sha256(f.child(a.child))))
  }

  /** A selection that reaches its receipt is recognised, and recognised as itself, exactly when the receipt is one that can
      be read. */
  lemma CompletedSelectionIsRecognised(c: Codec, f: Formats, id: Identity, w: World, a: Attempt)
    requires Faithful(c) && FirstAttempt(c, f, id, w, a) && ChildIsWhole(f, a) && SwapLeaves(f, w, a, Saved)
    requires a.goesOnToAppend && a.receiptStored.None?
    ensures Classify(c, f, id, Selected(c, f, id, w, a), false, SameProcess)
      == if PhaseFits(c, id, w, RegistrationCas, SelectionDigest(f, id, w, a)) then SelectedUnresolved else UnknownOutcome
  {
    hide Appended, Accepted, Receipts, CandidateAgrees, HealthyOrSelected, PreparedEvidence, Selected, WithPhase, Fits;
    Anchored(c, f, id, w);
    var evidence := SelectionDigest(f, id, w, a);
    var swapped := Selected(c, f, id, w, a.(goesOnToAppend := false));
    var now := Selected(c, f, id, w, a);
    AfterSwap(c, f, id, w, a);
    assert now == WithPhase(c, id, swapped, RegistrationCas, evidence, None).0;
    SameEvidence(c, f, id, w, swapped);
    if PhaseFits(c, id, w, RegistrationCas, evidence) {
      ExtendedEvidence(c, f, id, swapped, evidence);
    } else {
      SelectionMayAppend(c, f, id, swapped);
      UnfitPhaseIsUnreadable(c, f, id, swapped, RegistrationCas, evidence);
    }
  }

  lemma SelectionMayAppend(c: Codec, f: Formats, id: Identity, w: World)
    requires PreparedEvidence(c, f, id, w).Some? && |PreparedEvidence(c, f, id, w).value.journal| == 4
    ensures Appendable(c, id, w.entries, RegistrationCas)
  {
    assert Phases(PreparedEvidence(c, f, id, w).value.journal)[3] == TrialHealthy;
  }

  lemma AfterSwap(c: Codec, f: Formats, id: Identity, w: World, a: Attempt)
    requires FirstAttempt(c, f, id, w, a) && ChildIsWhole(f, a) && SwapLeaves(f, w, a, Saved)
    ensures var swapped := Selected(c, f, id, w, a.(goesOnToAppend := false));
      && swapped.entries == w.entries && swapped.marker == w.marker && swapped.candidate == w.candidate
      && swapped.before == w.before && swapped.child == Some(f.child(a.child))
      && swapped.registration == DesiredBytes(f, w) && Activate in swapped.receipts
      && swapped.receipts[Activate].persistence == Saved && swapped.receipts[Activate].before == Revised(w.before)
      && swapped.receipts[Activate].persisted == Some(Revised(DesiredBytes(f, w)))
      && (a.goesOnToAppend ==>
            Selected(c, f, id, w, a) == WithPhase(c, id, swapped, RegistrationCas,
              SelectionDigest(f, id, w, a), a.receiptStored).0)
  {
    hide PreparedEvidence, WithPhase;
    Anchored(c, f, id, w);
  }

  // With the receipt appended, the evidence is the same with one receipt more.
  lemma ExtendedEvidence(c: Codec, f: Formats, id: Identity, w: World, evidence: Digest)
    requires Faithful(c) && PreparedEvidence(c, f, id, w).Some? && |PreparedEvidence(c, f, id, w).value.journal| == 4
    requires PhaseFits(c, id, w, RegistrationCas, evidence)
    ensures var e := PreparedEvidence(c, f, id, w).value;
      var now := WithPhase(c, id, w, RegistrationCas, evidence, None).0;
      && now == w.(entries := now.entries)
      && PreparedEvidence(c, f, id, now).Some?
      && var e1 := PreparedEvidence(c, f, id, now).value;
      && e1 == e.(journal := e1.journal) && |e1.journal| == 5 && e1.journal[..4] == e.journal
      && e1.journal[4].record.evidence == evidence
  {
    var e := PreparedEvidence(c, f, id, w).value;
    var now := WithPhase(c, id, w, RegistrationCas, evidence, None).0;
    assert Phases(e.journal)[3] == TrialHealthy;
    SelectionMayAppend(c, f, id, w);
    AppendExtends(c, id, w.entries, RegistrationCas, evidence);
    hide Accepted, DesiredBytes, Receipts, RecordFor;
    var journal := Receipts(c, id, now.entries);
    assert journal[0] == e.journal[0];
    assert HealthyOrSelected(Phases(journal));
    assert CandidateAgrees(f, id, now, journal[0]);
  }

  /** A rollback that swaps back is recognised, whether or not it reaches its last receipt. */

  // A first rollback that gets as far as its swap.
  ghost predicate FirstRetreat(c: Codec, f: Formats, id: Identity, w: World, t: Retreat) {
    && MayRollBack(c, f, id, w, t) && RollBack !in w.receipts
    && t.pendingStored.None? && t.goesOnToSwap
  }

  // The receipt of the pending phase can be read.
  ghost predicate PendingFits(c: Codec, f: Formats, id: Identity, w: World, t: Retreat)
    requires MayRollBack(c, f, id, w, t)
  {
    MayRollBackHasReceipts(c, f, id, w, t);
    PhaseFits(c, id, w, RollbackPending, Intention(f, id, w, t, PreparedEvidence(c, f, id, w).value))
  }

  lemma VerdictAfterFirstRetreat(c: Codec, f: Formats, id: Identity, w: World, t: Retreat)
    requires Faithful(c) && FirstRetreat(c, f, id, w, t) && Lawful(w, w.before, t.swap)
    requires !t.goesOnToAppend
    ensures var verdict := ClassifyRollback(c, f, id, RolledBack(c, f, id, w, t), false);
      && (verdict == Restored <==> PendingFits(c, f, id, w, t) && t.swap.receipt == Some(Saved))
      && (verdict == NotPublished <==> PendingFits(c, f, id, w, t) && t.swap.receipt == Some(Unpublished))
  {
    hide RolledBack, SwapBack, WithPhase, ObserveRollback, PreparedEvidence, CandidateAgrees, RollbackShape, PhaseFits;
    MayRollBackHasReceipts(c, f, id, w, t);
    var e := PreparedEvidence(c, f, id, w).value;
    if PendingFits(c, f, id, w, t) {
      var now, w1, childSha, pending := RetreatUnfolds(c, f, id, w, t);
      SwapBackLeaves(f, id, w1, t, e, childSha, pending);
      RetreatIsObserved(c, f, id, w, t, now);
    } else {
      UnfitRetreat(c, f, id, w, t);
    }
    hide MayRollBack;
  }

  lemma UnfitRetreat(c: Codec, f: Formats, id: Identity, w: World, t: Retreat)
    requires FirstRetreat(c, f, id, w, t) && !PendingFits(c, f, id, w, t)
    ensures ClassifyRollback(c, f, id, RolledBack(c, f, id, w, t), false) == UnknownRollback
  {
    hide ClassifyRollback, WithPhase, Accepted, Receipts, CandidateAgrees, HealthyOrSelected, ReadChild, PhaseFits;
    MayRollBackHasReceipts(c, f, id, w, t);
    var e := PreparedEvidence(c, f, id, w).value;
    RetreatMayAppend(c, f, id, w);
    UnfitPhaseIsUnreadable(c, f, id, w, RollbackPending, Intention(f, id, w, t, e));
  }

  lemma RetreatMayAppend(c: Codec, f: Formats, id: Identity, w: World)
    requires PreparedEvidence(c, f, id, w).Some?
    ensures Appendable(c, id, w.entries, RollbackPending)
  {
    var e := PreparedEvidence(c, f, id, w).value;
    assert Phases(e.journal)[3] == TrialHealthy;
    assert |e.journal| == 5 ==> Phases(e.journal)[4] == RegistrationCas;
  }

  lemma RetreatUnfolds(c: Codec, f: Formats, id: Identity, w: World, t: Retreat)
    returns (now: World, w1: World, childSha: Digest, pending: Digest)
    requires Faithful(c) && FirstRetreat(c, f, id, w, t) && !t.goesOnToAppend && PendingFits(c, f, id, w, t)
    ensures |PreparedEvidence(c, f, id, w).value.journal| in {4, 5} && w.child.Some?
    ensures var e := PreparedEvidence(c, f, id, w).value;
      && now == RolledBack(c, f, id, w, t)
      && w1 == WithPhase(c, id, w, RollbackPending, Intention(f, id, w, t, e), None).0
      && w1 == w.(entries := w1.entries)
      && now == SwapBack(f, id, w1, t, e, childSha, pending).0
      && Revised(w.registration) == RevisionOf(e.candidate.desired)
  {
    MayRollBackHasReceipts(c, f, id, w, t);
    var e := PreparedEvidence(c, f, id, w).value;
    PendingEvidence(c, f, id, w, t, Intention(f, id, w, t, e));
    hide PreparedEvidence, WithPhase, SwapBack, Accepted, Receipts, CandidateAgrees, RollbackShape, ReadChild;
    var receipt: Option<Receipt>;
    w1, receipt := WithPhase(c, id, w, RollbackPending, Intention(f, id, w, t, e), None).0,
                   WithPhase(c, id, w, RollbackPending, Intention(f, id, w, t, e), None).1;
    now, childSha, pending := RolledBack(c, f, id, w, t), Sha256(w.child.value), receipt.value.sha;
  }

  // The digest that the pending phase of a retreat carries.
  function Intention(f: Formats, id: Identity, w: World, t: Retreat, e: PreparedState): Digest
    requires w.child.Some? && e.journal != []
  {
    Sha256(f.intent(id, e.candidate.stageId, t.generation, Revised(w.before), RevisionOf(e.candidate.desired),
                    Sha256(w.child.value), e.journal[|e.journal| - 1].sha))
  }

  // A world that still holds what the retreat started from, and its pending phase, is seen as that rollback.
  lemma RetreatIsObserved(c: Codec, f: Formats, id: Identity, w: World, t: Retreat, now: World)
    requires Faithful(c) && MayRollBack(c, f, id, w, t) && PendingFits(c, f, id, w, t)
    requires var e := PreparedEvidence(c, f, id, w).value;
      && |e.journal| in {4, 5} && w.child.Some?
      && now.entries == WithPhase(c, id, w, RollbackPending, Intention(f, id, w, t, e), None).0.entries
    requires now == w.(entries := now.entries, registration := now.registration, receipts := now.receipts,
                       published := now.published)
    requires Activate in now.receipts && now.receipts[Activate] == w.receipts[Activate]
    ensures var e := PreparedEvidence(c, f, id, w).value;
      var seen := ObserveRollback(c, f, id, now, false);
      && seen.Some? && seen.value.pending == |e.journal| && |seen.value.journal| == |e.journal| + 1
      && seen.value.candidate == e.candidate
  {
    hide PreparedEvidence, WithPhase, Accepted, Receipts, RollbackShape, HealthyOrSelected;
    var e := PreparedEvidence(c, f, id, w).value;
    Anchored(c, f, id, w);
    PendingEvidence(c, f, id, w, t, Intention(f, id, w, t, e));
    assert CandidateAgrees(f, id, now, e.journal[0]) && DesiredBytes(f, now) == DesiredBytes(f, w);
  }

  lemma SwapBackLeaves(f: Formats, id: Identity, w: World, t: Retreat, e: PreparedState, childSha: Digest, pending: Digest)
    requires RollBack !in w.receipts && Activate in w.receipts && Lawful(w, w.before, t.swap)
    requires Revised(w.registration) == RevisionOf(e.candidate.desired)
    ensures var now := SwapBack(f, id, w, t, e, childSha, pending).0;
      && now == w.(registration := now.registration, receipts := now.receipts, published := now.published)
      && now.registration == (if t.swap.publishes then w.before else w.registration)
      && Activate in now.receipts && now.receipts[Activate] == w.receipts[Activate]
      && (RollBack in now.receipts <==> t.swap.receipt.Some?)
      && (t.swap.receipt.Some? ==>
            && now.receipts[RollBack].persistence == t.swap.receipt.value
            && now.receipts[RollBack].before == RevisionOf(e.candidate.desired)
            && now.receipts[RollBack].persisted
               == if t.swap.receipt == Some(Saved) then Some(Revised(w.before)) else None)
  {
  }

  // With the pending phase appended, the journal has the shape of a rollback and the evidence is otherwise the same.
  lemma PendingEvidence(c: Codec, f: Formats, id: Identity, w: World, t: Retreat, evidence: Digest)
    requires Faithful(c) && MayRollBack(c, f, id, w, t) && PhaseFits(c, id, w, RollbackPending, evidence)
    ensures var e := PreparedEvidence(c, f, id, w).value;
      var (w1, pending) := WithPhase(c, id, w, RollbackPending, evidence, None);
      && w1 == w.(entries := w1.entries) && pending.Some?
      && Accepted(c, id, w1.entries)
      && var journal := Receipts(c, id, w1.entries);
      && journal == e.journal + [pending.value]
      && CandidateAgrees(f, id, w, journal[0])
      && RollbackShape(Phases(journal), |e.journal|)
      && pending.value.record.evidence == evidence && pending.value.record.phase == RollbackPending
      && (|e.journal| == 5 ==> e.journal[4].record.phase == RegistrationCas)
  {
    var e := PreparedEvidence(c, f, id, w).value;
    var w1 := WithPhase(c, id, w, RollbackPending, evidence, None).0;
    assert Phases(e.journal)[3] == TrialHealthy;
    assert |e.journal| == 5 ==> Phases(e.journal)[4] == RegistrationCas;
    RetreatMayAppend(c, f, id, w);
    AppendExtends(c, id, w.entries, RollbackPending, evidence);
    hide Accepted, DesiredBytes, Receipts, RecordFor, CandidateAgrees, ReadChild;
    var journal := Receipts(c, id, w1.entries);
    assert journal[0] == e.journal[0];
  }
}
