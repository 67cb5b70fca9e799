/**
Whatever step of a selection or of a rollback the owner is lost in, what a later owner concludes from the evidence is
true: a verdict names the swaps that took place and the bytes that are registered.
*/
module ActivationVerdicts {
  import opened ActivationJournal
  import opened ActivationRegistration
  import opened Evidence
  import opened Wrappers

  /** What happens to the evidence. Swaps by anyone else are held out by the admission barrier. */

  datatype Event =
    | SelectEvent(attempt: Attempt)
    | RollBackEvent(retreat: Retreat)
    | PruneEvent(op: Operation)
    | PhaseEvent(phase: Phase, evidence: Digest, stored: Option<nat>)

  function Step(c: Codec, f: Formats, id: Identity, w: World, e: Event): World {
    match e
    case SelectEvent(a) => Selected(c, f, id, w, a)
    case RollBackEvent(t) => RolledBack(c, f, id, w, t)
    // The store of receipts drops its oldest.
    case PruneEvent(op) => w.(receipts := w.receipts - {op})
    // Any phase recorded by another part of the activation.
    case PhaseEvent(phase, evidence, stored) =>
      if phase in {RegistrationCas, RollbackPending, RollbackComplete} then w
      else WithPhase(c, id, w, phase, evidence, stored).0
  }

  function After(c: Codec, f: Formats, id: Identity, w: World, events: seq<Event>): World {
    if events == [] then w
    else Step(c, f, id, After(c, f, id, w, events[..|events| - 1]), events[|events| - 1])
  }

  // Preparation is complete and nothing has been selected.
  ghost predicate Start(c: Codec, f: Formats, id: Identity, w: World) {
    && w.registration == w.before && w.child.None? && w.receipts == map[] && w.published == {}
    && !Recorded(c, id, w, RegistrationCas)
  }

  /** The invariant. */

  // An accepted journal holds the phase.
  ghost predicate Recorded(c: Codec, id: Identity, w: World, p: Phase) {
    Accepted(c, id, w.entries) && p in Phases(Receipts(c, id, w.entries))
  }

  ghost predicate ReceiptIsTrue(w: World, op: Operation) {
    op in w.receipts ==>
      && (w.receipts[op].persistence.Saved? ==> op in w.published)
      && (w.receipts[op].persistence.Unpublished? ==> op !in w.published)
  }

  ghost predicate Inv(c: Codec, f: Formats, id: Identity, w: World) {
    && (Activate in w.published || Activate in w.receipts ==> w.child.Some?)
    && (RollBack in w.published ==> Activate in w.published)
    && w.registration == Standing(f, w)
    && (RollBack in w.published || RollBack in w.receipts ==>
          Accepted(c, id, w.entries) ==> Recorded(c, id, w, RollbackPending))
    && (Recorded(c, id, w, RegistrationCas) ==> Activate in w.published)
    && ReceiptIsTrue(w, Activate) && ReceiptIsTrue(w, RollBack)
  }

  // What the swaps so far say is registered.
  function Standing(f: Formats, w: World): Option<Bytes> {
    if Activate in w.published && RollBack !in w.published then DesiredBytes(f, w) else w.before
  }

  /** Each durable step keeps it. */

  // Phases are only ever added.
  lemma PhaseOnlyAdds(c: Codec, id: Identity, w: World, phase: Phase, evidence: Digest, stored: Option<nat>)
    requires Faithful(c)
    ensures var w1 := WithPhase(c, id, w, phase, evidence, stored).0;
      && w1 == w.(entries := w1.entries)
      && (Accepted(c, id, w1.entries) ==> Accepted(c, id, w.entries))
      && (forall p :: Recorded(c, id, w1, p) ==> p == phase || Recorded(c, id, w, p))
      && (forall p :: Recorded(c, id, w, p) && Accepted(c, id, w1.entries) ==> Recorded(c, id, w1, p))
    ensures WithPhase(c, id, w, phase, evidence, stored).1.Some? ==>
      Recorded(c, id, WithPhase(c, id, w, phase, evidence, stored).0, phase)
  {
    var w1 := WithPhase(c, id, w, phase, evidence, stored).0;
    if Appendable(c, id, w.entries, phase) && Accepted(c, id, w1.entries) {
      var r := RecordFor(c, id, w.entries, phase, evidence);
      var kept := if stored.Some? && stored.value <= |c.encode(r)| then stored.value else |c.encode(r)|;
      TornAppendTellsNoLie(c, id, w.entries, phase, evidence, kept);
      var was, now := Receipts(c, id, w.entries), Receipts(c, id, w1.entries);
      assert now == was + [now[|was|]] && now[|was|].record.phase == phase;
      PhasesExtend(was, now[|was|]);
    }
    if WithPhase(c, id, w, phase, evidence, stored).1.Some? {
      AppendExtends(c, id, w.entries, phase, evidence);
      PhasesExtend(Receipts(c, id, w.entries), Receipts(c, id, w1.entries)[|w.entries|]);
    }
  }

  lemma PhasesExtend(rs: seq<Receipt>, r: Receipt)
    ensures Phases(rs + [r]) == Phases(rs) + [r.record.phase]
  {
  }

  lemma PhaseKeepsInv(c: Codec, f: Formats, id: Identity, w: World, phase: Phase, evidence: Digest, stored: Option<nat>)
    requires Faithful(c) && Inv(c, f, id, w)
    requires phase == RegistrationCas ==> Activate in w.published
    ensures Inv(c, f, id, WithPhase(c, id, w, phase, evidence, stored).0)
  {
    PhaseOnlyAdds(c, id, w, phase, evidence, stored);
    hide WithPhase, Recorded, Accepted, DesiredBytes;
  }

  lemma ChildKeepsInv(c: Codec, f: Formats, id: Identity, w: World, bytes: Bytes, stored: Option<nat>)
    requires Inv(c, f, id, w)
    ensures Inv(c, f, id, WithChild(w, bytes, stored).0)
    ensures WithChild(w, bytes, stored).1 ==> WithChild(w, bytes, stored).0.child.Some?
  {
    var w1 := WithChild(w, bytes, stored).0;
    assert forall p :: Recorded(c, id, w1, p) == Recorded(c, id, w, p);
    hide Recorded, Accepted;
  }

  // The forward swap, from a journal that has not begun to roll back.
  lemma SwapForwardKeepsInv(c: Codec, f: Formats, id: Identity, w: World, swap: Swap)
    requires Inv(c, f, id, w) && w.child.Some? && DesiredBytes(f, w).Some? && w.registration == w.before
    requires Accepted(c, id, w.entries) && !Recorded(c, id, w, RollbackPending)
    ensures var (w1, outcome) := SwapForward(f, id, w, swap);
      && Inv(c, f, id, w1) && w1.entries == w.entries
      && (outcome.Some? && outcome.value.persistence.Saved? ==> Activate in w1.published)
  {
    var w1 := SwapForward(f, id, w, swap).0;
    assert forall p :: Recorded(c, id, w1, p) == Recorded(c, id, w, p);
    hide Recorded, Accepted;
  }

  // The swap back, once the pending phase is recorded.
  lemma SwapBackKeepsInv(c: Codec, f: Formats, id: Identity, w: World, t: Retreat, e: PreparedState, childSha: Digest,
                         pending: Digest)
    requires Inv(c, f, id, w) && Activate in w.published && RollBack !in w.published
    requires Recorded(c, id, w, RollbackPending)
    ensures var (w1, outcome) := SwapBack(f, id, w, t, e, childSha, pending);
      Inv(c, f, id, w1) && w1.entries == w.entries
  {
    var w1 := SwapBack(f, id, w, t, e, childSha, pending).0;
    assert forall p :: Recorded(c, id, w1, p) == Recorded(c, id, w, p);
    hide Recorded, Accepted;
  }

  /** Whole attempts. */

  // Evidence fit to act on has neither begun to roll back nor been rolled back.
  lemma PreparedMeansNotRollingBack(c: Codec, f: Formats, id: Identity, w: World)
    requires PreparedEvidence(c, f, id, w).Some?
    ensures Accepted(c, id, w.entries) && !Recorded(c, id, w, RollbackPending) && DesiredBytes(f, w).Some?
    ensures |PreparedEvidence(c, f, id, w).value.journal| == 4 ==> !Recorded(c, id, w, RegistrationCas)
    ensures PreparedEvidence(c, f, id, w).value.journal == Receipts(c, id, w.entries)
  {
    var ps := Phases(Receipts(c, id, w.entries));
    AcceptedIsPath(c, id, w.entries);
    forall k | 0 <= k < |ps|
      ensures ps[k] != RollbackPending
      ensures |ps| == 4 ==> ps[k] != RegistrationCas
    {
      PlaceOfPhase(ps, k);
      assert ps[3] == TrialHealthy && (|ps| == 5 ==> ps[4] == RegistrationCas);
    }
  }

  lemma SelectionKeepsInv(c: Codec, f: Formats, id: Identity, w: World, a: Attempt)
    requires Faithful(c) && Inv(c, f, id, w)
    ensures Inv(c, f, id, Selected(c, f, id, w, a))
  {
    if MaySelect(c, f, id, w, a) {
      PreparedMeansNotRollingBack(c, f, id, w);
      var bytes := f.child(a.child);
      ChildKeepsInv(c, f, id, w, bytes, a.childStored);
      ChildOnly(w, bytes, a.childStored);
      var (w1, recorded) := WithChild(w, bytes, a.childStored);
      assert Recorded(c, id, w1, RollbackPending) == Recorded(c, id, w, RollbackPending);
      assert DesiredBytes(f, w1) == DesiredBytes(f, w);
      hide Inv, Recorded, Accepted, PreparedEvidence, WithChild, WithPhase, SwapForward, DesiredBytes, MaySelect;
      if recorded && a.goesOnToSwap {
        SwapForwardKeepsInv(c, f, id, w1, a.swap);
        var (w2, outcome) := SwapForward(f, id, w1, a.swap);
        if outcome.Some? && outcome.value.persistence.Saved? {
          PhaseKeepsInv(c, f, id, w2, RegistrationCas,
                        Sha256(f.selection(id, outcome.value.before, Revised(DesiredBytes(f, w)), Sha256(bytes))),
                        a.receiptStored);
        }
      }
    }
  }

  lemma RetreatFacts(c: Codec, f: Formats, id: Identity, w: World, t: Retreat)
    requires Inv(c, f, id, w) && MayRollBack(c, f, id, w, t)
    ensures Activate in w.published && RollBack !in w.published
    ensures Accepted(c, id, w.entries)
  {
    PreparedMeansNotRollingBack(c, f, id, w);
  }

  lemma RollbackKeepsInv(c: Codec, f: Formats, id: Identity, w: World, t: Retreat)
    requires Faithful(c) && Inv(c, f, id, w)
    ensures Inv(c, f, id, RolledBack(c, f, id, w, t))
  {
    hide Inv, Recorded, Accepted, Receipts, WithPhase, SwapBack, CandidateAgrees, HealthyOrSelected;
    if MayRollBack(c, f, id, w, t) {
      RetreatFacts(c, f, id, w, t);
      MayRollBackHasReceipts(c, f, id, w, t);
      var e := PreparedEvidence(c, f, id, w).value;
      var desired, before := RevisionOf(e.candidate.desired), Revised(w.before);
      var childSha := Sha256(w.child.value);
      var intent := Sha256(f.intent(id, e.candidate.stageId, t.generation, before, desired, childSha,
                                    e.journal[|e.journal| - 1].sha));
      PhaseKeepsInv(c, f, id, w, RollbackPending, intent, t.pendingStored);
      PhaseOnlyAdds(c, id, w, RollbackPending, intent, t.pendingStored);
      var (w1, pending) := WithPhase(c, id, w, RollbackPending, intent, t.pendingStored);
      if pending.Some? && t.goesOnToSwap {
        SwapBackKeepsInv(c, f, id, w1, t, e, childSha, pending.value.sha);
        var w2 := SwapBack(f, id, w1, t, e, childSha, pending.value.sha).0;
        PhaseKeepsInv(c, f, id, w2, RollbackComplete, Sha256(f.completion(id, pending.value.sha, desired, before)),
                      t.completeStored);
      }
    }
  }

  lemma StepKeepsInv(c: Codec, f: Formats, id: Identity, w: World, e: Event)
    requires Faithful(c) && Inv(c, f, id, w)
    ensures Inv(c, f, id, Step(c, f, id, w, e))
  {
    match e
    case SelectEvent(a) =>
      SelectionKeepsInv(c, f, id, w, a);
    case RollBackEvent(t) =>
      RollbackKeepsInv(c, f, id, w, t);
    case PruneEvent(op) =>
      var w1 := w.(receipts := w.receipts - {op});
      assert forall p :: Recorded(c, id, w1, p) == Recorded(c, id, w, p);
      hide Recorded, Accepted;
    case PhaseEvent(phase, evidence, stored) =>
      if phase != RegistrationCas {
        PhaseKeepsInv(c, f, id, w, phase, evidence, stored);
      }
  }

  lemma {:induction false} EveryRunKeepsInv(c: Codec, f: Formats, id: Identity, w: World, events: seq<Event>)
    requires Faithful(c) && Start(c, f, id, w)
    ensures Inv(c, f, id, After(c, f, id, w, events))
    decreases |events|
  {
    if events != [] {
      var before := events[..|events| - 1];
      EveryRunKeepsInv(c, f, id, w, before);
      hide Inv, Start;
      StepKeepsInv(c, f, id, After(c, f, id, w, before), events[|events| - 1]);
    } else {
      hide After;
      assert After(c, f, id, w, []) == w by { NothingHappened(c, f, id, w); }
    }
  }

  lemma NothingHappened(c: Codec, f: Formats, id: Identity, w: World)
    ensures After(c, f, id, w, []) == w
  {
  }

  /** The verdicts are true. */

  lemma SelectionVerdictIsTrue(c: Codec, f: Formats, id: Identity, w: World, pointer: bool, observed: ChildState)
    requires Inv(c, f, id, w)
    ensures Classify(c, f, id, w, pointer, observed) == NotSelected ==> w.published == {} && w.registration == w.before
    ensures Classify(c, f, id, w, pointer, observed) == SelectedUnresolved ==>
      w.published == {Activate} && w.registration == DesiredBytes(f, w) && w.registration.Some?
  {
    if PreparedEvidence(c, f, id, w).Some? {
      PreparedMeansNotRollingBack(c, f, id, w);
      assert RollBack !in w.published;
      forall op | op in w.published
        ensures op == Activate
      {
      }
      hide Recorded, Accepted, Receipts, CandidateAgrees, HealthyOrSelected;
    }
  }

  lemma RollbackVerdictIsTrue(c: Codec, f: Formats, id: Identity, w: World, pointer: bool)
    requires Inv(c, f, id, w)
    ensures ClassifyRollback(c, f, id, w, pointer) == Restored ==>
      w.published == {Activate, RollBack} && w.registration == w.before
    ensures ClassifyRollback(c, f, id, w, pointer) == NotPublished ==>
      w.published == {Activate} && w.registration == DesiredBytes(f, w) && w.registration.Some?
  {
    hide Recorded, Accepted, Receipts, RollbackShape, ReadChild;
    var verdict := ClassifyRollback(c, f, id, w, pointer);
    if verdict != UnknownRollback {
      assert Activate in w.published;
      forall op
        ensures op in w.published <==> op == Activate || (op == RollBack && verdict == Restored)
      {
      }
    }
  }

  /** In every run of selections, rollbacks, other phases and dropped receipts, each lost wherever it may be, every
      verdict is true of what took place. */
  lemma EveryVerdictIsTrue(c: Codec, f: Formats, id: Identity, w: World, events: seq<Event>, pointer: bool,
                           observed: ChildState)
    requires Faithful(c) && Start(c, f, id, w)
    ensures var now := After(c, f, id, w, events);
      var verdict := Classify(c, f, id, now, pointer, observed);
      var back := ClassifyRollback(c, f, id, now, pointer);
      && (verdict == NotSelected ==> now.published == {} && now.registration == now.before)
      && (verdict == SelectedUnresolved ==> now.published == {Activate} && now.registration == DesiredBytes(f, now))
      && (back == Restored ==> now.published == {Activate, RollBack} && now.registration == now.before)
      && (back == NotPublished ==> now.published == {Activate} && now.registration == DesiredBytes(f, now))
      && (verdict == UnknownOutcome || back == UnknownRollback)
  {
    EveryRunKeepsInv(c, f, id, w, events);
    var now := After(c, f, id, w, events);
    hide After, Start;
    SelectionVerdictIsTrue(c, f, id, now, pointer, observed);
    RollbackVerdictIsTrue(c, f, id, now, pointer);
    OneClassifierSpeaks(c, f, id, now, pointer, observed);
    hide Classify, ClassifyRollback;
  }

  // A journal that can be classified as a selection holds no pending rollback.
  lemma OneClassifierSpeaks(c: Codec, f: Formats, id: Identity, w: World, pointer: bool, observed: ChildState)
    ensures Classify(c, f, id, w, pointer, observed) == UnknownOutcome
      || ClassifyRollback(c, f, id, w, pointer) == UnknownRollback
  {
    if PreparedEvidence(c, f, id, w).Some? {
      PreparedMeansNotRollingBack(c, f, id, w);
      var ps := Phases(Receipts(c, id, w.entries));
      forall pending: nat
        ensures !RollbackShape(ps, pending)
      {
        assert pending < |ps| ==> ps[pending] in ps;
      }
      hide Accepted, CandidateAgrees, ReadChild;
    }
  }
}
