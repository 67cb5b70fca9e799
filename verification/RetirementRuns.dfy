/**
Over every run of cleaning, committing and clearing, each stopped or lost wherever it may be, admission stays barred until
all that the plan named is gone and the commit and its witness are durable; and unless a record was torn, the run finishes.
*/
module RetirementRuns {
  import opened Evidence
  import opened RetirementCleanup
  import opened RetirementEvidence
  import opened Wrappers

  // No commit is the beginning of another: the text ends with its only line feed.
  ghost predicate PrefixFree(f: Formats) {
    forall t: Terminal, u: Terminal :: IsPart(f.terminal(t), f.terminal(u)) ==> t == u
  }

  predicate IsPart(a: Bytes, b: Bytes) {
    |a| <= |b| && a == b[..|a|]
  }

  datatype Event =
    | CleanEvent(life: nat)
    | CommitEvent(stored: Option<nat>)
    | ClearEvent(witnessStored: Option<nat>, life: nat)

  function Cleaned(r: Readers, id: Identity, s: Store, life: nat): Store {
    if Verifies(r, id, s) then RemoveMany(PlanOf(r, s).rows, s, Min(life, Remaining(PlanOf(r, s).rows, s))) else s
  }

  function Step(r: Readers, id: Identity, s: Store, e: Event): Store {
    match e
    case CleanEvent(life) => Cleaned(r, id, s, life)
    case CommitEvent(stored) => Committed(r, id, s, stored)
    case ClearEvent(stored, life) => ClearedBarriers(r, id, s, stored, life)
  }

  function After(r: Readers, id: Identity, s: Store, events: seq<Event>): Store {
    if events == [] then s else Step(r, id, After(r, id, s, events[..|events| - 1]), events[|events| - 1])
  }

  // A planned and decided retirement that has not begun.
  ghost predicate Begins(r: Readers, id: Identity, s: Store) {
    Verifies(r, id, s) && s.terminal.None? && s.cleared.None? && PrefixFree(r.pair) && Faithful(r.pair)
  }

  /** The invariant. */

  function CommitText(r: Readers, id: Identity, barriers: map<Barrier, Bytes>): Bytes
    requires Authorised(r, id, barriers)
  {
    r.pair.terminal(TerminalFor(r, id, barriers))
  }

  function WitnessText(r: Readers, id: Identity, barriers: map<Barrier, Bytes>): Bytes
    requires Authorised(r, id, barriers)
  {
    r.pair.cleared(WitnessFor(TerminalFor(r, id, barriers), Sha256(CommitText(r, id, barriers))))
  }

  // Nothing that the plan names is left.
  predicate Bare(s: Store) {
    s.files == map[] && !s.directory && !s.foreign
  }

  predicate NoneMissing(s: Store) {
    DecisionFile in s.barriers && PlanFile in s.barriers && MarkerFile in s.barriers
  }

  ghost predicate Inv(r: Readers, id: Identity, start: map<Barrier, Bytes>, s: Store) {
    && Authorised(r, id, start)
    && (forall b <- s.barriers :: b in start && s.barriers[b] == start[b])
    && (s.terminal.None? ==> s.barriers == start && Verifies(r, id, s) && s.cleared.None?)
    && (s.terminal.Some? ==> Bare(s) && IsPart(s.terminal.value, CommitText(r, id, start)))
    && (s.cleared.Some? ==> s.terminal == Some(CommitText(r, id, start))
                            && IsPart(s.cleared.value, WitnessText(r, id, start)))
    && (!NoneMissing(s) ==> s.cleared == Some(WitnessText(r, id, start)))
    && (MarkerFile !in s.barriers ==> PlanFile !in s.barriers)
    && (PlanFile !in s.barriers ==> DecisionFile !in s.barriers)
  }

  /** Each operation keeps it. */

  lemma CleanKeepsInv(r: Readers, id: Identity, start: map<Barrier, Bytes>, s: Store, life: nat)
    requires Inv(r, id, start, s)
    ensures Inv(r, id, start, Cleaned(r, id, s, life))
    ensures s.terminal.Some? ==> Cleaned(r, id, s, life) == s
  {
    if Verifies(r, id, s) {
      var rows := PlanOf(r, s).rows;
      if s.terminal.Some? {
        NoFilesNonePresent(rows, s);
      } else {
        ManyRemovals(r, id, s, Min(life, Remaining(rows, s)));
      }
    }
    hide Verifies, Authorised;
  }

  lemma {:induction false} NoFilesNonePresent(rows: seq<Row>, s: Store)
    requires s.files == map[]
    ensures Present(rows, s) == []
  {
    if rows != [] {
      NoFilesNonePresent(rows[1..], s);
    }
  }

  lemma PartIsPart(b: Bytes, n: nat)
    requires n <= |b|
    ensures IsPart(b[..n], b)
  {
  }

  lemma CommitKeepsInv(r: Readers, id: Identity, start: map<Barrier, Bytes>, s: Store, stored: Option<nat>)
    requires Inv(r, id, start, s)
    ensures Inv(r, id, start, Committed(r, id, s, stored))
  {
    if Verifies(r, id, s) && Remaining(PlanOf(r, s).rows, s) == 0 && s.terminal.None? {
      NothingLeft(r, id, s);
      var bytes := CommitText(r, id, start);
      PartIsPart(bytes, |bytes|);
      assert bytes[..|bytes|] == bytes;
      if stored.Some? && stored.value <= |bytes| {
        PartIsPart(bytes, stored.value);
      }
      hide Verifies, Authorised, IsPart, PlanOf, Remaining;
    }
  }

  // A commit that reads back is the whole commit.
  lemma ReadCommitIsWhole(r: Readers, id: Identity, start: map<Barrier, Bytes>, s: Store)
    requires Inv(r, id, start, s) && PrefixFree(r.pair) && Clearance(r, id, s).Some?
    ensures s.terminal == Some(CommitText(r, id, start)) && Clearance(r, id, s).value == TerminalFor(r, id, start)
  {
    var t := Clearance(r, id, s).value;
    assert IsPart(r.pair.terminal(t), r.pair.terminal(TerminalFor(r, id, start)));
  }

  // The next barrier in order goes once the witness is whole.
  lemma DropKeepsInv(r: Readers, id: Identity, start: map<Barrier, Bytes>, s: Store, b: Barrier)
    requires Inv(r, id, start, s) && s.cleared == Some(WitnessText(r, id, start))
    requires b.PlanFile? ==> DecisionFile !in s.barriers
    requires b.MarkerFile? ==> DecisionFile !in s.barriers && PlanFile !in s.barriers
    ensures Inv(r, id, start, s.(barriers := s.barriers - {b}))
  {
    hide Authorised, Verifies;
  }

  lemma DropsKeepInv(r: Readers, id: Identity, start: map<Barrier, Bytes>, s: Store, life: nat)
    requires Inv(r, id, start, s) && s.cleared == Some(WitnessText(r, id, start))
    ensures Inv(r, id, start, Dropped(s, ORDER, life))
    ensures Dropped(s, ORDER, life) == s.(barriers := Dropped(s, ORDER, life).barriers)
    ensures life >= 3 ==> Dropped(s, ORDER, life).barriers == map[]
  {
    hide Inv, Dropped;
    assert ORDER[0..] == ORDER && ORDER[0] == DecisionFile && ORDER[1] == PlanFile && ORDER[2] == MarkerFile;
    DroppedFrom(s, 0, life);
    DropKeepsInv(r, id, start, s, DecisionFile);
    var s1 := s.(barriers := s.barriers - {DecisionFile});
    var life1: nat := if DecisionFile in s.barriers && life > 0 then life - 1 else life;
    assert DecisionFile !in s.barriers ==> s1 == s;
    if DecisionFile in s.barriers && life == 0 {
      return;
    }
    assert Dropped(s, ORDER, life) == Dropped(s1, ORDER[1..], life1);
    DroppedFrom(s1, 1, life1);
    DropKeepsInv(r, id, start, s1, PlanFile);
    var s2 := s1.(barriers := s1.barriers - {PlanFile});
    var life2: nat := if PlanFile in s1.barriers && life1 > 0 then life1 - 1 else life1;
    assert PlanFile !in s1.barriers ==> s2 == s1;
    if PlanFile in s1.barriers && life1 == 0 {
      return;
    }
    DroppedFrom(s2, 2, life2);
    DropKeepsInv(r, id, start, s2, MarkerFile);
    var s3 := s2.(barriers := s2.barriers - {MarkerFile});
    assert MarkerFile !in s2.barriers ==> s3 == s2;
    DroppedAll(s3, if MarkerFile in s2.barriers && life2 > 0 then life2 - 1 else life2);
    AllGone(s3);
  }

  lemma AllGone(s: Store)
    requires DecisionFile !in s.barriers && PlanFile !in s.barriers && MarkerFile !in s.barriers
    ensures s.barriers == map[]
  {
    forall b
      ensures b !in s.barriers
    {
      assert b == DecisionFile || b == PlanFile || b == MarkerFile;
    }
  }

  lemma ClearKeepsInv(r: Readers, id: Identity, start: map<Barrier, Bytes>, s: Store, stored: Option<nat>, life: nat)
    requires Inv(r, id, start, s) && PrefixFree(r.pair)
    ensures Inv(r, id, start, ClearedBarriers(r, id, s, stored, life))
  {
    var t := Clearance(r, id, s);
    if t.Some? {
      ReadCommitIsWhole(r, id, start, s);
      if s.cleared.Some? {
        WitnessIsWhole(r, id, start, s);
        DropsKeepInv(r, id, start, s, life);
        hide Inv, Clearance, Dropped;
      } else if MayWitness(r, id, s, t.value) {
        var bytes := WitnessText(r, id, start);
        var witnessed := s.(cleared := Written(None, bytes, stored));
        WitnessKeepsInv(r, id, start, s, stored);
        hide Inv, Clearance, Dropped, MayWitness, WitnessText, CommitText;
        if stored.None? {
          DropsKeepInv(r, id, start, witnessed, life);
        }
      }
    }
  }

  lemma WitnessIsWhole(r: Readers, id: Identity, start: map<Barrier, Bytes>, s: Store)
    requires Clearance(r, id, s).Some? && s.cleared.Some? && Authorised(r, id, start)
    requires s.terminal == Some(CommitText(r, id, start)) && Clearance(r, id, s).value == TerminalFor(r, id, start)
    ensures s.cleared == Some(WitnessText(r, id, start))
  {
  }

  lemma WitnessKeepsInv(r: Readers, id: Identity, start: map<Barrier, Bytes>, s: Store, stored: Option<nat>)
    requires Inv(r, id, start, s) && s.terminal == Some(CommitText(r, id, start)) && s.cleared.None?
    ensures Inv(r, id, start, s.(cleared := Written(None, WitnessText(r, id, start), stored)))
  {
    var bytes := WitnessText(r, id, start);
    PartIsPart(bytes, |bytes|);
    assert bytes[..|bytes|] == bytes;
    if stored.Some? && stored.value <= |bytes| {
      PartIsPart(bytes, stored.value);
    }
    hide Authorised, Verifies, IsPart, WitnessText, CommitText;
  }

  lemma {:induction false} EveryRunKeepsInv(r: Readers, id: Identity, s: Store, events: seq<Event>)
    requires Begins(r, id, s)
    ensures Inv(r, id, s.barriers, After(r, id, s, events))
    decreases |events|
  {
    if events != [] {
      var init, e := events[..|events| - 1], events[|events| - 1];
      EveryRunKeepsInv(r, id, s, init);
      var now := After(r, id, s, init);
      hide Inv, Cleaned, Committed, ClearedBarriers, PrefixFree, Verifies;
      match e
      case CleanEvent(life) => CleanKeepsInv(r, id, s.barriers, now, life);
      case CommitEvent(stored) => CommitKeepsInv(r, id, s.barriers, now, stored);
      case ClearEvent(stored, life) => ClearKeepsInv(r, id, s.barriers, now, stored, life);
    }
  }

  /** What it says. */

  // What admission asks of the store besides the marker.
  predicate Others(s: Store) {
    PlanFile in s.barriers || DecisionFile in s.barriers || s.files != map[] || s.directory || s.foreign
  }

  predicate Admits(r: Readers, s: Store, owner: Owner) {
    && MarkerFile !in s.barriers
    && !HasActivationEvidence(r.pair, s.terminal, s.cleared, Some(owner), Others(s))
  }

  // The owner of the activation, with identifiers in the form that operations have.
  ghost predicate OwnRetirement(r: Readers, id: Identity, barriers: map<Barrier, Bytes>, owner: Owner) {
    && Authorised(r, id, barriers)
    && Owns(owner, TerminalFor(r, id, barriers))
    && r.pair.isOperation(id.operationId) && r.pair.isOperation(id.stageId) && r.pair.isOperation(id.generation)
    && |CommitText(r, id, barriers)| <= PAIR_LIMIT && |WitnessText(r, id, barriers)| <= PAIR_LIMIT
  }

  /** In every run: a commit means that everything planned is gone; a barrier is missing only behind the whole witness;
      the decision goes first and the marker last; and admission opens exactly when all barriers are gone and the
      activation was not its own staging. */
  lemma NoBarrierGoesEarly(r: Readers, id: Identity, s: Store, events: seq<Event>, owner: Owner)
    requires Begins(r, id, s) && OwnRetirement(r, id, s.barriers, owner)
    ensures var now := After(r, id, s, events);
      && (now.terminal.Some? ==> Bare(now))
      && (!NoneMissing(now) ==>
            && now.terminal == Some(CommitText(r, id, s.barriers))
            && now.cleared == Some(WitnessText(r, id, s.barriers)))
      && (PlanFile !in now.barriers ==> DecisionFile !in now.barriers)
      && (MarkerFile !in now.barriers ==> now.barriers == map[])
      && (Admits(r, now, owner) <==> now.barriers == map[] && id.operationId != id.stageId)
  {
    EveryRunKeepsInv(r, id, s, events);
    var now := After(r, id, s, events);
    hide After, Verifies, PrefixFree;
    if MarkerFile !in now.barriers {
      AllGone(now);
      WrittenPairIsConsumed(r.pair, TerminalFor(r, id, s.barriers), owner);
      hide ConsumedPair, Authorised, TerminalFor;
    }
  }

  /** Finishing. */

  // Cleaning, committing and clearing once more, uninterrupted.
  function Finished(r: Readers, id: Identity, s: Store): Store {
    ClearedBarriers(r, id, Committed(r, id, Cleaned(r, id, s, REMOVALS), None), None, 3)
  }

  lemma CleanedThenCommitted(r: Readers, id: Identity, start: map<Barrier, Bytes>, s: Store)
    requires Inv(r, id, start, s) && |CommitText(r, id, start)| <= PAIR_LIMIT
    ensures var done := Committed(r, id, Cleaned(r, id, s, REMOVALS), None);
      && Inv(r, id, start, done)
      && (s.terminal.Some? ==> done == s)
      && (s.terminal.None? ==> done.terminal == Some(CommitText(r, id, start)) && done.cleared.None?)
  {
    CleanKeepsInv(r, id, start, s, REMOVALS);
    var clean := Cleaned(r, id, s, REMOVALS);
    CommitKeepsInv(r, id, start, clean, None);
    if s.terminal.None? {
      ThirteenRemovalsSuffice(r, id, s);
      var rows := PlanOf(r, s).rows;
      ManyRemovals(r, id, s, Remaining(rows, s));
      assert clean == s.(files := map[], directory := false);
      NoFilesNonePresent(rows, clean);
      hide Cleaned, Present, Authorised;
    }
  }

  lemma ClearedFromCommit(r: Readers, id: Identity, start: map<Barrier, Bytes>, s: Store)
    requires Inv(r, id, start, s) && PrefixFree(r.pair) && Faithful(r.pair)
    requires s.terminal == Some(CommitText(r, id, start)) && s.cleared in {None, Some(WitnessText(r, id, start))}
    requires |CommitText(r, id, start)| <= PAIR_LIMIT
    ensures ClearedBarriers(r, id, s, None, 3).barriers == map[]
  {
    CommitClears(r, id, start, s);
    if s.cleared.Some? {
      DropsKeepInv(r, id, start, s, 3);
    } else {
      CommittedVerifies(r, id, start, s);
      WitnessKeepsInv(r, id, start, s, None);
      var witnessed := s.(cleared := Some(WitnessText(r, id, start)));
      DropsKeepInv(r, id, start, witnessed, 3);
    }
    hide Inv, Clearance, Dropped, MayWitness, Faithful, PrefixFree;
  }

  lemma CommitClears(r: Readers, id: Identity, start: map<Barrier, Bytes>, s: Store)
    requires Inv(r, id, start, s) && Faithful(r.pair)
    requires s.terminal == Some(CommitText(r, id, start)) && s.cleared in {None, Some(WitnessText(r, id, start))}
    requires |CommitText(r, id, start)| <= PAIR_LIMIT
    ensures Clearance(r, id, s) == Some(TerminalFor(r, id, start))
  {
    var t := TerminalFor(r, id, start);
    assert r.pair.parseTerminal(r.pair.terminal(t)) == Some(t);
  }

  lemma CommittedVerifies(r: Readers, id: Identity, start: map<Barrier, Bytes>, s: Store)
    requires Inv(r, id, start, s) && s.terminal.Some? && s.cleared.None?
    ensures MayWitness(r, id, s, TerminalFor(r, id, start))
  {
    assert s.barriers == start by {
      forall b <- start
        ensures b in s.barriers
      {
        assert b == DecisionFile || b == PlanFile || b == MarkerFile;
      }
    }
    NoFilesNonePresent(PlanOf(r, s).rows, s);
  }

  /** From every state of every run, one uninterrupted pass removes every barrier exactly when neither the commit nor the
      witness was torn; where one was, the pass changes nothing, and the marker stays. */
  lemma FinishesExactlyUnlessTorn(r: Readers, id: Identity, s: Store, events: seq<Event>)
    requires Begins(r, id, s)
    requires |CommitText(r, id, s.barriers)| <= PAIR_LIMIT
    ensures var now := After(r, id, s, events);
      var untorn := now.terminal in {None, Some(CommitText(r, id, s.barriers))}
                    && now.cleared in {None, Some(WitnessText(r, id, s.barriers))};
      && (Finished(r, id, now).barriers == map[] <==> untorn)
      && (!untorn ==> Finished(r, id, now) == now && MarkerFile in now.barriers)
  {
    EveryRunKeepsInv(r, id, s, events);
    var now := After(r, id, s, events);
    CleanedThenCommitted(r, id, s.barriers, now);
    hide After, Verifies, Committed, Cleaned;
    var done := Committed(r, id, Cleaned(r, id, now, REMOVALS), None);
    if now.terminal in {None, Some(CommitText(r, id, s.barriers))}
      && now.cleared in {None, Some(WitnessText(r, id, s.barriers))}
    {
      ClearedFromCommit(r, id, s.barriers, done);
      hide Inv, ClearedBarriers, CommitText, WitnessText;
    } else {
      TornIsRefused(r, id, s.barriers, now);
      hide ClearedBarriers, CommitText, WitnessText;
    }
  }

  lemma TornIsRefused(r: Readers, id: Identity, start: map<Barrier, Bytes>, s: Store)
    requires Inv(r, id, start, s) && PrefixFree(r.pair)
    requires s.terminal !in {None, Some(CommitText(r, id, start))} || s.cleared !in {None, Some(WitnessText(r, id, start))}
    ensures s.terminal.Some? && NoneMissing(s)
    ensures ClearedBarriers(r, id, s, None, 3) == s
  {
    if Clearance(r, id, s).Some? {
      ReadCommitIsWhole(r, id, start, s);
      if s.cleared.Some? {
        WitnessIsWhole(r, id, start, s);
      }
    }
  }
}
