/**
Which pairs count as consumed, what bars admission, and what rotation makes of every store that holds no half-moved pair
(src/desktop-activation-initialization-db.js:64-115, src/desktop-activation-receipt-rotation.js).
*/
module RotationRules {
  import opened Evidence
  import opened ReceiptRotation
  import opened RetirementEvidence
  import opened RotationCrash
  import opened Wrappers

  // The commit is canonical and of a retirement of this owner, and the witness is canonical and its own.
  ghost predicate IsConsumed(f: Formats, commit: Bytes, cleared: Bytes, owner: Owner, t: Terminal) {
    && |commit| <= 4096 && |cleared| <= 4096
    && f.parseTerminal(commit) == Some(t) && f.terminal(t) == commit && t.state == TerminalCommittedBarred
    && f.isOperation(t.operationId) && f.isOperation(t.stageId) && f.isOperation(t.generation)
    && t.operationId != t.stageId
    && (owner.installationId.Some? ==> t.installationId == owner.installationId.value)
    && (owner.dataId.Some? ==> t.dataId == owner.dataId.value)
    && var w := Witness(t.(state := BarriersClearedAdmissionBarred), Sha256(commit));
       f.parseWitness(cleared) == Some(w) && f.cleared(w) == cleared
  }

  lemma ConsumedExact(f: Formats, commit: Bytes, cleared: Bytes, owner: Owner)
    ensures ConsumedPair(f, commit, cleared, owner).Some? <==> exists t :: IsConsumed(f, commit, cleared, owner, t)
    ensures forall t :: IsConsumed(f, commit, cleared, owner, t) ==>
      ConsumedPair(f, commit, cleared, owner) == Some(Pair(Sha256(commit), t.operationId, t.registration))
  {
    var c := ConsumedPair(f, commit, cleared, owner);
    if c.Some? {
      var t, w := f.parseTerminal(commit).value, f.parseWitness(cleared).value;
      assert w == Witness(t.(state := BarriersClearedAdmissionBarred), Sha256(commit));
      assert IsConsumed(f, commit, cleared, owner, t);
    }
  }

  /** Admission is barred by any other evidence, by one file of a pair without the other, and by a pair that is not consumed by
      the one who asks. */
  lemma EvidenceBars(f: Formats, commit: Option<Bytes>, cleared: Option<Bytes>, asks: Option<Owner>, others: bool)
    ensures HasActivationEvidence(f, commit, cleared, asks, others)
      <==> others || commit.Some? != cleared.Some?
           || (commit.Some? && cleared.Some?
               && (asks.None? || !exists t :: IsConsumed(f, commit.value, cleared.value, asks.value, t)))
  {
    if commit.Some? && cleared.Some? && asks.Some? {
      ConsumedExact(f, commit.value, cleared.value, asks.value);
    }
    hide ConsumedPair, IsConsumed;
  }

  // The registration that is live, if any, is the one the commit names.
  ghost predicate MayArchive(f: Formats, owner: Owner, registration: Option<Bytes>, s: Store, t: Terminal) {
    && Commit in s.fixed && Cleared in s.fixed && IsConsumed(f, s.fixed[Commit], s.fixed[Cleared], owner, t)
    && (registration.Some? ==> Sha256(registration.value) == t.registration)
    && (t.operationId in s.archives ==> s.archives[t.operationId] == map[])
  }

  ghost predicate NoHalves(s: Store) {
    s.strange == {} && forall name <- s.archives :: |s.archives[name]| != 1
  }

  /** Of a store with no half-moved pair and nothing strange, rotation that lives archives the pair exactly where it may;
      where there is none it says so, and in every other case it refuses and moves nothing. */
  lemma RotationIsExact(f: Formats, owner: Owner, registration: Option<Bytes>, s: Store, listing: seq<string>, life: nat)
    requires NoHalves(s) && Lists(listing, s) && life >= 3
    ensures var end := Rotated(f, owner, registration, s, listing, life);
      if |s.archives| > 32 then end.status == Refused && end.store == s
      else if Commit !in s.fixed && Cleared !in s.fixed then end.status == Absent && end.store == s
      else if exists t :: MayArchive(f, owner, registration, s, t) then
        exists t :: MayArchive(f, owner, registration, s, t) && end.status == Archived
          && end.store == Store(map[], s.archives[t.operationId := map[Commit := s.fixed[Commit], Cleared := s.fixed[Cleared]]], {})
      else end.status == Refused && end.store == s
  {
    ListingCounts(listing, s);
    RepairPassesOver(Run(s, life, Going), listing);
    hide RepairAll, Lists, MovePair, IsConsumed, ConsumedPair, MayArchive;
    if |s.archives| <= 32 && Commit in s.fixed && Cleared in s.fixed {
      WholePairIsExact(f, owner, registration, s, listing, life);
    } else {
      NothingToArchive(f, owner, registration, s);
    }
  }

  lemma NothingToArchive(f: Formats, owner: Owner, registration: Option<Bytes>, s: Store)
    requires Commit !in s.fixed || Cleared !in s.fixed || |s.archives| > 32
    ensures Commit !in s.fixed || Cleared !in s.fixed ==> !exists t :: MayArchive(f, owner, registration, s, t)
  {
  }

  lemma WholePairIsExact(f: Formats, owner: Owner, registration: Option<Bytes>, s: Store, listing: seq<string>, life: nat)
    requires Commit in s.fixed && Cleared in s.fixed && s.strange == {} && life >= 3 && |listing| <= 32
    requires RepairAll(Run(s, life, Going), listing) == Run(s, life, Going)
    ensures var end := Rotated(f, owner, registration, s, listing, life);
      if exists t :: MayArchive(f, owner, registration, s, t) then
        exists t :: MayArchive(f, owner, registration, s, t) && end.status == Archived
          && end.store == Store(map[], s.archives[t.operationId := map[Commit := s.fixed[Commit], Cleared := s.fixed[Cleared]]], {})
      else end.status == Refused && end.store == s
  {
    hide RepairAll, ConsumedPair, IsConsumed, MovePair;
    var pair := ConsumedPair(f, s.fixed[Commit], s.fixed[Cleared], owner);
    ConsumedExact(f, s.fixed[Commit], s.fixed[Cleared], owner);
    if pair.Some? {
      var t :| IsConsumed(f, s.fixed[Commit], s.fixed[Cleared], owner, t);
      TheTerminal(f, s, owner, t);
      MoveIsExact(Run(s, life, Going), pair.value);
      assert MayArchive(f, owner, registration, s, t)
        <==> (RegistrationAgrees(registration, pair.value)
              && (pair.value.operationId in s.archives ==> s.archives[pair.value.operationId] == map[]));
    }
  }

  lemma TheTerminal(f: Formats, s: Store, owner: Owner, t: Terminal)
    requires Commit in s.fixed && Cleared in s.fixed && IsConsumed(f, s.fixed[Commit], s.fixed[Cleared], owner, t)
    ensures forall u :: IsConsumed(f, s.fixed[Commit], s.fixed[Cleared], owner, u) ==> u == t
  {
  }

  lemma OnlyMembers(fixed: map<Member, Bytes>)
    ensures fixed - {Commit} - {Cleared} == map[]
  {
    forall m
      ensures m !in fixed - {Commit} - {Cleared}
    {
      assert m == Commit || m == Cleared;
    }
  }

  lemma MoveIsExact(r: Run, pair: Pair)
    requires r.status.Going? && r.life >= 3 && Commit in r.store.fixed && Cleared in r.store.fixed && r.store.strange == {}
    ensures var end := MovePair(r, pair);
      if pair.operationId in r.store.archives && r.store.archives[pair.operationId] != map[] then
        end.status == Refused && end.store == r.store
      else
        end.status == Archived
        && end.store == Store(map[], r.store.archives[pair.operationId :=
                                map[Commit := r.store.fixed[Commit], Cleared := r.store.fixed[Cleared]]], {})
  {
    OnlyMembers(r.store.fixed);
  }

  /** One member in an archive whose other member is not at its place, or whose own place is taken, is never moved. */
  lemma UnfitHalfIsRefused(f: Formats, owner: Owner, registration: Option<Bytes>, s: Store, listing: seq<string>, life: nat,
                           name: string, m: Member)
    requires name in s.archives && s.archives[name].Keys == {m} && (m in s.fixed || Mate(m) !in s.fixed)
    requires s.strange == {} && forall other <- s.archives :: other != name ==> |s.archives[other]| != 1
    requires Lists(listing, s)
    ensures var end := Rotated(f, owner, registration, s, listing, life);
      end.status == Refused && end.store == s
  {
    var r := Run(s, life, Going);
    assert name in listing;
    var k :| 0 <= k < |listing| && listing[k] == name;
    assert listing == (listing[..k] + [name]) + listing[k + 1..];
    OthersArePassedOver(s, listing, name, k);
    hide Lists;
    UnfitIsRefused(r, name, m);
    hide RepairOne;
    RepairInTwo(r, listing[..k] + [name], listing[k + 1..]);
    RepairInTwo(r, listing[..k], [name]);
    RepairPassesOver(r, listing[..k]);
    RepairJust(r, name);
    RepairStopped(RepairOne(r, name), listing[k + 1..]);
    hide RepairAll;
  }

  lemma UnfitIsRefused(r: Run, name: string, m: Member)
    requires r.status.Going? && name in r.store.archives && r.store.archives[name].Keys == {m}
    requires m in r.store.fixed || Mate(m) !in r.store.fixed
    ensures RepairOne(r, name) == r.(status := Refused)
  {
    assert |r.store.archives[name].Keys| == |r.store.archives[name]|;
    assert TheMember(r.store.archives[name]) in r.store.archives[name].Keys;
  }

  /** An entry that is no archive refuses every run, if nothing was to be repaired before it. */
  lemma StrangeEntryIsRefused(f: Formats, owner: Owner, registration: Option<Bytes>, s: Store, listing: seq<string>, life: nat)
    requires s.strange != {} && (forall name <- s.strange :: name !in s.archives) && Lists(listing, s)
    requires forall name <- s.archives :: |s.archives[name]| != 1
    ensures var end := Rotated(f, owner, registration, s, listing, life);
      end.status == Refused && end.store == s
  {
    var name :| name in s.strange;
    assert name in listing;
    StrangeStops(Run(s, life, Going), listing);
    hide Lists, RepairAll;
  }

  lemma {:induction false} StrangeStops(r: Run, listing: seq<string>)
    requires r.status.Going? && forall name <- r.store.archives :: |r.store.archives[name]| != 1
    ensures RepairAll(r, listing)
      == if forall name <- listing :: name in r.store.archives then r else r.(status := Refused)
    decreases |listing|
  {
    if listing != [] {
      var init, last := listing[..|listing| - 1], listing[|listing| - 1];
      StrangeStops(r, init);
      assert forall name :: name in listing <==> name in init || name == last;
      assert last in listing;
    }
  }
}
