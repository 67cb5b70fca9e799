/**
Archiving a consumed retirement pair (src/desktop-activation-receipt-rotation.js): two files leave their fixed places for
the archive of their operation, one rename at a time, and a half-moved pair is put back before anything else.
*/
module ReceiptRotation {
  import opened Evidence
  import opened RetirementEvidence
  import opened Wrappers

  datatype Member = Commit | Cleared

  function Mate(m: Member): Member {
    if m.Commit? then Cleared else Commit
  }

  // strange: entries of the archive directory that are no private archive of pair members.
  datatype Store = Store(fixed: map<Member, Bytes>, archives: map<string, map<Member, Bytes>>, strange: set<string>)

  const ARCHIVE_LIMIT := 32

  datatype Status = Going | Refused | Dead | Absent | Archived

  // life: how many durable steps the process still takes.
  datatype Run = Run(store: Store, life: nat, status: Status)

  /** Durable steps. */

  function PutBack(s: Store, name: string, m: Member): Store
    requires name in s.archives && m in s.archives[name]
  {
    s.(fixed := s.fixed[m := s.archives[name][m]], archives := s.archives[name := s.archives[name] - {m}])
  }

  function PutAway(s: Store, name: string, m: Member): Store
    requires name in s.archives && m in s.fixed
  {
    s.(fixed := s.fixed - {m}, archives := s.archives[name := s.archives[name][m := s.fixed[m]]])
  }

  function Opened(s: Store, name: string): Store {
    if name in s.archives then s else s.(archives := s.archives[name := map[]])
  }

  function Durable(r: Run, next: Store): Run {
    if !r.status.Going? then r
    else if r.life == 0 then r.(status := Dead)
    else r.(store := next, life := r.life - 1)
  }

  function Refuse(r: Run): Run {
    if r.status.Going? then r.(status := Refused) else r
  }

  /** Repair. */

  function TheMember(a: map<Member, Bytes>): (m: Member)
    requires |a| == 1
    ensures m in a && a == map[m := a[m]]
  {
    OneMember(a);
    if Commit in a then Commit else Cleared
  }

  lemma OneMember(a: map<Member, Bytes>)
    requires |a| == 1
    ensures Commit in a <==> Cleared !in a
    ensures forall m <- a :: a == map[m := a[m]]
  {
    var m :| m in a;
    assert |a.Keys - {m}| == 0;
    assert forall n :: n in a ==> n == m;
    assert a == map[m := a[m]];
  }

  function RepairOne(r: Run, name: string): Run {
    if !r.status.Going? then r
    else if name !in r.store.archives then Refuse(r)
    else if |r.store.archives[name]| != 1 then r
    else
      var m := TheMember(r.store.archives[name]);
      if m in r.store.fixed || Mate(m) !in r.store.fixed then Refuse(r)
      else Durable(r, PutBack(r.store, name, m))
  }

  function RepairAll(r: Run, listing: seq<string>): Run {
    if listing == [] then r else RepairOne(RepairAll(r, listing[..|listing| - 1]), listing[|listing| - 1])
  }

  // A reading of the archive directory, in whatever order it comes.
  ghost predicate Lists(listing: seq<string>, s: Store) {
    && (forall name :: name in listing <==> name in s.archives || name in s.strange)
    && (forall i, j :: 0 <= i < j < |listing| ==> listing[i] != listing[j])
  }

  /** The move. */

  predicate RegistrationAgrees(registration: Option<Bytes>, pair: Pair) {
    registration.Some? ==> Sha256(registration.value) == pair.registration
  }

  function MovePair(r: Run, pair: Pair): Run {
    var name := pair.operationId;
    if !r.status.Going? || Commit !in r.store.fixed || Cleared !in r.store.fixed then r
    else if name in r.store.strange || (name in r.store.archives && r.store.archives[name] != map[]) then Refuse(r)
    else
      var r1 := Durable(r, Opened(r.store, name));
      if !r1.status.Going? then r1
      else
        var r2 := Durable(r1, PutAway(r1.store, name, Commit));
        if !r2.status.Going? then r2
        else
          var r3 := Durable(r2, PutAway(r2.store, name, Cleared));
          if r3.status.Going? then r3.(status := Archived) else r3
  }

  function Rotated(f: Formats, owner: Owner, registration: Option<Bytes>, s: Store, listing: seq<string>, life: nat): Run {
    var r := RepairAll(Run(s, life, Going), listing);
    if |listing| > ARCHIVE_LIMIT then Run(s, life, Refused)
    else if !r.status.Going? then r
    else if (Commit in r.store.fixed) != (Cleared in r.store.fixed) then Refuse(r)
    else if Commit !in r.store.fixed then r.(status := Absent)
    else
      var pair := ConsumedPair(f, r.store.fixed[Commit], r.store.fixed[Cleared], owner);
      if pair.None? || !RegistrationAgrees(registration, pair.value) then Refuse(r)
      else MovePair(r, pair.value)
  }

  /** As the code drives it. */

  class ReceiptStore {
    var run: Run

    constructor (s: Store, life: nat)
      ensures run == Run(s, life, Going)
    {
      run := Run(s, life, Going);
    }

    method RepairArchives(listing: seq<string>)
      modifies this
      ensures run == if |listing| > ARCHIVE_LIMIT then Refuse(old(run)) else RepairAll(old(run), listing)
    {
      if |listing| > ARCHIVE_LIMIT {
        run := Refuse(run);
        return;
      }
      var k := 0;
      while k < |listing|
        invariant k <= |listing|
        invariant run == RepairAll(old(run), listing[..k])
      {
        run := RepairOne(run, listing[k]);
        k := k + 1;
        assert listing[..k][..k - 1] == listing[..k - 1];
      }
      assert listing[..k] == listing;
    }

    method MoveWholePair(f: Formats, pair: Pair, owner: Owner)
      requires run.status.Going? && Commit in run.store.fixed && Cleared in run.store.fixed
      requires ConsumedPair(f, run.store.fixed[Commit], run.store.fixed[Cleared], owner) == Some(pair)
      modifies this
      ensures run == MovePair(old(run), pair)
    {
      var name := pair.operationId;
      if name in run.store.strange || (name in run.store.archives && run.store.archives[name] != map[]) {
        run := Refuse(run);
        return;
      }
      var commit, cleared := run.store.fixed[Commit], run.store.fixed[Cleared];
      run := Durable(run, Opened(run.store, name));
      if !run.status.Going? {
        return;
      }
      run := Durable(run, PutAway(run.store, name, Commit));
      if !run.status.Going? {
        return;
      }
      run := Durable(run, PutAway(run.store, name, Cleared));
      if !run.status.Going? {
        return;
      }
      // The archived pair is read back; it is the pair that left.
      ConsumedByNobodyInParticular(f, commit, cleared, owner);
      var stored := ConsumedPair(f, run.store.archives[name][Commit], run.store.archives[name][Cleared], Owner(None, None));
      assert stored.Some? && stored.value.commitSha == pair.commitSha;
      assert run.store.archives[name] == map[Commit := commit, Cleared := cleared];
      assert Commit !in run.store.fixed && Cleared !in run.store.fixed;
      run := run.(status := Archived);
    }

    method RotateOwned(f: Formats, owner: Owner, registration: Option<Bytes>, listing: seq<string>)
      requires run.status.Going?
      modifies this
      ensures run == Rotated(f, owner, registration, old(run).store, listing, old(run).life)
    {
      RepairArchives(listing);
      if !run.status.Going? {
        return;
      }
      if (Commit in run.store.fixed) != (Cleared in run.store.fixed) {
        run := Refuse(run);
        return;
      }
      if Commit !in run.store.fixed {
        run := run.(status := Absent);
        return;
      }
      var pair := ConsumedPair(f, run.store.fixed[Commit], run.store.fixed[Cleared], owner);
      if pair.None? || !RegistrationAgrees(registration, pair.value) {
        run := Refuse(run);
        return;
      }
      MoveWholePair(f, pair.value, owner);
    }
  }
}

/** Wherever rotation is interrupted, both files are somewhere, once and unchanged, and running it again finishes. */
module RotationCrash {
  import opened Evidence
  import opened ReceiptRotation
  import opened RetirementEvidence
  import opened Wrappers

  // The store before rotation, seen from anywhere on the way: nothing else differs.
  ghost predicate RestUnchanged(s0: Store, s: Store, name: string) {
    && s.strange == s0.strange && s.archives - {name} == s0.archives - {name}
    && (name in s0.archives ==> name in s.archives)
  }

  // The pair at its fixed places; half moved; archived.
  ghost predicate Whole(s: Store, name: string, commit: Bytes, cleared: Bytes) {
    && s.fixed == map[Commit := commit, Cleared := cleared]
    && (name in s.archives ==> s.archives[name] == map[])
  }

  function Original(m: Member, commit: Bytes, cleared: Bytes): Bytes {
    if m.Commit? then commit else cleared
  }

  // The one member is archived and its mate is still at its place. Moving leaves the commit so; repair takes either.
  ghost predicate HalfOf(s: Store, name: string, m: Member, commit: Bytes, cleared: Bytes) {
    && s.fixed == map[Mate(m) := Original(Mate(m), commit, cleared)]
    && name in s.archives && s.archives[name] == map[m := Original(m, commit, cleared)]
  }

  ghost predicate Half(s: Store, name: string, commit: Bytes, cleared: Bytes) {
    HalfOf(s, name, Commit, commit, cleared) || HalfOf(s, name, Cleared, commit, cleared)
  }

  ghost predicate Away(s: Store, name: string, commit: Bytes, cleared: Bytes) {
    && s.fixed == map[]
    && name in s.archives && s.archives[name] == map[Commit := commit, Cleared := cleared]
  }

  ghost predicate OnTheWay(s0: Store, s: Store, name: string, commit: Bytes, cleared: Bytes) {
    && RestUnchanged(s0, s, name)
    && (Whole(s, name, commit, cleared) || Half(s, name, commit, cleared) || Away(s, name, commit, cleared))
  }

  // How many places hold a member with these bytes.
  function Places(s: Store, name: string, m: Member, bytes: Bytes): nat {
    (if m in s.fixed && s.fixed[m] == bytes then 1 else 0)
    + (if name in s.archives && m in s.archives[name] && s.archives[name][m] == bytes then 1 else 0)
  }

  /** On the way each file is in exactly one place, unchanged. */
  lemma NothingIsLost(s0: Store, s: Store, name: string, commit: Bytes, cleared: Bytes)
    requires OnTheWay(s0, s, name, commit, cleared)
    ensures Places(s, name, Commit, commit) == 1 && Places(s, name, Cleared, cleared) == 1
  {
  }

  // Where rotation may begin: a consumed pair, archives that are whole or empty, and room for its own.
  ghost predicate Ready(f: Formats, owner: Owner, registration: Option<Bytes>, s: Store, name: string, commit: Bytes,
                        cleared: Bytes)
  {
    && Whole(s, name, commit, cleared) && s.strange == {}
    && ConsumedPair(f, commit, cleared, owner).Some?
    && ConsumedPair(f, commit, cleared, owner).value.operationId == name
    && RegistrationAgrees(registration, ConsumedPair(f, commit, cleared, owner).value)
    && (forall other <- s.archives :: |s.archives[other]| != 1)
  }

  /** Repair. */

  // Other archives are passed over.
  lemma {:induction false} RepairPassesOver(r: Run, listing: seq<string>)
    requires forall name <- listing :: name in r.store.archives && |r.store.archives[name]| != 1
    ensures RepairAll(r, listing) == r
    decreases |listing|
  {
    if listing != [] {
      var init, last := listing[..|listing| - 1], listing[|listing| - 1];
      assert last in listing;
      assert forall name <- init :: name in listing;
      RepairPassesOver(r, init);
    }
  }

  lemma {:induction false} RepairInTwo(r: Run, first: seq<string>, second: seq<string>)
    ensures RepairAll(r, first + second) == RepairAll(RepairAll(r, first), second)
    decreases |second|
  {
    if second == [] {
      assert first + second == first;
    } else {
      var init, last := second[..|second| - 1], second[|second| - 1];
      assert (first + second)[..|first + second| - 1] == first + init;
      assert (first + second)[|first + second| - 1] == last;
      RepairInTwo(r, first, init);
    }
  }

  // A dead or refused run is left alone.
  lemma {:induction false} RepairStopped(r: Run, listing: seq<string>)
    requires !r.status.Going?
    ensures RepairAll(r, listing) == r
    decreases |listing|
  {
    if listing != [] {
      RepairStopped(r, listing[..|listing| - 1]);
    }
  }

  // Of a half-moved pair, the archived member is put back, or the process dies first.
  lemma RepairRestores(r: Run, listing: seq<string>, name: string, m: Member, commit: Bytes, cleared: Bytes)
    requires r.status.Going? && HalfOf(r.store, name, m, commit, cleared)
    requires Lists(listing, r.store) && r.store.strange == {}
    requires forall other <- r.store.archives :: other != name ==> |r.store.archives[other]| != 1
    ensures RepairAll(r, listing) == Durable(r, PutBack(r.store, name, m))
  {
    hide Lists, HalfOf, RepairOne, RepairAll, PutBack, Durable;
    var k := PlaceIn(listing, r.store, name, m, commit, cleared);
    var first, second := listing[..k], listing[k + 1..];
    assert listing == (first + [name]) + second;
    OthersArePassedOver(r.store, listing, name, k);
    RepairMeets(r, name, m, commit, cleared);
    RepairInTwo(r, first + [name], second);
    RepairInTwo(r, first, [name]);
    RepairPassesOver(r, first);
    RepairJust(r, name);
    RestAfterRepair(RepairOne(r, name), second);
  }

  lemma PlaceIn(listing: seq<string>, s: Store, name: string, m: Member, commit: Bytes, cleared: Bytes) returns (k: nat)
    requires Lists(listing, s) && HalfOf(s, name, m, commit, cleared)
    ensures k < |listing| && listing[k] == name
  {
    assert name in listing;
    k :| 0 <= k < |listing| && listing[k] == name;
  }

  // What comes after the half in the listing changes nothing more.
  lemma RestAfterRepair(r: Run, rest: seq<string>)
    requires r.status.Going? ==> forall other <- rest :: other in r.store.archives && |r.store.archives[other]| != 1
    ensures RepairAll(r, rest) == r
  {
    hide RepairAll;
    if r.status.Going? {
      RepairPassesOver(r, rest);
    } else {
      RepairStopped(r, rest);
    }
  }

  lemma RepairMeets(r: Run, name: string, m: Member, commit: Bytes, cleared: Bytes)
    requires r.status.Going? && HalfOf(r.store, name, m, commit, cleared)
    ensures RepairOne(r, name) == Durable(r, PutBack(r.store, name, m))
    ensures RepairOne(r, name).status.Going? ==>
      RepairOne(r, name).store.archives == r.store.archives[name := map[]]
  {
    assert r.store.archives[name].Keys == {m};
    assert r.store.archives[name] - {m} == map[];
  }

  lemma OthersArePassedOver(s: Store, listing: seq<string>, name: string, k: nat)
    requires Lists(listing, s) && s.strange == {} && k < |listing| && listing[k] == name
    requires forall other <- s.archives :: other != name ==> |s.archives[other]| != 1
    ensures forall other <- listing[..k] :: other in s.archives && other != name && |s.archives[other]| != 1
    ensures forall other <- listing[k + 1..] :: other in s.archives && other != name && |s.archives[other]| != 1
  {
    forall other | other in listing[..k] || other in listing[k + 1..]
      ensures other in s.archives && other != name
    {
      assert other in listing;
    }
  }

  lemma RepairJust(r: Run, name: string)
    ensures RepairAll(r, [name]) == RepairOne(r, name)
  {
    assert [name][..0] == [];
    assert RepairAll(r, []) == r;
  }

  /** One run from anywhere on the way. */

  // With life enough it ends archived, or finds that it already was.
  lemma MoveFinishes(r: Run, pair: Pair, s0: Store, commit: Bytes, cleared: Bytes)
    requires r.status.Going? && s0.strange == {}
    requires RestUnchanged(s0, r.store, pair.operationId) && Whole(r.store, pair.operationId, commit, cleared)
    ensures var end := MovePair(r, pair);
      && OnTheWay(s0, end.store, pair.operationId, commit, cleared)
      && end.status in {Dead, Archived}
      && (end.status == Archived <==> r.life >= 3)
      && (end.status == Archived ==> Away(end.store, pair.operationId, commit, cleared))
  {
    var name := pair.operationId;
    var s1 := Opened(r.store, name);
    assert RestUnchanged(s0, s1, name) && Whole(s1, name, commit, cleared);
    var s2 := PutAway(s1, name, Commit);
    HalfFromWhole(s0, s1, name, commit, cleared);
    AwayFromHalf(s0, s2, name, commit, cleared);
    hide OnTheWay, PutAway, Opened;
    assert OnTheWay(s0, r.store, name, commit, cleared) && OnTheWay(s0, s1, name, commit, cleared) by {
      WholeIsOnTheWay(s0, r.store, name, commit, cleared);
      WholeIsOnTheWay(s0, s1, name, commit, cleared);
    }
  }

  lemma WholeIsOnTheWay(s0: Store, s: Store, name: string, commit: Bytes, cleared: Bytes)
    requires RestUnchanged(s0, s, name) && Whole(s, name, commit, cleared)
    ensures OnTheWay(s0, s, name, commit, cleared)
  {
  }

  lemma HalfFromWhole(s0: Store, s: Store, name: string, commit: Bytes, cleared: Bytes)
    requires RestUnchanged(s0, s, name) && Whole(s, name, commit, cleared) && name in s.archives
    ensures OnTheWay(s0, PutAway(s, name, Commit), name, commit, cleared)
    ensures HalfOf(PutAway(s, name, Commit), name, Commit, commit, cleared)
    ensures RestUnchanged(s0, PutAway(s, name, Commit), name)
  {
    var next := PutAway(s, name, Commit);
    assert next.archives[name] == map[Commit := commit];
  }

  lemma AwayFromHalf(s0: Store, s: Store, name: string, commit: Bytes, cleared: Bytes)
    requires RestUnchanged(s0, s, name) && HalfOf(s, name, Commit, commit, cleared)
    ensures OnTheWay(s0, PutAway(s, name, Cleared), name, commit, cleared)
    ensures Away(PutAway(s, name, Cleared), name, commit, cleared)
  {
  }

  lemma WholeFromHalf(s0: Store, s: Store, name: string, m: Member, commit: Bytes, cleared: Bytes)
    requires RestUnchanged(s0, s, name) && HalfOf(s, name, m, commit, cleared)
    ensures RestUnchanged(s0, PutBack(s, name, m), name) && Whole(PutBack(s, name, m), name, commit, cleared)
  {
    var next := PutBack(s, name, m);
    assert next.archives[name] == map[];
  }

  lemma OthersAreNoHalves(f: Formats, owner: Owner, registration: Option<Bytes>, s0: Store, s: Store, name: string,
                          commit: Bytes, cleared: Bytes)
    requires Ready(f, owner, registration, s0, name, commit, cleared) && RestUnchanged(s0, s, name)
    ensures forall other <- s.archives :: other != name ==> |s.archives[other]| != 1
  {
    forall other <- s.archives | other != name
      ensures |s.archives[other]| != 1
    {
      assert other in s.archives - {name};
      assert (s.archives - {name})[other] == s.archives[other] && (s0.archives - {name})[other] == s0.archives[other];
    }
  }

  /** From anywhere on the way, one more run stays on the way; four steps of life and an archive directory within its
      limit are enough to finish. */
  lemma RunStaysOnTheWay(f: Formats, owner: Owner, registration: Option<Bytes>, s0: Store, s: Store, name: string,
                         commit: Bytes, cleared: Bytes, listing: seq<string>, life: nat)
    requires Ready(f, owner, registration, s0, name, commit, cleared)
    requires OnTheWay(s0, s, name, commit, cleared) && Lists(listing, s)
    ensures var end := Rotated(f, owner, registration, s, listing, life);
      && OnTheWay(s0, end.store, name, commit, cleared)
      && (life >= 4 && |listing| <= ARCHIVE_LIMIT ==>
            end.status in {Archived, Absent} && Away(end.store, name, commit, cleared))
      && (end.status in {Archived, Absent} ==> Away(end.store, name, commit, cleared))
      && (|listing| > ARCHIVE_LIMIT ==> end.store == s && end.status == Refused)
  {
    if |listing| > ARCHIVE_LIMIT {
      hide Rotated, Ready, OnTheWay, Lists, RepairAll;
      RefusedAtOnce(f, owner, registration, s, listing, life);
    } else {
      hide Rotated, Ready, Lists, RestUnchanged;
      RunFrom(f, owner, registration, s0, s, name, commit, cleared, listing, life);
    }
  }

  lemma RefusedAtOnce(f: Formats, owner: Owner, registration: Option<Bytes>, s: Store, listing: seq<string>, life: nat)
    requires |listing| > ARCHIVE_LIMIT
    ensures Rotated(f, owner, registration, s, listing, life) == Run(s, life, Refused)
  {
  }

  lemma RunFrom(f: Formats, owner: Owner, registration: Option<Bytes>, s0: Store, s: Store, name: string,
                commit: Bytes, cleared: Bytes, listing: seq<string>, life: nat)
    requires Ready(f, owner, registration, s0, name, commit, cleared)
    requires OnTheWay(s0, s, name, commit, cleared) && Lists(listing, s) && |listing| <= ARCHIVE_LIMIT
    ensures var end := Rotated(f, owner, registration, s, listing, life);
      && OnTheWay(s0, end.store, name, commit, cleared)
      && end.status in {Dead, Archived, Absent}
      && (life >= 4 ==> end.status in {Archived, Absent})
      && (end.status in {Archived, Absent} ==> Away(end.store, name, commit, cleared))
  {
    hide Ready, Rotated, Lists, RestUnchanged;
    if HalfOf(s, name, Commit, commit, cleared) {
      RunFromHalf(f, owner, registration, s0, s, name, Commit, commit, cleared, listing, life);
    } else if HalfOf(s, name, Cleared, commit, cleared) {
      RunFromHalf(f, owner, registration, s0, s, name, Cleared, commit, cleared, listing, life);
    } else {
      RunFromElsewhere(f, owner, registration, s0, s, name, commit, cleared, listing, life);
    }
  }

  // What rotation does once repair has left the pair whole.
  lemma RotatedWhole(f: Formats, owner: Owner, registration: Option<Bytes>, s0: Store, s: Store, r: Run, name: string,
                     commit: Bytes, cleared: Bytes, listing: seq<string>, life: nat)
    requires Ready(f, owner, registration, s0, name, commit, cleared) && |listing| <= ARCHIVE_LIMIT
    requires r == RepairAll(Run(s, life, Going), listing) && r.status.Going? && Whole(r.store, name, commit, cleared)
    ensures Rotated(f, owner, registration, s, listing, life)
      == MovePair(r, ConsumedPair(f, commit, cleared, owner).value)
  {
    hide ConsumedPair, RegistrationAgrees, MovePair, RepairAll;
  }

  lemma RunFromHalf(f: Formats, owner: Owner, registration: Option<Bytes>, s0: Store, s: Store, name: string,
                    m: Member, commit: Bytes, cleared: Bytes, listing: seq<string>, life: nat)
    requires Ready(f, owner, registration, s0, name, commit, cleared) && RestUnchanged(s0, s, name)
    requires HalfOf(s, name, m, commit, cleared) && Lists(listing, s) && |listing| <= ARCHIVE_LIMIT
    ensures var end := Rotated(f, owner, registration, s, listing, life);
      && OnTheWay(s0, end.store, name, commit, cleared)
      && end.status in {Dead, Archived} && (end.status == Archived <==> life >= 4)
      && (end.status == Archived ==> Away(end.store, name, commit, cleared))
  {
    OthersAreNoHalves(f, owner, registration, s0, s, name, commit, cleared);
    var r := Run(s, life, Going);
    var pair := ConsumedPair(f, commit, cleared, owner).value;
    RepairRestores(r, listing, name, m, commit, cleared);
    WholeFromHalf(s0, s, name, m, commit, cleared);
    hide ConsumedPair, RegistrationAgrees, MovePair, Lists, RepairAll, PutBack;
    if life > 0 {
      var back := Run(PutBack(s, name, m), life - 1, Going);
      MoveFinishes(back, pair, s0, commit, cleared);
      RotatedWhole(f, owner, registration, s0, s, back, name, commit, cleared, listing, life);
      hide Rotated, OnTheWay, RestUnchanged, Whole, HalfOf, Away;
    } else {
      hide RestUnchanged, Whole, Away, HalfOf, Ready;
    }
  }

  lemma RunFromElsewhere(f: Formats, owner: Owner, registration: Option<Bytes>, s0: Store, s: Store, name: string,
                         commit: Bytes, cleared: Bytes, listing: seq<string>, life: nat)
    requires Ready(f, owner, registration, s0, name, commit, cleared)
    requires OnTheWay(s0, s, name, commit, cleared) && !Half(s, name, commit, cleared)
    requires Lists(listing, s) && |listing| <= ARCHIVE_LIMIT
    ensures var end := Rotated(f, owner, registration, s, listing, life);
      && OnTheWay(s0, end.store, name, commit, cleared)
      && end.status in {Dead, Archived, Absent} && (life >= 3 ==> end.status in {Archived, Absent})
      && (end.status in {Archived, Absent} ==> Away(end.store, name, commit, cleared))
  {
    var r := Run(s, life, Going);
    NoHalvesListed(f, owner, registration, s0, s, name, commit, cleared, listing);
    RepairPassesOver(r, listing);
    hide RestUnchanged, Lists, RepairAll, MovePair, ConsumedPair, RegistrationAgrees;
    if Whole(s, name, commit, cleared) {
      MoveFinishes(r, ConsumedPair(f, commit, cleared, owner).value, s0, commit, cleared);
      RotatedWhole(f, owner, registration, s0, s, r, name, commit, cleared, listing, life);
      hide Rotated, OnTheWay, Away, Whole;
    }
  }

  lemma NoHalvesListed(f: Formats, owner: Owner, registration: Option<Bytes>, s0: Store, s: Store, name: string,
                       commit: Bytes, cleared: Bytes, listing: seq<string>)
    requires Ready(f, owner, registration, s0, name, commit, cleared)
    requires OnTheWay(s0, s, name, commit, cleared) && !Half(s, name, commit, cleared) && Lists(listing, s)
    ensures forall other <- listing :: other in s.archives && |s.archives[other]| != 1
  {
    OthersAreNoHalves(f, owner, registration, s0, s, name, commit, cleared);
    OwnArchiveIsNoHalf(s0, s, name, commit, cleared);
  }

  lemma OwnArchiveIsNoHalf(s0: Store, s: Store, name: string, commit: Bytes, cleared: Bytes)
    requires OnTheWay(s0, s, name, commit, cleared) && !Half(s, name, commit, cleared)
    ensures name in s.archives ==> |s.archives[name]| != 1
  {
    if Away(s, name, commit, cleared) {
      assert s.archives[name].Keys == {Commit, Cleared};
    }
  }

  /** Any number of interrupted runs. */

  ghost function Runs(f: Formats, owner: Owner, registration: Option<Bytes>, s: Store, runs: seq<(seq<string>, nat)>): Store {
    if runs == [] then s
    else
      var before := Runs(f, owner, registration, s, runs[..|runs| - 1]);
      var (listing, life) := runs[|runs| - 1];
      if Lists(listing, before) then Rotated(f, owner, registration, before, listing, life).store else before
  }

  /** Admission while rotation is on its way. */

  function At(s: Store, m: Member): Option<Bytes> {
    if m in s.fixed then Some(s.fixed[m]) else None
  }

  predicate BarsAdmission(f: Formats, s: Store, asks: Option<Owner>, others: bool) {
    HasActivationEvidence(f, At(s, Commit), At(s, Cleared), asks, others)
  }

  // Half moved, the pair bars admission whoever asks; at its places or archived, it does not bar its owner.
  lemma BarsExactlyHalfMoved(f: Formats, owner: Owner, s0: Store, s: Store, name: string, commit: Bytes, cleared: Bytes)
    requires OnTheWay(s0, s, name, commit, cleared) && ConsumedPair(f, commit, cleared, owner).Some?
    ensures BarsAdmission(f, s, Some(owner), false) <==> Half(s, name, commit, cleared)
    ensures Half(s, name, commit, cleared) ==> forall asks, others :: BarsAdmission(f, s, asks, others)
  {
    hide ConsumedPair, RestUnchanged;
  }

  /** However often rotation is interrupted, each file is in exactly one place with its bytes, admission is barred to the owner
      exactly while the pair is half moved, and a run that is not interrupted and finds no more than the permitted archives
      ends with both archived. */
  lemma {:induction false} RotationLosesNothing(f: Formats, owner: Owner, registration: Option<Bytes>, s: Store,
                                                name: string, commit: Bytes, cleared: Bytes,
                                                runs: seq<(seq<string>, nat)>)
    requires Ready(f, owner, registration, s, name, commit, cleared)
    ensures var now := Runs(f, owner, registration, s, runs);
      && OnTheWay(s, now, name, commit, cleared)
      && Places(now, name, Commit, commit) == 1 && Places(now, name, Cleared, cleared) == 1
      && (BarsAdmission(f, now, Some(owner), false) <==> Half(now, name, commit, cleared))
      && (Half(now, name, commit, cleared) ==> forall asks, others :: BarsAdmission(f, now, asks, others))
      && (forall listing: seq<string>, life: nat :: Lists(listing, now) && |listing| <= ARCHIVE_LIMIT && life >= 4 ==>
            Away(Rotated(f, owner, registration, now, listing, life).store, name, commit, cleared))
    decreases |runs|
  {
    var now := Runs(f, owner, registration, s, runs);
    RunsStayOnTheWay(f, owner, registration, s, name, commit, cleared, runs);
    assert ConsumedPair(f, commit, cleared, owner).Some?;
    hide Ready, Rotated, Runs, ConsumedPair, OnTheWay, Half, Away, BarsAdmission, Places;
    NothingIsLost(s, now, name, commit, cleared);
    BarsExactlyHalfMoved(f, owner, s, now, name, commit, cleared);
    forall listing: seq<string>, life: nat | Lists(listing, now) && |listing| <= ARCHIVE_LIMIT && life >= 4
      ensures Away(Rotated(f, owner, registration, now, listing, life).store, name, commit, cleared)
    {
      RunStaysOnTheWay(f, owner, registration, s, now, name, commit, cleared, listing, life);
    }
  }

  lemma {:induction false} RunsStayOnTheWay(f: Formats, owner: Owner, registration: Option<Bytes>, s: Store, name: string,
                                            commit: Bytes, cleared: Bytes, runs: seq<(seq<string>, nat)>)
    requires Ready(f, owner, registration, s, name, commit, cleared)
    ensures OnTheWay(s, Runs(f, owner, registration, s, runs), name, commit, cleared)
    decreases |runs|
  {
    hide Ready, Rotated, OnTheWay;
    if runs == [] {
      assert Whole(s, name, commit, cleared) by { ReadyIsWhole(f, owner, registration, s, name, commit, cleared); }
      WholeIsOnTheWay(s, s, name, commit, cleared);
    } else {
      var init := runs[..|runs| - 1];
      RunsStayOnTheWay(f, owner, registration, s, name, commit, cleared, init);
      var before := Runs(f, owner, registration, s, init);
      var (listing, life) := runs[|runs| - 1];
      if Lists(listing, before) {
        RunStaysOnTheWay(f, owner, registration, s, before, name, commit, cleared, listing, life);
      }
    }
  }

  lemma ReadyIsWhole(f: Formats, owner: Owner, registration: Option<Bytes>, s: Store, name: string, commit: Bytes,
                     cleared: Bytes)
    requires Ready(f, owner, registration, s, name, commit, cleared)
    ensures Whole(s, name, commit, cleared)
  {
  }

  /** A half-moved pair is put back and archived exactly when the archives are within their limit: with one more, every
      run refuses and the pair stays half moved. */
  lemma HalfMovedPairFinishesIffWithinLimit(f: Formats, owner: Owner, registration: Option<Bytes>, s0: Store, s: Store,
                                            name: string, commit: Bytes, cleared: Bytes, listing: seq<string>, life: nat)
    requires Ready(f, owner, registration, s0, name, commit, cleared) && RestUnchanged(s0, s, name)
    requires Half(s, name, commit, cleared) && Lists(listing, s) && life >= 4
    ensures Away(Rotated(f, owner, registration, s, listing, life).store, name, commit, cleared)
      <==> |s.archives| <= ARCHIVE_LIMIT
  {
    ListingCounts(listing, s);
    assert !Away(s, name, commit, cleared) by {
      assert Cleared in s.fixed || Commit in s.fixed;
    }
    RunStaysOnTheWay(f, owner, registration, s0, s, name, commit, cleared, listing, life);
    hide Rotated, Ready, Lists;
  }

  lemma ListingCounts(listing: seq<string>, s: Store)
    requires Lists(listing, s) && s.strange == {}
    ensures |listing| == |s.archives|
  {
    var names := set i: nat | i < |listing| :: listing[i];
    assert names == s.archives.Keys by {
      forall name | name in s.archives
        ensures name in names
      {
        assert name in listing;
      }
      forall name <- names
        ensures name in s.archives
      {
        assert name in listing;
      }
    }
    DistinctCount(listing);
  }

  lemma {:induction false} DistinctCount(names: seq<string>)
    requires forall i, j :: 0 <= i < j < |names| ==> names[i] != names[j]
    ensures |set i: nat | i < |names| :: names[i]| == |names|
    decreases |names|
  {
    var all := set i: nat | i < |names| :: names[i];
    if names == [] {
      assert all == {};
    } else {
      var init := names[..|names| - 1];
      DistinctCount(init);
      var less := set i: nat | i < |init| :: init[i];
      assert all == less + {names[|names| - 1]};
    }
  }
}
