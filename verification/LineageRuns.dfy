/**
Runs of one record of authenticated intents (src/authority.js:17-47, 75-104, 287-292): any number of intents at once, whose
records land and which are settled in any order, with restarts at any point and clearings between turns.
*/
module LineageRuns {
  import opened AuthorityLineage
  import opened Wrappers

  // One call of persistAuthenticatedIntent: its record may land in the journal before the call hears of it.
  datatype Attempt = Attempt(record: Record, sequence: nat, waiting: bool, landed: bool, takenBack: bool)

  // owners are the attempts whose intents are live and landed those whose records are in the journal, each in order.
  datatype Sys = Sys(live: Lineage, owners: seq<nat>, attempts: seq<Attempt>, landed: seq<nat>)

  datatype Event =
    | Add(record: Record)
    | Land(i: nat)
    | Acknowledge(i: nat)
    | Fail(i: nat)
    | Restart(newId: string)
    | Clear(newId: string)

  function Fresh(id: string): (s: Sys)
    ensures Inv(s)
  {
    Sys(Lineage(id, 0, 0, []), [], [], [])
  }

  predicate Idle(s: Sys) {
    forall i :: 0 <= i < |s.attempts| ==> !s.attempts[i].waiting
  }

  // A conversation is cleared only while no turn is active.
  predicate Enabled(s: Sys, e: Event) {
    match e
    case Add(record) => record.lineageId == s.live.id
    case Land(i) => i < |s.attempts| && s.attempts[i].waiting && !s.attempts[i].landed
    case Acknowledge(i) => i < |s.attempts| && s.attempts[i].waiting && s.attempts[i].landed
    case Fail(i) => i < |s.attempts| && s.attempts[i].waiting
    case Restart(_) => true
    case Clear(_) => Idle(s)
  }

  function Journal(s: Sys): seq<Record>
    requires forall k :: 0 <= k < |s.landed| ==> s.landed[k] < |s.attempts|
  {
    seq(|s.landed|, k requires 0 <= k < |s.landed| => s.attempts[s.landed[k]].record)
  }

  function Began(s: Sys, r: Record): Sys {
    Sys(Added(s.live, r), s.owners + [|s.attempts|],
        s.attempts + [Attempt(r, s.live.version + 1, true, false, false)], s.landed)
  }

  function Failed(s: Sys, i: nat): Sys
    requires i < |s.attempts|
  {
    var back := RolledBack(s.live, s.attempts[i].sequence);
    var settled := s.attempts[i].(waiting := false, takenBack := back.Success?);
    s.(live := if back.Success? then back.value else s.live,
       owners := if back.Success? && s.owners != [] then s.owners[..|s.owners| - 1] else s.owners,
       attempts := s.attempts[i := settled])
  }

  function Numbers(n: nat): (r: seq<nat>)
    ensures |r| == n && forall k :: 0 <= k < n ==> r[k] == k
  {
    if n == 0 then [] else Numbers(n - 1) + [n - 1]
  }

  function AttemptsOf(journal: seq<Record>): (r: seq<Attempt>)
    ensures |r| == |journal| && forall k :: 0 <= k < |r| ==> r[k] == Attempt(journal[k], k + 1, false, true, false)
  {
    seq(|journal|, k requires 0 <= k < |journal| => Attempt(journal[k], k + 1, false, true, false))
  }

  // A journal with no intents leaves the lineage that the new process made.
  function Restarted(journal: seq<Record>, newId: string): Sys {
    Sys(Rebuilt(if journal == [] then newId else journal[0].lineageId, journal),
        Numbers(|journal|), AttemptsOf(journal), Numbers(|journal|))
  }

  function Advance(s: Sys, e: Event): Sys
    requires Inv(s) && Enabled(s, e)
  {
    match e
    case Add(record) => Began(s, record)
    case Land(i) => s.(landed := s.landed + [i], attempts := s.attempts[i := s.attempts[i].(landed := true)])
    case Acknowledge(i) => s.(attempts := s.attempts[i := s.attempts[i].(waiting := false)])
    case Fail(i) => Failed(s, i)
    case Restart(newId) => Restarted(Journal(s), newId)
    case Clear(newId) => Fresh(newId)
  }

  /** The invariant: each live intent is that of its own attempt, and the attempts not taken back are the live ones. */

  predicate Rising(numbers: seq<nat>) {
    forall i, k :: 0 <= i < k < |numbers| ==> numbers[i] < numbers[k]
  }

  // The k-th live intent is that of attempt a.
  predicate Holds(l: Lineage, k: nat, a: Attempt) {
    k < |l.items| && l.items[k] == IntentOf(a.record, k + 1) && a.sequence == k + 1
  }

  predicate OwnersMatch(s: Sys) {
    && |s.owners| == |s.live.items| && Rising(s.owners)
    && (forall k :: 0 <= k < |s.owners| ==> s.owners[k] < |s.attempts| && Holds(s.live, k, s.attempts[s.owners[k]]))
  }

  predicate StatusMatch(s: Sys) {
    && (forall i :: 0 <= i < |s.attempts| ==> (i in s.owners <==> !s.attempts[i].takenBack))
    && (forall i :: 0 <= i < |s.attempts| ==> s.attempts[i].waiting ==> !s.attempts[i].takenBack)
    && (forall i :: 0 <= i < |s.attempts| ==> s.attempts[i].record.lineageId == s.live.id)
  }

  predicate LandedMatch(s: Sys) {
    && (forall k :: 0 <= k < |s.landed| ==> s.landed[k] < |s.attempts|)
    && (forall i, k :: 0 <= i < k < |s.landed| ==> s.landed[i] != s.landed[k])
    && (forall i :: 0 <= i < |s.attempts| ==> (i in s.landed <==> s.attempts[i].landed))
  }

  ghost predicate Inv(s: Sys) {
    Valid(s.live) && OwnersMatch(s) && StatusMatch(s) && LandedMatch(s)
  }

  lemma BeganKeepsInv(s: Sys, r: Record)
    requires Inv(s) && r.lineageId == s.live.id
    ensures Inv(Began(s, r))
  {
    AddKeepsValid(s.live, r);
    var n := Began(s, r);
    forall i | 0 <= i < |n.attempts|
      ensures i in n.owners <==> !n.attempts[i].takenBack
      ensures i in n.landed <==> n.attempts[i].landed
    {
      if i < |s.attempts| {
        assert i in n.owners <==> i in s.owners;
      } else {
        assert n.owners[|s.owners|] == i;
      }
    }
  }

  lemma LandKeepsInv(s: Sys, i: nat)
    requires Inv(s) && Enabled(s, Land(i))
    ensures Inv(Advance(s, Land(i)))
  {
    var n := Advance(s, Land(i));
    forall k | 0 <= k < |n.attempts|
      ensures k in n.landed <==> n.attempts[k].landed
    {
      assert n.landed[|s.landed|] == i;
    }
  }

  // The last live intent is that of attempt i.
  predicate IsLatest(s: Sys, i: nat) {
    s.owners != [] && s.owners[|s.owners| - 1] == i
  }

  // Taking back the last intent never counts below zero.
  lemma LastIsCounted(l: Lineage)
    requires Valid(l) && l.items != []
    ensures RolledBack(l, |l.items|).Success? && Valid(RolledBack(l, |l.items|).value)
    ensures RolledBack(l, |l.items|).value.items == l.items[..|l.items| - 1]
    ensures RolledBack(l, |l.items|).value.id == l.id
  {
  }

  lemma OnlyTheLastGoes(l: Lineage, sequence: nat)
    requires Valid(l) && 1 <= sequence < |l.items|
    ensures RolledBack(l, sequence).Failure?
  {
    assert l.items[|l.items| - 1].sequence == |l.items|;
  }

  lemma PlaceOf(s: Sys, i: nat) returns (k: nat)
    requires Inv(s) && Enabled(s, Fail(i))
    ensures k < |s.owners| && s.owners[k] == i && Holds(s.live, k, s.attempts[i])
    ensures IsLatest(s, i) <==> k == |s.owners| - 1
  {
    hide Valid, LandedMatch, Holds;
    assert i in s.owners;
    k :| 0 <= k < |s.owners| && s.owners[k] == i;
  }

  lemma LatestIsTakenBack(s: Sys, i: nat)
    requires Inv(s) && Enabled(s, Fail(i)) && IsLatest(s, i)
    ensures RolledBack(s.live, s.attempts[i].sequence).Success?
    ensures var n := Failed(s, i);
      n.live.items + [IntentOf(s.attempts[i].record, s.attempts[i].sequence)] == s.live.items && n.owners + [i] == s.owners
  {
    var k := PlaceOf(s, i);
    assert |s.owners| == |s.live.items| && s.attempts[i].sequence == |s.live.items|;
    LastIsCounted(s.live);
    hide Inv, RolledBack, Enabled, IntentOf;
    assert s.live.items == s.live.items[..k] + [s.live.items[k]];
    assert s.owners == s.owners[..k] + [s.owners[k]];
  }

  lemma EarlierIsKept(s: Sys, i: nat)
    requires Inv(s) && Enabled(s, Fail(i)) && !IsLatest(s, i)
    ensures RolledBack(s.live, s.attempts[i].sequence).Failure?
  {
    var k := PlaceOf(s, i);
    OnlyTheLastGoes(s.live, s.attempts[i].sequence);
  }

  /** A rollback takes back its own intent, exactly when that is the latest, and leaves every other as it was. */
  lemma TakesBackOnlyItsOwn(s: Sys, i: nat)
    requires Inv(s) && Enabled(s, Fail(i))
    ensures RolledBack(s.live, s.attempts[i].sequence).Success? <==> IsLatest(s, i)
    ensures var n := Failed(s, i);
      if IsLatest(s, i) then
        n.live.items + [IntentOf(s.attempts[i].record, s.attempts[i].sequence)] == s.live.items && n.owners + [i] == s.owners
      else n.live == s.live && n.owners == s.owners
  {
    hide Inv, RolledBack, IntentOf;
    if IsLatest(s, i) {
      LatestIsTakenBack(s, i);
    } else {
      EarlierIsKept(s, i);
    }
  }

  lemma FailKeepsInv(s: Sys, i: nat)
    requires Inv(s) && Enabled(s, Fail(i))
    ensures Inv(Failed(s, i))
  {
    TakesBackOnlyItsOwn(s, i);
    if IsLatest(s, i) {
      LastIsCounted(s.live);
      LastGone(s, Failed(s, i), i);
    } else {
      hide RolledBack, Valid;
    }
  }

  lemma LastGone(s: Sys, n: Sys, i: nat)
    requires OwnersMatch(s) && StatusMatch(s) && LandedMatch(s) && i < |s.attempts| && n.owners + [i] == s.owners
    requires n.attempts == s.attempts[i := s.attempts[i].(waiting := false, takenBack := true)] && n.landed == s.landed
    requires n.live.id == s.live.id && |s.live.items| > 0 && n.live.items == s.live.items[..|s.live.items| - 1]
    ensures OwnersMatch(n) && StatusMatch(n) && LandedMatch(n)
  {
    assert s.owners[|s.owners| - 1] == i && n.owners == s.owners[..|s.owners| - 1];
    assert i !in n.owners;
    forall k | 0 <= k < |n.owners|
      ensures Holds(n.live, k, n.attempts[n.owners[k]])
    {
      assert Holds(s.live, k, s.attempts[s.owners[k]]) && s.owners[k] != i;
    }
    hide Holds;
    forall j | 0 <= j < |n.attempts|
      ensures j in n.owners <==> !n.attempts[j].takenBack
    {
      assert j in s.owners <==> j in n.owners || j == i;
    }
  }

  lemma RestartKeepsInv(s: Sys, newId: string)
    requires Inv(s)
    ensures Inv(Restarted(Journal(s), newId))
  {
    var journal := Journal(s);
    forall k | 0 <= k < |journal|
      ensures journal[k].lineageId == s.live.id
    {
    }
    RestartedOwners(journal, newId);
    RestartedStatus(journal, newId);
    hide Restarted, Valid, OwnersMatch, StatusMatch, LandedMatch;
  }

  lemma RestartedOwners(journal: seq<Record>, newId: string)
    ensures OwnersMatch(Restarted(journal, newId)) && Valid(Restarted(journal, newId).live)
  {
    var n := Restarted(journal, newId);
    RebuiltItems(if journal == [] then newId else journal[0].lineageId, journal);
    hide Rebuilt, Valid;
    forall k | 0 <= k < |n.owners|
      ensures n.owners[k] < |n.attempts| && Holds(n.live, k, n.attempts[n.owners[k]])
    {
      assert n.attempts[k].record == journal[k];
    }
  }

  lemma RestartedStatus(journal: seq<Record>, newId: string)
    requires OneLineage(journal)
    ensures StatusMatch(Restarted(journal, newId)) && LandedMatch(Restarted(journal, newId))
  {
    hide Rebuilt, Valid, Numbers, AttemptsOf, StatusMatch, LandedMatch, IntentOf;
    var n := Restarted(journal, newId);
    RebuiltItems(if journal == [] then newId else journal[0].lineageId, journal);
    assert forall k :: 0 <= k < |n.attempts| ==> n.attempts[k].record == journal[k];
    AllLanded(n);
  }

  lemma AllLanded(n: Sys)
    requires |n.owners| == |n.attempts| && n.landed == n.owners
    requires forall k :: 0 <= k < |n.owners| ==> n.owners[k] == k
    requires forall k :: 0 <= k < |n.attempts| ==>
      var a := n.attempts[k]; !a.waiting && a.landed && !a.takenBack && a.record.lineageId == n.live.id
    ensures StatusMatch(n) && LandedMatch(n)
  {
    forall i | 0 <= i < |n.attempts|
      ensures i in n.owners
    {
      assert n.owners[i] == i;
    }
  }

  /** Every event keeps the invariant. */
  lemma EventKeepsInv(s: Sys, e: Event)
    requires Inv(s) && Enabled(s, e)
    ensures Inv(Advance(s, e))
  {
    hide Began, Failed, Restarted;
    match e {
      case Add(record) => BeganKeepsInv(s, record);
      case Land(i) => LandKeepsInv(s, i);
      case Acknowledge(_) =>
      case Fail(i) => FailKeepsInv(s, i);
      case Restart(newId) => RestartKeepsInv(s, newId);
      case Clear(_) =>
    }
  }

  ghost predicate RunEnabled(s: Sys, events: seq<Event>)
    requires Inv(s)
    decreases |events|
  {
    events != [] ==>
      && Enabled(s, events[0])
      && (EventKeepsInv(s, events[0]); RunEnabled(Advance(s, events[0]), events[1..]))
  }

  ghost function Run(s: Sys, events: seq<Event>): (r: Sys)
    requires Inv(s) && RunEnabled(s, events)
    ensures Inv(r)
    decreases |events|
  {
    if events == [] then s
    else
      EventKeepsInv(s, events[0]);
      Run(Advance(s, events[0]), events[1..])
  }

  /** In every run, a failure takes back the intent it belongs to or nothing. */
  lemma EveryRollbackIsItsOwn(id: string, events: seq<Event>, i: nat)
    requires RunEnabled(Fresh(id), events) && Enabled(Run(Fresh(id), events), Fail(i))
    ensures var s := Run(Fresh(id), events);
      var n := Advance(s, Fail(i));
      && (i in n.owners <==> !IsLatest(s, i))
      && (forall j :: j != i ==> (j in n.owners <==> j in s.owners))
      && n.live.items <= s.live.items
  {
    hide Run, RunEnabled, Failed;
    var s := Run(Fresh(id), events);
    TakesBackOnlyItsOwn(s, i);
    if IsLatest(s, i) {
      assert Failed(s, i).owners == s.owners[..|s.owners| - 1];
      InitMembers(s.owners);
    } else {
      assert i in s.owners;
    }
  }

  /** When what would be rebuilt is what is live. */

  // Each attempt has its record in the journal or was taken back, and not both.
  predicate LandedUnlessTakenBack(s: Sys) {
    forall i :: 0 <= i < |s.attempts| ==> s.attempts[i].landed != s.attempts[i].takenBack
  }

  predicate RecordsDiffer(s: Sys) {
    forall i, k :: 0 <= i < k < |s.attempts| ==> IntentOf(s.attempts[i].record, 0) != IntentOf(s.attempts[k].record, 0)
  }

  lemma {:induction false} SameMembersSameOrder(a: seq<nat>, b: seq<nat>)
    requires Rising(a) && Rising(b) && forall n :: n in a <==> n in b
    ensures a == b
    decreases |a|
  {
    if a == [] || b == [] {
      NoMembers(a, b);
    } else {
      var m, k := |a| - 1, |b| - 1;
      assert a[m] in b && b[k] in a;
      var i :| 0 <= i < |b| && b[i] == a[m];
      var j :| 0 <= j < |a| && a[j] == b[k];
      assert a[m] == b[k];
      InitMembers(a);
      InitMembers(b);
      SameMembersSameOrder(a[..m], b[..k]);
      assert a == a[..m] + [a[m]] && b == b[..k] + [b[k]];
    }
  }

  lemma NoMembers(a: seq<nat>, b: seq<nat>)
    requires (a == [] || b == []) && forall n :: n in a <==> n in b
    ensures a == b
  {
    HasMember(a);
    HasMember(b);
  }

  lemma HasMember(a: seq<nat>)
    ensures a != [] <==> exists n :: n in a
  {
    if a != [] {
      assert a[0] in a;
    }
  }

  lemma InitMembers(a: seq<nat>)
    requires Rising(a) && a != []
    ensures var init := a[..|a| - 1];
      Rising(init) && forall n :: n in init <==> n in a && n != a[|a| - 1]
  {
    assert a == a[..|a| - 1] + [a[|a| - 1]];
  }

  lemma OwnersAreLanded(s: Sys)
    requires Inv(s)
    ensures s.owners == s.landed <==> Rising(s.landed) && LandedUnlessTakenBack(s)
  {
    if Rising(s.landed) && LandedUnlessTakenBack(s) {
      SameMembersSameOrder(s.owners, s.landed);
    }
  }

  // A list of intents of one lineage is all there is to it.
  lemma SameItems(a: Lineage, b: Lineage)
    requires Valid(a) && Valid(b) && a.id == b.id
    requires |a.items| == |b.items| && forall k :: 0 <= k < |a.items| ==> a.items[k] == b.items[k]
    ensures a == b
  {
    assert a.items == b.items;
  }

  lemma LandedAreRebuilt(s: Sys)
    requires Inv(s) && s.owners == s.landed
    ensures Rebuilt(s.live.id, Journal(s)) == s.live
  {
    var journal := Journal(s);
    RebuiltItems(s.live.id, journal);
    hide Rebuilt, Valid, StatusMatch, LandedMatch, Rising;
    forall k | 0 <= k < |s.live.items|
      ensures s.live.items[k] == Rebuilt(s.live.id, journal).items[k]
    {
      assert Holds(s.live, k, s.attempts[s.owners[k]]);
      assert journal[k] == s.attempts[s.owners[k]].record;
    }
    SameItems(s.live, Rebuilt(s.live.id, journal));
  }

  lemma RebuiltAreLanded(s: Sys)
    requires Inv(s) && RecordsDiffer(s) && Rebuilt(s.live.id, Journal(s)) == s.live
    ensures s.owners == s.landed
  {
    var journal := Journal(s);
    RebuiltItems(s.live.id, journal);
    hide Rebuilt, Valid, StatusMatch, Rising;
    assert |s.owners| == |s.live.items| == |journal| == |s.landed|;
    forall k | 0 <= k < |s.owners|
      ensures s.owners[k] == s.landed[k]
    {
      assert Holds(s.live, k, s.attempts[s.owners[k]]);
      assert IntentOf(s.attempts[s.landed[k]].record, k + 1) == IntentOf(s.attempts[s.owners[k]].record, k + 1);
      SameIntentSameAttempt(s, s.landed[k], s.owners[k], k + 1);
    }
  }

  lemma SameIntentSameAttempt(s: Sys, i: nat, j: nat, sequence: nat)
    requires RecordsDiffer(s) && i < |s.attempts| && j < |s.attempts|
    requires IntentOf(s.attempts[i].record, sequence) == IntentOf(s.attempts[j].record, sequence)
    ensures i == j
  {
    assert IntentOf(s.attempts[i].record, 0) == IntentOf(s.attempts[j].record, 0);
  }

  /** What is rebuilt is what is live if the records landed in the order in which their intents were added, and each attempt's
      record landed unless its intent was taken back; and, where no two records say the same, only if. */
  lemma RebuiltIsLive(s: Sys)
    requires Inv(s)
    ensures Rising(s.landed) && LandedUnlessTakenBack(s) ==> Rebuilt(s.live.id, Journal(s)) == s.live
    ensures RecordsDiffer(s) ==>
      (Rebuilt(s.live.id, Journal(s)) == s.live <==> Rising(s.landed) && LandedUnlessTakenBack(s))
  {
    OwnersAreLanded(s);
    hide Inv, Rebuilt, Rising, LandedUnlessTakenBack, RecordsDiffer;
    if s.owners == s.landed {
      LandedAreRebuilt(s);
    } else if RecordsDiffer(s) && Rebuilt(s.live.id, Journal(s)) == s.live {
      RebuiltAreLanded(s);
    }
  }

  // One at a time: an intent is added when none is waiting, and a failed persist has left no record.
  predicate Serial(s: Sys, e: Event) {
    && (e.Add? ==> Idle(s))
    && (e.Fail? ==> e.i < |s.attempts| && !s.attempts[e.i].landed)
  }

  ghost predicate AllSerial(s: Sys, events: seq<Event>)
    requires Inv(s) && RunEnabled(s, events)
    decreases |events|
  {
    events != [] ==>
      && Serial(s, events[0])
      && (EventKeepsInv(s, events[0]); AllSerial(Advance(s, events[0]), events[1..]))
  }

  // At most the last attempt waits, and every other live intent has its record in the journal.
  predicate OneOut(s: Sys) {
    && (forall i :: 0 <= i < |s.attempts| - 1 ==> !s.attempts[i].waiting)
    && (if s.attempts != [] && s.attempts[|s.attempts| - 1].waiting && !s.attempts[|s.attempts| - 1].landed
        then s.owners == s.landed + [|s.attempts| - 1] else s.owners == s.landed)
  }

  lemma SerialAdd(s: Sys, r: Record)
    requires OneOut(s) && Idle(s)
    ensures OneOut(Began(s, r))
  {
    hide Added;
    assert s.owners == s.landed;
    assert forall i :: 0 <= i < |s.attempts| ==> Began(s, r).attempts[i] == s.attempts[i];
  }

  lemma SerialLand(s: Sys, i: nat)
    requires Inv(s) && OneOut(s) && Enabled(s, Land(i))
    ensures OneOut(Advance(s, Land(i)))
  {
    hide Inv;
  }

  lemma SerialAcknowledge(s: Sys, i: nat)
    requires Inv(s) && OneOut(s) && Enabled(s, Acknowledge(i))
    ensures OneOut(Advance(s, Acknowledge(i)))
  {
    hide Inv;
  }

  lemma SameInit(a: seq<nat>, b: seq<nat>, n: nat)
    requires a + [n] == b + [n]
    ensures a == b
  {
    assert a == (a + [n])[..|a|] && b == (b + [n])[..|b|] && |a + [n]| == |b + [n]|;
  }

  lemma SerialFail(s: Sys, i: nat)
    requires Inv(s) && OneOut(s) && Enabled(s, Fail(i)) && !s.attempts[i].landed
    ensures OneOut(Failed(s, i))
  {
    hide Inv, RolledBack, Failed;
    assert i == |s.attempts| - 1 && s.owners == s.landed + [i];
    TakesBackOnlyItsOwn(s, i);
    SameInit(Failed(s, i).owners, s.landed, i);
    FailedAttempts(s, i);
  }

  lemma FailedAttempts(s: Sys, i: nat)
    requires i < |s.attempts|
    ensures var n := Failed(s, i);
      && |n.attempts| == |s.attempts| && n.landed == s.landed && !n.attempts[i].waiting
      && forall k :: 0 <= k < |s.attempts| && k != i ==> n.attempts[k] == s.attempts[k]
  {
    hide RolledBack;
  }

  lemma SerialKeepsOneOut(s: Sys, e: Event)
    requires Inv(s) && OneOut(s) && Enabled(s, e) && Serial(s, e)
    ensures OneOut(Advance(s, e))
  {
    hide OneOut, Idle, Began, Failed, OwnersMatch, StatusMatch, Valid;
    match e {
      case Add(record) => SerialAdd(s, record);
      case Land(i) => SerialLand(s, i);
      case Acknowledge(i) => SerialAcknowledge(s, i);
      case Fail(i) => SerialFail(s, i);
      case Restart(newId) => RestartedIsIdle(Journal(s), newId);
      case Clear(newId) => FreshIsIdle(newId);
    }
  }

  lemma RestartedIsIdle(journal: seq<Record>, newId: string)
    ensures OneOut(Restarted(journal, newId))
  {
    hide Rebuilt, Numbers;
  }

  lemma FreshIsIdle(id: string)
    ensures OneOut(Fresh(id))
  {
  }

  lemma {:induction false} SerialRunsAgreeFrom(s: Sys, events: seq<Event>)
    requires Inv(s) && OneOut(s) && RunEnabled(s, events) && AllSerial(s, events)
    ensures var r := Run(s, events);
      Idle(r) ==> Rebuilt(r.live.id, Journal(r)) == r.live
    decreases |events|
  {
    hide Inv, Enabled, Serial, OneOut;
    if events == [] {
      if Idle(s) {
        IdleAgrees(s);
      }
    } else {
      EventKeepsInv(s, events[0]);
      SerialKeepsOneOut(s, events[0]);
      SerialRunsAgreeFrom(Advance(s, events[0]), events[1..]);
    }
  }

  lemma IdleAgrees(s: Sys)
    requires Inv(s) && OneOut(s) && Idle(s)
    ensures Rebuilt(s.live.id, Journal(s)) == s.live
  {
    OwnersAreLanded(s);
    RebuiltIsLive(s);
  }

  /** So it is after every run that persists one intent at a time and whose failed persists left no record. */
  lemma SerialRunsAgree(id: string, events: seq<Event>)
    requires RunEnabled(Fresh(id), events) && AllSerial(Fresh(id), events)
    ensures var r := Run(Fresh(id), events);
      Idle(r) ==> Rebuilt(r.live.id, Journal(r)) == r.live
  {
    FreshIsIdle(id);
    SerialRunsAgreeFrom(Fresh(id), events);
  }

  /** Were a conversation cleared while an intent is waiting, its failure would take back the first one added since. */
  lemma ClearedWhileWaitingTakesBackAnother(newId: string, first: Record, second: Record)
    ensures var waiting := Began(Fresh(first.lineageId), first).attempts[0];
      RolledBack(Added(Lineage(newId, 0, 0, []), second), waiting.sequence) == Success(Lineage(newId, 0, 0, []))
  {
    RollbackUndoesAdd(Lineage(newId, 0, 0, []), second);
  }
}
