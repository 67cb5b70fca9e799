/**
Restoring child snapshots with a bound (src/desktop-child-snapshot.js:45-102): the accepted snapshots are read one by one,
and whenever there is one too many the earliest is displaced. Only then is anything sorted.
*/
module ChildRetention {
  import opened Wrappers

  datatype Snapshot = Snapshot(sessionId: string, createdAt: int, updatedAt: int, body: string)

  datatype Restored = Restored(snapshot: Snapshot, path: string)

  // What reading one file of the directory comes to.
  datatype Reading = Skipped | Failed | Accepted(item: Restored)

  // Where a session id stands in the collation that comparing them follows; ids may stand level.
  type Collation = string -> int

  predicate SnapshotOrder(c: Collation, l: Restored, r: Restored) {
    if l.snapshot.createdAt != r.snapshot.createdAt then l.snapshot.createdAt < r.snapshot.createdAt
    else if l.snapshot.updatedAt != r.snapshot.updatedAt then l.snapshot.updatedAt < r.snapshot.updatedAt
    else c(l.snapshot.sessionId) <= c(r.snapshot.sessionId)
  }

  predicate Ascending(c: Collation, s: seq<Restored>) {
    forall i, j :: 0 <= i < j < |s| ==> SnapshotOrder(c, s[i], s[j])
  }

  /** Counting. */

  lemma FirstCounted<T>(s: seq<T>)
    requires s != []
    ensures multiset(s) == multiset{s[0]} + multiset(s[1..])
  {
    assert s == [s[0]] + s[1..];
  }

  lemma LastCounted<T>(s: seq<T>, x: T)
    ensures multiset(s + [x]) == multiset(s) + multiset{x}
  {
  }

  lemma Exchange<T>(kept: multiset<T>, rest: multiset<T>, first: T, item: T, y: T)
    requires multiset{first} + rest == kept + multiset{item} && y in rest
    ensures y in kept || (y == item && first in kept)
  {
    assert (multiset{first} + rest)[y] == (kept + multiset{item})[y];
    assert (multiset{first} + rest)[first] == (kept + multiset{item})[first];
  }

  lemma SameSizeSame<T>(a: multiset<T>, b: multiset<T>)
    requires |a| == |b| && a <= b
    ensures a == b
  {
    assert b == a + (b - a);
    assert |b - a| == 0;
  }

  // Of two different multisets of one size, each has more of something.
  lemma MoreOf<T>(a: multiset<T>, b: multiset<T>) returns (x: T)
    requires |a| == |b| && a != b
    ensures a[x] > b[x]
  {
    if a <= b {
      SameSizeSame(a, b);
    }
    assert exists y :: y in a && a[y] > b[y];
    x :| x in a && a[x] > b[x];
  }

  /** Sorting, as the array method does it: in order, and level items stay as they were. */

  function Insert(c: Collation, x: Restored, s: seq<Restored>): seq<Restored> {
    if s == [] || SnapshotOrder(c, x, s[0]) then [x] + s else [s[0]] + Insert(c, x, s[1..])
  }

  function Sort(c: Collation, s: seq<Restored>): seq<Restored> {
    if s == [] then [] else Insert(c, s[0], Sort(c, s[1..]))
  }

  lemma {:induction false} InsertCounts(c: Collation, x: Restored, s: seq<Restored>)
    ensures multiset(Insert(c, x, s)) == multiset(s) + multiset{x}
    ensures Insert(c, x, s) != [] && (Insert(c, x, s)[0] == x || (s != [] && Insert(c, x, s)[0] == s[0]))
  {
    hide SnapshotOrder;
    if s == [] || SnapshotOrder(c, x, s[0]) {
      FirstCounted([x] + s);
      assert ([x] + s)[1..] == s;
    } else {
      InsertCounts(c, x, s[1..]);
      var rest := Insert(c, x, s[1..]);
      FirstCounted(s);
      FirstCounted([s[0]] + rest);
      assert ([s[0]] + rest)[1..] == rest;
    }
  }

  lemma {:induction false} InsertSorts(c: Collation, x: Restored, s: seq<Restored>)
    requires Ascending(c, s)
    ensures Ascending(c, Insert(c, x, s))
  {
    if s == [] {
    } else if SnapshotOrder(c, x, s[0]) {
      FirstJoins(c, x, s);
    } else {
      var tail := s[1..];
      assert Ascending(c, tail);
      InsertSorts(c, x, tail);
      InsertCounts(c, x, tail);
      FirstJoins(c, s[0], Insert(c, x, tail));
    }
  }

  // What comes before the first comes before all.
  lemma FirstJoins(c: Collation, x: Restored, s: seq<Restored>)
    requires Ascending(c, s) && s != [] && SnapshotOrder(c, x, s[0])
    ensures Ascending(c, [x] + s)
  {
    forall j | 0 <= j < |s|
      ensures SnapshotOrder(c, x, s[j])
    {
      assert j == 0 || SnapshotOrder(c, s[0], s[j]);
    }
  }

  lemma {:induction false} SortSorts(c: Collation, s: seq<Restored>)
    ensures Ascending(c, Sort(c, s))
    ensures multiset(Sort(c, s)) == multiset(s) && |Sort(c, s)| == |s|
  {
    hide Ascending;
    if s == [] {
      NothingSorted(c);
    } else {
      SortSorts(c, s[1..]);
      InsertSorts(c, s[0], Sort(c, s[1..]));
      InsertCounts(c, s[0], Sort(c, s[1..]));
      FirstCounted(s);
    }
    assert |multiset(Sort(c, s))| == |multiset(s)|;
  }

  lemma NothingSorted(c: Collation)
    ensures Ascending(c, Sort(c, []))
  {
  }

  /** What retention promises. */

  function AcceptedOf(readings: seq<Reading>): seq<Restored> {
    if readings == [] then []
    else
      var init, last := AcceptedOf(readings[..|readings| - 1]), readings[|readings| - 1];
      if last.Accepted? then init + [last.item] else init
  }

  lemma {:induction false} AcceptedAreAll(readings: seq<Reading>)
    ensures forall x :: multiset(AcceptedOf(readings))[x] == multiset(readings)[Accepted(x)]
  {
    if readings != [] {
      var init, last := readings[..|readings| - 1], readings[|readings| - 1];
      AcceptedAreAll(init);
      assert readings == init + [last];
      LastCounted(init, last);
      if last.Accepted? {
        LastCounted(AcceptedOf(init), last.item);
      }
    }
  }

  // By the time of creation, then by that of the last update, then by id.
  predicate NotAfter(c: Collation, l: Snapshot, r: Snapshot) {
    || l.createdAt < r.createdAt
    || (l.createdAt == r.createdAt && l.updatedAt < r.updatedAt)
    || (l.createdAt == r.createdAt && l.updatedAt == r.updatedAt && c(l.sessionId) <= c(r.sessionId))
  }

  ghost predicate KeepsLatest(c: Collation, limit: nat, readings: seq<Reading>, kept: seq<Restored>, displaced: seq<Restored>) {
    && (forall i, j :: 0 <= i < j < |kept| ==> NotAfter(c, kept[i].snapshot, kept[j].snapshot))
    && (forall i, j :: 0 <= i < |displaced| && 0 <= j < |kept| ==> NotAfter(c, displaced[i].snapshot, kept[j].snapshot))
    && (forall x :: multiset(kept)[x] + multiset(displaced)[x] == multiset(readings)[Accepted(x)])
    && |kept| <= limit && (displaced != [] ==> |kept| == limit)
  }

  lemma RetainingKeepsLatest(c: Collation, limit: nat, readings: seq<Reading>, kept: seq<Restored>, displaced: seq<Restored>)
    requires Ascending(c, kept) && Retains(c, limit, AcceptedOf(readings), kept, displaced)
    ensures KeepsLatest(c, limit, readings, kept, displaced)
  {
    var accepted := AcceptedOf(readings);
    AcceptedAreAll(readings);
    hide AcceptedOf;
    forall x
      ensures multiset(kept)[x] + multiset(displaced)[x] == multiset(readings)[Accepted(x)]
    {
      assert (multiset(kept) + multiset(displaced))[x] == multiset(accepted)[x];
    }
    assert |multiset(kept) + multiset(displaced)| == |multiset(accepted)|;
    forall i, j | 0 <= i < |displaced| && 0 <= j < |kept|
      ensures NotAfter(c, displaced[i].snapshot, kept[j].snapshot)
    {
      assert displaced[i] in multiset(displaced) && kept[j] in multiset(kept);
      assert SnapshotOrder(c, displaced[i], kept[j]);
    }
  }

  predicate NoneFailed(readings: seq<Reading>) {
    forall i :: 0 <= i < |readings| ==> !readings[i].Failed?
  }

  // Every one in a comes before every one in b.
  predicate AllBefore(c: Collation, a: multiset<Restored>, b: multiset<Restored>) {
    forall x <- a, y <- b :: SnapshotOrder(c, x, y)
  }

  // The kept are as many as the limit allows, none of the displaced comes after one of them, and nothing is lost.
  predicate Retains(c: Collation, limit: nat, accepted: seq<Restored>, kept: seq<Restored>, displaced: seq<Restored>) {
    && multiset(kept) + multiset(displaced) == multiset(accepted)
    && |kept| == (if |accepted| <= limit then |accepted| else limit)
    && AllBefore(c, multiset(displaced), multiset(kept))
  }

  // gone: whether a displaced file is removed, or was already; otherwise removing it fails. Nothing is removed where a file
  // could not be read or was refused, and removing stops at the first failure.
  method LoadChildSnapshots(c: Collation, readings: seq<Reading>, limit: nat, gone: string -> bool)
    returns (ok: bool, kept: seq<Restored>, displaced: seq<Restored>, removed: nat)
    ensures ok <==> NoneFailed(readings) && removed == |displaced|
    ensures !NoneFailed(readings) ==> removed == 0
    ensures removed <= |displaced| && forall i :: 0 <= i < removed ==> gone(displaced[i].path)
    ensures NoneFailed(readings) && removed < |displaced| ==> !gone(displaced[removed].path)
    ensures NoneFailed(readings) ==>
      && Ascending(c, kept)
      && Retains(c, limit, AcceptedOf(readings), kept, displaced)
      && KeepsLatest(c, limit, readings, kept, displaced)
  {
    hide Retains, Ascending, Sort, KeepsLatest;
    var restored: seq<Restored> := [];
    displaced, removed := [], 0;
    var k := 0;
    NothingRead(c, limit);
    assert readings[..0] == [];
    while k < |readings|
      invariant k <= |readings| && NoneFailed(readings[..k])
      invariant Retains(c, limit, AcceptedOf(readings[..k]), restored, displaced)
    {
      assert readings[..k + 1][..k] == readings[..k];
      match readings[k] {
        case Skipped =>
        case Failed =>
          return false, [], [], 0;
        case Accepted(item) =>
          var grown := restored + [item];
          if |grown| > limit {
            var sorted := Sort(c, grown);
            DisplacedOneMore(c, limit, AcceptedOf(readings[..k]), restored, displaced, item);
            displaced := displaced + [sorted[0]];
            restored := sorted[1..];
          } else {
            NotYetFull(c, limit, AcceptedOf(readings[..k]), restored, displaced, item);
            restored := grown;
          }
      }
      k := k + 1;
    }
    assert readings[..k] == readings;
    SortSorts(c, restored);
    SortedRetains(c, limit, AcceptedOf(readings), restored, displaced);
    kept := Sort(c, restored);
    RetainingKeepsLatest(c, limit, readings, kept, displaced);
    while removed < |displaced|
      invariant removed <= |displaced| && forall i :: 0 <= i < removed ==> gone(displaced[i].path)
    {
      if !gone(displaced[removed].path) {
        return false, kept, displaced, removed;
      }
      removed := removed + 1;
    }
    ok := true;
  }

  lemma NothingRead(c: Collation, limit: nat)
    ensures Retains(c, limit, [], [], [])
  {
  }

  lemma SortedRetains(c: Collation, limit: nat, accepted: seq<Restored>, kept: seq<Restored>, displaced: seq<Restored>)
    requires Retains(c, limit, accepted, kept, displaced)
    ensures Retains(c, limit, accepted, Sort(c, kept), displaced)
  {
    hide AllBefore, Sort;
    SortSorts(c, kept);
  }

  lemma NotYetFull(c: Collation, limit: nat, accepted: seq<Restored>, kept: seq<Restored>, displaced: seq<Restored>,
                   item: Restored)
    requires Retains(c, limit, accepted, kept, displaced) && |kept| < limit
    ensures Retains(c, limit, accepted + [item], kept + [item], displaced)
  {
    assert |multiset(kept) + multiset(displaced)| == |multiset(accepted)|;
    assert |displaced| == 0;
  }

  lemma DisplacedOneMore(c: Collation, limit: nat, accepted: seq<Restored>, kept: seq<Restored>, displaced: seq<Restored>,
                         item: Restored)
    requires Retains(c, limit, accepted, kept, displaced) && |kept| >= limit
    ensures var sorted := Sort(c, kept + [item]);
      && sorted != []
      && Retains(c, limit, accepted + [item], sorted[1..], displaced + [sorted[0]])
  {
    hide Sort, Ascending, AllBefore;
    var sorted := Sort(c, kept + [item]);
    SortSorts(c, kept + [item]);
    FirstCounted(sorted);
    LastCounted(kept, item);
    LastCounted(displaced, sorted[0]);
    LastCounted(accepted, item);
    DisplacedStayBefore(c, kept, displaced, item);
    Regrouped(multiset(accepted), multiset(kept), multiset(displaced), multiset(sorted[1..]), sorted[0], item);
    AtLimit(limit, accepted, kept, displaced);
  }

  lemma Regrouped<T>(all: multiset<T>, kept: multiset<T>, displaced: multiset<T>, rest: multiset<T>, first: T, item: T)
    requires kept + displaced == all && multiset{first} + rest == kept + multiset{item}
    ensures rest + (displaced + multiset{first}) == all + multiset{item}
  {
    assert rest + (displaced + multiset{first}) == (multiset{first} + rest) + displaced;
    assert (kept + multiset{item}) + displaced == (kept + displaced) + multiset{item};
  }

  lemma AtLimit(limit: nat, accepted: seq<Restored>, kept: seq<Restored>, displaced: seq<Restored>)
    requires multiset(kept) + multiset(displaced) == multiset(accepted)
    requires |kept| == (if |accepted| <= limit then |accepted| else limit) && |kept| >= limit
    ensures |kept| == limit <= |accepted|
  {
  }

  // Those displaced before come before all that were kept then, the new one's own place being found by the sort.
  lemma DisplacedStayBefore(c: Collation, kept: seq<Restored>, displaced: seq<Restored>, item: Restored)
    requires AllBefore(c, multiset(displaced), multiset(kept))
    ensures var sorted := Sort(c, kept + [item]);
      && sorted != []
      && AllBefore(c, multiset(displaced + [sorted[0]]), multiset(sorted[1..]))
  {
    hide Sort, Ascending, SnapshotOrder;
    var sorted := Sort(c, kept + [item]);
    SortSorts(c, kept + [item]);
    var first, rest := sorted[0], sorted[1..];
    FirstCounted(sorted);
    LastCounted(kept, item);
    LastCounted(displaced, first);
    forall x <- multiset(displaced + [first]), y <- multiset(rest)
      ensures SnapshotOrder(c, x, y)
    {
      FirstBefore(c, sorted, y);
      Exchange(multiset(kept), multiset(rest), first, item, y);
      if x in multiset(displaced) && y !in multiset(kept) {
        OrderIsTransitive(c, x, first, y);
      }
    }
  }

  lemma OrderIsTransitive(c: Collation, x: Restored, y: Restored, z: Restored)
    requires SnapshotOrder(c, x, y) && SnapshotOrder(c, y, z)
    ensures SnapshotOrder(c, x, z)
  {
  }

  lemma FirstBefore(c: Collation, s: seq<Restored>, y: Restored)
    requires Ascending(c, s) && s != [] && y in multiset(s[1..])
    ensures SnapshotOrder(c, s[0], y)
  {
    assert y in s[1..];
  }

  /** No choice is left: where no two snapshots stand level, only one sequence is what retention promises. */

  predicate NoneLevel(c: Collation, accepted: seq<Restored>) {
    forall x <- accepted, y <- accepted :: x != y ==> !(SnapshotOrder(c, x, y) && SnapshotOrder(c, y, x))
  }

  lemma RetainedIsUnique(c: Collation, limit: nat, accepted: seq<Restored>, kept1: seq<Restored>, displaced1: seq<Restored>,
                         kept2: seq<Restored>, displaced2: seq<Restored>)
    requires NoneLevel(c, accepted)
    requires Retains(c, limit, accepted, kept1, displaced1) && Ascending(c, kept1)
    requires Retains(c, limit, accepted, kept2, displaced2) && Ascending(c, kept2)
    ensures kept1 == kept2 && multiset(displaced1) == multiset(displaced2)
  {
    var all, k1, k2 := multiset(accepted), multiset(kept1), multiset(kept2);
    hide Ascending, SnapshotOrder;
    SameKept(c, accepted, k1, multiset(displaced1), k2, multiset(displaced2));
    forall x <- kept1
      ensures x in accepted
    {
      assert x in k1 && x in all;
    }
    AscendingIsUnique(c, accepted, kept1, kept2);
    assert multiset(displaced1) == all - k1;
    assert multiset(displaced2) == all - k2;
  }

  lemma SameKept(c: Collation, accepted: seq<Restored>, k1: multiset<Restored>, d1: multiset<Restored>,
                 k2: multiset<Restored>, d2: multiset<Restored>)
    requires NoneLevel(c, accepted) && k1 + d1 == multiset(accepted) && k2 + d2 == multiset(accepted)
    requires AllBefore(c, d1, k1) && AllBefore(c, d2, k2) && |k1| == |k2|
    ensures k1 == k2
  {
    hide SnapshotOrder;
    if k1 != k2 {
      var x, y := Crossed(accepted, k1, d1, k2, d2);
    }
  }

  // Two choices that differ keep, each, something that the other displaces.
  lemma Crossed(accepted: seq<Restored>, k1: multiset<Restored>, d1: multiset<Restored>, k2: multiset<Restored>,
                d2: multiset<Restored>) returns (x: Restored, y: Restored)
    requires k1 + d1 == multiset(accepted) && k2 + d2 == multiset(accepted) && |k1| == |k2| && k1 != k2
    ensures x in k1 && x in d2 && y in k2 && y in d1 && x != y && x in accepted && y in accepted
  {
    x := MoreOf(k1, k2);
    y := MoreOf(k2, k1);
    assert (k1 + d1)[x] == (k2 + d2)[x] && (k1 + d1)[y] == (k2 + d2)[y];
    assert x in multiset(accepted) && y in multiset(accepted);
  }

  lemma {:induction false} AscendingIsUnique(c: Collation, accepted: seq<Restored>, s: seq<Restored>, t: seq<Restored>)
    requires NoneLevel(c, accepted) && Ascending(c, s) && Ascending(c, t) && multiset(s) == multiset(t)
    requires forall x <- s :: x in accepted
    ensures s == t
  {
    hide SnapshotOrder;
    assert |s| == |multiset(s)| == |multiset(t)| == |t|;
    if s != [] {
      assert s[0] in multiset(s) && t[0] in multiset(t);
      assert s[0] in multiset(t) && t[0] in multiset(s);
      SmallestFirst(c, s, t[0]);
      SmallestFirst(c, t, s[0]);
      assert s[0] in s && t[0] in s;
      assert s[0] == t[0];
      TailsCount(s, t);
      AscendingIsUnique(c, accepted, s[1..], t[1..]);
      assert s == [s[0]] + s[1..] && t == [t[0]] + t[1..];
    }
  }

  lemma TailsCount(s: seq<Restored>, t: seq<Restored>)
    requires s != [] && t != [] && s[0] == t[0] && multiset(s) == multiset(t)
    ensures multiset(s[1..]) == multiset(t[1..])
  {
    FirstCounted(s);
    FirstCounted(t);
    assert multiset(s[1..]) == multiset(s) - multiset{s[0]};
    assert multiset(t[1..]) == multiset(t) - multiset{t[0]};
  }

  lemma SmallestFirst(c: Collation, s: seq<Restored>, x: Restored)
    requires Ascending(c, s) && x in multiset(s)
    ensures SnapshotOrder(c, s[0], x)
  {
    assert x in s;
  }
}
