/**
The two stores that keep what was touched last: the activity list (src/desktop-activity-snapshot.js:79-90) and the
capability cache (src/capability-cache.js:8-26). What each holds is a function of its whole history.
*/
module Recency {
  import opened Wrappers

  /** Orders of touching. */

  function Without<K(==)>(ks: seq<K>, k: K): seq<K> {
    if ks == [] then [] else if ks[0] == k then Without(ks[1..], k) else [ks[0]] + Without(ks[1..], k)
  }

  function Touch<K(==)>(ks: seq<K>, k: K): seq<K> {
    Without(ks, k) + [k]
  }

  function Last<K>(ks: seq<K>, n: nat): seq<K> {
    if |ks| <= n then ks else ks[|ks| - n..]
  }

  // The distinct keys of a history, each where it was touched last.
  function ByLatest<K(==)>(history: seq<K>): seq<K> {
    if history == [] then [] else Touch(ByLatest(history[..|history| - 1]), history[|history| - 1])
  }

  // Where a key was touched last.
  function LastTouch<K(==)>(history: seq<K>, k: K): int {
    if history == [] then -1
    else if history[|history| - 1] == k then |history| - 1
    else LastTouch(history[..|history| - 1], k)
  }

  ghost predicate Distinct<K>(ks: seq<K>) {
    forall i, j :: 0 <= i < j < |ks| ==> ks[i] != ks[j]
  }

  lemma DistinctTail<K>(ks: seq<K>)
    requires Distinct(ks) && ks != []
    ensures Distinct(ks[1..]) && ks[0] !in ks[1..]
  {
  }

  lemma DistinctJoin<K>(ks: seq<K>, k: K)
    requires Distinct(ks) && k !in ks
    ensures Distinct([k] + ks) && Distinct(ks + [k])
  {
    forall i, j | 0 <= i < j < |ks + [k]|
      ensures (ks + [k])[i] != (ks + [k])[j]
    {
      assert ks[i] in ks;
    }
    forall i, j | 0 <= i < j < |[k] + ks|
      ensures ([k] + ks)[i] != ([k] + ks)[j]
    {
      assert ks[j - 1] in ks;
    }
  }

  lemma {:induction false} WithoutFacts<K>(ks: seq<K>, k: K)
    ensures forall x :: x in Without(ks, k) <==> x in ks && x != k
    ensures |Without(ks, k)| <= |ks|
    ensures k !in ks ==> Without(ks, k) == ks
    ensures Distinct(ks) ==> Distinct(Without(ks, k)) && Distinct(Touch(ks, k))
  {
    hide Distinct;
    if ks != [] {
      assert ks == [ks[0]] + ks[1..];
      WithoutFacts(ks[1..], k);
      if Distinct(ks) {
        DistinctTail(ks);
        if ks[0] != k {
          DistinctJoin(Without(ks[1..], k), ks[0]);
        }
      }
    } else if Distinct(ks) {
      assert Without(ks, k) == ks;
    }
    if Distinct(ks) {
      DistinctJoin(Without(ks, k), k);
    }
  }

  lemma LastIsDistinct<K>(ks: seq<K>, n: nat)
    requires Distinct(ks)
    ensures Distinct(Last(ks, n))
  {
  }

  lemma {:induction false} WithoutJoins<K>(a: seq<K>, b: seq<K>, k: K)
    ensures Without(a + b, k) == Without(a, k) + Without(b, k)
  {
    if a == [] {
      assert a + b == b;
    } else {
      assert (a + b)[1..] == a[1..] + b;
      WithoutJoins(a[1..], b, k);
    }
  }

  lemma WithoutIn<K>(ks: seq<K>, k: K, x: K)
    requires x in Without(ks, k)
    ensures x in ks && x != k
  {
    WithoutFacts(ks, k);
  }

  // Taking a key out keeps the order of the others.
  lemma {:induction false} WithoutKeepsOrder<K>(ks: seq<K>, k: K, history: seq<K>)
    requires InOrder(ks, history)
    ensures InOrder(Without(ks, k), history)
  {
    hide LastTouch;
    if ks != [] {
      var tail := ks[1..];
      assert InOrder(tail, history);
      WithoutKeepsOrder(tail, k, history);
      FirstIsEarliest(ks, history);
      if ks[0] != k {
        var rest := Without(tail, k);
        forall x | x in rest
          ensures LastTouch(history, ks[0]) < LastTouch(history, x)
        {
          WithoutIn(tail, k, x);
        }
        assert InOrder(rest, history);
        EarliestJoins(ks[0], rest, history);
      }
    }
  }

  lemma FirstIsEarliest<K>(ks: seq<K>, history: seq<K>)
    requires InOrder(ks, history) && ks != []
    ensures forall x :: x in ks[1..] ==> LastTouch(history, ks[0]) < LastTouch(history, x)
  {
  }

  lemma EarliestJoins<K>(k: K, ks: seq<K>, history: seq<K>)
    requires InOrder(ks, history) && forall x :: x in ks ==> LastTouch(history, k) < LastTouch(history, x)
    ensures InOrder([k] + ks, history)
  {
  }

  ghost predicate InOrder<K>(ks: seq<K>, history: seq<K>) {
    forall i, j :: 0 <= i < j < |ks| ==> LastTouch(history, ks[i]) < LastTouch(history, ks[j])
  }

  /** The order holds each touched key once, in the order of their last touches. */
  lemma {:induction false} ByLatestIsByLatest<K>(history: seq<K>)
    ensures Distinct(ByLatest(history))
    ensures forall k :: k in ByLatest(history) <==> k in history
    ensures InOrder(ByLatest(history), history)
    decreases |history|
  {
    if history != [] {
      var init, k := history[..|history| - 1], history[|history| - 1];
      ByLatestIsByLatest(init);
      var before := ByLatest(init);
      WithoutFacts(before, k);
      WithoutKeepsOrder(before, k, init);
      var kept := Without(before, k);
      assert history == init + [k];
      forall i, j | 0 <= i < j < |kept + [k]|
        ensures LastTouch(history, (kept + [k])[i]) < LastTouch(history, (kept + [k])[j])
      {
        assert kept[i] in kept;
        LastTouchBound(init, kept[i]);
        if j < |kept| {
          assert kept[j] in kept;
        }
      }
    }
  }

  lemma {:induction false} LastTouchBound<K>(history: seq<K>, k: K)
    ensures -1 <= LastTouch(history, k) < |history|
    decreases |history|
  {
    if history != [] && history[|history| - 1] != k {
      LastTouchBound(history[..|history| - 1], k);
    }
  }

  /** Keeping only the last n after every touch loses nothing that the last n of the whole order would hold. */
  lemma TouchOfLast<K>(ks: seq<K>, k: K, n: nat)
    requires n > 0 && Distinct(ks)
    ensures Last(Touch(Last(ks, n), k), n) == Last(Touch(ks, k), n)
  {
    hide Without;
    if |ks| > n {
      var early, late := ks[..|ks| - n], ks[|ks| - n..];
      assert ks == early + late;
      WithoutJoins(early, late, k);
      WithoutFacts(early, k);
      WithoutFacts(late, k);
      if k in late {
        assert k !in early;
        WithoutLosesOne(late, k);
        assert Touch(ks, k) == early + (Without(late, k) + [k]);
      } else {
        assert Touch(ks, k) == Without(early, k) + (late + [k]);
      }
    }
  }

  lemma {:induction false} WithoutLosesOne<K>(ks: seq<K>, k: K)
    requires Distinct(ks) && k in ks
    ensures |Without(ks, k)| == |ks| - 1
  {
    var rest := ks[1..];
    assert ks == [ks[0]] + rest;
    if ks[0] == k {
      assert k !in rest;
      WithoutFacts(rest, k);
    } else {
      WithoutLosesOne(rest, k);
    }
  }
}

module ActivityList {
  import opened Recency
  import opened Wrappers

  // What else a record carries is not looked at.
  datatype Record = Record(id: string, time: int, summary: string)

  const ACTIVITY_LIMIT := 500

  function Ids(records: seq<Record>): seq<string> {
    seq(|records|, i requires 0 <= i < |records| => records[i].id)
  }

  function Max(a: int, b: int): int {
    if a < b then b else a
  }

  function IndexOf(records: seq<Record>, id: string): Option<nat> {
    if records == [] then None
    else if records[0].id == id then Some(0)
    else
      var rest := IndexOf(records[1..], id);
      if rest.None? then None else Some(rest.value + 1)
  }

  // An added record whose id is there is later than the one it replaces.
  function Stamped(records: seq<Record>, candidate: Record): Record {
    var at := IndexOf(records, candidate.id);
    if at.Some? && at.value < |records| then candidate.(time := Max(candidate.time, records[at.value].time + 1))
    else candidate
  }

  ghost predicate IsFirstOf(records: seq<Record>, id: string, i: int) {
    0 <= i < |records| && records[i].id == id && forall j :: 0 <= j < i ==> records[j].id != id
  }

  // A record that is added again is one later than before, or as late as it says; a new one is as given.
  ghost predicate IsStamped(records: seq<Record>, candidate: Record, added: Record) {
    && (forall i :: IsFirstOf(records, candidate.id, i) ==>
          added == candidate.(time := if candidate.time > records[i].time then candidate.time else records[i].time + 1))
    && ((forall i :: 0 <= i < |records| ==> records[i].id != candidate.id) ==> added == candidate)
  }

  lemma {:induction false} IndexIsFirst(records: seq<Record>, id: string)
    ensures match IndexOf(records, id)
      case Some(i) => IsFirstOf(records, id, i)
      case None => forall i :: 0 <= i < |records| ==> records[i].id != id
  {
    if records != [] && records[0].id != id {
      IndexIsFirst(records[1..], id);
      assert forall i :: 0 < i < |records| ==> records[i] == records[1..][i - 1];
    }
  }

  lemma StampedExact(records: seq<Record>, candidate: Record)
    ensures IsStamped(records, candidate, Stamped(records, candidate))
  {
    IndexIsFirst(records, candidate.id);
    hide IndexOf;
  }

  // The records without the first one of an id.
  function Removed(records: seq<Record>, id: string): seq<Record> {
    var at := IndexOf(records, id);
    if at.Some? && at.value < |records| then records[..at.value] + records[at.value + 1..] else records
  }

  function Appended(records: seq<Record>, candidate: Record): seq<Record> {
    Last(Removed(records, candidate.id) + [Stamped(records, candidate)], ACTIVITY_LIMIT)
  }

  // start: the list that the session was restored with.
  function AfterAll(start: seq<Record>, history: seq<Record>): seq<Record> {
    if history == [] then start else Appended(AfterAll(start, history[..|history| - 1]), history[|history| - 1])
  }

  class Activity {
    var records: seq<Record>

    constructor ()
      ensures records == []
    {
      records := [];
    }

    // candidate: what sanitising left; None is not accepted.
    method AppendActivity(candidate: Option<Record>) returns (added: Option<Record>)
      modifies this
      ensures candidate.None? ==> added.None? && records == old(records)
      ensures candidate.Some? ==>
        added == Some(Stamped(old(records), candidate.value)) && records == Appended(old(records), candidate.value)
      ensures candidate.Some? ==> added.Some? && IsStamped(old(records), candidate.value, added.value)
    {
      hide IndexOf, IsStamped;
      if candidate.None? {
        return None;
      }
      StampedExact(records, candidate.value);
      var record := candidate.value;
      var index := FindIndex(record.id);
      if index.Some? {
        record := record.(time := Max(record.time, records[index.value].time + 1));
        records := records[..index.value] + records[index.value + 1..];
      }
      records := records + [record];
      if |records| > ACTIVITY_LIMIT {
        records := records[|records| - ACTIVITY_LIMIT..];
      }
      return Some(record);
    }

    method FindIndex(id: string) returns (index: Option<nat>)
      ensures index == IndexOf(records, id)
      ensures index.Some? ==> index.value < |records| && records[index.value].id == id
    {
      var k := 0;
      assert records[0..] == records;
      while k < |records|
        invariant k <= |records|
        invariant IndexOf(records, id) == Shifted(IndexOf(records[k..], id), k)
      {
        assert records[k..][1..] == records[k + 1..];
        if records[k].id == id {
          return Some(k);
        }
        k := k + 1;
      }
      return None;
    }
  }

  function Shifted(at: Option<nat>, k: nat): Option<nat> {
    if at.None? then None else Some(at.value + k)
  }

  lemma {:induction false} RemovedIds(records: seq<Record>, id: string)
    requires Distinct(Ids(records))
    ensures Ids(Removed(records, id)) == Without(Ids(records), id)
  {
    if records == [] {
      assert Removed(records, id) == records;
    } else {
      hide Distinct, Removed, Without, Ids;
      var first, rest := records[0], records[1..];
      IdsFirst(records);
      DistinctTail(Ids(records));
      RemovedFirst(records, id);
      WithoutFirst(Ids(records), id);
      RemovedIds(rest, id);
      if first.id == id {
        WithoutFacts(Ids(rest), id);
      } else {
        IdsFirst([first] + Removed(rest, id));
        assert ([first] + Removed(rest, id))[1..] == Removed(rest, id);
      }
    }
  }

  lemma IdsFirst(records: seq<Record>)
    requires records != []
    ensures Ids(records) == [records[0].id] + Ids(records[1..])
    ensures Ids(records)[1..] == Ids(records[1..])
  {
  }

  lemma WithoutFirst(ks: seq<string>, k: string)
    requires ks != []
    ensures Without(ks, k) == if ks[0] == k then Without(ks[1..], k) else [ks[0]] + Without(ks[1..], k)
  {
  }

  lemma RemovedFirst(records: seq<Record>, id: string)
    requires records != []
    ensures Removed(records, id)
      == if records[0].id == id then records[1..] else [records[0]] + Removed(records[1..], id)
  {
  }

  lemma LastIds(records: seq<Record>, record: Record)
    ensures Ids(Last(records + [record], ACTIVITY_LIMIT)) == Last(Ids(records) + [record.id], ACTIVITY_LIMIT)
  {
  }

  lemma OneAppendMore(records: seq<Record>, candidate: Record)
    requires Distinct(Ids(records))
    ensures Ids(Appended(records, candidate)) == Last(Touch(Ids(records), candidate.id), ACTIVITY_LIMIT)
  {
    RemovedIds(records, candidate.id);
    LastIds(Removed(records, candidate.id), Stamped(records, candidate));
  }

  /** After any accepted history, from any list of distinct ids within the limit, the list holds the last five hundred ids by
      their last occurrence, each once. */
  lemma {:induction false} ActivityIsRecent(start: seq<Record>, history: seq<Record>)
    requires Distinct(Ids(start)) && |start| <= ACTIVITY_LIMIT
    ensures Ids(AfterAll(start, history)) == Last(ByLatest(Ids(start + history)), ACTIVITY_LIMIT)
    ensures Distinct(Ids(AfterAll(start, history)))
    decreases |history|
  {
    hide Distinct, ByLatest, Touch, Last, Appended;
    ByLatestIsByLatest(Ids(start + history));
    LastIsDistinct(ByLatest(Ids(start + history)), ACTIVITY_LIMIT);
    if history == [] {
      assert start + history == start;
      ByLatestOfDistinct(Ids(start));
      LastOfFew(Ids(start));
    } else {
      var init, last := history[..|history| - 1], history[|history| - 1];
      ActivityIsRecent(start, init);
      OneAppendMore(AfterAll(start, init), last);
      ByLatestIsByLatest(Ids(start + init));
      TouchOfLast(ByLatest(Ids(start + init)), last.id, ACTIVITY_LIMIT);
      assert (start + history)[..|start + history| - 1] == start + init;
      OneMore(start + history);
    }
  }

  lemma {:induction false} ByLatestOfDistinct(ks: seq<string>)
    requires Distinct(ks)
    ensures ByLatest(ks) == ks
    decreases |ks|
  {
    if ks != [] {
      var init, last := ks[..|ks| - 1], ks[|ks| - 1];
      assert Distinct(init) && last !in init;
      ByLatestOfDistinct(init);
      WithoutFacts(init, last);
      assert ks == init + [last];
    }
  }

  lemma LastOfFew(ks: seq<string>)
    requires |ks| <= ACTIVITY_LIMIT
    ensures Last(ks, ACTIVITY_LIMIT) == ks
  {
  }

  lemma OneMore(history: seq<Record>)
    requires history != []
    ensures ByLatest(Ids(history)) == Touch(ByLatest(Ids(history[..|history| - 1])), history[|history| - 1].id)
  {
    assert Ids(history)[..|history| - 1] == Ids(history[..|history| - 1]);
  }

  /** What is kept for an id. */

  function LastAdded(added: seq<Record>, id: string): Option<Record> {
    if added == [] then None
    else if added[|added| - 1].id == id then Some(added[|added| - 1])
    else LastAdded(added[..|added| - 1], id)
  }

  // The record added, up to a time that is no earlier.
  predicate AsAdded(kept: Record, added: Option<Record>) {
    added.Some? && kept == added.value.(time := kept.time) && kept.time >= added.value.time
  }

  /** The record kept for an id is the one added last under that id, at its time or later. */
  lemma {:induction false} KeptAsLastAdded(start: seq<Record>, history: seq<Record>)
    requires Distinct(Ids(start)) && |start| <= ACTIVITY_LIMIT
    ensures forall r <- AfterAll(start, history) :: AsAdded(r, LastAdded(start + history, r.id))
    decreases |history|
  {
    hide Distinct, ByLatest, Last, AsAdded, LastAdded, Appended;
    if history == [] {
      assert start + history == start;
      StartAsAdded(start);
    } else {
      var init, last := history[..|history| - 1], history[|history| - 1];
      KeptAsLastAdded(start, init);
      ActivityIsRecent(start, init);
      assert start + history == (start + init) + [last];
      StepAsAdded(AfterAll(start, init), start + init, last);
    }
  }

  lemma StartAsAdded(start: seq<Record>)
    requires Distinct(Ids(start))
    ensures forall r <- start :: AsAdded(r, LastAdded(start, r.id))
  {
    forall r <- start
      ensures AsAdded(r, LastAdded(start, r.id))
    {
      var k :| 0 <= k < |start| && start[k] == r;
      AddedOnce(start, k);
    }
  }

  lemma StepAsAdded(records: seq<Record>, added: seq<Record>, last: Record)
    requires Distinct(Ids(records)) && forall r <- records :: AsAdded(r, LastAdded(added, r.id))
    ensures forall r <- Appended(records, last) :: AsAdded(r, LastAdded(added + [last], r.id))
  {
    hide Distinct, Appended;
    assert (added + [last])[..|added|] == added;
    forall r <- Appended(records, last)
      ensures AsAdded(r, LastAdded(added + [last], r.id))
    {
      AppendedFrom(records, last, r);
    }
  }

  // After an append a record is the stamped one, or an earlier one of another id.
  lemma AppendedFrom(records: seq<Record>, candidate: Record, r: Record)
    requires Distinct(Ids(records)) && r in Appended(records, candidate)
    ensures r == Stamped(records, candidate) || (r in records && r.id != candidate.id)
  {
    var kept := Removed(records, candidate.id);
    assert r in kept + [Stamped(records, candidate)];
    if r in kept {
      RemovedIds(records, candidate.id);
      WithoutFacts(Ids(records), candidate.id);
      var k :| 0 <= k < |kept| && kept[k] == r;
      assert Ids(kept)[k] == r.id && r.id in Ids(kept);
    }
  }

  lemma {:induction false} AddedOnce(records: seq<Record>, k: nat)
    requires Distinct(Ids(records)) && k < |records|
    ensures LastAdded(records, records[k].id) == Some(records[k])
    decreases |records|
  {
    var init := records[..|records| - 1];
    if k < |init| {
      assert Ids(records)[k] != Ids(records)[|init|];
      assert Ids(init) == Ids(records)[..|init|];
      AddedOnce(init, k);
    }
  }

  /** A record added again is later than the one it replaces. */
  lemma ReaddedIsLater(records: seq<Record>, candidate: Record, k: nat)
    requires Distinct(Ids(records)) && k < |records| && records[k].id == candidate.id
    ensures Stamped(records, candidate).time > records[k].time
    ensures Stamped(records, candidate).time >= candidate.time
    ensures Stamped(records, candidate) == candidate.(time := Stamped(records, candidate).time)
  {
    IndexIs(records, candidate.id, k);
  }

  lemma {:induction false} IndexIs(records: seq<Record>, id: string, k: nat)
    requires Distinct(Ids(records)) && k < |records| && records[k].id == id
    ensures IndexOf(records, id) == Some(k)
  {
    var rest := records[1..];
    assert forall i :: 0 <= i < |rest| ==> Ids(rest)[i] == Ids(records)[i + 1];
    if k > 0 {
      assert Ids(records)[0] != Ids(records)[k];
      IndexIs(rest, id, k - 1);
    }
  }
}

module CapabilityCache {
  import opened Recency
  import opened Wrappers

  datatype Key = Key(profile: string, endpoint: string, model: string, operation: string, configVersion: string)

  datatype Item = Item(key: Key, supported: bool)

  const MAX_ENTRIES := 256

  datatype Call = Get(key: Key) | Set(key: Key, supported: bool) | Invalidate

  function KeysOf(items: seq<Item>): seq<Key> {
    seq(|items|, i requires 0 <= i < |items| => items[i].key)
  }

  // Items in the order in which they were inserted, without one key.
  function Delete(items: seq<Item>, key: Key): seq<Item> {
    if items == [] then []
    else if items[0].key == key then Delete(items[1..], key)
    else [items[0]] + Delete(items[1..], key)
  }

  function Find(items: seq<Item>, key: Key): Option<bool> {
    if items == [] then None
    else if items[0].key == key then Some(items[0].supported)
    else Find(items[1..], key)
  }

  function AfterCall(items: seq<Item>, call: Call): seq<Item> {
    match call
    case Invalidate => []
    case Get(key) =>
      if Find(items, key).None? then items else Delete(items, key) + [Item(key, Find(items, key).value)]
    case Set(key, supported) =>
      var next := Delete(items, key) + [Item(key, supported)];
      if |next| > MAX_ENTRIES then next[1..] else next
  }

  function AfterCalls(calls: seq<Call>): seq<Item> {
    if calls == [] then [] else AfterCall(AfterCalls(calls[..|calls| - 1]), calls[|calls| - 1])
  }

  class Cache {
    // A map that remembers the order of insertion.
    var entries: seq<Item>

    constructor ()
      ensures entries == []
    {
      entries := [];
    }

    method Get(key: Key) returns (supported: Option<bool>)
      modifies this
      ensures supported == Find(old(entries), key)
      ensures entries == AfterCall(old(entries), Call.Get(key))
    {
      supported := Find(entries, key);
      if supported.None? {
        return;
      }
      entries := Delete(entries, key);
      entries := entries + [Item(key, supported.value)];
    }

    method Record(key: Key, supported: bool)
      modifies this
      ensures entries == AfterCall(old(entries), Set(key, supported))
    {
      entries := Delete(entries, key);
      entries := entries + [Item(key, supported)];
      if |entries| > MAX_ENTRIES {
        entries := entries[1..];
      }
    }

    method Invalidate()
      modifies this
      ensures entries == AfterCall(old(entries), Call.Invalidate)
    {
      entries := [];
    }
  }

  /** The history that counts: what was touched, and what was recorded, since the last invalidation. */

  function Touched(calls: seq<Call>): seq<Key> {
    if calls == [] then []
    else
      var init, last := calls[..|calls| - 1], calls[|calls| - 1];
      match last
      case Invalidate => []
      case Set(key, _) => Touched(init) + [key]
      // A look-up touches only what it finds.
      case Get(key) => if key in Last(ByLatest(Touched(init)), MAX_ENTRIES) then Touched(init) + [key] else Touched(init)
  }

  function LastRecorded(calls: seq<Call>, key: Key): Option<bool> {
    if calls == [] then None
    else
      var init, last := calls[..|calls| - 1], calls[|calls| - 1];
      match last
      case Invalidate => None
      case Set(k, supported) => if k == key then Some(supported) else LastRecorded(init, key)
      case Get(_) => LastRecorded(init, key)
  }

  lemma {:induction false} DeleteKeys(items: seq<Item>, key: Key)
    ensures KeysOf(Delete(items, key)) == Without(KeysOf(items), key)
    ensures forall k :: k != key ==> Find(Delete(items, key), k) == Find(items, k)
  {
    if items != [] {
      var rest := items[1..];
      DeleteKeys(rest, key);
      assert KeysOf(items) == [items[0].key] + KeysOf(rest);
      if items[0].key != key {
        assert KeysOf([items[0]] + Delete(rest, key)) == [items[0].key] + KeysOf(Delete(rest, key));
        assert ([items[0]] + Delete(rest, key))[1..] == Delete(rest, key);
      }
    }
  }

  lemma {:induction false} FindsKeys(items: seq<Item>, key: Key)
    ensures Find(items, key).Some? <==> key in KeysOf(items)
  {
    if items != [] {
      assert KeysOf(items) == [items[0].key] + KeysOf(items[1..]);
      FindsKeys(items[1..], key);
    }
  }

  lemma {:induction false} FindInJoin(a: seq<Item>, b: seq<Item>, key: Key)
    ensures Find(a + b, key) == if key in KeysOf(a) then Find(a, key) else Find(b, key)
  {
    if a == [] {
      assert a + b == b;
    } else {
      assert (a + b)[1..] == a[1..] + b;
      assert KeysOf(a) == [a[0].key] + KeysOf(a[1..]);
      FindInJoin(a[1..], b, key);
    }
  }

  // Inserting an item after deleting its key moves the key to the end and changes no other.
  lemma Reinserted(items: seq<Item>, item: Item)
    ensures KeysOf(Delete(items, item.key) + [item]) == Touch(KeysOf(items), item.key)
    ensures forall k ::
      Find(Delete(items, item.key) + [item], k) == if k == item.key then Some(item.supported) else Find(items, k)
  {
    DeleteKeys(items, item.key);
    WithoutFacts(KeysOf(items), item.key);
    assert KeysOf(Delete(items, item.key) + [item]) == KeysOf(Delete(items, item.key)) + [item.key];
    forall k
      ensures Find(Delete(items, item.key) + [item], k) == if k == item.key then Some(item.supported) else Find(items, k)
    {
      FindInJoin(Delete(items, item.key), [item], k);
      FindsKeys(items, k);
      FindsKeys(Delete(items, item.key), k);
    }
  }

  /** After any calls the cache holds the last 256 keys by their latest touch, and each look-up that hits returns what was
      recorded for the key last. */
  lemma {:induction false} CacheIsRecent(calls: seq<Call>)
    ensures KeysOf(AfterCalls(calls)) == Last(ByLatest(Touched(calls)), MAX_ENTRIES)
    ensures forall key :: key in KeysOf(AfterCalls(calls)) ==> Find(AfterCalls(calls), key) == LastRecorded(calls, key)
    ensures forall key :: Find(AfterCalls(calls), key).Some? <==> key in Last(ByLatest(Touched(calls)), MAX_ENTRIES)
    decreases |calls|
  {
    hide ByLatest, Find, KeysOf, Delete, Last, Touch;
    if calls != [] {
      var init, last := calls[..|calls| - 1], calls[|calls| - 1];
      CacheIsRecent(init);
      var items := AfterCalls(init);
      match last
      case Invalidate =>
        NothingHeld();
      case Get(key) =>
        if Find(items, key).Some? {
          GetMoves(items, Touched(init), key);
        }
      case Set(key, supported) =>
        SetMoves(items, Touched(init), key, supported);
    } else {
      NothingHeld();
    }
    forall key
      ensures Find(AfterCalls(calls), key).Some? <==> key in KeysOf(AfterCalls(calls))
    {
      FindsKeys(AfterCalls(calls), key);
    }
  }

  lemma NothingHeld()
    ensures KeysOf([]) == [] && Last(ByLatest<Key>([]), MAX_ENTRIES) == []
  {
  }

  lemma GetMoves(items: seq<Item>, history: seq<Key>, key: Key)
    requires KeysOf(items) == Last(ByLatest(history), MAX_ENTRIES) && Find(items, key).Some?
    ensures key in KeysOf(items)
    ensures var next := AfterCall(items, Call.Get(key));
      && KeysOf(next) == Last(ByLatest(history + [key]), MAX_ENTRIES)
      && forall k :: Find(next, k) == Find(items, k)
  {
    hide ByLatest, KeysOf, Delete;
    FindsKeys(items, key);
    Reinserted(items, Item(key, Find(items, key).value));
    TouchStaysBounded(history, key);
  }

  lemma SetMoves(items: seq<Item>, history: seq<Key>, key: Key, supported: bool)
    requires KeysOf(items) == Last(ByLatest(history), MAX_ENTRIES)
    ensures var next := AfterCall(items, Set(key, supported));
      && KeysOf(next) == Last(ByLatest(history + [key]), MAX_ENTRIES)
      && forall k :: k in KeysOf(next) ==>
           (k == key || k in KeysOf(items)) && Find(next, k) == if k == key then Some(supported) else Find(items, k)
  {
    hide ByLatest, Delete, Find, Without, Distinct;
    Reinserted(items, Item(key, supported));
    TouchStaysBounded(history, key);
    WithoutFacts(KeysOf(items), key);
    var next := Delete(items, key) + [Item(key, supported)];
    if |next| > MAX_ENTRIES {
      EvictsFirst(next);
      ByLatestIsByLatest(history);
      LastIsDistinct(ByLatest(history), MAX_ENTRIES);
      DistinctTail(KeysOf(next));
      assert forall k :: k in KeysOf(next)[1..] ==> k in KeysOf(next);
    }
  }

  lemma TouchStaysBounded(history: seq<Key>, key: Key)
    ensures Last(Touch(Last(ByLatest(history), MAX_ENTRIES), key), MAX_ENTRIES) == Last(ByLatest(history + [key]), MAX_ENTRIES)
    ensures key in Last(ByLatest(history), MAX_ENTRIES) ==>
      |Touch(Last(ByLatest(history), MAX_ENTRIES), key)| <= MAX_ENTRIES
    ensures |Touch(Last(ByLatest(history), MAX_ENTRIES), key)| <= MAX_ENTRIES + 1
  {
    hide Distinct, Without;
    ByLatestIsByLatest(history);
    TouchOfLast(ByLatest(history), key, MAX_ENTRIES);
    OneTouchMore(history, key);
    var kept := Last(ByLatest(history), MAX_ENTRIES);
    LastIsDistinct(ByLatest(history), MAX_ENTRIES);
    hide ByLatest;
    WithoutFacts(kept, key);
    if key in kept {
      WithoutLosesOne(kept, key);
    }
  }

  lemma OneTouchMore(history: seq<Key>, key: Key)
    ensures ByLatest(history + [key]) == Touch(ByLatest(history), key)
  {
    assert (history + [key])[..|history|] == history;
  }

  // Evicting the first of distinct keys leaves the others findable.
  lemma EvictsFirst(items: seq<Item>)
    requires items != []
    ensures KeysOf(items[1..]) == KeysOf(items)[1..]
    ensures forall k :: k != items[0].key ==> Find(items[1..], k) == Find(items, k)
  {
  }
}
