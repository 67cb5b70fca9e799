/** The FIFO pairing pairs as many records as any order-respecting pairing could. */
module HistoryMatching {
  import opened Wrappers
  import opened Transcript

  // A way to give each of some results its own earlier request of the same call id.
  ghost predicate ValidMatching(records: seq<Record>, m: map<nat, nat>) {
    && (forall i <- m ::
          && i < |records| && records[i].ToolResult? && records[i].callId != ""
          && m[i] < i && RequestOf(records, m[i], records[i].callId))
    && forall i, k :: i in m && k in m && i != k ==> m[i] != m[k]
  }

  function Fifo(records: seq<Record>): map<nat, nat> {
    map i: nat | i < |records| && PairedResult(records, i) :: Partner(records, i).value
  }

  lemma FifoIsMatching(records: seq<Record>)
    ensures ValidMatching(records, Fifo(records))
  {
    var m := Fifo(records);
    forall i <- m
      ensures m[i] < i && RequestOf(records, m[i], records[i].callId)
    {
      PartnerIsEarlier(records, i);
    }
    forall i, k | i in m && k in m && i != k
      ensures m[i] != m[k]
    {
      PartnerInjective(records, i, k);
    }
  }

  /** Counting one id at a time. */

  function PairedOf(records: seq<Record>, n: nat, id: string): set<nat> {
    set i: nat | i < n && ResultOf(records, i, id) && PairedResult(records, i)
  }

  function RequestsOf(records: seq<Record>, n: nat, id: string): set<nat> {
    set r: nat | r < n && RequestOf(records, r, id)
  }

  function WithId(records: seq<Record>, s: set<nat>, id: string): set<nat> {
    set i <- s | ResultOf(records, i, id)
  }

  function MatchedOf(records: seq<Record>, m: map<nat, nat>, n: nat, id: string): set<nat> {
    set i <- m | i < n && ResultOf(records, i, id)
  }

  lemma PairedStep(records: seq<Record>, n: nat, id: string)
    requires n < |records|
    ensures PairedOf(records, n + 1, id)
      == if ResultOf(records, n, id) && PairedResult(records, n) then PairedOf(records, n, id) + {n}
         else PairedOf(records, n, id)
  {
    hide PairedResult, ResultOf;
  }

  lemma RequestsStep(records: seq<Record>, n: nat, id: string)
    requires n < |records|
    ensures RequestsOf(records, n + 1, id)
      == if RequestOf(records, n, id) then RequestsOf(records, n, id) + {n} else RequestsOf(records, n, id)
  {
    hide RequestOf;
  }

  // Every request of an id is answered or waiting.
  lemma {:induction false} RequestsAccounted(records: seq<Record>, n: nat, id: string)
    requires n <= |records| && id != ""
    ensures |PairedOf(records, n, id)| + |Waiting(records, n, id)| == |RequestsOf(records, n, id)|
  {
    if n > 0 {
      RequestsAccounted(records, n - 1, id);
      PairedStep(records, n - 1, id);
      RequestsStep(records, n - 1, id);
      hide PairedOf, RequestsOf;
      if ResultOf(records, n - 1, id) {
        assert PairedResult(records, n - 1) <==> Waiting(records, n - 1, id) != [];
        hide PairedResult;
      }
      assert n - 1 !in PairedOf(records, n - 1, id) && n - 1 !in RequestsOf(records, n - 1, id) by {
        NotYetCounted(records, n - 1, id);
      }
    }
  }

  lemma NotYetCounted(records: seq<Record>, n: nat, id: string)
    ensures n !in PairedOf(records, n, id) && n !in RequestsOf(records, n, id)
  {
  }

  lemma {:induction false} InjectionBounds(keys: set<nat>, m: map<nat, nat>, targets: set<nat>)
    requires forall i <- keys :: i in m && m[i] in targets
    requires forall i, k :: i in keys && k in keys && i != k ==> m[i] != m[k]
    ensures |keys| <= |targets|
  {
    if i :| i in keys {
      InjectionBounds(keys - {i}, m, targets - {m[i]});
    }
  }

  lemma MatchedStep(records: seq<Record>, m: map<nat, nat>, n: nat, id: string)
    requires n < |records|
    ensures MatchedOf(records, m, n + 1, id)
      == if n in m && ResultOf(records, n, id) then MatchedOf(records, m, n, id) + {n}
         else MatchedOf(records, m, n, id)
  {
    hide ResultOf;
  }

  lemma QueueEmptyWhenUnpaired(records: seq<Record>, n: nat, id: string)
    requires id != "" && ResultOf(records, n, id) && !PairedResult(records, n)
    ensures Waiting(records, n, id) == []
  {
  }

  // While the queue is empty every request so far is answered, so no matching can be ahead.
  lemma EmptyQueueBounds(records: seq<Record>, m: map<nat, nat>, n: nat, id: string)
    requires ValidMatching(records, m) && n < |records| && id != ""
    requires Waiting(records, n, id) == []
    ensures |MatchedOf(records, m, n + 1, id)| <= |PairedOf(records, n, id)|
  {
    RequestsAccounted(records, n, id);
    InjectionBounds(MatchedOf(records, m, n + 1, id), m, RequestsOf(records, n, id));
  }

  lemma {:induction false} IdIsMaximal(records: seq<Record>, m: map<nat, nat>, n: nat, id: string)
    requires ValidMatching(records, m) && n <= |records| && id != ""
    ensures |MatchedOf(records, m, n, id)| <= |PairedOf(records, n, id)|
  {
    if n > 0 {
      hide PairedOf, MatchedOf, PairedResult, ValidMatching;
      IdIsMaximal(records, m, n - 1, id);
      MatchedStep(records, m, n - 1, id);
      PairedStep(records, n - 1, id);
      NotYetCounted(records, n - 1, id);
      if ResultOf(records, n - 1, id) && !PairedResult(records, n - 1) {
        assert Waiting(records, n - 1, id) == [] by {
          QueueEmptyWhenUnpaired(records, n - 1, id);
        }
        EmptyQueueBounds(records, m, n - 1, id);
      }
    }
  }

  // A bound for each id separately is a bound for all ids together.
  lemma {:induction false} SumOverIds(records: seq<Record>, a: set<nat>, b: set<nat>)
    requires forall i <- a :: i < |records| && records[i].ToolResult?
    requires forall id :: |WithId(records, a, id)| <= |WithId(records, b, id)|
    ensures |a| <= |b|
    decreases |a|
  {
    if i :| i in a {
      var id := records[i].callId;
      var a1, b1 := WithId(records, a, id), WithId(records, b, id);
      forall other
        ensures |WithId(records, a - a1, other)| <= |WithId(records, b - b1, other)|
      {
        if other == id {
          assert WithId(records, a - a1, other) == {};
        } else {
          assert WithId(records, a - a1, other) == WithId(records, a, other);
          assert WithId(records, b - b1, other) == WithId(records, b, other);
        }
      }
      assert i in a1;
      SumOverIds(records, a - a1, b - b1);
      assert |a| == |a1| + |a - a1| && |b| == |b1| + |b - b1|;
    }
  }

  function Elements(s: seq<nat>): set<nat> {
    set r | r in s
  }

  lemma {:induction false} IncreasingCard(s: seq<nat>)
    requires forall k, n :: 0 <= k < n < |s| ==> s[k] < s[n]
    ensures |Elements(s)| == |s|
  {
    if s == [] {
      assert Elements(s) == {};
    } else {
      var rest, last := s[..|s| - 1], s[|s| - 1];
      IncreasingCard(rest);
      assert Elements(s) == Elements(rest) + {last} by {
        assert s == rest + [last];
      }
      assert last !in Elements(rest);
    }
  }

  /** The k-th paired result of an id answers the k-th request of that id. */
  lemma KthResultAnswersKthRequest(records: seq<Record>, i: nat)
    requires PairedResult(records, i)
    ensures var id := records[i].callId;
      |PairedOf(records, i, id)| == |RequestsOf(records, Partner(records, i).value, id)|
  {
    var id := records[i].callId;
    var queue := Waiting(records, i, id);
    var p := queue[0];
    WaitingIsOfId(records, i, id);
    WaitingIsSorted(records, i, id);
    IncreasingCard(queue);
    RequestsAccounted(records, i, id);
    hide Waiting, PairedOf;
    var older, waiting := RequestsOf(records, p, id), Elements(queue);
    forall r: nat
      ensures r in RequestsOf(records, i, id) <==> r in older || r in waiting
      ensures !(r in older && r in waiting)
    {
      if r in queue {
        var k :| 0 <= k < |queue| && queue[k] == r;
        assert r == p || queue[0] < queue[k];
      } else if r in RequestsOf(records, i, id) {
        WaitingIsUnanswered(records, r, i, id);
        TakenAreOlder(records, r, i, id);
      }
    }
    assert RequestsOf(records, i, id) == older + waiting;
    assert older !! waiting;
    assert |older + waiting| == |older| + |waiting|;
  }

  /** No order-respecting matching of results to earlier requests of their id pairs more records than FIFO. */
  lemma FifoIsMaximal(records: seq<Record>, m: map<nat, nat>)
    requires ValidMatching(records, m)
    ensures |m| <= |Fifo(records)|
  {
    var a, b := m.Keys, Fifo(records).Keys;
    forall id
      ensures |WithId(records, a, id)| <= |WithId(records, b, id)|
    {
      if id == "" {
        assert WithId(records, a, id) == {};
      } else {
        IdIsMaximal(records, m, |records|, id);
        assert WithId(records, a, id) == MatchedOf(records, m, |records|, id);
        assert WithId(records, b, id) == PairedOf(records, |records|, id);
      }
    }
    SumOverIds(records, a, b);
  }
}
