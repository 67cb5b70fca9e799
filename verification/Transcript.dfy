/**
Turning a transcript into provider history (src/context.js): tool requests and results are paired by
call id, paired requests are grouped by step, and one pass emits the messages. Records are told apart by
their position in the list, as the code tells them apart by object identity.
*/
module Transcript {
  import opened Wrappers

  // A call id that is missing or is not a string is "" here; the code treats both the same way.
  datatype Record =
    | Message(role: string, content: string, trust: string, turnId: string, stepId: string)
    | ToolRequest(callId: string, turnId: string, stepId: string, toolName: string, args: string)
    | ToolResult(callId: string, content: string)
    | Compaction(summary: string)
    | ContextCheckpoint(summary: string)
    | Other(callId: string)

  /** Pairing requests with results. */

  predicate RequestOf(records: seq<Record>, i: nat, id: string) {
    i < |records| && records[i].ToolRequest? && records[i].callId == id
  }

  predicate ResultOf(records: seq<Record>, i: nat, id: string) {
    i < |records| && records[i].ToolResult? && records[i].callId == id
  }

  // The requests with this id among the first n records that no result has taken yet, oldest first.
  function Waiting(records: seq<Record>, n: nat, id: string): seq<nat>
    requires n <= |records|
  {
    if n == 0 then []
    else
      var before := Waiting(records, n - 1, id);
      if RequestOf(records, n - 1, id) then before + [n - 1]
      else if ResultOf(records, n - 1, id) && before != [] then before[1..]
      else before
  }

  // The request a result answers, if any.
  function Partner(records: seq<Record>, i: nat): Option<nat>
    requires i < |records|
  {
    if records[i].ToolResult? && records[i].callId != "" && Waiting(records, i, records[i].callId) != []
    then Some(Waiting(records, i, records[i].callId)[0])
    else None
  }

  predicate PairedResult(records: seq<Record>, i: nat) {
    i < |records| && Partner(records, i).Some?
  }

  predicate TakenBefore(records: seq<Record>, r: nat, n: nat)
    requires n <= |records|
  {
    exists i :: 0 <= i < n && Partner(records, i) == Some(r)
  }

  predicate PairedRequest(records: seq<Record>, r: nat) {
    TakenBefore(records, r, |records|)
  }

  method PairedToolRecords(records: seq<Record>) returns (requests: set<nat>, results: set<nat>)
    ensures forall r: nat :: r in requests <==> PairedRequest(records, r)
    ensures forall i: nat :: i in results <==> PairedResult(records, i)
  {
    var pending: map<string, seq<nat>> := map[];
    requests, results := {}, {};
    var n := 0;
    while n < |records|
      invariant n <= |records|
      invariant forall id :: id != "" ==> Waiting(records, n, id) == if id in pending then pending[id] else []
      invariant forall r: nat :: r in requests <==> TakenBefore(records, r, n)
      invariant forall i: nat :: i in results <==> i < n && PairedResult(records, i)
    {
      var item := records[n];
      if (item.ToolRequest? || item.ToolResult? || item.Other?) && item.callId != "" {
        var id := item.callId;
        if item.ToolRequest? {
          if id !in pending {
            pending := pending[id := []];
          }
          pending := pending[id := pending[id] + [n]];
        } else if item.ToolResult? && id in pending && pending[id] != [] {
          var queue := pending[id];
          requests := requests + {queue[0]};
          results := results + {n};
          queue := queue[1..];
          pending := if queue == [] then pending - {id} else pending[id := queue];
          assert Partner(records, n) == Some(Waiting(records, n, id)[0]);
        }
      }
      n := n + 1;
    }
  }

  lemma {:induction false} WaitingIsOfId(records: seq<Record>, n: nat, id: string)
    requires n <= |records|
    ensures forall k :: 0 <= k < |Waiting(records, n, id)| ==>
      Waiting(records, n, id)[k] < n && RequestOf(records, Waiting(records, n, id)[k], id)
  {
    if n > 0 {
      WaitingIsOfId(records, n - 1, id);
    }
  }

  lemma {:induction false} WaitingIsSorted(records: seq<Record>, n: nat, id: string)
    requires n <= |records|
    ensures forall k, m :: 0 <= k < m < |Waiting(records, n, id)| ==>
      Waiting(records, n, id)[k] < Waiting(records, n, id)[m]
  {
    if n > 0 {
      WaitingIsOfId(records, n - 1, id);
      WaitingIsSorted(records, n - 1, id);
    }
  }

  lemma TakenStep(records: seq<Record>, r: nat, n: nat)
    requires n < |records|
    ensures TakenBefore(records, r, n + 1) <==> TakenBefore(records, r, n) || Partner(records, n) == Some(r)
  {
    hide Partner;
  }

  // What a record of the list takes from the queue of an id is the head of that queue.
  lemma TakenFromQueue(records: seq<Record>, r: nat, n: nat, id: string)
    requires n < |records| && id != "" && RequestOf(records, r, id)
    ensures Partner(records, n) == Some(r) <==>
      ResultOf(records, n, id) && Waiting(records, n, id) != [] && Waiting(records, n, id)[0] == r
  {
    if Partner(records, n) == Some(r) {
      WaitingIsOfId(records, n, records[n].callId);
    }
  }

  // The queue of an id holds exactly its unanswered requests.
  lemma {:induction false} WaitingIsUnanswered(records: seq<Record>, r: nat, n: nat, id: string)
    requires n <= |records| && id != "" && r < n && RequestOf(records, r, id)
    ensures r in Waiting(records, n, id) <==> !TakenBefore(records, r, n)
  {
    TakenStep(records, r, n - 1);
    TakenFromQueue(records, r, n - 1, id);
    var before := Waiting(records, n - 1, id);
    if r == n - 1 {
      NotTakenYet(records, r);
    } else {
      WaitingIsUnanswered(records, r, n - 1, id);
      if ResultOf(records, n - 1, id) && before != [] {
        WaitingIsSorted(records, n - 1, id);
        assert before == [before[0]] + before[1..];
        assert forall k :: 0 <= k < |before| - 1 ==> before[1..][k] == before[k + 1];
      }
    }
  }

  lemma NotTakenYet(records: seq<Record>, r: nat)
    requires r < |records|
    ensures !TakenBefore(records, r, r)
  {
    forall i: nat | i < r && PairedResult(records, i)
      ensures Partner(records, i).value < r
    {
      PartnerIsEarlier(records, i);
    }
  }

  // Every answered request is older than every waiting one.
  lemma {:induction false} TakenAreOlder(records: seq<Record>, r: nat, n: nat, id: string)
    requires n <= |records| && id != "" && RequestOf(records, r, id) && TakenBefore(records, r, n)
    ensures forall k :: 0 <= k < |Waiting(records, n, id)| ==> r < Waiting(records, n, id)[k]
  {
    if n > 0 {
      TakenStep(records, r, n - 1);
      if TakenBefore(records, r, n - 1) {
        TakenAreOlder(records, r, n - 1, id);
        var i :| 0 <= i < n - 1 && Partner(records, i) == Some(r);
        PartnerIsEarlier(records, i);
      } else {
        TakenFromQueue(records, r, n - 1, id);
        WaitingIsSorted(records, n - 1, id);
      }
    }
  }

  /** A result answers an earlier request of its own id, and no two results answer the same request. */
  lemma PartnerIsEarlier(records: seq<Record>, i: nat)
    requires PairedResult(records, i)
    ensures Partner(records, i).value < i
    ensures RequestOf(records, Partner(records, i).value, records[i].callId)
  {
    WaitingIsOfId(records, i, records[i].callId);
  }

  /** First in, first out: of two results with one id, the earlier answers the earlier request. */
  lemma PairingKeepsOrder(records: seq<Record>, i: nat, k: nat)
    requires i < k && PairedResult(records, i) && PairedResult(records, k)
    requires records[i].callId == records[k].callId
    ensures Partner(records, i).value < Partner(records, k).value
  {
    var id := records[i].callId;
    PartnerIsEarlier(records, i);
    TakenAreOlder(records, Partner(records, i).value, k, id);
  }

  lemma PartnerInjective(records: seq<Record>, i: nat, k: nat)
    requires i != k && PairedResult(records, i) && PairedResult(records, k)
    ensures Partner(records, i) != Partner(records, k)
  {
    PartnerIsEarlier(records, i);
    PartnerIsEarlier(records, k);
    if records[i].callId == records[k].callId {
      if i < k {
        PairingKeepsOrder(records, i, k);
      } else {
        PairingKeepsOrder(records, k, i);
      }
    }
  }

  /** No request is skipped: a request is answered only when every older request of its id is. With the order
      above, the k-th request of an id goes to the k-th paired result. */
  lemma NoRequestSkipped(records: seq<Record>, r: nat, s: nat, id: string)
    requires id != "" && r < s && RequestOf(records, r, id) && RequestOf(records, s, id)
    requires PairedRequest(records, s)
    ensures PairedRequest(records, r)
  {
    var i :| 0 <= i < |records| && Partner(records, i) == Some(s);
    WaitingIsOfId(records, i, records[i].callId);
    WaitingIsSorted(records, i, id);
    WaitingIsUnanswered(records, r, i, id);
    assert TakenBefore(records, r, i);
  }
}
