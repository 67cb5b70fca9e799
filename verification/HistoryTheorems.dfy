/** The emitted history is complete and well formed, for every record list. */
module HistoryTheorems {
  import opened Wrappers
  import opened Transcript
  import opened HistoryMatching
  import opened HistoryEmission

  /** What a message list carries, in order. */

  function CallsOf(m: Emitted): seq<nat> {
    if m.Calls? then m.requests else []
  }

  function CallsIn(out: seq<Emitted>): seq<nat> {
    if out == [] then [] else CallsIn(out[..|out| - 1]) + CallsOf(out[|out| - 1])
  }

  function ResultsIn(out: seq<Emitted>): seq<nat> {
    if out == [] then []
    else
      var last := out[|out| - 1];
      ResultsIn(out[..|out| - 1]) + if last.Result? then [last.source] else []
  }

  function TextOf(m: Emitted): seq<nat> {
    match m
    case Calls(_, content) => if content.Some? then [content.value] else []
    case Text(source) => [source]
    case Summary(source) => [source]
    case Result(_) => []
  }

  function TextsIn(out: seq<Emitted>): seq<nat> {
    if out == [] then [] else TextsIn(out[..|out| - 1]) + TextOf(out[|out| - 1])
  }

  lemma AppendOne(out: seq<Emitted>, m: Emitted)
    ensures CallsIn(out + [m]) == CallsIn(out) + CallsOf(m)
    ensures ResultsIn(out + [m]) == ResultsIn(out) + if m.Result? then [m.source] else []
    ensures TextsIn(out + [m]) == TextsIn(out) + TextOf(m)
  {
    assert (out + [m])[..|out|] == out;
  }

  /** Every paired request is emitted exactly once. */

  ghost predicate Distinct(s: seq<nat>) {
    forall i, k :: 0 <= i < k < |s| ==> s[i] != s[k]
  }

  // A paired request was emitted if its step was, or if it has no step and was reached.
  predicate Reached(records: seq<Record>, p: Pass, n: nat, r: nat) {
    && r < |records|
    && var key := StepKey(records[r]);
       if key.None? then r < n else key.value in p.steps
  }

  predicate WasEmitted(records: seq<Record>, p: Pass, n: nat, r: nat) {
    PairedRequest(records, r) && Reached(records, p, n, r)
  }

  ghost predicate CallsInv(records: seq<Record>, p: Pass, n: nat) {
    && Distinct(CallsIn(p.messages))
    && (forall r: nat :: r in CallsIn(p.messages) <==> WasEmitted(records, p, n, r))
    && (forall r: nat :: r < n && PairedRequest(records, r) ==> Reached(records, p, n, r))
    && (forall r: nat :: r in CallsIn(p.messages) ==> IdKnown(records, p, r))
  }

  predicate IdKnown(records: seq<Record>, p: Pass, r: nat) {
    r < |records| && records[r].ToolRequest? && records[r].callId in p.callIds
  }

  lemma PairedRequestIsRequest(records: seq<Record>, r: nat)
    requires PairedRequest(records, r)
    ensures r < |records| && records[r].ToolRequest? && records[r].callId != ""
  {
    var i :| 0 <= i < |records| && Partner(records, i) == Some(r);
    PartnerIsEarlier(records, i);
  }

  lemma DistinctAppend(a: seq<nat>, b: seq<nat>)
    requires Distinct(a) && Distinct(b)
    requires forall r <- b :: r !in a
    ensures Distinct(a + b)
  {
    assert forall i :: 0 <= i < |b| ==> b[i] in b;
  }

  // The requests one emission adds: the paired requests of the record's step, or the lone request itself.
  predicate NewlyEmitted(records: seq<Record>, i: nat, r: nat)
    requires i < |records|
  {
    if StepKey(records[i]).Some? then InGroup(records, r, StepKey(records[i]).value) else r == i && PairedRequest(records, i)
  }

  lemma EmissionKeepsCalls(records: seq<Record>, p: Pass, i: nat, requests: seq<nat>, content: Option<nat>)
    requires i < |records| && CallsInv(records, p, i)
    requires StepKey(records[i]).Some? ==> StepKey(records[i]).value !in p.steps
    requires StepKey(records[i]).None? ==> records[i].ToolRequest?
    requires Distinct(requests) && forall r: nat :: r in requests <==> NewlyEmitted(records, i, r)
    ensures CallsInv(records, Extend(records, p, i, Some(Calls(requests, content))), i + 1)
  {
    var next := Extend(records, p, i, Some(Calls(requests, content)));
    AppendOne(p.messages, Calls(requests, content));
    var before, after := CallsIn(p.messages), CallsIn(next.messages);
    assert after == before + requests;
    hide CallsIn;
    forall r: nat | PairedRequest(records, r)
      ensures r < |records| && records[r].ToolRequest? && records[r].callId != ""
    {
      PairedRequestIsRequest(records, r);
    }
    hide PairedRequest;
    DistinctAppend(before, requests);
    forall r: nat
      ensures r in after <==> WasEmitted(records, next, i + 1, r)
      ensures r in after ==> IdKnown(records, next, r)
      ensures r < i + 1 && PairedRequest(records, r) ==> Reached(records, next, i + 1, r)
    {
      assert r in after <==> r in before || r in requests;
      assert r in before <==> WasEmitted(records, p, i, r);
    }
  }

  lemma QuietStepKeepsCalls(records: seq<Record>, p: Pass, next: Pass, i: nat)
    requires i < |records| && CallsInv(records, p, i)
    requires CallsIn(next.messages) == CallsIn(p.messages) && next.steps == p.steps && next.callIds == p.callIds
    requires PairedRequest(records, i) ==> StepKey(records[i]).Some? && StepKey(records[i]).value in p.steps
    ensures CallsInv(records, next, i + 1)
  {
    hide CallsIn, PairedRequest;
    forall r: nat
      ensures WasEmitted(records, next, i + 1, r) <==> WasEmitted(records, p, i, r)
      ensures IdKnown(records, next, r) <==> IdKnown(records, p, r)
      ensures r < i + 1 && PairedRequest(records, r) ==> Reached(records, next, i + 1, r)
    {
    }
  }

  lemma GroupIsNew(records: seq<Record>, i: nat)
    requires i < |records| && StepKey(records[i]).Some?
    ensures var group := Group(records, |records|, StepKey(records[i]).value);
            Distinct(group) && forall r: nat :: r in group <==> NewlyEmitted(records, i, r)
  {
    GroupHolds(records, |records|, StepKey(records[i]).value);
    forall r: nat | InGroup(records, r, StepKey(records[i]).value)
      ensures r < |records|
    {
    }
  }

  lemma CallsStep(records: seq<Record>, p: Pass, i: nat)
    requires i < |records| && CallsInv(records, p, i)
    ensures CallsInv(records, Extend(records, p, i, MessageAt(records, p.steps, p.callIds, i)), i + 1)
  {
    var m := MessageAt(records, p.steps, p.callIds, i);
    if PairedRequest(records, i) {
      PairedRequestIsRequest(records, i);
    }
    hide CallsInv, PairedRequest, PairedResult, Group, IdsOf;
    if m.Some? && m.value.Calls? {
      if StepKey(records[i]).Some? {
        GroupIsNew(records, i);
      }
      EmissionKeepsCalls(records, p, i, m.value.requests, m.value.content);
    } else {
      if m.Some? {
        AppendOne(p.messages, m.value);
      }
      QuietStepKeepsCalls(records, p, Extend(records, p, i, m), i);
    }
  }

  lemma NothingEmittedYet(records: seq<Record>)
    ensures CallsInv(records, Pass([], {}, {}), 0)
  {
    hide PairedRequest;
  }

  lemma {:induction false} CallsHold(records: seq<Record>, n: nat)
    requires n <= |records|
    ensures CallsInv(records, Emit(records, n), n)
  {
    NothingEmittedYet(records);
    hide CallsInv, MessageAt, Extend;
    if n > 0 {
      CallsHold(records, n - 1);
      CallsStep(records, Emit(records, n - 1), n - 1);
    }
  }

  /** The emitted calls are exactly the paired requests, each once. */
  lemma EveryPairedRequestOnce(records: seq<Record>)
    ensures Distinct(CallsIn(HistoryOf(records)))
    ensures forall r: nat :: r in CallsIn(HistoryOf(records)) <==> PairedRequest(records, r)
  {
    CallsHold(records, |records|);
    forall r: nat | PairedRequest(records, r)
      ensures r < |records|
    {
      PairedRequestIsRequest(records, r);
    }
  }

  /** Every paired result is emitted exactly once, in order, after its call. */

  function PairedResultList(records: seq<Record>, n: nat): seq<nat>
    requires n <= |records|
  {
    if n == 0 then []
    else PairedResultList(records, n - 1) + if PairedResult(records, n - 1) then [n - 1] else []
  }

  lemma {:induction false} PairedResultListHolds(records: seq<Record>, n: nat)
    requires n <= |records|
    ensures Distinct(PairedResultList(records, n))
    ensures forall i: nat :: i in PairedResultList(records, n) <==> i < n && PairedResult(records, i)
  {
    if n > 0 {
      PairedResultListHolds(records, n - 1);
      if PairedResult(records, n - 1) {
        DistinctAppend(PairedResultList(records, n - 1), [n - 1]);
      }
    }
  }

  // The condition under which the pass emits a paired result always holds: its call came first.
  lemma PairedResultIsEmittable(records: seq<Record>, i: nat)
    requires PairedResult(records, i)
    ensures records[i].ToolResult? && records[i].callId in Emit(records, i).callIds
    ensures Partner(records, i).value in CallsIn(Emit(records, i).messages)
  {
    var r := Partner(records, i).value;
    PartnerIsEarlier(records, i);
    CallsHold(records, i);
    assert PairedRequest(records, r);
    assert RequestOf(records, r, records[i].callId) && IdKnown(records, Emit(records, i), r);
  }

  lemma ResultStep(records: seq<Record>, p: Pass, i: nat)
    requires i < |records|
    requires PairedResult(records, i) ==> records[i].ToolResult? && records[i].callId in p.callIds
    ensures ResultsIn(Extend(records, p, i, MessageAt(records, p.steps, p.callIds, i)).messages)
      == ResultsIn(p.messages) + if PairedResult(records, i) then [i] else []
  {
    hide Group, PairedRequest, IdsOf, ResultsIn;
    assert PairedResult(records, i) ==> records[i].ToolResult?;
    hide PairedResult;
    var m := MessageAt(records, p.steps, p.callIds, i);
    if m.Some? {
      AppendOne(p.messages, m.value);
    }
  }

  lemma {:induction false} ResultsHold(records: seq<Record>, n: nat)
    requires n <= |records|
    ensures ResultsIn(Emit(records, n).messages) == PairedResultList(records, n)
  {
    assert ResultsIn([]) == [];
    hide ResultsIn, MessageAt, Extend, PairedResult;
    if n > 0 {
      ResultsHold(records, n - 1);
      if PairedResult(records, n - 1) {
        PairedResultIsEmittable(records, n - 1);
      }
      ResultStep(records, Emit(records, n - 1), n - 1);
    }
  }

  ghost predicate ResultsFollowCalls(records: seq<Record>, out: seq<Emitted>) {
    forall k :: 0 <= k < |out| && out[k].Result? ==>
      PairedResult(records, out[k].source) && Partner(records, out[k].source).value in CallsIn(out[..k])
  }

  lemma FollowAppend(records: seq<Record>, out: seq<Emitted>, m: Emitted)
    requires ResultsFollowCalls(records, out)
    requires m.Result? ==> PairedResult(records, m.source) && Partner(records, m.source).value in CallsIn(out)
    ensures ResultsFollowCalls(records, out + [m])
  {
    hide CallsIn, Partner;
    forall k | 0 <= k < |out|
      ensures (out + [m])[..k] == out[..k]
    {
    }
    assert (out + [m])[..|out|] == out;
  }

  lemma FollowStep(records: seq<Record>, p: Pass, i: nat)
    requires i < |records| && ResultsFollowCalls(records, p.messages)
    requires PairedResult(records, i) ==> Partner(records, i).value in CallsIn(p.messages)
    ensures ResultsFollowCalls(records, Extend(records, p, i, MessageAt(records, p.steps, p.callIds, i)).messages)
  {
    hide Group, PairedRequest, PairedResult, ResultsFollowCalls, CallsIn, Partner, IdsOf;
    var m := MessageAt(records, p.steps, p.callIds, i);
    if m.Some? {
      FollowAppend(records, p.messages, m.value);
    }
  }

  lemma {:induction false} ResultsFollow(records: seq<Record>, n: nat)
    requires n <= |records|
    ensures ResultsFollowCalls(records, Emit(records, n).messages)
  {
    assert ResultsFollowCalls(records, []);
    hide ResultsFollowCalls, MessageAt, Extend, PairedResult;
    if n > 0 {
      ResultsFollow(records, n - 1);
      if PairedResult(records, n - 1) {
        PairedResultIsEmittable(records, n - 1);
      }
      FollowStep(records, Emit(records, n - 1), n - 1);
    }
  }

  /** The emitted results are exactly the paired results, each once, in order, and after the calls they answer. */
  lemma EveryPairedResultOnceAfterItsCall(records: seq<Record>)
    ensures Distinct(ResultsIn(HistoryOf(records)))
    ensures ResultsIn(HistoryOf(records)) == PairedResultList(records, |records|)
    ensures forall i: nat :: i in ResultsIn(HistoryOf(records)) <==> PairedResult(records, i)
    ensures ResultsFollowCalls(records, HistoryOf(records))
  {
    ResultsHold(records, |records|);
    PairedResultListHolds(records, |records|);
    ResultsFollow(records, |records|);
  }

  /** The text of every message, compaction and checkpoint appears once, in ledger order. */

  predicate HasText(item: Record) {
    item.Message? || item.Compaction? || item.ContextCheckpoint?
  }

  function TextList(records: seq<Record>, n: nat): seq<nat>
    requires n <= |records|
  {
    if n == 0 then [] else TextList(records, n - 1) + if HasText(records[n - 1]) then [n - 1] else []
  }

  lemma TextStep(records: seq<Record>, p: Pass, i: nat)
    requires i < |records|
    ensures TextsIn(Extend(records, p, i, MessageAt(records, p.steps, p.callIds, i)).messages)
      == TextsIn(p.messages) + if HasText(records[i]) then [i] else []
  {
    hide Group, PairedRequest, PairedResult, TextsIn, IdsOf;
    var m := MessageAt(records, p.steps, p.callIds, i);
    if m.Some? {
      AppendOne(p.messages, m.value);
    }
  }

  lemma {:induction false} TextsHold(records: seq<Record>, n: nat)
    requires n <= |records|
    ensures TextsIn(Emit(records, n).messages) == TextList(records, n)
  {
    hide TextsIn, MessageAt, Extend, HasText;
    if n == 0 {
      NothingSaidYet();
    } else {
      var p := Emit(records, n - 1);
      TextsHold(records, n - 1);
      TextStep(records, p, n - 1);
      assert Emit(records, n) == Extend(records, p, n - 1, MessageAt(records, p.steps, p.callIds, n - 1));
    }
  }

  lemma NothingSaidYet()
    ensures TextsIn([]) == []
  {
  }

  lemma EveryTextOnceInOrder(records: seq<Record>)
    ensures TextsIn(HistoryOf(records)) == TextList(records, |records|)
  {
    TextsHold(records, |records|);
  }

  /** Per call id, no prefix has more results than calls, and the totals agree. */

  function CallsWithId(records: seq<Record>, out: seq<Emitted>, id: string): set<nat> {
    set r | r in CallsIn(out) && RequestOf(records, r, id)
  }

  function ResultsWithId(records: seq<Record>, out: seq<Emitted>, id: string): set<nat> {
    set i | i in ResultsIn(out) && ResultOf(records, i, id)
  }

  lemma {:induction false} CallsOfPrefix(out: seq<Emitted>, m: nat)
    requires m <= |out|
    ensures forall r <- CallsIn(out[..m]) :: r in CallsIn(out)
  {
    if m < |out| {
      CallsOfPrefix(out[..|out| - 1], m);
      assert out[..|out| - 1][..m] == out[..m];
    } else {
      assert out[..m] == out;
    }
  }

  lemma {:induction false} ResultsAreAnswered(records: seq<Record>, out: seq<Emitted>)
    requires ResultsFollowCalls(records, out)
    ensures forall i <- ResultsIn(out) :: PairedResult(records, i) && Partner(records, i).value in CallsIn(out)
  {
    if out != [] {
      var rest := out[..|out| - 1];
      forall k | 0 <= k < |rest|
        ensures rest[k] == out[k] && rest[..k] == out[..k]
      {
      }
      ResultsAreAnswered(records, rest);
    }
  }

  lemma ResultsNeverAhead(records: seq<Record>, out: seq<Emitted>, id: string)
    requires ResultsFollowCalls(records, out)
    ensures |ResultsWithId(records, out, id)| <= |CallsWithId(records, out, id)|
  {
    ResultsAreAnswered(records, out);
    var results, calls, m := ResultsWithId(records, out, id), CallsWithId(records, out, id), Fifo(records);
    FifoIsMatching(records);
    forall i <- results
      ensures i in m && m[i] in calls
    {
      PartnerIsEarlier(records, i);
    }
    InjectionBounds(results, m, calls);
  }

  /** In every prefix of the history, an id has at most as many results as calls. */
  lemma NoPrefixHasMoreResults(records: seq<Record>, m: nat, id: string)
    requires m <= |HistoryOf(records)|
    ensures |ResultsWithId(records, HistoryOf(records)[..m], id)| <= |CallsWithId(records, HistoryOf(records)[..m], id)|
  {
    var out := HistoryOf(records);
    ResultsFollow(records, |records|);
    assert ResultsFollowCalls(records, out[..m]) by {
      forall k | 0 <= k < m
        ensures out[..m][..k] == out[..k]
      {
      }
    }
    ResultsNeverAhead(records, out[..m], id);
  }

  ghost function Answers(records: seq<Record>): map<nat, nat> {
    map r: nat | r < |records| && PairedRequest(records, r) ::
      var i: nat :| i < |records| && Partner(records, i) == Some(r); i
  }

  /** At the end of the history, an id has exactly as many results as calls. */
  lemma TotalsAgree(records: seq<Record>, id: string)
    ensures |ResultsWithId(records, HistoryOf(records), id)| == |CallsWithId(records, HistoryOf(records), id)|
  {
    var out := HistoryOf(records);
    NoPrefixHasMoreResults(records, |out|, id);
    assert out[..|out|] == out;
    EveryPairedRequestOnce(records);
    EveryPairedResultOnceAfterItsCall(records);
    var answers := Answers(records);
    var calls, results := CallsWithId(records, out, id), ResultsWithId(records, out, id);
    forall r <- calls
      ensures r in answers && answers[r] in results && Partner(records, answers[r]) == Some(r)
    {
      PairedRequestIsRequest(records, r);
      PartnerIsEarlier(records, answers[r]);
    }
    InjectionBounds(calls, answers, results);
  }
}
