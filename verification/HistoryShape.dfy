/** Which calls stand in one message of the emitted history, with whose text, and where (src/context.js:37-121). */
module HistoryShape {
  import opened Wrappers
  import opened Transcript
  import opened HistoryEmission
  import opened HistoryTheorems

  // Two records of the turns and steps that the code tells apart; a record without a step is of none.
  predicate SameStep(a: Record, b: Record) {
    && (a.Message? || a.ToolRequest?) && (b.Message? || b.ToolRequest?)
    && a.stepId != "" && b.stepId != ""
    && a.turnId + "\0" + a.stepId == b.turnId + "\0" + b.stepId
  }

  // An assistant message of the step of a request.
  predicate Speaks(records: seq<Record>, c: nat, r: nat) {
    && c < |records| && r < |records|
    && records[c].Message? && records[c].role == "assistant" && SameStep(records[c], records[r])
  }

  // The calls are the paired requests of one step, in order, or one request of no step. Their text is that of the first
  // assistant message of the step, if it comes before all of them.
  ghost predicate IsStep(records: seq<Record>, requests: seq<nat>, content: Option<nat>) {
    && requests != [] && (forall k :: 0 <= k < |requests| ==> requests[k] < |records|)
    && (forall k, m :: 0 <= k < m < |requests| ==> requests[k] < requests[m])
    && (forall r: nat :: r in requests <==>
          PairedRequest(records, r) && (r == requests[0] || (r < |records| && SameStep(records[r], records[requests[0]]))))
    && (if content.Some? then content.value < requests[0] && Speaks(records, content.value, requests[0]) else true)
    && (forall c: nat :: c < (if content.Some? then content.value else requests[0]) ==> !Speaks(records, c, requests[0]))
  }

  ghost predicate IsShaped(records: seq<Record>, m: Emitted) {
    match m
    case Calls(requests, content) => IsStep(records, requests, content)
    case Text(source) => source < |records| && records[source].Message?
    case Result(source) => source < |records| && records[source].ToolResult? && PairedResult(records, source)
    case Summary(source) => source < |records| && (records[source].Compaction? || records[source].ContextCheckpoint?)
  }

  // Where in the ledger a message belongs: its own record, or the first of its calls.
  function Place(m: Emitted): nat {
    match m
    case Calls(requests, content) => if content.Some? then content.value else if requests != [] then requests[0] else 0
    case Text(source) => source
    case Result(source) => source
    case Summary(source) => source
  }

  /** The steps that were emitted are those that were reached. */

  predicate Opens(records: seq<Record>, j: nat, key: string) {
    && j < |records| && StepKey(records[j]) == Some(key) && Group(records, |records|, key) != []
    && if records[j].Message? then records[j].role == "assistant" else PairedRequest(records, j)
  }

  predicate Opened(records: seq<Record>, n: nat, key: string) {
    exists j :: 0 <= j < n && Opens(records, j, key)
  }

  ghost predicate StepsMatch(records: seq<Record>, p: Pass, n: nat) {
    forall key :: key in p.steps <==> Opened(records, n, key)
  }

  lemma KeyIsStep(a: Record, b: Record)
    ensures SameStep(a, b) <==> StepKey(a).Some? && StepKey(a) == StepKey(b)
  {
  }

  lemma StepsStep(records: seq<Record>, p: Pass, i: nat)
    requires i < |records| && StepsMatch(records, p, i)
    ensures StepsMatch(records, Extend(records, p, i, MessageAt(records, p.steps, p.callIds, i)), i + 1)
  {
    var m := MessageAt(records, p.steps, p.callIds, i);
    var next := Extend(records, p, i, m);
    forall key
      ensures key in next.steps <==> key in p.steps || Opens(records, i, key)
    {
      OpensStep(records, p, i, key);
    }
    hide Opens, MessageAt, Extend;
    forall key
      ensures Opened(records, i + 1, key) <==> Opened(records, i, key) || Opens(records, i, key)
    {
    }
  }

  lemma OpensStep(records: seq<Record>, p: Pass, i: nat, key: string)
    requires i < |records|
    ensures key in Extend(records, p, i, MessageAt(records, p.steps, p.callIds, i)).steps
      <==> key in p.steps || Opens(records, i, key)
  {
    hide PairedResult, IdsOf;
    if PairedRequest(records, i) && StepKey(records[i]).Some? {
      PairedRequestIsRequest(records, i);
      GroupHolds(records, |records|, StepKey(records[i]).value);
      assert InGroup(records, i, StepKey(records[i]).value);
    }
    hide PairedRequest, Group;
  }

  /** Each message is shaped, and belongs where it is. */

  lemma GroupIsStep(records: seq<Record>, p: Pass, i: nat, key: string)
    requires i < |records| && StepsMatch(records, p, i) && Opens(records, i, key) && key !in p.steps
    ensures var group := Group(records, |records|, key);
      && IsStep(records, group, if records[i].Message? then Some(i) else None)
      && (records[i].Message? || group[0] == i)
  {
    var group := Group(records, |records|, key);
    GroupHolds(records, |records|, key);
    var first := group[0];
    assert first in group && InGroup(records, first, key);
    assert !Opened(records, i, key);
    assert Opens(records, first, key);
    if !records[i].Message? {
      assert InGroup(records, i, key) && i in group;
      var k :| 0 <= k < |group| && group[k] == i;
    }
    hide Group, PairedRequest;
    forall c: nat | c < i
      ensures !Speaks(records, c, first)
    {
      SpeakerOpens(records, c, first, key);
    }
    forall r: nat
      ensures r in group <==> PairedRequest(records, r) && (r == first || (r < |records| && SameStep(records[r], records[first])))
    {
      MemberIsOfStep(records, group, key, first, r);
    }
    forall k | 0 <= k < |group|
      ensures group[k] < |records|
    {
      assert group[k] in group;
    }
    KeyIsStep(records[i], records[first]);
  }

  lemma SpeakerOpens(records: seq<Record>, c: nat, r: nat, key: string)
    requires InGroup(records, r, key) && Group(records, |records|, key) != []
    ensures Speaks(records, c, r) ==> Opens(records, c, key)
  {
    hide Group, PairedRequest;
    if Speaks(records, c, r) {
      KeyIsStep(records[c], records[r]);
    }
  }

  lemma MemberIsOfStep(records: seq<Record>, group: seq<nat>, key: string, first: nat, r: nat)
    requires InGroup(records, first, key) && forall i: nat :: i in group <==> i < |records| && InGroup(records, i, key)
    ensures r in group <==> PairedRequest(records, r) && (r == first || (r < |records| && SameStep(records[r], records[first])))
  {
    if PairedRequest(records, r) {
      PairedRequestIsRequest(records, r);
      KeyIsStep(records[r], records[first]);
    }
    hide PairedRequest;
  }

  lemma LoneIsStep(records: seq<Record>, i: nat)
    requires i < |records| && PairedRequest(records, i) && StepKey(records[i]).None?
    ensures IsStep(records, [i], None)
  {
    PairedRequestIsRequest(records, i);
    hide PairedRequest;
    forall c: nat | c < |records|
      ensures !SameStep(records[c], records[i])
    {
      KeyIsStep(records[c], records[i]);
    }
  }

  lemma MessageIsShaped(records: seq<Record>, p: Pass, i: nat)
    requires i < |records| && StepsMatch(records, p, i)
    ensures var m := MessageAt(records, p.steps, p.callIds, i);
      m.Some? ==> IsShaped(records, m.value) && Place(m.value) == i
  {
    var m := MessageAt(records, p.steps, p.callIds, i);
    if m.Some? && m.value.Calls? {
      var key := StepKey(records[i]);
      if key.None? {
        LoneIsStep(records, i);
      } else {
        CallsOpen(records, p, i, key.value);
        hide Opens, IsStep, StepKey;
        GroupIsStep(records, p, i, key.value);
      }
    }
    hide IsStep, Group, PairedRequest, StepsMatch;
  }

  lemma CallsOpen(records: seq<Record>, p: Pass, i: nat, key: string)
    requires i < |records| && StepKey(records[i]) == Some(key)
    requires var m := MessageAt(records, p.steps, p.callIds, i); m.Some? && m.value.Calls?
    ensures Opens(records, i, key) && key !in p.steps
    ensures MessageAt(records, p.steps, p.callIds, i)
      == Some(Calls(Group(records, |records|, key), if records[i].Message? then Some(i) else None))
  {
    if records[i].ToolRequest? {
      GroupHolds(records, |records|, key);
      assert InGroup(records, i, key);
    }
    hide Group, PairedRequest;
  }

  ghost predicate ShapedTo(records: seq<Record>, out: seq<Emitted>, n: nat) {
    && (forall k :: 0 <= k < |out| ==> IsShaped(records, out[k]) && Place(out[k]) < n)
    && (forall j, k :: 0 <= j < k < |out| ==> Place(out[j]) < Place(out[k]))
  }

  lemma ShapedStep(records: seq<Record>, out: seq<Emitted>, i: nat, m: Option<Emitted>)
    requires ShapedTo(records, out, i) && (m.Some? ==> IsShaped(records, m.value) && Place(m.value) == i)
    ensures ShapedTo(records, if m.Some? then out + [m.value] else out, i + 1)
  {
    hide IsShaped, Place;
  }

  lemma {:induction false} ShapeHolds(records: seq<Record>, n: nat)
    requires n <= |records|
    ensures StepsMatch(records, Emit(records, n), n) && ShapedTo(records, Emit(records, n).messages, n)
  {
    hide MessageAt, StepsMatch, ShapedTo, IsShaped, Place, IdsOf;
    if n == 0 {
      NothingOpened(records);
    } else {
      var p := Emit(records, n - 1);
      ShapeHolds(records, n - 1);
      StepsStep(records, p, n - 1);
      MessageIsShaped(records, p, n - 1);
      ShapedStep(records, p.messages, n - 1, MessageAt(records, p.steps, p.callIds, n - 1));
    }
  }

  lemma NothingOpened(records: seq<Record>)
    ensures StepsMatch(records, Pass([], {}, {}), 0) && ShapedTo(records, [], 0)
  {
  }

  /** Each message carries the paired requests of one step and no other, with the text of the first assistant message of the
      step if it comes before them; and the messages stand in the order of the records they belong to. */
  lemma EveryMessageIsOneStep(records: seq<Record>)
    ensures var out := HistoryOf(records);
      && (forall k :: 0 <= k < |out| ==> IsShaped(records, out[k]))
      && (forall j, k :: 0 <= j < k < |out| ==> Place(out[j]) < Place(out[k]))
  {
    ShapeHolds(records, |records|);
  }

  /** Of turns whose ids hold no null character, the same step is the same turn and the same step id. */
  lemma SameStepIsSameIds(a: Record, b: Record)
    requires (a.Message? || a.ToolRequest?) && (b.Message? || b.ToolRequest?)
    requires '\0' !in a.turnId && '\0' !in b.turnId
    ensures SameStep(a, b) <==> a.turnId == b.turnId && a.stepId == b.stepId != ""
  {
    if SameStep(a, b) {
      SplitAtNull(a.turnId, a.stepId, b.turnId, b.stepId);
    }
  }

  lemma SplitAtNull(t: string, s: string, u: string, v: string)
    requires '\0' !in t && '\0' !in u && t + "\0" + s == u + "\0" + v
    ensures t == u && s == v
  {
    var x, y := t + "\0" + s, u + "\0" + v;
    assert x[|t|] == '\0' && y[|u|] == '\0';
    assert forall k :: 0 <= k < |t| ==> x[k] == t[k] && t[k] in t;
    assert forall k :: 0 <= k < |u| ==> y[k] == u[k] && u[k] in u;
    assert |t| == |u|;
    assert x[..|t|] == t && y[..|u|] == u && x[|t| + 1..] == s && y[|u| + 1..] == v;
  }
}
