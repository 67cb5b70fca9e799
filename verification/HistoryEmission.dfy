/**
The single pass that turns paired records into provider messages: an assistant message carries the calls
of its step, a step without one is emitted at its first request, and a result follows its call.
*/
module HistoryEmission {
  import opened Wrappers
  import opened Transcript

  // An emitted message names the records it was made from. Calls carries the requests of one step, and
  // the assistant message whose text it carries, if there is one.
  datatype Emitted =
    | Calls(requests: seq<nat>, content: Option<nat>)
    | Text(source: nat)
    | Result(source: nat)
    | Summary(source: nat)

  /** Grouping paired requests by step. */

  function StepKey(item: Record): Option<string> {
    if (item.Message? || item.ToolRequest?) && item.stepId != "" then Some(item.turnId + "\0" + item.stepId) else None
  }

  predicate InGroup(records: seq<Record>, i: nat, key: string) {
    i < |records| && PairedRequest(records, i) && records[i].ToolRequest? && StepKey(records[i]) == Some(key)
  }

  // The paired requests of a step among the first n records, in order.
  function Group(records: seq<Record>, n: nat, key: string): seq<nat>
    requires n <= |records|
  {
    if n == 0 then []
    else if InGroup(records, n - 1, key) then Group(records, n - 1, key) + [n - 1]
    else Group(records, n - 1, key)
  }

  method ToolRequestGroups(records: seq<Record>, paired: set<nat>) returns (groups: map<string, seq<nat>>)
    requires forall r: nat :: r in paired <==> PairedRequest(records, r)
    ensures forall key :: key in groups <==> Group(records, |records|, key) != []
    ensures forall key <- groups :: groups[key] == Group(records, |records|, key)
  {
    groups := map[];
    var n := 0;
    while n < |records|
      invariant n <= |records|
      invariant forall key :: key in groups <==> Group(records, n, key) != []
      invariant forall key <- groups :: groups[key] == Group(records, n, key)
    {
      var item := records[n];
      if item.ToolRequest? && n in paired {
        var key := StepKey(item);
        if key.Some? {
          if key.value !in groups {
            groups := groups[key.value := []];
          }
          groups := groups[key.value := groups[key.value] + [n]];
        }
      }
      n := n + 1;
    }
  }

  /** The pass. */

  // messages so far, the steps whose calls were emitted, and the call ids that were emitted.
  datatype Pass = Pass(messages: seq<Emitted>, steps: set<string>, callIds: set<string>)

  function IdsOf(records: seq<Record>, requests: seq<nat>): set<string> {
    set r <- requests | r < |records| && records[r].ToolRequest? && records[r].callId != "" :: records[r].callId
  }

  // What the pass emits at one record, given the steps and call ids emitted before it.
  function MessageAt(records: seq<Record>, steps: set<string>, callIds: set<string>, i: nat): Option<Emitted>
    requires i < |records|
  {
    var item := records[i];
    var key := StepKey(item);
    match item
    case Message(role, _, _, _, _) =>
      if role == "assistant" && key.Some? && Group(records, |records|, key.value) != [] && key.value !in steps
      then Some(Calls(Group(records, |records|, key.value), Some(i)))
      else Some(Text(i))
    case ToolRequest(_, _, _, _, _) =>
      if !PairedRequest(records, i) then None
      else if key.None? then Some(Calls([i], None))
      else if key.value !in steps then Some(Calls(Group(records, |records|, key.value), None))
      else None
    case ToolResult(id, _) =>
      if PairedResult(records, i) && id in callIds then Some(Result(i)) else None
    case Compaction(_) => Some(Summary(i))
    case ContextCheckpoint(_) => Some(Summary(i))
    case Other(_) => None
  }

  function Extend(records: seq<Record>, p: Pass, i: nat, m: Option<Emitted>): Pass
    requires i < |records|
  {
    if m.None? then p
    else if m.value.Calls? then
      Pass(p.messages + [m.value],
           if StepKey(records[i]).Some? then p.steps + {StepKey(records[i]).value} else p.steps,
           p.callIds + IdsOf(records, m.value.requests))
    else p.(messages := p.messages + [m.value])
  }

  function Emit(records: seq<Record>, n: nat): Pass
    requires n <= |records|
  {
    if n == 0 then Pass([], {}, {})
    else
      var p := Emit(records, n - 1);
      Extend(records, p, n - 1, MessageAt(records, p.steps, p.callIds, n - 1))
  }

  function HistoryOf(records: seq<Record>): seq<Emitted> {
    Emit(records, |records|).messages
  }

  method AppendTranscriptMessages(messages: seq<Emitted>, records: seq<Record>) returns (appended: seq<Emitted>)
    ensures appended == messages + HistoryOf(records)
  {
    var pairedRequests, pairedResults := PairedToolRecords(records);
    var groups := ToolRequestGroups(records, pairedRequests);
    var emitted: set<string>, emittedCalls: set<string> := {}, {};
    appended := messages;
    var n := 0;
    while n < |records|
      invariant n <= |records|
      invariant appended == messages + Emit(records, n).messages
      invariant emitted == Emit(records, n).steps
      invariant emittedCalls == Emit(records, n).callIds
    {
      var item := records[n];
      ghost var before := Emit(records, n);
      match item {
        case Message(role, _, _, _, _) =>
          var key := if role == "assistant" then StepKey(item) else None;
          if key.Some? && key.value in groups && key.value !in emitted {
            var calls := groups[key.value];
            appended := appended + [Calls(calls, Some(n))];
            emittedCalls := emittedCalls + IdsOf(records, calls);
            emitted := emitted + {key.value};
          } else {
            appended := appended + [Text(n)];
          }
        case ToolRequest(_, _, _, _, _) =>
          var key := StepKey(item);
          if n in pairedRequests {
            if key.None? {
              appended := appended + [Calls([n], None)];
              emittedCalls := emittedCalls + IdsOf(records, [n]);
            } else if key.value !in emitted {
              GroupHolds(records, |records|, key.value);
              assert InGroup(records, n, key.value);
              var calls := if key.value in groups then groups[key.value] else [n];
              appended := appended + [Calls(calls, None)];
              emittedCalls := emittedCalls + IdsOf(records, calls);
              emitted := emitted + {key.value};
            }
          }
        case ToolResult(id, _) =>
          if n in pairedResults && id in emittedCalls {
            appended := appended + [Result(n)];
          }
        case Compaction(_) => appended := appended + [Summary(n)];
        case ContextCheckpoint(_) => appended := appended + [Summary(n)];
        case Other(_) =>
      }
      n := n + 1;
      assert appended == messages + Emit(records, n).messages;
    }
  }

  // A group holds exactly the paired requests of its step, in order.
  lemma {:induction false} GroupHolds(records: seq<Record>, n: nat, key: string)
    requires n <= |records|
    ensures forall i: nat :: i in Group(records, n, key) <==> i < n && InGroup(records, i, key)
    ensures forall k, m :: 0 <= k < m < |Group(records, n, key)| ==> Group(records, n, key)[k] < Group(records, n, key)[m]
  {
    if n > 0 {
      GroupHolds(records, n - 1, key);
      var before := Group(records, n - 1, key);
      assert forall k :: 0 <= k < |before| ==> before[k] in before;
    }
  }
}
