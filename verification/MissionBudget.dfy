/**
Runs of one mission's budget: any number of reservations in flight at once, whose records land in the journal,
are acknowledged or are reported as failed in any order, with records of other missions in between and restarts
at any point.
*/
module MissionBudget {
  import opened Wrappers
  import opened Authority

  datatype Counter = Turns | ToolCalls

  // A reservation whose record was handed to the journal and not yet answered.
  datatype Flight = Flight(counter: Counter, amount: nat, record: Usage, landed: bool)

  // base is what the process started from; settled is what it has since had acknowledged.
  datatype Sys = Sys(mission: Mission, live: Usage, base: Usage, settledTurns: nat, settledTools: nat,
                     flights: seq<Flight>, journal: seq<UsageRecord>)

  datatype Event =
    | BeginTurn(credential: Option<string>, now: int, later: int)
    | BeginTools(count: nat)
    | Land(i: nat)
    | Acknowledge(i: nat)
    | Fail(i: nat)
    | OtherMission(record: UsageRecord)
    | Restart

  function Get(u: Usage, c: Counter): nat {
    match c case Turns => u.turns case ToolCalls => u.toolCalls
  }

  function Limit(m: Mission, c: Counter): nat {
    match c case Turns => m.maxTurns case ToolCalls => m.maxToolCalls
  }

  function Settled(s: Sys, c: Counter): nat {
    match c case Turns => s.base.turns + s.settledTurns case ToolCalls => s.base.toolCalls + s.settledTools
  }

  function Rebuild(s: Sys): Usage {
    Rebuilt(s.journal, s.mission.id)
  }

  // Tools are reserved inside a turn whose record was acknowledged. A persist that resolves has landed its
  // record; one that rejects may or may not have.
  predicate Enabled(s: Sys, e: Event) {
    match e
    case BeginTurn(_, _, _) => true
    case BeginTools(count) => count > 0 && Settled(s, Turns) > 0
    case Land(i) => i < |s.flights| && !s.flights[i].landed
    case Acknowledge(i) => i < |s.flights| && s.flights[i].landed
    case Fail(i) => i < |s.flights|
    case OtherMission(record) => record.missionId != s.mission.id && ValidRecord(record)
    case Restart => true
  }

  function Without(flights: seq<Flight>, i: nat): seq<Flight>
    requires i < |flights|
  {
    flights[..i] + flights[i + 1..]
  }

  function RecordOf(s: Sys, f: Flight): UsageRecord {
    UsageRecord(s.mission.id, f.record.turns, f.record.toolCalls, f.record.startedAt)
  }

  function RolledBack(u: Usage, f: Flight): Result<Usage, Error> {
    match f.counter
    case Turns => RollbackTurn(u)
    case ToolCalls => RollbackTools(u, f.amount)
  }

  function Begun(s: Sys, c: Counter, amount: nat, reserved: Usage): Sys {
    s.(live := reserved, flights := s.flights + [Flight(c, amount, reserved, false)])
  }

  function Landed(s: Sys, i: nat): Sys
    requires i < |s.flights|
  {
    s.(journal := s.journal + [RecordOf(s, s.flights[i])], flights := s.flights[i := s.flights[i].(landed := true)])
  }

  function Acknowledged(s: Sys, i: nat): Sys
    requires i < |s.flights|
  {
    s.(flights := Without(s.flights, i),
       settledTurns := s.settledTurns + Weight(s.flights[i], Turns),
       settledTools := s.settledTools + Weight(s.flights[i], ToolCalls))
  }

  function Failed(s: Sys, i: nat): Sys
    requires i < |s.flights|
  {
    var rolled := RolledBack(s.live, s.flights[i]);
    s.(flights := Without(s.flights, i), live := if rolled.Success? then rolled.value else s.live)
  }

  function Restarted(s: Sys): Sys {
    s.(live := Rebuild(s), base := Rebuild(s), settledTurns := 0, settledTools := 0, flights := [])
  }

  function Advance(s: Sys, e: Event): Sys
    requires Enabled(s, e)
  {
    match e
    case BeginTurn(credential, now, later) =>
      var (u, failure) := AuthorizeTurn(s.mission, s.live, credential, now, later);
      if failure.None? then Begun(s, Turns, 1, u) else s.(live := u)
    case BeginTools(count) =>
      var reserved := ReserveTools(s.mission, s.live, count);
      if reserved.Success? then Begun(s, ToolCalls, count, reserved.value) else s
    case Land(i) => Landed(s, i)
    case Acknowledge(i) => Acknowledged(s, i)
    case Fail(i) => Failed(s, i)
    case OtherMission(record) => s.(journal := s.journal + [record])
    case Restart => Restarted(s)
  }

  /** Sums over the flights. */

  function Weight(f: Flight, c: Counter): nat {
    if f.counter == c then f.amount else 0
  }

  function Sum(flights: seq<Flight>, c: Counter): nat {
    if flights == [] then 0 else Sum(flights[..|flights| - 1], c) + Weight(flights[|flights| - 1], c)
  }

  // The amounts of the first k flights.
  function UpTo(flights: seq<Flight>, k: nat, c: Counter): nat {
    if k <= |flights| then Sum(flights[..k], c) else 0
  }

  lemma {:induction false} SumConcat(a: seq<Flight>, b: seq<Flight>, c: Counter)
    ensures Sum(a + b, c) == Sum(a, c) + Sum(b, c)
  {
    if b == [] {
      assert a + b == a;
    } else {
      var b1 := b[..|b| - 1];
      SumConcat(a, b1, c);
      assert (a + b)[..|a + b| - 1] == a + b1;
    }
  }

  lemma UpToStep(flights: seq<Flight>, k: nat, c: Counter)
    requires k < |flights|
    ensures UpTo(flights, k + 1, c) == UpTo(flights, k, c) + Weight(flights[k], c)
  {
    assert flights[..k + 1][..k] == flights[..k];
  }

  lemma UpToAll(flights: seq<Flight>, c: Counter)
    ensures UpTo(flights, |flights|, c) == Sum(flights, c)
  {
    assert flights[..|flights|] == flights;
  }

  lemma {:induction false} UpToGrows(flights: seq<Flight>, k: nat, m: nat, c: Counter)
    requires k <= m <= |flights|
    ensures UpTo(flights, k, c) <= UpTo(flights, m, c)
  {
    if k < m {
      UpToGrows(flights, k, m - 1, c);
      UpToStep(flights, m - 1, c);
    }
  }

  // Taking one flight out takes its amount out of every prefix that held it.
  lemma {:induction false} UpToWithout(flights: seq<Flight>, i: nat, k: nat, c: Counter)
    requires i < |flights| && k < |flights|
    ensures UpTo(Without(flights, i), k, c)
      == if k <= i then UpTo(flights, k, c) else UpTo(flights, k + 1, c) - Weight(flights[i], c)
  {
    var rest := Without(flights, i);
    if k <= i {
      assert rest[..k] == flights[..k];
    } else {
      UpToWithout(flights, i, k - 1, c);
      UpToStep(rest, k - 1, c);
      UpToStep(flights, k, c);
      if k == i + 1 {
        UpToStep(flights, i, c);
      }
      assert rest[k - 1] == flights[k];
    }
  }

  lemma SumWithout(flights: seq<Flight>, i: nat, c: Counter)
    requires i < |flights|
    ensures Weight(flights[i], c) <= Sum(flights, c)
    ensures Sum(Without(flights, i), c) == Sum(flights, c) - Weight(flights[i], c)
  {
    UpToWithout(flights, i, |flights| - 1, c);
    UpToAll(Without(flights, i), c);
    UpToAll(flights, c);
    UpToStep(flights, i, c);
    UpToGrows(flights, i + 1, |flights|, c);
  }

  lemma {:induction false} SameWeights(a: seq<Flight>, b: seq<Flight>, c: Counter)
    requires |a| == |b| && forall k :: 0 <= k < |a| ==> Weight(a[k], c) == Weight(b[k], c)
    ensures Sum(a, c) == Sum(b, c)
  {
    if a != [] {
      SameWeights(a[..|a| - 1], b[..|b| - 1], c);
    }
  }

  /** What holds at every moment. */

  // Every reservation in flight is counted, so a rollback always finds what it gives back.
  ghost predicate Accounted(s: Sys, c: Counter) {
    Get(s.live, c) == Settled(s, c) + Sum(s.flights, c) <= Limit(s.mission, c)
  }

  // The journal, together with the record of flight i, covers all that was settled and all that was
  // reserved up to flight i.
  predicate CoveredAt(settled: nat, rebuilt: nat, limit: nat, flights: seq<Flight>, i: nat, c: Counter) {
    && i < |flights|
    && settled + UpTo(flights, i + 1, c) <= Max(rebuilt, Get(flights[i].record, c))
    && Get(flights[i].record, c) <= limit
    && (flights[i].landed ==> Get(flights[i].record, c) <= rebuilt)
  }

  ghost predicate Covered(s: Sys, c: Counter) {
    && Settled(s, c) <= Get(Rebuild(s), c) <= Limit(s.mission, c)
    && forall i :: 0 <= i < |s.flights| ==>
      CoveredAt(Settled(s, c), Get(Rebuild(s), c), Limit(s.mission, c), s.flights, i, c)
  }

  ghost predicate FlightValid(f: Flight, startedAt: Option<int>, settledTurns: nat) {
    && f.record.turns >= 1
    && f.record.startedAt.Some? && f.record.startedAt == startedAt
    && (f.counter.Turns? ==> f.amount == 1)
    && (f.counter.ToolCalls? ==> settledTurns > 0)
  }

  ghost predicate FlightsValid(s: Sys) {
    && (forall i :: 0 <= i < |s.flights| ==> FlightValid(s.flights[i], s.live.startedAt, Settled(s, Turns)))
    && forall k :: 0 <= k < |s.journal| ==> ValidRecord(s.journal[k])
  }

  // The rebuilt start time exists and is no later than this one.
  predicate StartsNoLater(rebuilt: Usage, startedAt: Option<int>) {
    startedAt.Some? && rebuilt.startedAt.Some? && rebuilt.startedAt.value <= startedAt.value
  }

  ghost predicate StartKnown(s: Sys) {
    && (s.live.startedAt.Some? <==> s.live.turns > 0)
    && (Rebuild(s).startedAt.Some? <==> Rebuild(s).turns > 0)
    && (Settled(s, Turns) > 0 ==> StartsNoLater(Rebuild(s), s.live.startedAt))
    && forall i :: 0 <= i < |s.flights| && s.flights[i].landed ==> StartsNoLater(Rebuild(s), s.flights[i].record.startedAt)
  }

  ghost predicate Inv(s: Sys) {
    && Accounted(s, Turns) && Accounted(s, ToolCalls)
    && Covered(s, Turns) && Covered(s, ToolCalls)
    && FlightsValid(s) && StartKnown(s)
  }

  /** Each kind of step. */

  lemma RebuiltAppend(records: seq<UsageRecord>, r: UsageRecord, id: string)
    requires ValidRecord(r)
    ensures var before, after := Rebuilt(records, id), Rebuilt(records + [r], id);
      if r.missionId != id then after == before
      else
        && after.turns == Max(before.turns, r.turns) && after.toolCalls == Max(before.toolCalls, r.toolCalls)
        && after.startedAt.Some? && after.startedAt.value <= r.startedAt.value
        && (before.startedAt.Some? ==> after.startedAt.value <= before.startedAt.value)
  {
    assert (records + [r])[..|records|] == records;
  }

  lemma BegunCovered(s: Sys, c: Counter, k: Counter, amount: nat, reserved: Usage)
    requires Accounted(s, c) && Covered(s, c)
    requires Get(reserved, c) == Get(s.live, c) + Weight(Flight(k, amount, reserved, false), c) <= Limit(s.mission, c)
    ensures Accounted(Begun(s, k, amount, reserved), c) && Covered(Begun(s, k, amount, reserved), c)
  {
    hide Rebuilt, Sum, Get;
    var n := Begun(s, k, amount, reserved);
    var last := |s.flights|;
    UpToAll(n.flights, c);
    UpToStep(n.flights, last, c);
    UpToAll(s.flights, c);
    forall i: nat | i <= last
      ensures UpTo(n.flights, i, c) == UpTo(s.flights, i, c)
    {
      assert n.flights[..i] == s.flights[..i];
    }
    hide UpTo;
    forall i: nat | i < |n.flights|
      ensures CoveredAt(Settled(n, c), Get(Rebuild(n), c), Limit(n.mission, c), n.flights, i, c)
    {
      if i < last {
        assert CoveredAt(Settled(s, c), Get(Rebuild(s), c), Limit(s.mission, c), s.flights, i, c);
      }
    }
  }

  lemma BeginTurnKeepsInv(s: Sys, credential: Option<string>, now: int, later: int)
    requires Inv(s)
    ensures Inv(Advance(s, BeginTurn(credential, now, later)))
  {
    hide Covered, Sum, Rebuilt;
    var (u, failure) := AuthorizeTurn(s.mission, s.live, credential, now, later);
    if failure.None? {
      BegunCovered(s, Turns, Turns, 1, u);
      BegunCovered(s, ToolCalls, Turns, 1, u);
    } else {
      assert u == s.live;
    }
  }

  lemma BeginToolsKeepsInv(s: Sys, count: nat)
    requires Inv(s) && Enabled(s, BeginTools(count))
    ensures Inv(Advance(s, BeginTools(count)))
  {
    hide Covered, Sum, Rebuilt;
    var reserved := ReserveTools(s.mission, s.live, count);
    if reserved.Success? {
      BegunCovered(s, Turns, ToolCalls, count, reserved.value);
      BegunCovered(s, ToolCalls, ToolCalls, count, reserved.value);
    }
  }

  lemma LandCovered(s: Sys, i: nat, c: Counter)
    requires Accounted(s, c) && Covered(s, c) && i < |s.flights|
    requires ValidRecord(RecordOf(s, s.flights[i]))
    ensures Accounted(Landed(s, i), c) && Covered(Landed(s, i), c)
  {
    hide Rebuilt, Sum;
    var n := Landed(s, i);
    RebuiltAppend(s.journal, RecordOf(s, s.flights[i]), s.mission.id);
    SameWeights(n.flights, s.flights, c);
    forall k: nat | k < |n.flights|
      ensures CoveredAt(Settled(n, c), Get(Rebuild(n), c), Limit(n.mission, c), n.flights, k, c)
    {
      SameWeights(n.flights[..k + 1], s.flights[..k + 1], c);
      assert CoveredAt(Settled(s, c), Get(Rebuild(s), c), Limit(s.mission, c), s.flights, k, c);
      assert CoveredAt(Settled(s, c), Get(Rebuild(s), c), Limit(s.mission, c), s.flights, i, c);
    }
  }

  lemma LandKeepsInv(s: Sys, i: nat)
    requires Inv(s) && i < |s.flights|
    ensures Inv(Landed(s, i))
  {
    hide Covered, Accounted, Sum, Rebuilt;
    assert FlightValid(s.flights[i], s.live.startedAt, Settled(s, Turns));
    LandCovered(s, i, Turns);
    LandCovered(s, i, ToolCalls);
    RebuiltAppend(s.journal, RecordOf(s, s.flights[i]), s.mission.id);
  }

  lemma AcknowledgeCovered(s: Sys, i: nat, c: Counter)
    requires Accounted(s, c) && Covered(s, c) && i < |s.flights| && s.flights[i].landed
    ensures Accounted(Acknowledged(s, i), c) && Covered(Acknowledged(s, i), c)
  {
    hide Rebuilt, Sum, UpTo;
    var n := Acknowledged(s, i);
    var rebuilt, limit := Get(Rebuild(s), c), Limit(s.mission, c);
    assert Settled(n, c) == Settled(s, c) + Weight(s.flights[i], c);
    assert CoveredAt(Settled(s, c), rebuilt, limit, s.flights, i, c);
    SumWithout(s.flights, i, c);
    UpToStep(s.flights, i, c);
    forall k: nat | k < |n.flights|
      ensures CoveredAt(Settled(n, c), rebuilt, limit, n.flights, k, c)
    {
      UpToWithout(s.flights, i, k + 1, c);
      if k < i {
        // The acknowledged record covers everything reserved before it.
        UpToGrows(s.flights, k + 1, i, c);
        assert CoveredAt(Settled(s, c), rebuilt, limit, s.flights, k, c);
      } else {
        assert CoveredAt(Settled(s, c), rebuilt, limit, s.flights, k + 1, c);
      }
    }
  }

  lemma AcknowledgeKeepsInv(s: Sys, i: nat)
    requires Inv(s) && i < |s.flights| && s.flights[i].landed
    ensures Inv(Acknowledged(s, i))
  {
    hide Covered, Accounted, Sum, Rebuilt;
    AcknowledgeCovered(s, i, Turns);
    AcknowledgeCovered(s, i, ToolCalls);
    assert FlightValid(s.flights[i], s.live.startedAt, Settled(s, Turns));
  }

  lemma FailCovered(s: Sys, i: nat, c: Counter)
    requires Covered(s, c) && i < |s.flights|
    ensures Covered(Failed(s, i), c)
  {
    hide Rebuilt, Sum, UpTo, RolledBack;
    var n := Failed(s, i);
    var rebuilt, limit := Get(Rebuild(s), c), Limit(s.mission, c);
    forall k: nat | k < |n.flights|
      ensures CoveredAt(Settled(n, c), rebuilt, limit, n.flights, k, c)
    {
      UpToWithout(s.flights, i, k + 1, c);
      assert CoveredAt(Settled(s, c), rebuilt, limit, s.flights, if k < i then k else k + 1, c);
    }
  }

  /** No rollback is rejected, and it gives back exactly what its own flight reserved. */
  lemma RollbackGivesBack(s: Sys, i: nat)
    requires Inv(s) && i < |s.flights|
    ensures RolledBack(s.live, s.flights[i]).Success?
    ensures var rolled := RolledBack(s.live, s.flights[i]).value;
      && rolled.turns == s.live.turns - Weight(s.flights[i], Turns)
      && rolled.toolCalls == s.live.toolCalls - Weight(s.flights[i], ToolCalls)
      && rolled.startedAt == if s.live.turns == Weight(s.flights[i], Turns) then None else s.live.startedAt
  {
    hide Covered, Sum, Rebuilt;
    assert FlightValid(s.flights[i], s.live.startedAt, Settled(s, Turns));
    SumWithout(s.flights, i, Turns);
    SumWithout(s.flights, i, ToolCalls);
  }

  // Before anything is settled only turns are in flight.
  lemma {:induction false} OnlyTurnsInFlight(flights: seq<Flight>, startedAt: Option<int>)
    requires forall k :: 0 <= k < |flights| ==> FlightValid(flights[k], startedAt, 0)
    ensures Sum(flights, Turns) == |flights|
  {
    if flights != [] {
      OnlyTurnsInFlight(flights[..|flights| - 1], startedAt);
      assert FlightValid(flights[|flights| - 1], startedAt, 0);
    }
  }

  // When the last turn is given back nothing was settled, so nothing else can be in flight.
  lemma LastTurnIsAlone(s: Sys, i: nat)
    requires Inv(s) && i < |s.flights| && s.live.turns == Weight(s.flights[i], Turns)
    ensures Without(s.flights, i) == []
  {
    hide Covered, Rebuilt, Sum;
    var rest := Without(s.flights, i);
    assert FlightValid(s.flights[i], s.live.startedAt, Settled(s, Turns));
    SumWithout(s.flights, i, Turns);
    forall k | 0 <= k < |rest|
      ensures FlightValid(rest[k], s.live.startedAt, Settled(s, Turns))
    {
      assert rest[k] == s.flights[if k < i then k else k + 1];
    }
    OnlyTurnsInFlight(rest, s.live.startedAt);
  }

  lemma FailKeepsInv(s: Sys, i: nat)
    requires Inv(s) && i < |s.flights|
    ensures Inv(Failed(s, i))
  {
    hide Covered, Rebuilt, Sum, RolledBack;
    FailCovered(s, i, Turns);
    FailCovered(s, i, ToolCalls);
    RollbackGivesBack(s, i);
    SumWithout(s.flights, i, Turns);
    SumWithout(s.flights, i, ToolCalls);
    if s.live.turns == Weight(s.flights[i], Turns) {
      LastTurnIsAlone(s, i);
    }
  }

  lemma OtherKeepsInv(s: Sys, record: UsageRecord)
    requires Inv(s) && Enabled(s, OtherMission(record))
    ensures Inv(Advance(s, OtherMission(record)))
  {
    hide Sum, Rebuilt, CoveredAt;
    RebuiltAppend(s.journal, record, s.mission.id);
  }

  lemma RestartKeepsInv(s: Sys)
    requires Inv(s)
    ensures Inv(Restarted(s))
  {
    hide Rebuilt, CoveredAt;
  }

  /** Every event keeps the invariant. */
  lemma EventKeepsInv(s: Sys, e: Event)
    requires Inv(s) && Enabled(s, e)
    ensures Inv(Advance(s, e))
  {
    hide Inv, Landed, Acknowledged, Failed, Restarted, Begun;
    match e {
      case BeginTurn(credential, now, later) => BeginTurnKeepsInv(s, credential, now, later);
      case BeginTools(count) => BeginToolsKeepsInv(s, count);
      case Land(i) => LandKeepsInv(s, i);
      case Acknowledge(i) => AcknowledgeKeepsInv(s, i);
      case Fail(i) => FailKeepsInv(s, i);
      case OtherMission(record) => OtherKeepsInv(s, record);
      case Restart => RestartKeepsInv(s);
    }
  }

  /** Whole runs. */

  function Run(s: Sys, events: seq<Event>): Sys
    requires RunEnabled(s, events)
    decreases |events|
  {
    if events == [] then s else Run(Advance(s, events[0]), events[1..])
  }

  predicate RunEnabled(s: Sys, events: seq<Event>)
    decreases |events|
  {
    events != [] ==> Enabled(s, events[0]) && RunEnabled(Advance(s, events[0]), events[1..])
  }

  lemma {:induction false} RunKeepsInv(s: Sys, events: seq<Event>)
    requires Inv(s) && RunEnabled(s, events)
    ensures Inv(Run(s, events)) && Run(s, events).mission == s.mission
    decreases |events|
  {
    hide Inv, Enabled;
    if events != [] {
      EventKeepsInv(s, events[0]);
      RunKeepsInv(Advance(s, events[0]), events[1..]);
    }
  }

  function Initial(mission: Mission): Sys {
    Sys(mission, NO_USAGE, NO_USAGE, 0, 0, [], [])
  }

  // Each record counts everything reserved before it, so the last in flight is the only one that has to have landed.
  predicate LastLanded(s: Sys) {
    s.flights == [] || s.flights[|s.flights| - 1].landed
  }

  // Then the journal covers the live usage.
  lemma LandedCovers(s: Sys, c: Counter)
    requires Accounted(s, c) && Covered(s, c) && LastLanded(s)
    ensures Get(s.live, c) <= Get(Rebuild(s), c)
  {
    hide Rebuilt, Sum, UpTo;
    if s.flights != [] {
      var last := |s.flights| - 1;
      assert CoveredAt(Settled(s, c), Get(Rebuild(s), c), Limit(s.mission, c), s.flights, last, c);
      UpToAll(s.flights, c);
    } else {
      UpToAll(s.flights, c);
      assert Sum([], c) == 0 by {
        NoSum(c);
      }
    }
  }

  lemma NoSum(c: Counter)
    ensures Sum([], c) == 0
  {
  }

  lemma LandedStartsNoLater(s: Sys)
    requires Inv(s) && s.live.startedAt.Some? && LastLanded(s)
    ensures StartsNoLater(Rebuild(s), s.live.startedAt)
  {
    hide Rebuilt, Covered, Sum;
    if s.flights == [] {
      NoSum(Turns);
    } else {
      assert FlightValid(s.flights[|s.flights| - 1], s.live.startedAt, Settled(s, Turns));
    }
  }

  /** Restart never refills a budget. At any point of any run, what restore would rebuild is at least everything
      acknowledged and stays within the mission's bounds, as the live usage does; once the last record in flight has
      landed it is also at least the live usage and started no later. */
  lemma RestartNeverRefills(mission: Mission, events: seq<Event>)
    requires RunEnabled(Initial(mission), events)
    ensures var s := Run(Initial(mission), events);
      && Settled(s, Turns) <= Rebuild(s).turns <= mission.maxTurns
      && Settled(s, ToolCalls) <= Rebuild(s).toolCalls <= mission.maxToolCalls
      && s.live.turns <= mission.maxTurns && s.live.toolCalls <= mission.maxToolCalls
    ensures var s := Run(Initial(mission), events);
      LastLanded(s) ==>
        && s.live.turns <= Rebuild(s).turns && s.live.toolCalls <= Rebuild(s).toolCalls
        && (s.live.startedAt.Some? ==> StartsNoLater(Rebuild(s), s.live.startedAt))
  {
    hide Run, RunEnabled, Rebuilt, Sum, FlightsValid, CoveredAt;
    InitialInv(mission);
    RunKeepsInv(Initial(mission), events);
    var s := Run(Initial(mission), events);
    assert Covered(s, Turns) && Covered(s, ToolCalls) && Accounted(s, Turns) && Accounted(s, ToolCalls);
    if LastLanded(s) {
      LandedCovers(s, Turns);
      LandedCovers(s, ToolCalls);
      if s.live.startedAt.Some? {
        LandedStartsNoLater(s);
      }
    }
  }

  lemma InitialInv(mission: Mission)
    ensures Inv(Initial(mission))
  {
  }
}
