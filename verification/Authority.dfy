/**
Mission budgets (src/authority.js): turns, tool calls and the start time of each mission, reserved in memory
before a record of the usage is persisted, rolled back when persisting fails, and rebuilt from the journal.
*/
module Authority {
  import opened Wrappers

  // The usage of one mission. Absent counters read as zero.
  datatype Usage = Usage(turns: nat, toolCalls: nat, startedAt: Option<int>)

  const NO_USAGE := Usage(0, 0, None)

  datatype Mission = Mission(id: string, maxTurns: nat, maxToolCalls: nat, maxDurationMs: nat, notBefore: int,
                             expiresAt: int, credentialRefs: set<string>)

  datatype Error =
    | MissionNotStarted
    | MissionExpired
    | DurationLimit
    | CredentialDenied
    | TurnLimit
    | ToolLimit
    | RollbackInvalid
    | JournalInvalid

  /** The rules on one usage. */

  // The time checks a snapshot makes.
  function TimeFailure(m: Mission, u: Usage, now: int): Option<Error> {
    if m.notBefore > now then Some(MissionNotStarted)
    else if m.expiresAt <= now then Some(MissionExpired)
    else if u.startedAt.Some? && now - u.startedAt.value >= m.maxDurationMs then Some(DurationLimit)
    else None
  }

  function AddTurn(u: Usage, now: int): Usage {
    u.(turns := u.turns + 1, startedAt := if u.startedAt.Some? then u.startedAt else Some(now))
  }

  // Rolling back the only turn also forgets the start time.
  function RollbackTurn(u: Usage): Result<Usage, Error> {
    if u.turns == 0 then Failure(RollbackInvalid)
    else if u.turns == 1 then Success(u.(turns := 0, startedAt := None))
    else Success(u.(turns := u.turns - 1))
  }

  function RollbackTools(u: Usage, count: nat): Result<Usage, Error> {
    if count > u.toolCalls then Failure(RollbackInvalid) else Success(u.(toolCalls := u.toolCalls - count))
  }

  // The credential of the primary provider, if it has one, lies inside the mission's envelope.
  predicate CredentialAllowed(m: Mission, credential: Option<string>) {
    credential.Some? && credential.value != "" ==> credential.value in m.credentialRefs
  }

  // A turn is reserved, checked against the clock again, and given back if that check fails.
  function AuthorizeTurn(m: Mission, u: Usage, credential: Option<string>, now: int, later: int): (Usage, Option<Error>) {
    if TimeFailure(m, u, now).Some? then (u, TimeFailure(m, u, now))
    else if !CredentialAllowed(m, credential) then (u, Some(CredentialDenied))
    else if u.turns + 1 > m.maxTurns then (u, Some(TurnLimit))
    else
      var reserved := AddTurn(u, now);
      var failure := TimeFailure(m, reserved, later);
      if failure.None? then (reserved, None) else (RollbackTurn(reserved).value, failure)
  }

  function ReserveTools(m: Mission, u: Usage, count: nat): Result<Usage, Error> {
    if u.toolCalls + count > m.maxToolCalls then Failure(ToolLimit)
    else Success(u.(toolCalls := u.toolCalls + count))
  }

  /** When a turn is allowed. */

  predicate InWindow(m: Mission, at: int) {
    m.notBefore <= at < m.expiresAt
  }

  // The turn that is asked for may begin at this time, and on its own terms.
  predicate MayBegin(m: Mission, u: Usage, credential: Option<string>, now: int) {
    && InWindow(m, now)
    && (u.startedAt.Some? ==> now < u.startedAt.value + m.maxDurationMs)
    && (credential.None? || credential.value == "" || credential.value in m.credentialRefs)
    && u.turns < m.maxTurns
  }

  // It was reserved, and it is still time.
  predicate MayStay(m: Mission, u: Usage, now: int, later: int) {
    InWindow(m, later) && later < (if u.startedAt.Some? then u.startedAt.value else now) + m.maxDurationMs
  }

  // What is refused first: by the time, then by the credential, then by the count, and then by the time again.
  function TurnRefusal(m: Mission, u: Usage, credential: Option<string>, now: int, later: int): Error {
    if !InWindow(m, now) || (u.startedAt.Some? && now >= u.startedAt.value + m.maxDurationMs) then WindowFailure(m, now)
    else if credential.Some? && credential.value != "" && credential.value !in m.credentialRefs then CredentialDenied
    else if u.turns >= m.maxTurns then TurnLimit
    else WindowFailure(m, later)
  }

  function WindowFailure(m: Mission, at: int): Error {
    if at < m.notBefore then MissionNotStarted else if m.expiresAt <= at then MissionExpired else DurationLimit
  }

  /** Rebuilding usage from journal records. */

  datatype UsageRecord = UsageRecord(missionId: string, turns: nat, toolCalls: nat, startedAt: Option<int>)

  predicate ValidRecord(r: UsageRecord) {
    r.turns >= 1 && r.startedAt.Some?
  }

  function Max(a: nat, b: nat): nat {
    if a > b then a else b
  }

  function Min(a: int, b: int): int {
    if a < b then a else b
  }

  // The largest counters and the earliest start among a mission's records.
  function Rebuilt(records: seq<UsageRecord>, id: string): Usage {
    if records == [] then NO_USAGE
    else
      var before, r := Rebuilt(records[..|records| - 1], id), records[|records| - 1];
      if r.missionId != id || r.startedAt.None? then before
      else
        Usage(Max(before.turns, r.turns), Max(before.toolCalls, r.toolCalls),
              Some(if before.startedAt.Some? then Min(before.startedAt.value, r.startedAt.value) else r.startedAt.value))
  }

  // At least every record of the mission, and no more than some record of it says.
  ghost predicate Summarises(records: seq<UsageRecord>, id: string, u: Usage) {
    && (forall k :: 0 <= k < |records| && records[k].missionId == id ==>
          && records[k].turns <= u.turns && records[k].toolCalls <= u.toolCalls
          && records[k].startedAt.Some? && u.startedAt.Some? && u.startedAt.value <= records[k].startedAt.value)
    && (u.turns != 0 ==> exists k :: 0 <= k < |records| && records[k].missionId == id && records[k].turns == u.turns)
    && (u.toolCalls != 0 ==>
          exists k :: 0 <= k < |records| && records[k].missionId == id && records[k].toolCalls == u.toolCalls)
    && (u.startedAt.Some? ==>
          exists k :: 0 <= k < |records| && records[k].missionId == id && records[k].startedAt == u.startedAt)
  }

  lemma {:induction false} RebuiltSummarises(records: seq<UsageRecord>, id: string)
    requires forall k :: 0 <= k < |records| ==> ValidRecord(records[k])
    ensures Summarises(records, id, Rebuilt(records, id))
    decreases |records|
  {
    if records != [] {
      var n := |records| - 1;
      var init := records[..n];
      RebuiltSummarises(init, id);
      SummaryGrows(init, records[n], id, Rebuilt(init, id), Rebuilt(records, id));
      assert records == init + [records[n]];
    }
  }

  lemma SummaryGrows(init: seq<UsageRecord>, r: UsageRecord, id: string, before: Usage, after: Usage)
    requires Summarises(init, id, before) && ValidRecord(r)
    requires after
      == if r.missionId != id then before
         else Usage(Max(before.turns, r.turns), Max(before.toolCalls, r.toolCalls),
                    Some(if before.startedAt.Some? then Min(before.startedAt.value, r.startedAt.value) else r.startedAt.value))
    ensures Summarises(init + [r], id, after)
  {
    var all := init + [r];
    assert all[|init|] == r;
    if before.turns != 0 {
      var k :| 0 <= k < |init| && init[k].missionId == id && init[k].turns == before.turns;
      assert all[k] == init[k];
    }
    if before.toolCalls != 0 {
      var k :| 0 <= k < |init| && init[k].missionId == id && init[k].toolCalls == before.toolCalls;
      assert all[k] == init[k];
    }
    if before.startedAt.Some? {
      var k :| 0 <= k < |init| && init[k].missionId == id && init[k].startedAt == before.startedAt;
      assert all[k] == init[k];
    }
  }

  function UsageIn(turns: map<string, nat>, toolCalls: map<string, nat>, startedAt: map<string, int>, id: string): Usage {
    Usage(if id in turns then turns[id] else 0,
          if id in toolCalls then toolCalls[id] else 0,
          if id in startedAt then Some(startedAt[id]) else None)
  }

  /** The record of one process. */

  class AuthorityRecord {
    var missionTurns: map<string, nat>
    var missionToolCalls: map<string, nat>
    var missionStartedAt: map<string, int>

    constructor ()
      ensures forall id :: UsageOf(id) == NO_USAGE
    {
      missionTurns, missionToolCalls, missionStartedAt := map[], map[], map[];
    }

    function UsageOf(id: string): Usage
      reads this
    {
      UsageIn(missionTurns, missionToolCalls, missionStartedAt, id)
    }

    method RollbackMissionTurn(id: string) returns (r: Result<(), Error>)
      modifies this
      ensures var u := old(UsageOf(id));
        if u.turns == 0 then r == Failure(RollbackInvalid)
        else r.Success? && UsageOf(id) == Usage(u.turns - 1, u.toolCalls, if u.turns == 1 then None else u.startedAt)
      ensures RollbackTurn(old(UsageOf(id))).Failure? ==> r == Failure(RollbackInvalid) && UsageOf(id) == old(UsageOf(id))
      ensures RollbackTurn(old(UsageOf(id))).Success? ==> r.Success? && UsageOf(id) == RollbackTurn(old(UsageOf(id))).value
      ensures forall other :: other != id ==> UsageOf(other) == old(UsageOf(other))
    {
      var turns := if id in missionTurns then missionTurns[id] else 0;
      if turns <= 0 {
        return Failure(RollbackInvalid);
      }
      if turns == 1 {
        missionTurns := missionTurns - {id};
        missionStartedAt := missionStartedAt - {id};
      } else {
        missionTurns := missionTurns[id := turns - 1];
      }
      return Success(());
    }

    method AuthorizeMissionTurn(mission: Mission, credential: Option<string>, now: int, later: int)
      returns (r: Option<Error>)
      modifies this
      ensures (UsageOf(mission.id), r) == AuthorizeTurn(mission, old(UsageOf(mission.id)), credential, now, later)
      ensures var u := old(UsageOf(mission.id));
        && (r.None? <==> MayBegin(mission, u, credential, now) && MayStay(mission, u, now, later))
        && (r.Some? ==> r == Some(TurnRefusal(mission, u, credential, now, later)))
        && (r.None? ==>
              UsageOf(mission.id) == Usage(u.turns + 1, u.toolCalls, if u.startedAt.Some? then u.startedAt else Some(now)))
        && (r.Some? && (u.turns == 0 <==> u.startedAt.None?) ==> UsageOf(mission.id) == u)
      ensures forall other :: other != mission.id ==> UsageOf(other) == old(UsageOf(other))
    {
      var failure := TimeFailure(mission, UsageOf(mission.id), now);
      if failure.Some? {
        return failure;
      }
      if credential.Some? && credential.value != "" && credential.value !in mission.credentialRefs {
        return Some(CredentialDenied);
      }
      var turns := (if mission.id in missionTurns then missionTurns[mission.id] else 0) + 1;
      if turns > mission.maxTurns {
        return Some(TurnLimit);
      }
      missionTurns := missionTurns[mission.id := turns];
      if mission.id !in missionStartedAt {
        missionStartedAt := missionStartedAt[mission.id := now];
      }
      failure := TimeFailure(mission, UsageOf(mission.id), later);
      if failure.Some? {
        var rolled := RollbackMissionTurn(mission.id);
        return failure;
      }
      return None;
    }

    method ReserveMissionToolCalls(mission: Mission, count: nat) returns (r: Result<Usage, Error>)
      modifies this
      ensures var u := old(UsageOf(mission.id));
        if u.toolCalls + count <= mission.maxToolCalls then r == Success(Usage(u.turns, u.toolCalls + count, u.startedAt))
        else r == Failure(ToolLimit)
      ensures match ReserveTools(mission, old(UsageOf(mission.id)), count)
              case Failure(e) => r == Failure(e) && UsageOf(mission.id) == old(UsageOf(mission.id))
              case Success(u) => r == Success(u) && UsageOf(mission.id) == u
      ensures forall other :: other != mission.id ==> UsageOf(other) == old(UsageOf(other))
    {
      var next := (if mission.id in missionToolCalls then missionToolCalls[mission.id] else 0) + count;
      if next > mission.maxToolCalls {
        return Failure(ToolLimit);
      }
      missionToolCalls := missionToolCalls[mission.id := next];
      return Success(UsageOf(mission.id));
    }

    method RollbackMissionToolCalls(id: string, count: nat) returns (r: Result<(), Error>)
      modifies this
      ensures var u := old(UsageOf(id));
        if count <= u.toolCalls then r.Success? && UsageOf(id) == Usage(u.turns, u.toolCalls - count, u.startedAt)
        else r == Failure(RollbackInvalid)
      ensures RollbackTools(old(UsageOf(id)), count).Failure? ==>
        r == Failure(RollbackInvalid) && UsageOf(id) == old(UsageOf(id))
      ensures RollbackTools(old(UsageOf(id)), count).Success? ==>
        r.Success? && UsageOf(id) == RollbackTools(old(UsageOf(id)), count).value
      ensures forall other :: other != id ==> UsageOf(other) == old(UsageOf(other))
    {
      var prior := if id in missionToolCalls then missionToolCalls[id] else 0;
      if count > prior {
        return Failure(RollbackInvalid);
      }
      missionToolCalls := missionToolCalls[id := prior - count];
      return Success(());
    }

    // An invalid record refuses the whole journal and leaves the record as it was.
    method Restore(records: seq<UsageRecord>) returns (r: Result<(), Error>)
      modifies this
      ensures r.Failure? ==> r == Failure(JournalInvalid)
      ensures r.Success? <==> forall k :: 0 <= k < |records| ==> ValidRecord(records[k])
      ensures r.Success? ==> forall id :: UsageOf(id) == Rebuilt(records, id) && Summarises(records, id, UsageOf(id))
      ensures r.Failure? ==> forall id :: UsageOf(id) == old(UsageOf(id))
    {
      var turns: map<string, nat>, tools: map<string, nat>, started: map<string, int> := map[], map[], map[];
      var k := 0;
      while k < |records|
        invariant k <= |records|
        invariant forall i :: 0 <= i < k ==> ValidRecord(records[i])
        invariant forall id :: Rebuilt(records[..k], id) == UsageIn(turns, tools, started, id)
        invariant forall id :: UsageOf(id) == old(UsageOf(id))
      {
        var record := records[k];
        if !ValidRecord(record) {
          return Failure(JournalInvalid);
        }
        var id, at := record.missionId, record.startedAt.value;
        assert records[..k + 1][..k] == records[..k];
        turns := turns[id := Max(if id in turns then turns[id] else 0, record.turns)];
        tools := tools[id := Max(if id in tools then tools[id] else 0, record.toolCalls)];
        started := started[id := Min(if id in started then started[id] else at, at)];
        k := k + 1;
      }
      assert records[..k] == records;
      missionTurns, missionToolCalls, missionStartedAt := turns, tools, started;
      hide Summarises, Rebuilt;
      forall id
        ensures UsageOf(id) == Rebuilt(records, id) && Summarises(records, id, UsageOf(id))
      {
        RebuiltSummarises(records, id);
      }
      return Success(());
    }
  }
}
