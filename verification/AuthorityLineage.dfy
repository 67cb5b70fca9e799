/**
The lineage of authenticated intents (src/authority.js:17-47, 75-98, 287-292): an intent is added in memory, a record of it
is persisted, and it is taken back if persisting fails; the list is rebuilt from the records.
*/
module AuthorityLineage {
  import opened Wrappers

  datatype Kind = Statement | Instruction | Clarification | Restriction

  datatype Intent = Intent(content: string, origin: string, kind: Kind, turnId: Option<string>, sequence: nat)

  // A record carries its own copy of all but the sequence, which rebuilding assigns.
  datatype Record = Record(lineageId: string, content: string, origin: string, kind: Kind, turnId: Option<string>)

  datatype Lineage = Lineage(id: string, version: nat, restrictionVersion: nat, items: seq<Intent>)

  datatype Error = RollbackInvalid | JournalInvalid

  function Restrictions(items: seq<Intent>): nat {
    if items == [] then 0
    else Restrictions(items[..|items| - 1]) + (if items[|items| - 1].kind.Restriction? then 1 else 0)
  }

  // Sequences count up from one, and both versions count what is there.
  ghost predicate Valid(l: Lineage) {
    && l.version == |l.items| && l.restrictionVersion == Restrictions(l.items)
    && forall k :: 0 <= k < |l.items| ==> l.items[k].sequence == k + 1
  }

  function Added(l: Lineage, r: Record): Lineage {
    var item := Intent(r.content, r.origin, r.kind, r.turnId, l.version + 1);
    Lineage(l.id, l.version + 1, if r.kind.Restriction? then l.restrictionVersion + 1 else l.restrictionVersion,
            l.items + [item])
  }

  function RolledBack(l: Lineage, sequence: nat): Result<Lineage, Error> {
    if l.items == [] || l.items[|l.items| - 1].sequence != sequence then Failure(RollbackInvalid)
    else
      var item := l.items[|l.items| - 1];
      var less: int := if item.kind.Restriction? then l.restrictionVersion - 1 else l.restrictionVersion;
      if l.version == 0 || less < 0 then Failure(RollbackInvalid)
      else Success(Lineage(l.id, l.version - 1, less, l.items[..|l.items| - 1]))
  }

  // The records of one lineage, in order.
  function Rebuilt(id: string, records: seq<Record>): Lineage {
    if records == [] then Lineage(id, 0, 0, [])
    else Added(Rebuilt(id, records[..|records| - 1]), records[|records| - 1])
  }

  predicate OneLineage(records: seq<Record>) {
    forall k :: 0 <= k < |records| ==> records[k].lineageId == records[0].lineageId
  }

  class AuthorityRecord {
    var lineage: Lineage

    constructor (id: string)
      ensures lineage == Lineage(id, 0, 0, [])
    {
      lineage := Lineage(id, 0, 0, []);
    }

    method AddAuthenticatedIntent(r: Record) returns (sequence: nat)
      modifies this
      ensures lineage == Added(old(lineage), r) && sequence == old(lineage).version + 1
    {
      var version := lineage.version + 1;
      var restrictionVersion := lineage.restrictionVersion;
      if r.kind.Restriction? {
        restrictionVersion := restrictionVersion + 1;
      }
      lineage := Lineage(lineage.id, version, restrictionVersion,
                         lineage.items + [Intent(r.content, r.origin, r.kind, r.turnId, version)]);
      sequence := version;
    }

    method RollbackAuthenticatedIntent(sequence: nat) returns (ok: bool)
      requires Valid(lineage)
      modifies this
      ensures ok <==> lineage.items != old(lineage).items
      ensures ok <==> RolledBack(old(lineage), sequence).Success?
      ensures lineage == if ok then RolledBack(old(lineage), sequence).value else old(lineage)
    {
      var n := |lineage.items|;
      if n == 0 || lineage.items[n - 1].sequence != sequence {
        return false;
      }
      var item := lineage.items[n - 1];
      var restrictionVersion := lineage.restrictionVersion;
      if item.kind.Restriction? {
        restrictionVersion := restrictionVersion - 1;
      }
      lineage := Lineage(lineage.id, lineage.version - 1, restrictionVersion, lineage.items[..n - 1]);
      return true;
    }

    method Restore(records: seq<Record>) returns (ok: bool)
      modifies this
      ensures ok <==> OneLineage(records)
      ensures lineage
        == if !ok then old(lineage) else Rebuilt(if records == [] then old(lineage).id else records[0].lineageId, records)
    {
      var version, restrictionVersion, items := 0, 0, [];
      ghost var id := if records == [] then lineage.id else records[0].lineageId;
      while version < |records|
        invariant version <= |records|
        invariant OneLineage(records[..version])
        invariant Lineage(id, version, restrictionVersion, items) == Rebuilt(id, records[..version])
      {
        var record := records[version];
        if record.lineageId != records[0].lineageId {
          return false;
        }
        assert records[..version + 1][..version] == records[..version];
        if record.kind.Restriction? {
          restrictionVersion := restrictionVersion + 1;
        }
        items := items + [Intent(record.content, record.origin, record.kind, record.turnId, version + 1)];
        version := version + 1;
      }
      assert records[..version] == records;
      lineage := Lineage(if records == [] then lineage.id else records[0].lineageId, version, restrictionVersion, items);
      return true;
    }
  }

  lemma AddKeepsValid(l: Lineage, r: Record)
    requires Valid(l)
    ensures Valid(Added(l, r))
  {
    assert Added(l, r).items[..|l.items|] == l.items;
  }

  /** Taking back the intent just added undoes adding it, entirely. */
  lemma RollbackUndoesAdd(l: Lineage, r: Record)
    requires Valid(l)
    ensures RolledBack(Added(l, r), l.version + 1) == Success(l)
  {
    assert Added(l, r).items[..|l.items|] == l.items;
  }

  function AddedAll(l: Lineage, rs: seq<Record>): Lineage {
    if rs == [] then l else Added(AddedAll(l, rs[..|rs| - 1]), rs[|rs| - 1])
  }

  lemma {:induction false} AddedAllKeepsValid(l: Lineage, rs: seq<Record>)
    requires Valid(l)
    ensures Valid(AddedAll(l, rs)) && |AddedAll(l, rs).items| == |l.items| + |rs|
    decreases |rs|
  {
    if rs != [] {
      AddedAllKeepsValid(l, rs[..|rs| - 1]);
      AddKeepsValid(AddedAll(l, rs[..|rs| - 1]), rs[|rs| - 1]);
    }
  }

  /** While others were added after it, an intent whose persisting failed is not taken back; it is exactly when none is. */
  lemma RollbackOnlyWhileLatest(l: Lineage, r: Record, later: seq<Record>)
    requires Valid(l)
    ensures RolledBack(AddedAll(Added(l, r), later), l.version + 1).Success? <==> later == []
  {
    AddKeepsValid(l, r);
    AddedAllKeepsValid(Added(l, r), later);
    if later == [] {
      RollbackUndoesAdd(l, r);
    }
  }

  /** What is rebuilt holds one intent for each record. */

  function IntentOf(r: Record, sequence: nat): Intent {
    Intent(r.content, r.origin, r.kind, r.turnId, sequence)
  }

  lemma {:induction false} RebuiltItems(id: string, records: seq<Record>)
    ensures Valid(Rebuilt(id, records)) && Rebuilt(id, records).id == id && |Rebuilt(id, records).items| == |records|
    ensures forall k :: 0 <= k < |records| ==> Rebuilt(id, records).items[k] == IntentOf(records[k], k + 1)
    decreases |records|
  {
    if records != [] {
      var init := records[..|records| - 1];
      RebuiltItems(id, init);
      AddKeepsValid(Rebuilt(id, init), records[|records| - 1]);
    }
  }

  /** Where two overlap it need not be: the first fails while the second is there, stays live, and is not in the records. */
  lemma OverlappingFailureStaysLive(id: string, first: Record, second: Record)
    ensures var start := Lineage(id, 0, 0, []);
      var live := Added(Added(start, first), second);
      RolledBack(live, 1).Failure? && Rebuilt(id, [second]) != live
  {
    var start := Lineage(id, 0, 0, []);
    assert |Added(Added(start, first), second).items| == 2;
    assert [second][..0] == [];
    assert |Rebuilt(id, [second]).items| == 1;
  }
}
