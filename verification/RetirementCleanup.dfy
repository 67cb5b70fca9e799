/**
Retiring a finished activation (src/desktop-activation-retirement-cleanup.js and -files.js): every planned artifact is
removed, one at a time; then a terminal commit is written; then a witness; and only then the decision, the plan and,
last, the marker are removed.
*/
module RetirementCleanup {
  import opened Evidence
  import opened RetirementEvidence
  import opened Wrappers

  datatype Identity = Identity(operationId: string, stageId: string, installationId: string, dataId: string,
                               generation: string)

  datatype File = CandidateFile | BeforeFile | ChildFile | JournalFile(index: nat)

  predicate Known(name: File) {
    name.JournalFile? ==> name.index < 9
  }

  // A row without a digest records that the file was absent.
  datatype Row = Row(name: File, sha: Option<Digest>)

  datatype Plan = Plan(identity: Identity, completion: Digest, marker: Digest, rows: seq<Row>)

  datatype Decision = Decision(identity: Identity, plan: Digest, completion: Digest, marker: Digest, registration: Digest,
                               discovery: Digest, child: string)

  // Plans and decisions are read from canonical text only.
  datatype Readers = Readers(pair: Formats, parsePlan: Bytes -> Option<Plan>, parseDecision: Bytes -> Option<Decision>)

  datatype Barrier = DecisionFile | PlanFile | MarkerFile

  // directory: the operation directory, which holds the journal files. foreign: any other entry beside or in it.
  datatype Store = Store(files: map<File, Bytes>, directory: bool, foreign: bool, barriers: map<Barrier, Bytes>,
                         terminal: Option<Bytes>, cleared: Option<Bytes>)

  /** What every step verifies first. */

  const ROWS := 12

  predicate PlanShape(p: Plan) {
    && |p.rows| == ROWS
    && (forall i, j :: 0 <= i < j < ROWS ==> p.rows[i].name != p.rows[j].name)
    && HasRow(p, CandidateFile) && HasRow(p, BeforeFile) && HasRow(p, ChildFile)
    && (forall k: nat :: k < 9 ==> HasRow(p, JournalFile(k)))
    && (forall i :: 0 <= i < ROWS ==> Known(p.rows[i].name) && (!p.rows[i].name.BeforeFile? ==> p.rows[i].sha.Some?))
  }

  predicate HasRow(p: Plan, name: File) {
    exists i :: 0 <= i < |p.rows| && p.rows[i].name == name
  }

  predicate Authorised(r: Readers, id: Identity, barriers: map<Barrier, Bytes>) {
    && PlanFile in barriers && DecisionFile in barriers && MarkerFile in barriers
    && r.parsePlan(barriers[PlanFile]).Some? && r.parseDecision(barriers[DecisionFile]).Some?
    && var plan := r.parsePlan(barriers[PlanFile]).value;
    && var decision := r.parseDecision(barriers[DecisionFile]).value;
    && plan.identity == id && decision.identity == id && PlanShape(plan)
    && decision.plan == Sha256(barriers[PlanFile]) && decision.completion == plan.completion
    && decision.marker == plan.marker && plan.marker == Sha256(barriers[MarkerFile])
  }

  function PlanOf(r: Readers, s: Store): Plan
    requires PlanFile in s.barriers && r.parsePlan(s.barriers[PlanFile]).Some?
  {
    r.parsePlan(s.barriers[PlanFile]).value
  }

  predicate RowAgrees(s: Store, row: Row) {
    row.name in s.files ==> row.sha == Some(Sha256(s.files[row.name]))
  }

  predicate Verifies(r: Readers, id: Identity, s: Store): (ok: bool)
    ensures ok ==> PlanFile in s.barriers && r.parsePlan(s.barriers[PlanFile]).Some?
  {
    && Authorised(r, id, s.barriers) && !s.foreign
    && (forall name <- s.files :: Known(name) && (name.JournalFile? ==> s.directory))
    && var plan := PlanOf(r, s);
    forall i :: 0 <= i < ROWS ==> RowAgrees(s, plan.rows[i])
  }

  /** Cleaning. */

  // The rows whose files are still there, in the order of the plan.
  function Present(rows: seq<Row>, s: Store): (left: seq<Row>)
    ensures |left| <= |rows|
    ensures forall row <- left :: row in rows && row.name in s.files
  {
    if rows == [] then []
    else (if rows[0].name in s.files then [rows[0]] else []) + Present(rows[1..], s)
  }

  function Remaining(rows: seq<Row>, s: Store): nat {
    |Present(rows, s)| + (if s.directory then 1 else 0)
  }

  function RemoveNext(rows: seq<Row>, s: Store): Store {
    var left := Present(rows, s);
    if left != [] then s.(files := s.files - {left[0].name}) else s.(directory := false)
  }

  function RemoveMany(rows: seq<Row>, s: Store, n: nat): Store {
    if n == 0 then s else RemoveNext(rows, RemoveMany(rows, s, n - 1))
  }

  function Min(a: nat, b: nat): nat {
    if a < b then a else b
  }

  const REMOVALS := 13

  /** Committing. */

  function TerminalFor(r: Readers, id: Identity, barriers: map<Barrier, Bytes>): Terminal
    requires Authorised(r, id, barriers)
  {
    var decision := r.parseDecision(barriers[DecisionFile]).value;
    Terminal(TerminalCommittedBarred, id.operationId, id.stageId, id.installationId, id.dataId, id.generation,
             Sha256(barriers[PlanFile]), Sha256(barriers[DecisionFile]), decision.completion, decision.marker,
             decision.registration, decision.discovery, decision.child)
  }

  // Exclusive creation: all of the bytes, or the part that was stored when the process was lost.
  function Written(existing: Option<Bytes>, bytes: Bytes, stored: Option<nat>): Option<Bytes> {
    if existing.Some? then existing
    else if stored.Some? && stored.value <= |bytes| then Some(bytes[..stored.value])
    else Some(bytes)
  }

  function Committed(r: Readers, id: Identity, s: Store, stored: Option<nat>): Store {
    if !Verifies(r, id, s) || Remaining(PlanOf(r, s).rows, s) != 0 then s
    else
      var bytes := r.pair.terminal(TerminalFor(r, id, s.barriers));
      if |bytes| > PAIR_LIMIT then s else s.(terminal := Written(s.terminal, bytes, stored))
  }

  /** Clearing. */

  function BarrierSha(t: Terminal, b: Barrier): Digest {
    match b
    case DecisionFile => t.decision
    case PlanFile => t.plan
    case MarkerFile => t.marker
  }

  predicate BarrierAgrees(s: Store, t: Terminal, b: Barrier) {
    if b in s.barriers then Sha256(s.barriers[b]) == BarrierSha(t, b) else s.cleared.Some?
  }

  // The commit, if it is whole, the witness is its own, nothing is left among the activations, and each barrier is as it
  // was or, once there is a witness, gone.
  function Clearance(r: Readers, id: Identity, s: Store): Option<Terminal> {
    if s.terminal.None? || |s.terminal.value| > PAIR_LIMIT || r.pair.parseTerminal(s.terminal.value).None? then None
    else
      var t := r.pair.parseTerminal(s.terminal.value).value;
      if r.pair.terminal(t) != s.terminal.value || t.state != TerminalCommittedBarred
        || Identity(t.operationId, t.stageId, t.installationId, t.dataId, t.generation) != id
        || (s.cleared.Some? && s.cleared.value != r.pair.cleared(WitnessFor(t, Sha256(s.terminal.value))))
        || !BarrierAgrees(s, t, MarkerFile) || !BarrierAgrees(s, t, PlanFile) || !BarrierAgrees(s, t, DecisionFile)
        || s.foreign || s.directory || s.files != map[]
      then None
      else Some(t)
  }

  // Before the witness is written the whole chain of evidence is verified once more.
  predicate MayWitness(r: Readers, id: Identity, s: Store, t: Terminal) {
    && Verifies(r, id, s) && Remaining(PlanOf(r, s).rows, s) == 0
    && TerminalFor(r, id, s.barriers) == t
  }

  const ORDER: seq<Barrier> := [DecisionFile, PlanFile, MarkerFile]

  // life: how many barriers the process still removes.
  function Dropped(s: Store, order: seq<Barrier>, life: nat): Store
    decreases |order|
  {
    if order == [] then s
    else if order[0] !in s.barriers then Dropped(s, order[1..], life)
    else if life == 0 then s
    else Dropped(s.(barriers := s.barriers - {order[0]}), order[1..], life - 1)
  }

  // witnessStored: the process is lost with that much of the witness stored.
  function ClearedBarriers(r: Readers, id: Identity, s: Store, witnessStored: Option<nat>, life: nat): Store {
    var t := Clearance(r, id, s);
    if t.None? then s
    else if s.cleared.Some? then Dropped(s, ORDER, life)
    else if !MayWitness(r, id, s, t.value) then s
    else
      var bytes := r.pair.cleared(WitnessFor(t.value, Sha256(s.terminal.value)));
      var witnessed := s.(cleared := Written(None, bytes, witnessStored));
      if witnessed.cleared == Some(bytes) && witnessStored.None? then Dropped(witnessed, ORDER, life) else witnessed
  }

  /** As the code drives it. */

  class RetirementStore {
    var store: Store

    constructor (store: Store)
      ensures this.store == store
    {
      this.store := store;
    }

    // life: the removals after which the owner is stopped.
    method Clean(r: Readers, id: Identity, life: nat) returns (ok: bool)
      modifies this
      ensures !Verifies(r, id, old(store)) ==> !ok && store == old(store)
      ensures Verifies(r, id, old(store)) ==>
        var rows := PlanOf(r, old(store)).rows;
        && store == RemoveMany(rows, old(store), Min(life, Remaining(rows, old(store))))
        && (ok <==> life >= Remaining(rows, old(store)))
    {
      hide Verifies, Present, RemoveNext, Remaining;
      if !Verifies(r, id, store) {
        return false;
      }
      ghost var start := store;
      var rows := PlanOf(r, store).rows;
      ThirteenRemovalsSuffice(r, id, store);
      var attempt := 0;
      while attempt < REMOVALS
        invariant attempt <= REMOVALS && attempt <= life
        invariant Verifies(r, id, store) && PlanOf(r, store).rows == rows
        invariant store == RemoveMany(rows, start, attempt)
        invariant Remaining(rows, store) == Remaining(rows, start) - attempt
      {
        var present := Present(rows, store);
        SomethingRemains(rows, store);
        if present == [] && !store.directory {
          break;
        }
        if attempt == life {
          return false;
        }
        RemovalKeepsVerified(r, id, store);
        RemovesNext(rows, store);
        if present != [] {
          store := store.(files := store.files - {present[0].name});
        } else {
          store := store.(directory := false);
        }
        attempt := attempt + 1;
      }
      return true;
    }

    method RecordTerminalCommit(r: Readers, id: Identity, stored: Option<nat>) returns (ok: bool)
      modifies this
      ensures store == Committed(r, id, old(store), stored)
      ensures ok ==> store.terminal.Some? && old(store).terminal.None? && Verifies(r, id, store) && store.files == map[]
    {
      if !Verifies(r, id, store) {
        return false;
      }
      var rows := PlanOf(r, store).rows;
      if Present(rows, store) != [] || store.directory {
        return false;
      }
      NothingLeft(r, id, store);
      var content := r.pair.terminal(TerminalFor(r, id, store.barriers));
      if |content| > PAIR_LIMIT || store.terminal.Some? {
        return false;
      }
      if stored.Some? && stored.value <= |content| {
        store := store.(terminal := Some(content[..stored.value]));
        return false;
      }
      store := store.(terminal := Some(content));
      return true;
    }

    method ClearBarriers(r: Readers, id: Identity, witnessStored: Option<nat>, life: nat) returns (ok: bool)
      modifies this
      ensures store == ClearedBarriers(r, id, old(store), witnessStored, life)
      ensures ok ==> DecisionFile !in store.barriers && PlanFile !in store.barriers && MarkerFile !in store.barriers
      ensures ok ==> Clearance(r, id, old(store)).Some? && store.cleared.Some?
    {
      var current := Clearance(r, id, store);
      if current.None? {
        return false;
      }
      if store.cleared.None? {
        if !MayWitness(r, id, store, current.value) {
          return false;
        }
        var bytes := r.pair.cleared(WitnessFor(current.value, Sha256(store.terminal.value)));
        if witnessStored.Some? {
          store := store.(cleared := Written(None, bytes, witnessStored));
          return false;
        }
        store := store.(cleared := Some(bytes));
      }
      ok := DropBarriers(life);
    }

    method DropBarriers(life: nat) returns (ok: bool)
      modifies this
      ensures store == Dropped(old(store), ORDER, life) && store.cleared == old(store).cleared
      ensures ok ==> DecisionFile !in store.barriers && PlanFile !in store.barriers && MarkerFile !in store.barriers
    {
      hide Dropped;
      ghost var target := Dropped(store, ORDER, life);
      var left, k := life, 0;
      assert ORDER[0..] == ORDER;
      while k < |ORDER|
        invariant k <= |ORDER|
        invariant Dropped(store, ORDER[k..], left) == target
        invariant forall i :: 0 <= i < k ==> ORDER[i] !in store.barriers
        invariant store.cleared == old(store).cleared
      {
        DroppedFrom(store, k, left);
        if ORDER[k] in store.barriers {
          if left == 0 {
            return false;
          }
          store := store.(barriers := store.barriers - {ORDER[k]});
          left := left - 1;
        }
        k := k + 1;
      }
      DroppedAll(store, left);
      assert ORDER[0] == DecisionFile && ORDER[1] == PlanFile && ORDER[2] == MarkerFile;
      return true;
    }
  }

  /** Writing the witness and removing a barrier behind it leave the clearance standing, so that every inspection in between
      says what the one before it said. */
  lemma ClearanceStands(r: Readers, id: Identity, s: Store, b: Barrier)
    requires Clearance(r, id, s).Some?
    ensures var t := Clearance(r, id, s);
      var witnessed := s.(cleared := Some(r.pair.cleared(WitnessFor(t.value, Sha256(s.terminal.value)))));
      && Clearance(r, id, witnessed) == t
      && Clearance(r, id, witnessed.(barriers := s.barriers - {b})) == t
    ensures s.cleared.Some? ==>
      s.cleared.value == r.pair.cleared(WitnessFor(Clearance(r, id, s).value, Sha256(s.terminal.value)))
  {
    var t := Clearance(r, id, s).value;
    var witnessed := s.(cleared := Some(r.pair.cleared(WitnessFor(t, Sha256(s.terminal.value)))));
    var less := witnessed.(barriers := s.barriers - {b});
    forall other: Barrier
      ensures BarrierAgrees(witnessed, t, other) && BarrierAgrees(less, t, other)
    {
      assert other == DecisionFile || other == PlanFile || other == MarkerFile;
    }
  }

  lemma DroppedFrom(s: Store, k: nat, life: nat)
    requires k < |ORDER|
    ensures Dropped(s, ORDER[k..], life)
      == if ORDER[k] !in s.barriers then Dropped(s, ORDER[k + 1..], life)
         else if life == 0 then s
         else Dropped(s.(barriers := s.barriers - {ORDER[k]}), ORDER[k + 1..], life - 1)
  {
    assert ORDER[k..][0] == ORDER[k] && ORDER[k..][1..] == ORDER[k + 1..];
  }

  lemma DroppedAll(s: Store, life: nat)
    ensures Dropped(s, ORDER[|ORDER|..], life) == s
  {
  }

  lemma SomethingRemains(rows: seq<Row>, s: Store)
    ensures Remaining(rows, s) == 0 <==> Present(rows, s) == [] && !s.directory
  {
  }

  lemma RemovesNext(rows: seq<Row>, s: Store)
    ensures RemoveNext(rows, s)
      == if Present(rows, s) != [] then s.(files := s.files - {Present(rows, s)[0].name}) else s.(directory := false)
  {
  }

  /** Removals. */

  lemma {:induction false} PresentDrops(rows: seq<Row>, s: Store, name: File)
    requires forall i, j :: 0 <= i < j < |rows| ==> rows[i].name != rows[j].name
    requires exists i :: 0 <= i < |rows| && rows[i].name == name
    requires name in s.files
    ensures |Present(rows, s.(files := s.files - {name}))| == |Present(rows, s)| - 1
  {
    var rest := rows[1..];
    var less := s.(files := s.files - {name});
    if rows[0].name == name {
      assert forall i :: 0 <= i < |rest| ==> rest[i] == rows[i + 1];
      PresentSame(rest, s, less);
    } else {
      var i :| 0 <= i < |rows| && rows[i].name == name;
      assert rest[i - 1].name == name;
      PresentDrops(rest, s, name);
    }
  }

  lemma {:induction false} PresentSame(rows: seq<Row>, s: Store, t: Store)
    requires forall i :: 0 <= i < |rows| ==> (rows[i].name in s.files <==> rows[i].name in t.files)
    ensures Present(rows, s) == Present(rows, t)
  {
    if rows != [] {
      assert rows[0].name in s.files <==> rows[0].name in t.files;
      PresentSame(rows[1..], s, t);
    }
  }

  lemma {:induction false} NonePresent(rows: seq<Row>, s: Store)
    requires Present(rows, s) == []
    ensures forall i :: 0 <= i < |rows| ==> rows[i].name !in s.files
  {
    if rows != [] {
      NonePresent(rows[1..], s);
      forall i | 0 <= i < |rows|
        ensures rows[i].name !in s.files
      {
        if i > 0 {
          assert rows[1..][i - 1] == rows[i];
        }
      }
    }
  }

  lemma EveryKnownHasRow(p: Plan, name: File)
    requires PlanShape(p) && Known(name)
    ensures HasRow(p, name)
  {
  }

  /** The operation directory is empty before it is removed, and with it nothing is left. */
  lemma NothingLeft(r: Readers, id: Identity, s: Store)
    requires Verifies(r, id, s) && Present(PlanOf(r, s).rows, s) == []
    ensures s.files == map[]
  {
    var plan := PlanOf(r, s);
    NonePresent(plan.rows, s);
    forall name
      ensures name !in s.files
    {
      if Known(name) {
        EveryKnownHasRow(plan, name);
      }
    }
  }

  /** Each removal takes away exactly one thing that was left, and what remains still verifies, so that cleaning can be
      resumed after any removal. */
  lemma RemovalKeepsVerified(r: Readers, id: Identity, s: Store)
    requires Verifies(r, id, s) && Remaining(PlanOf(r, s).rows, s) > 0
    ensures var rows := PlanOf(r, s).rows;
      var next := RemoveNext(rows, s);
      && Verifies(r, id, next) && next == s.(files := next.files, directory := next.directory)
      && Remaining(rows, next) == Remaining(rows, s) - 1
  {
    var rows := PlanOf(r, s).rows;
    var next := RemoveNext(rows, s);
    var left := Present(rows, s);
    if left != [] {
      assert left[0] in left && left[0] in rows;
      PresentDrops(rows, s, left[0].name);
      forall i | 0 <= i < ROWS
        ensures RowAgrees(next, rows[i])
      {
        assert RowAgrees(s, rows[i]);
      }
    } else {
      NothingLeft(r, id, s);
      PresentSame(rows, s, next);
    }
  }

  /** Twelve files and a directory: thirteen removals are always enough, and after them nothing is left. */
  lemma ThirteenRemovalsSuffice(r: Readers, id: Identity, s: Store)
    requires Verifies(r, id, s)
    ensures var rows := PlanOf(r, s).rows;
      var n := Remaining(rows, s);
      && n <= REMOVALS
      && RemoveMany(rows, s, n) == s.(files := map[], directory := false)
  {
    var rows := PlanOf(r, s).rows;
    var n := Remaining(rows, s);
    ManyRemovals(r, id, s, n);
    NothingLeft(r, id, RemoveMany(rows, s, n));
  }

  lemma {:induction false} ManyRemovals(r: Readers, id: Identity, s: Store, n: nat)
    requires Verifies(r, id, s) && n <= Remaining(PlanOf(r, s).rows, s)
    ensures var rows := PlanOf(r, s).rows;
      var now := RemoveMany(rows, s, n);
      && Verifies(r, id, now) && now == s.(files := now.files, directory := now.directory)
      && Remaining(rows, now) == Remaining(rows, s) - n
  {
    hide Verifies, Present, RemoveNext, Remaining;
    if n > 0 {
      ManyRemovals(r, id, s, n - 1);
      RemovalKeepsVerified(r, id, RemoveMany(PlanOf(r, s).rows, s, n - 1));
    }
  }
}
