/**
What each step of a retirement asks of the plan, the decision and what is left of the activation before it touches anything,
and what it then touches (src/desktop-activation-retirement-cleanup.js and -files.js).
*/
module RetirementRules {
  import opened Evidence
  import opened RetirementCleanup
  import opened RetirementEvidence
  import opened Wrappers

  // A candidate, a prior registration, a child and the first nine receipts.
  predicate IsArtifact(name: File) {
    match name
    case CandidateFile => true
    case BeforeFile => true
    case ChildFile => true
    case JournalFile(index) => 0 <= index <= 8
  }

  // Twelve rows, one for each artifact; only the prior registration may have been absent.
  ghost predicate IsPlan(plan: Plan, id: Identity) {
    && plan.identity == id && |plan.rows| == 12
    && (forall name: File :: IsArtifact(name) ==> exists i :: 0 <= i < 12 && plan.rows[i].name == name)
    && (forall i, j :: 0 <= i < j < 12 ==> plan.rows[i].name != plan.rows[j].name)
    && (forall i :: 0 <= i < 12 ==> IsArtifact(plan.rows[i].name))
    && (forall i :: 0 <= i < 12 && plan.rows[i].name != BeforeFile ==> plan.rows[i].sha.Some?)
  }

  ghost predicate Planned(plan: Plan, name: File, content: Bytes) {
    exists i :: 0 <= i < |plan.rows| && plan.rows[i] == Row(name, Some(Sha256(content)))
  }

  // Plan, decision and marker are there and bound to one another and to the retirement.
  ghost predicate IsDecided(r: Readers, id: Identity, barriers: map<Barrier, Bytes>, plan: Plan, decision: Decision) {
    && PlanFile in barriers && DecisionFile in barriers && MarkerFile in barriers
    && r.parsePlan(barriers[PlanFile]) == Some(plan) && r.parseDecision(barriers[DecisionFile]) == Some(decision)
    && IsPlan(plan, id) && decision.identity == id && decision.plan == Sha256(barriers[PlanFile])
    && decision.completion == plan.completion && decision.marker == plan.marker
    && plan.marker == Sha256(barriers[MarkerFile])
  }

  // Everything that is left is as the plan has it, and nothing else is there.
  ghost predicate OnlyPlanned(s: Store, plan: Plan) {
    && !s.foreign
    && forall name <- s.files ::
         IsArtifact(name) && (name.JournalFile? ==> s.directory) && Planned(plan, name, s.files[name])
  }

  ghost predicate MayGoOn(r: Readers, id: Identity, s: Store, plan: Plan, decision: Decision) {
    IsDecided(r, id, s.barriers, plan, decision) && OnlyPlanned(s, plan)
  }

  lemma PlanExact(plan: Plan, id: Identity)
    ensures IsPlan(plan, id) <==> plan.identity == id && PlanShape(plan)
  {
    if PlanShape(plan) {
      forall name: File | IsArtifact(name)
        ensures exists i :: 0 <= i < 12 && plan.rows[i].name == name
      {
        EveryKnownHasRow(plan, name);
      }
    }
    if IsPlan(plan, id) {
      assert IsArtifact(CandidateFile) && IsArtifact(BeforeFile) && IsArtifact(ChildFile);
      forall k: nat | k < 9
        ensures HasRow(plan, JournalFile(k))
      {
        assert IsArtifact(JournalFile(k));
      }
    }
  }

  lemma RowsExact(s: Store, plan: Plan, name: File)
    requires PlanShape(plan) && name in s.files && Known(name)
    ensures Planned(plan, name, s.files[name]) <==> forall i :: 0 <= i < 12 && plan.rows[i].name == name ==> RowAgrees(s, plan.rows[i])
  {
    EveryKnownHasRow(plan, name);
    var i :| 0 <= i < |plan.rows| && plan.rows[i].name == name;
    assert forall j :: 0 <= j < 12 && plan.rows[j].name == name ==> j == i;
    assert RowAgrees(s, plan.rows[i]) <==> plan.rows[i] == Row(name, Some(Sha256(s.files[name])));
  }

  lemma DecidedExact(r: Readers, id: Identity, barriers: map<Barrier, Bytes>)
    ensures Authorised(r, id, barriers) <==> exists plan, decision :: IsDecided(r, id, barriers, plan, decision)
  {
    if Authorised(r, id, barriers) {
      var plan, decision := r.parsePlan(barriers[PlanFile]).value, r.parseDecision(barriers[DecisionFile]).value;
      PlanExact(plan, id);
      hide PlanShape, IsPlan;
      assert IsDecided(r, id, barriers, plan, decision);
    } else if plan, decision :| IsDecided(r, id, barriers, plan, decision) {
      PlanExact(plan, id);
      hide PlanShape, IsPlan;
    }
  }

  lemma ArtifactsExact(s: Store, plan: Plan)
    requires PlanShape(plan)
    ensures OnlyPlanned(s, plan)
      <==> !s.foreign && (forall name <- s.files :: Known(name) && (name.JournalFile? ==> s.directory))
           && forall i :: 0 <= i < ROWS ==> RowAgrees(s, plan.rows[i])
  {
    forall name <- s.files | Known(name)
      ensures Planned(plan, name, s.files[name])
        <==> forall i :: 0 <= i < 12 && plan.rows[i].name == name ==> RowAgrees(s, plan.rows[i])
    {
      RowsExact(s, plan, name);
    }
    hide Planned, PlanShape;
    assert forall name :: Known(name) <==> IsArtifact(name);
  }

  /** A step goes on exactly where plan, decision and marker agree and only what was planned is left. */
  lemma VerifiesExact(r: Readers, id: Identity, s: Store)
    ensures Verifies(r, id, s) <==> exists plan, decision :: MayGoOn(r, id, s, plan, decision)
    ensures forall plan, decision :: MayGoOn(r, id, s, plan, decision) ==> Verifies(r, id, s) && PlanOf(r, s) == plan
  {
    DecidedExact(r, id, s.barriers);
    if Authorised(r, id, s.barriers) {
      var plan := PlanOf(r, s);
      ArtifactsExact(s, plan);
      hide PlanShape, IsPlan, OnlyPlanned, RowAgrees;
      var q, decision :| IsDecided(r, id, s.barriers, q, decision);
      assert MayGoOn(r, id, s, q, decision) <==> Verifies(r, id, s);
    }
    hide OnlyPlanned, Authorised;
  }

  /** Cleaning. */

  // Nothing but artifacts went, each with the content that the plan recorded, and the directory went last.
  ghost predicate OnlyArtifactsWent(before: Store, after: Store, plan: Plan) {
    && after == before.(files := after.files, directory := after.directory)
    && (forall name <- after.files :: name in before.files && after.files[name] == before.files[name])
    && (forall name <- before.files :: name !in after.files ==> Planned(plan, name, before.files[name]))
    && (after.directory ==> before.directory) && (before.directory && !after.directory ==> after.files == map[])
  }

  // One removal takes a file, or the directory once it is empty.
  ghost predicate TakesOne(s: Store, next: Store, name: Option<File>) {
    if name.Some? then name.value in s.files && next == s.(files := s.files - {name.value})
    else s.files == map[] && s.directory && next == s.(directory := false)
  }

  lemma NextTakesOne(r: Readers, id: Identity, s: Store) returns (name: Option<File>)
    requires Verifies(r, id, s) && Remaining(PlanOf(r, s).rows, s) > 0
    ensures TakesOne(s, RemoveNext(PlanOf(r, s).rows, s), name)
  {
    var left := Present(PlanOf(r, s).rows, s);
    if left != [] {
      assert left[0] in left;
      name := Some(left[0].name);
    } else {
      NothingLeft(r, id, s);
      name := None;
    }
    hide Verifies, Present;
  }

  lemma TakingOneMore(s: Store, before: Store, next: Store, plan: Plan, name: Option<File>)
    requires OnlyArtifactsWent(s, before, plan) && TakesOne(before, next, name)
    requires forall name <- s.files :: Planned(plan, name, s.files[name])
    ensures OnlyArtifactsWent(s, next, plan)
    ensures |before.files| - |next.files| + (if before.directory && !next.directory then 1 else 0) == 1
  {
    hide Planned;
    if name.Some? {
      assert before.files.Keys == next.files.Keys + {name.value};
      assert |before.files.Keys| == |before.files| && |next.files.Keys| == |next.files|;
    }
  }

  lemma AllPlanned(r: Readers, id: Identity, s: Store)
    requires Verifies(r, id, s)
    ensures forall name <- s.files :: Planned(PlanOf(r, s), name, s.files[name])
  {
    VerifiesExact(r, id, s);
    hide Verifies, Planned, IsDecided;
    var plan, decision :| MayGoOn(r, id, s, plan, decision);
  }

  /** What cleaning does from any store, stopped after any number of removals. */
  lemma {:induction false} CleaningIsExact(r: Readers, id: Identity, s: Store, n: nat)
    requires Verifies(r, id, s) && n <= Remaining(PlanOf(r, s).rows, s)
    ensures var after := RemoveMany(PlanOf(r, s).rows, s, n);
      && OnlyArtifactsWent(s, after, PlanOf(r, s))
      && |s.files| - |after.files| + (if s.directory && !after.directory then 1 else 0) == n
    decreases n
  {
    hide Verifies, Remaining, RemoveNext, Planned;
    AllPlanned(r, id, s);
    if n > 0 {
      CleaningIsExact(r, id, s, n - 1);
      ManyRemovals(r, id, s, n - 1);
      var before := RemoveMany(PlanOf(r, s).rows, s, n - 1);
      var name := NextTakesOne(r, id, before);
      TakingOneMore(s, before, RemoveMany(PlanOf(r, s).rows, s, n), PlanOf(r, s), name);
    }
  }

  // What remains is the files that are there, and the directory.
  lemma RemainingCounts(r: Readers, id: Identity, s: Store)
    requires Verifies(r, id, s)
    ensures Remaining(PlanOf(r, s).rows, s) == |s.files| + if s.directory then 1 else 0
  {
    var rows := PlanOf(r, s).rows;
    var n := Remaining(rows, s);
    ThirteenRemovalsSuffice(r, id, s);
    CleaningIsExact(r, id, s, n);
    hide Verifies, Remaining, RemoveMany;
  }

  /** Committing. */

  // The commit names the retirement and binds the plan and the decision as they stand.
  ghost predicate IsCommitFor(id: Identity, barriers: map<Barrier, Bytes>, decision: Decision, t: Terminal) {
    && PlanFile in barriers && DecisionFile in barriers
    && t == Terminal(TerminalCommittedBarred, id.operationId, id.stageId, id.installationId, id.dataId, id.generation,
                     Sha256(barriers[PlanFile]), Sha256(barriers[DecisionFile]), decision.completion, decision.marker,
                     decision.registration, decision.discovery, decision.child)
  }

  ghost predicate IsBare(s: Store) {
    s.files == map[] && !s.directory
  }

  lemma NothingRemains(r: Readers, id: Identity, s: Store)
    requires Verifies(r, id, s)
    ensures Remaining(PlanOf(r, s).rows, s) == 0 <==> IsBare(s)
  {
    RemainingCounts(r, id, s);
    hide Verifies, Remaining;
    assert |s.files| == 0 <==> s.files == map[];
  }

  /** A commit is written, whole or torn, exactly over a verified store that is bare and has none. */
  lemma CommittingIsExact(r: Readers, id: Identity, s: Store, stored: Option<nat>, plan: Plan, decision: Decision, t: Terminal)
    requires IsDecided(r, id, s.barriers, plan, decision) && IsCommitFor(id, s.barriers, decision, t)
    ensures var text := r.pair.terminal(t);
      Committed(r, id, s, stored)
        == if OnlyPlanned(s, plan) && IsBare(s) && |text| <= 4096 && s.terminal.None? then
             s.(terminal := Some(if stored.Some? && stored.value <= |text| then text[..stored.value] else text))
           else s
  {
    VerifiesExact(r, id, s);
    DecidedExact(r, id, s.barriers);
    assert MayGoOn(r, id, s, plan, decision) <==> OnlyPlanned(s, plan);
    hide OnlyPlanned, IsPlan, Remaining;
    if Verifies(r, id, s) {
      NothingRemains(r, id, s);
      var q, e :| MayGoOn(r, id, s, q, e);
      assert q == plan;
    }
    hide Verifies, Authorised;
  }

  lemma NothingCommitted(r: Readers, id: Identity, s: Store, stored: Option<nat>)
    requires !exists plan, decision :: IsDecided(r, id, s.barriers, plan, decision)
    ensures Committed(r, id, s, stored) == s
  {
    VerifiesExact(r, id, s);
    hide Verifies, IsDecided;
  }

  /** Clearing. */

  // A barrier is as the commit has it; once there is a witness it may be gone.
  ghost predicate BarrierStands(s: Store, b: Barrier, sha: Digest) {
    if b in s.barriers then Sha256(s.barriers[b]) == sha else s.cleared.Some?
  }

  // The commit is whole, canonical and of this retirement, its witness is its own, and nothing is left of the activation.
  ghost predicate MayClear(r: Readers, id: Identity, s: Store, t: Terminal) {
    && s.terminal.Some? && |s.terminal.value| <= 4096
    && r.pair.parseTerminal(s.terminal.value) == Some(t) && r.pair.terminal(t) == s.terminal.value
    && t.state == TerminalCommittedBarred && t.operationId == id.operationId && t.stageId == id.stageId
    && t.installationId == id.installationId && t.dataId == id.dataId && t.generation == id.generation
    && (s.cleared.Some? ==>
          s.cleared.value == r.pair.cleared(Witness(t.(state := BarriersClearedAdmissionBarred), Sha256(s.terminal.value))))
    && BarrierStands(s, MarkerFile, t.marker) && BarrierStands(s, PlanFile, t.plan)
    && BarrierStands(s, DecisionFile, t.decision)
    && !s.foreign && IsBare(s)
  }

  lemma ClearanceExact(r: Readers, id: Identity, s: Store, t: Terminal)
    ensures Clearance(r, id, s) == Some(t) <==> MayClear(r, id, s, t)
  {
  }

  /** The witness is written only where the whole chain of evidence still stands and the commit is the one it gives. */
  lemma WitnessingIsExact(r: Readers, id: Identity, s: Store, t: Terminal)
    ensures MayWitness(r, id, s, t)
      <==> IsBare(s) && exists plan, decision :: MayGoOn(r, id, s, plan, decision) && IsCommitFor(id, s.barriers, decision, t)
  {
    VerifiesExact(r, id, s);
    hide OnlyPlanned, IsPlan, Remaining;
    if Verifies(r, id, s) {
      NothingRemains(r, id, s);
      var plan, decision :| MayGoOn(r, id, s, plan, decision);
      assert r.parseDecision(s.barriers[DecisionFile]).value == decision;
    }
    hide Verifies;
  }

  function PlaceOf(b: Barrier): nat {
    match b
    case DecisionFile => 0
    case PlanFile => 1
    case MarkerFile => 2
  }

  // How many of the barriers from that place on that go before this one are there.
  function GoingBefore(barriers: map<Barrier, Bytes>, first: nat, b: Barrier): nat {
    (if first <= 0 < PlaceOf(b) && DecisionFile in barriers then 1 else 0)
    + if first <= 1 < PlaceOf(b) && PlanFile in barriers then 1 else 0
  }

  // The process removes the decision, then the plan, then the marker, as far as it lives, from that place on.
  ghost predicate BarriersGo(before: Store, after: Store, life: nat, first: nat := 0) {
    && after == before.(barriers := after.barriers)
    && forall b ::
         && (b in after.barriers
             <==> b in before.barriers && (PlaceOf(b) < first || life <= GoingBefore(before.barriers, first, b)))
         && (b in after.barriers ==> after.barriers[b] == before.barriers[b])
  }

  lemma {:induction false} DropsFrom(s: Store, k: nat, life: nat)
    requires k <= 3
    ensures BarriersGo(s, Dropped(s, ORDER[k..], life), life, k)
    decreases 3 - k
  {
    hide BarriersGo;
    if k == 3 {
      DroppedAll(s, life);
      NoneGoes(s, life);
    } else {
      DroppedFrom(s, k, life);
      hide Dropped;
      if ORDER[k] !in s.barriers {
        DropsFrom(s, k + 1, life);
        AbsentGoes(s, Dropped(s, ORDER[k + 1..], life), life, k);
      } else if life == 0 {
        DeadDropsNothing(s, k);
      } else {
        var less := s.(barriers := s.barriers - {ORDER[k]});
        DropsFrom(less, k + 1, life - 1);
        PresentGoes(s, Dropped(less, ORDER[k + 1..], life - 1), life, k);
      }
    }
  }

  lemma NoneGoes(s: Store, life: nat)
    ensures BarriersGo(s, s, life, 3)
  {
  }

  lemma DeadDropsNothing(s: Store, k: nat)
    requires k < 3
    ensures BarriersGo(s, s, 0, k)
  {
  }

  lemma AbsentGoes(s: Store, after: Store, life: nat, k: nat)
    requires k < 3 && ORDER[k] !in s.barriers && BarriersGo(s, after, life, k + 1)
    ensures BarriersGo(s, after, life, k)
  {
    assert ORDER[0] == DecisionFile && ORDER[1] == PlanFile && ORDER[2] == MarkerFile;
  }

  lemma PresentGoes(s: Store, after: Store, life: nat, k: nat)
    requires k < 3 && ORDER[k] in s.barriers && life > 0
    requires BarriersGo(s.(barriers := s.barriers - {ORDER[k]}), after, life - 1, k + 1)
    ensures BarriersGo(s, after, life, k)
  {
    assert ORDER[0] == DecisionFile && ORDER[1] == PlanFile && ORDER[2] == MarkerFile;
  }

  lemma DroppingIsExact(s: Store, life: nat)
    ensures BarriersGo(s, Dropped(s, ORDER, life), life)
  {
    assert ORDER[0..] == ORDER;
    DropsFrom(s, 0, life);
    hide Dropped, BarriersGo;
  }

  /** Clearing leaves the store as it was, or with a witness, whole or torn, or with the witness and without the barriers that
      went behind it. */
  lemma ClearingIsExact(r: Readers, id: Identity, s: Store, stored: Option<nat>, life: nat, t: Terminal)
    requires MayClear(r, id, s, t)
    ensures var after := ClearedBarriers(r, id, s, stored, life);
      var text := r.pair.cleared(Witness(t.(state := BarriersClearedAdmissionBarred), Sha256(s.terminal.value)));
      if s.cleared.Some? then BarriersGo(s, after, life)
      else if !MayWitness(r, id, s, t) then after == s
      else if stored.Some? then
        after == s.(cleared := Some(if stored.value <= |text| then text[..stored.value] else text))
      else BarriersGo(s.(cleared := Some(text)), after, life)
  {
    ClearanceExact(r, id, s, t);
    var text := r.pair.cleared(Witness(t.(state := BarriersClearedAdmissionBarred), Sha256(s.terminal.value)));
    DroppingIsExact(s, life);
    DroppingIsExact(s.(cleared := Some(text)), life);
    hide Dropped, MayWitness, BarriersGo, Clearance, MayClear;
  }

  lemma NothingCleared(r: Readers, id: Identity, s: Store, stored: Option<nat>, life: nat)
    requires !exists t :: MayClear(r, id, s, t)
    ensures ClearedBarriers(r, id, s, stored, life) == s
  {
    var t := Clearance(r, id, s);
    if t.Some? {
      ClearanceExact(r, id, s, t.value);
    }
  }
}
