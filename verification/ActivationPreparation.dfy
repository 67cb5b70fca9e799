/**
Preparing an activation (src/desktop-activation-preparation.js) on a disk that may lose the process at any step.
An intent row is committed before anything else is written and cleared after everything is; recovery reads the
row and either finds every file complete or removes the prefixes it knows.
*/
module ActivationPreparation {
  import opened Evidence
  import opened Wrappers

  // The serialised forms that preparation writes; only that they are functions of their arguments matters. stage: the
  // staging operation that a candidate's evidence names, if it reads as evidence.
  datatype Formats = Formats(preparedPhase: (string, Digest) -> Bytes, marker: (string, Digest) -> Bytes,
                             stage: Bytes -> Option<string>)

  datatype Path = Candidate | Before | JournalFile | Marker | Child

  datatype Intent = Intent(operationId: string, stageId: string, candidate: Bytes, before: Option<Bytes>,
                           journal: Bytes, marker: Bytes)

  // What a process that is gone leaves behind. strange says that the operation directory holds any other entry.
  datatype Disk = Disk(files: map<Path, Bytes>, directory: bool, strange: bool, row: Option<Intent>,
                       registration: Option<Bytes>)

  datatype Outcome = Prepared | Unpublished | Absent | Refused

  /** Plans. */

  function PlanFor(f: Formats, id: string, stageId: string, candidate: Bytes, before: Option<Bytes>): Intent {
    var journal := f.preparedPhase(id, Sha256(candidate));
    Intent(id, stageId, candidate, before, journal, f.marker(id, Sha256(journal)))
  }

  // A stored plan is accepted only if its journal and marker are the ones its candidate determines.
  predicate ParsesAs(f: Formats, i: Intent) {
    && i.journal == f.preparedPhase(i.operationId, Sha256(i.candidate))
    && i.marker == f.marker(i.operationId, Sha256(i.journal))
  }

  /** The files of a plan. */

  function Expected(i: Intent, p: Path): Option<Bytes> {
    match p
    case Candidate => Some(i.candidate)
    case Before => i.before
    case JournalFile => Some(i.journal)
    case Marker => Some(i.marker)
    case Child => None
  }

  function Observed(d: Disk, p: Path): Option<Bytes> {
    if p in d.files then Some(d.files[p]) else None
  }

  predicate IsPrefix(a: Bytes, b: Bytes) {
    |a| <= |b| && b[..|a|] == a
  }

  // Absent, or some of the bytes that were meant to be there.
  predicate KnownPrefix(d: Disk, i: Intent, p: Path) {
    p in d.files ==> Expected(i, p).Some? && IsPrefix(d.files[p], Expected(i, p).value)
  }

  const PLANNED: seq<Path> := [Candidate, Before, JournalFile, Marker]

  predicate AllKnown(d: Disk, i: Intent) {
    forall p <- PLANNED :: KnownPrefix(d, i, p)
  }

  predicate AllComplete(d: Disk, i: Intent) {
    forall p <- PLANNED :: Expected(i, p).Some? ==> Observed(d, p) == Expected(i, p)
  }

  /** The two ends of a preparation. A file of a child process is no part of it and stays where it was. */

  ghost predicate PreparedEnd(d: Disk, i: Intent) {
    && d.row.None? && d.directory && !d.strange
    && (forall p :: p != Child ==> Observed(d, p) == Expected(i, p))
  }

  ghost predicate ClearedEnd(d: Disk) {
    d.row.None? && !d.directory && forall p <- d.files :: p == Child
  }

  // What a crash of preparation or of its recovery can leave while the row is there.
  ghost predicate Pending(d: Disk, i: Intent) {
    && d.row == Some(i)
    && !d.strange && AllKnown(d, i)
    && (JournalFile in d.files ==> d.directory)
    && d.registration == i.before
  }

  /** Durable steps. */

  datatype Step =
    | WriteRow(intent: Intent)
    | MakeDirectory
    | Write(path: Path, bytes: Bytes)
    | Unlink(path: Path)
    | RemoveDirectory
    | ClearRow

  function Perform(d: Disk, s: Step): Disk {
    match s
    case WriteRow(i) => d.(row := Some(i))
    case MakeDirectory => d.(directory := true)
    case Write(p, bytes) => d.(files := d.files[p := bytes])
    case Unlink(p) => d.(files := d.files - {p})
    case RemoveDirectory => d.(directory := false)
    case ClearRow => d.(row := None)
  }

  // The step the process dies in: a write may have stored any prefix, any other step nothing.
  function Torn(d: Disk, s: Step, stored: Option<nat>): Disk {
    if s.Write? && stored.Some? && stored.value <= |s.bytes| then
      d.(files := d.files[s.path := s.bytes[..stored.value]])
    else d
  }

  // The process lives through `life` steps and dies in the next one.
  datatype Fate = Fate(life: nat, stored: Option<nat>)

  function Execute(d: Disk, steps: seq<Step>, fate: Fate): Disk
    decreases |steps|
  {
    if steps == [] then d
    else if fate.life == 0 then Torn(d, steps[0], fate.stored)
    else Execute(Perform(d, steps[0]), steps[1..], fate.(life := fate.life - 1))
  }

  /** What preparation and recovery do. */

  // The row is cleared only once everything that was written verifies.
  function PrepareSteps(i: Intent, verifies: bool): seq<Step> {
    [WriteRow(i), MakeDirectory]
    + (if i.before.Some? then [Write(Before, i.before.value)] else [])
    + [Write(Candidate, i.candidate), Write(JournalFile, i.journal), Write(Marker, i.marker)]
    + Clearing(verifies)
  }

  function Clearing(verifies: bool): seq<Step> {
    if verifies then [ClearRow] else []
  }

  function UnlinkSteps(d: Disk, paths: seq<Path>): seq<Step> {
    if paths == [] then []
    else (if paths[0] in d.files then [Unlink(paths[0])] else []) + UnlinkSteps(d, paths[1..])
  }

  const REVERSED: seq<Path> := [Marker, JournalFile, Before, Candidate]

  lemma UnlinkFrom(d: Disk, k: nat, tail: seq<Step>)
    requires k < |REVERSED|
    ensures UnlinkSteps(d, REVERSED[k..]) + tail
      == (if REVERSED[k] in d.files then [Unlink(REVERSED[k])] else []) + (UnlinkSteps(d, REVERSED[k + 1..]) + tail)
  {
    assert REVERSED[k..][1..] == REVERSED[k + 1..] && REVERSED[k..][0] == REVERSED[k];
  }

  lemma NothingToUnlink(d: Disk, k: nat, tail: seq<Step>)
    requires k == |REVERSED|
    ensures UnlinkSteps(d, REVERSED[k..]) + tail == tail
  {
  }

  // Recovery refuses foreign evidence, clears the row of a complete preparation, or takes back what it knows.
  function RecoverySteps(f: Formats, d: Disk, i: Intent, verifies: bool): (Outcome, seq<Step>) {
    if !ParsesAs(f, i) || Child in d.files || d.registration != i.before || !AllKnown(d, i) || d.strange then (Refused, [])
    else if AllComplete(d, i) then
      if verifies then (Prepared, [ClearRow]) else (Refused, [])
    else (Unpublished, UnlinkSteps(d, REVERSED) + (if d.directory then [RemoveDirectory] else []) + [ClearRow])
  }

  // Without a row the files speak for themselves: nothing there, or the plan that they make and nothing but it.
  function PlanFound(f: Formats, d: Disk, id: string): Option<Intent> {
    if Marker !in d.files || Candidate !in d.files || JournalFile !in d.files || f.stage(d.files[Candidate]).None? then None
    else
      Some(Intent(id, f.stage(d.files[Candidate]).value, d.files[Candidate], Observed(d, Before),
                  f.preparedPhase(id, Sha256(d.files[Candidate])), d.files[Marker]))
  }

  function OutcomeWithoutRow(f: Formats, d: Disk, id: string, verifies: bool): Outcome {
    if Marker !in d.files && Candidate !in d.files && Before !in d.files && !d.directory then Absent
    else
      var found := PlanFound(f, d, id);
      if found.None? || !ParsesAs(f, found.value) || d.registration != found.value.before || !AllKnown(d, found.value)
        || d.strange || !AllComplete(d, found.value) || !verifies
      then Refused
      else Prepared
  }

  /** What recovery may do, path by path. */

  // What is at the path, if anything, is a beginning of what was planned for it.
  ghost predicate IsPart(d: Disk, p: Path, planned: Option<Bytes>) {
    p in d.files ==> planned.Some? && d.files[p] <= planned.value
  }

  // Evidence that the plan does not account for, or a plan that its candidate does not determine.
  ghost predicate Foreign(f: Formats, d: Disk, i: Intent) {
    || i.journal != f.preparedPhase(i.operationId, Sha256(i.candidate))
    || i.marker != f.marker(i.operationId, Sha256(i.journal))
    || Child in d.files || d.strange || d.registration != i.before
    || !IsPart(d, Candidate, Some(i.candidate)) || !IsPart(d, Before, i.before)
    || !IsPart(d, JournalFile, Some(i.journal)) || !IsPart(d, Marker, Some(i.marker))
  }

  ghost predicate Whole(d: Disk, i: Intent) {
    && Candidate in d.files && d.files[Candidate] == i.candidate
    && (i.before.Some? ==> Before in d.files && d.files[Before] == i.before.value)
    && JournalFile in d.files && d.files[JournalFile] == i.journal
    && Marker in d.files && d.files[Marker] == i.marker
  }

  // Foreign evidence is refused and stays. Otherwise what is whole and verifies is prepared, and what is not whole goes: only
  // beginnings of what was planned.
  ghost predicate Recovered(f: Formats, before: Disk, after: Disk, i: Intent, verifies: bool, outcome: Outcome) {
    && outcome == (if Foreign(f, before, i) then Refused
                   else if !Whole(before, i) then Unpublished
                   else if verifies then Prepared else Refused)
    && (outcome == Refused ==> after == before)
    && (outcome == Prepared ==> after.files == before.files && after.directory == before.directory)
    && after.registration == before.registration && after.strange == before.strange
    && (after.row == before.row || after.row.None?)
    && (forall p <- after.files :: p in before.files && after.files[p] == before.files[p])
    && (forall p <- before.files :: p !in after.files ==>
          match p
          case Candidate => before.files[p] <= i.candidate
          case Before => i.before.Some? && before.files[p] <= i.before.value
          case JournalFile => before.files[p] <= i.journal
          case Marker => before.files[p] <= i.marker
          case Child => false)
  }

  // Where there is no row: what the candidate at its path determines is there, and nothing else.
  ghost predicate SpeaksForItself(f: Formats, d: Disk, id: string) {
    && Candidate in d.files && JournalFile in d.files && Marker in d.files && !d.strange
    && f.stage(d.files[Candidate]).Some?
    && d.files[JournalFile] == f.preparedPhase(id, Sha256(d.files[Candidate]))
    && d.files[Marker] == f.marker(id, Sha256(d.files[JournalFile]))
    && d.registration == if Before in d.files then Some(d.files[Before]) else None
  }

  // Every step takes something away, and nothing of a child process.
  predicate TakesAway(steps: seq<Step>) {
    forall k :: 0 <= k < |steps| ==>
      (steps[k].Unlink? && steps[k].path != Child) || steps[k].RemoveDirectory? || steps[k].ClearRow?
  }

  lemma {:induction false} TakingAway(d: Disk, steps: seq<Step>, fate: Fate)
    requires TakesAway(steps)
    ensures var left := Execute(d, steps, fate);
      && left.registration == d.registration && left.strange == d.strange
      && (left.row == d.row || left.row.None?)
      && forall p <- left.files :: p in d.files && left.files[p] == d.files[p]
    decreases |steps|
  {
    if steps != [] && fate.life > 0 {
      var rest := steps[1..];
      assert forall k :: 0 <= k < |rest| ==> rest[k] == steps[k + 1];
      TakingAway(Perform(d, steps[0]), rest, fate.(life := fate.life - 1));
    }
  }

  lemma {:induction false} UnlinksTakeAway(d: Disk, paths: seq<Path>)
    requires Child !in paths
    ensures TakesAway(UnlinkSteps(d, paths))
  {
    if paths != [] {
      UnlinksTakeAway(d, paths[1..]);
    }
  }

  lemma PlannedPaths()
    ensures PLANNED[0] == Candidate && PLANNED[1] == Before && PLANNED[2] == JournalFile && PLANNED[3] == Marker
    ensures Child !in REVERSED
  {
  }

  lemma KnownIsPart(d: Disk, i: Intent, p: Path)
    ensures KnownPrefix(d, i, p) <==> IsPart(d, p, Expected(i, p))
  {
    if p in d.files && Expected(i, p).Some? {
      var a, b := d.files[p], Expected(i, p).value;
      assert a <= b <==> |a| <= |b| && b[..|a|] == a;
    }
  }

  lemma KnownExact(f: Formats, d: Disk, i: Intent)
    ensures Foreign(f, d, i)
      <==> !ParsesAs(f, i) || Child in d.files || d.registration != i.before || !AllKnown(d, i) || d.strange
    ensures Whole(d, i) <==> AllComplete(d, i)
  {
    PlannedPaths();
    KnownIsPart(d, i, Candidate);
    KnownIsPart(d, i, Before);
    KnownIsPart(d, i, JournalFile);
    KnownIsPart(d, i, Marker);
    hide KnownPrefix, IsPart;
    assert forall p <- PLANNED :: p == Candidate || p == Before || p == JournalFile || p == Marker;
    assert Candidate in PLANNED && Before in PLANNED && JournalFile in PLANNED && Marker in PLANNED;
  }

  /** Recovery does what was said, wherever its process dies. */
  lemma RecoveryIsExact(f: Formats, d: Disk, i: Intent, verifies: bool, fate: Fate)
    ensures var (outcome, steps) := RecoverySteps(f, d, i, verifies);
      Recovered(f, d, Execute(d, steps, fate), i, verifies, outcome)
  {
    KnownExact(f, d, i);
    var (outcome, steps) := RecoverySteps(f, d, i, verifies);
    hide ParsesAs, AllKnown, AllComplete, UnlinkSteps, Execute, Whole;
    PlannedPaths();
    UnlinksTakeAway(d, REVERSED);
    TakingAway(d, steps, fate);
    match outcome {
      case Refused => NothingDone(d, fate);
      case Prepared => ClearingLeavesFiles(d, fate);
      case _ =>
    }
  }

  lemma NothingDone(d: Disk, fate: Fate)
    ensures Execute(d, [], fate) == d
  {
  }

  lemma ClearingLeavesFiles(d: Disk, fate: Fate)
    ensures Execute(d, [ClearRow], fate) == d || Execute(d, [ClearRow], fate) == d.(row := None)
  {
    if fate.life > 0 {
      NothingDone(d.(row := None), fate.(life := fate.life - 1));
    }
  }

  lemma OutcomeWithoutRowIsExact(f: Formats, d: Disk, id: string, verifies: bool)
    ensures OutcomeWithoutRow(f, d, id, verifies)
      == if Candidate !in d.files && Before !in d.files && Marker !in d.files && !d.directory then Absent
         else if SpeaksForItself(f, d, id) && verifies then Prepared
         else Refused
  {
    var found := PlanFound(f, d, id);
    if found.Some? {
      KnownExact(f, d, found.value);
      hide AllKnown, AllComplete;
    }
  }

  // A fresh preparation starts only where nothing of it exists yet.
  predicate NothingThere(d: Disk) {
    && Marker !in d.files && Candidate !in d.files && Before !in d.files && JournalFile !in d.files
    && !d.directory && !d.strange
  }

  /** The store as the code drives it. */

  class PreparationStore {
    var disk: Disk
    // How long the running process still lives, and what its last write will have stored.
    var life: nat
    var stored: Option<nat>
    var dead: bool

    constructor (disk: Disk, fate: Fate)
      ensures this.disk == disk && life == fate.life && stored == fate.stored && !dead
    {
      this.disk := disk;
      life, stored, dead := fate.life, fate.stored, false;
    }

    // Where the run stands when the steps that are left would take it to `target`.
    ghost predicate OnCourse(rest: seq<Step>, target: Disk)
      reads this
    {
      if dead then disk == target else Execute(disk, rest, Fate(life, stored)) == target
    }

    // One durable step of a process that may die in it; a dead process does nothing more.
    method Durable(s: Step, ghost rest: seq<Step>, ghost target: Disk)
      requires OnCourse([s] + rest, target)
      modifies this
      ensures OnCourse(rest, target)
      ensures old(dead) ==> dead
      ensures !dead ==> disk == Perform(old(disk), s)
    {
      assert ([s] + rest)[1..] == rest;
      if dead {
        return;
      }
      if life == 0 {
        disk := Torn(disk, s, stored);
        dead := true;
      } else {
        disk := Perform(disk, s);
        life := life - 1;
      }
    }

    // Compares every planned file with what is there.
    method ObservedFiles(intent: Intent) returns (known: bool, complete: bool)
      ensures known <==> AllKnown(disk, intent)
      ensures complete <==> AllComplete(disk, intent)
    {
      known, complete := true, true;
      var k := 0;
      while k < |PLANNED|
        invariant k <= |PLANNED|
        invariant known <==> forall i :: 0 <= i < k ==> KnownPrefix(disk, intent, PLANNED[i])
        invariant complete <==> forall i :: 0 <= i < k ==>
          (Expected(intent, PLANNED[i]).Some? ==> Observed(disk, PLANNED[i]) == Expected(intent, PLANNED[i]))
      {
        var path := PLANNED[k];
        if !KnownPrefix(disk, intent, path) {
          known := false;
        }
        if Expected(intent, path).Some? && Observed(disk, path) != Expected(intent, path) {
          complete := false;
        }
        k := k + 1;
      }
    }

    method RemoveKnown(ghost tail: seq<Step>, ghost target: Disk)
      requires !dead && OnCourse(UnlinkSteps(disk, REVERSED) + tail, target)
      modifies this
      ensures OnCourse(tail, target)
      ensures !dead ==> disk.directory == old(disk).directory
    {
      hide Execute, UnlinkSteps;
      ghost var before := disk;
      var k := 0;
      assert REVERSED[0..] == REVERSED;
      while k < |REVERSED|
        invariant k <= |REVERSED|
        invariant !dead ==> disk.directory == before.directory
        invariant !dead ==> forall i :: k <= i < |REVERSED| ==> (REVERSED[i] in disk.files <==> REVERSED[i] in before.files)
        invariant OnCourse(UnlinkSteps(before, REVERSED[k..]) + tail, target)
      {
        ghost var rest := UnlinkSteps(before, REVERSED[k + 1..]) + tail;
        UnlinkFrom(before, k, tail);
        ghost var nothing: seq<Step> := [];
        assert nothing + rest == rest;
        if !dead && REVERSED[k] in disk.files {
          Durable(Unlink(REVERSED[k]), rest, target);
        }
        k := k + 1;
      }
      NothingToUnlink(before, k, tail);
    }

    method RecoverRow(f: Formats, intent: Intent, verifies: bool) returns (outcome: Outcome)
      requires !dead
      modifies this
      ensures Recovered(f, old(disk), disk, intent, verifies, outcome)
      ensures outcome == RecoverySteps(f, old(disk), intent, verifies).0
      ensures disk == Execute(old(disk), RecoverySteps(f, old(disk), intent, verifies).1, Fate(old(life), old(stored)))
    {
      RecoveryIsExact(f, disk, intent, verifies, Fate(life, stored));
      hide Recovered;
      if !ParsesAs(f, intent) || Child in disk.files || disk.registration != intent.before {
        return Refused;
      }
      var known, complete := ObservedFiles(intent);
      if !known || disk.strange {
        return Refused;
      }
      ghost var steps := RecoverySteps(f, disk, intent, verifies).1;
      ghost var target := Execute(disk, steps, Fate(life, stored));
      hide AllKnown, AllComplete, ParsesAs, Execute;
      if complete {
        if !verifies {
          return Refused;
        }
        assert steps == [ClearRow] + [];
        Durable(ClearRow, [], target);
        EndOfCourse(target);
        return Prepared;
      }
      ghost var last: seq<Step> := [ClearRow];
      ghost var tail := (if disk.directory then [RemoveDirectory] else []) + last;
      assert steps == UnlinkSteps(disk, REVERSED) + tail;
      RemoveKnown(tail, target);
      if !dead && disk.directory {
        Durable(RemoveDirectory, last, target);
      } else {
        assert !dead ==> tail == last;
      }
      assert OnCourse([ClearRow] + [], target);
      Durable(ClearRow, [], target);
      EndOfCourse(target);
      return Unpublished;
    }

    lemma EndOfCourse(target: Disk)
      requires OnCourse([], target)
      ensures disk == target
    {
    }

    method WritePrepared(i: Intent, verifies: bool)
      requires !dead
      modifies this
      ensures disk == Execute(old(disk), PrepareSteps(i, verifies), Fate(old(life), old(stored)))
    {
      ghost var target := Execute(disk, PrepareSteps(i, verifies), Fate(life, stored));
      hide Execute;
      ghost var s4 := Clearing(verifies);
      ghost var s3 := [Write(Marker, i.marker)] + s4;
      ghost var s2 := [Write(JournalFile, i.journal)] + s3;
      ghost var s1 := [Write(Candidate, i.candidate)] + s2;
      ghost var s0 := (if i.before.Some? then [Write(Before, i.before.value)] else []) + s1;
      assert PrepareSteps(i, verifies) == [WriteRow(i)] + ([MakeDirectory] + s0);
      Durable(WriteRow(i), [MakeDirectory] + s0, target);
      Durable(MakeDirectory, s0, target);
      if i.before.Some? {
        Durable(Write(Before, i.before.value), s1, target);
      } else {
        assert s0 == s1;
      }
      Durable(Write(Candidate, i.candidate), s2, target);
      Durable(Write(JournalFile, i.journal), s3, target);
      Durable(Write(Marker, i.marker), s4, target);
      if verifies {
        assert s4 == [ClearRow] + [];
        Durable(ClearRow, [], target);
      }
      EndOfCourse(target);
    }

    method RecoverPreparation(f: Formats, id: string, verifies: bool) returns (outcome: Outcome)
      requires !dead
      modifies this
      ensures old(disk).row.Some? && old(disk).row.value.operationId != id ==> outcome == Refused && disk == old(disk)
      ensures old(disk).row.Some? && old(disk).row.value.operationId == id ==>
        && Recovered(f, old(disk), disk, old(disk).row.value, verifies, outcome)
        && outcome == RecoverySteps(f, old(disk), old(disk).row.value, verifies).0
        && disk == Execute(old(disk), RecoverySteps(f, old(disk), old(disk).row.value, verifies).1,
                           Fate(old(life), old(stored)))
      ensures old(disk).row.None? ==> outcome == OutcomeWithoutRow(f, old(disk), id, verifies) && disk == old(disk)
      ensures var d := old(disk);
        d.row.None? ==>
          outcome == (if Candidate !in d.files && Before !in d.files && Marker !in d.files && !d.directory then Absent
                      else if SpeaksForItself(f, d, id) && verifies then Prepared
                      else Refused)
    {
      OutcomeWithoutRowIsExact(f, disk, id, verifies);
      hide Recovered, SpeaksForItself;
      if disk.row.Some? {
        if disk.row.value.operationId != id {
          return Refused;
        }
        outcome := RecoverRow(f, disk.row.value, verifies);
        return;
      }
      if Marker !in disk.files && Candidate !in disk.files && Before !in disk.files && !disk.directory {
        return Absent;
      }
      var found := PlanFound(f, disk, id);
      if found.None? || !ParsesAs(f, found.value) || disk.registration != found.value.before || disk.strange {
        return Refused;
      }
      var known, complete := ObservedFiles(found.value);
      return if known && complete && verifies then Prepared else Refused;
    }

    method PrepareOwned(f: Formats, id: string, stageId: string, candidate: Bytes, verifies: bool) returns (outcome: Outcome)
      requires !dead
      modifies this
      ensures old(disk).row.Some? && (old(disk).row.value.operationId, old(disk).row.value.stageId) != (id, stageId) ==>
        outcome == Refused && disk == old(disk)
      ensures old(disk).row.Some? && (old(disk).row.value.operationId, old(disk).row.value.stageId) == (id, stageId) ==>
        && Recovered(f, old(disk), disk, old(disk).row.value, verifies, outcome)
        && outcome == RecoverySteps(f, old(disk), old(disk).row.value, verifies).0
        && disk == Execute(old(disk), RecoverySteps(f, old(disk), old(disk).row.value, verifies).1,
                           Fate(old(life), old(stored)))
      ensures var d := old(disk);
        NothingThere(d) <==> !d.directory && !d.strange && forall p <- d.files :: p == Child
      ensures old(disk).row.None? && !NothingThere(old(disk)) ==> outcome == Refused && disk == old(disk)
      ensures old(disk).row.None? && NothingThere(old(disk)) ==>
        && outcome == (if verifies then Prepared else Refused)
        && disk == Execute(old(disk), PrepareSteps(PlanFor(f, id, stageId, candidate, old(disk).registration), verifies),
                           Fate(old(life), old(stored)))
    {
      hide Recovered;
      if disk.row.Some? {
        var intent := disk.row.value;
        if intent.operationId != id || intent.stageId != stageId {
          return Refused;
        }
        outcome := RecoverRow(f, intent, verifies);
        return;
      }
      if !NothingThere(disk) {
        return Refused;
      }
      WritePrepared(PlanFor(f, id, stageId, candidate, disk.registration), verifies);
      return if verifies then Prepared else Refused;
    }
  }
}
