/** Whatever step of preparation or recovery the process dies in, recovery can be run again and ends one of two ways. */
module ActivationCrash {
  import opened ActivationPreparation
  import opened Evidence
  import opened Wrappers

  /** One more step. */

  lemma ExecuteStep(d: Disk, s: Step, rest: seq<Step>, fate: Fate)
    ensures Execute(d, [s] + rest, fate)
      == if fate.life == 0 then Torn(d, s, fate.stored) else Execute(Perform(d, s), rest, fate.(life := fate.life - 1))
  {
    assert ([s] + rest)[1..] == rest;
  }

  // The row stands through every step that only adds planned prefixes or only takes files away.
  lemma PendingStaysPending(d: Disk, i: Intent, s: Step, stored: Option<nat>)
    requires Pending(d, i)
    requires s.MakeDirectory?
      || (s.Write? && Expected(i, s.path) == Some(s.bytes) && (s.path.JournalFile? ==> d.directory))
      || s.Unlink?
      || (s.RemoveDirectory? && JournalFile !in d.files)
    ensures Pending(Perform(d, s), i) && Pending(Torn(d, s, stored), i)
  {
    hide IsPrefix;
    if s.Write? {
      PrefixOfItself(s.bytes);
      if stored.Some? && stored.value <= |s.bytes| {
        PrefixIsPrefix(s.bytes, stored.value);
      }
    }
  }

  lemma PrefixOfItself(b: Bytes)
    ensures IsPrefix(b, b)
  {
  }

  lemma PrefixIsPrefix(b: Bytes, n: nat)
    requires n <= |b|
    ensures IsPrefix(b[..n], b)
  {
  }

  /** Preparation. */

  // Nothing of the operation exists, and no row; a file of a child process may stand.
  ghost predicate Clean(d: Disk) {
    d.row.None? && NothingThere(d)
  }

  // The process is lost, or fails to verify, between writing the row and clearing it.
  predicate LostInside(i: Intent, verifies: bool, fate: Fate) {
    0 < fate.life && !(verifies && fate.life >= |PrepareSteps(i, verifies)|)
  }

  /** Once the row is written, a death leaves the row pending and life to the end leaves a complete preparation. */
  lemma PrepareWritesLeave(f: Formats, d: Disk, i: Intent, verifies: bool, fate: Fate)
    requires Clean(d) && d.registration == i.before
    ensures var left := Execute(d, PrepareSteps(i, verifies), fate);
      && (fate.life == 0 ==> left == d)
      && (LostInside(i, verifies, fate) ==> Pending(left, i))
      && (fate.life > 0 && !LostInside(i, verifies, fate) ==> PreparedEnd(left, i))
  {
    var s3 := [Write(Marker, i.marker)] + Clearing(verifies);
    var s2 := [Write(JournalFile, i.journal)] + s3;
    var s1 := [Write(Candidate, i.candidate)] + s2;
    var before: seq<Step> := if i.before.Some? then [Write(Before, i.before.value)] else [];
    var s0 := before + s1;
    assert PrepareSteps(i, verifies) == [WriteRow(i)] + ([MakeDirectory] + s0);
    ExecuteStep(d, WriteRow(i), [MakeDirectory] + s0, fate);
    var d1 := Perform(d, WriteRow(i));
    assert Pending(d1, i);
    if fate.life > 0 {
      var f1 := fate.(life := fate.life - 1);
      ExecuteStep(d1, MakeDirectory, s0, f1);
      PendingStaysPending(d1, i, MakeDirectory, fate.stored);
      if f1.life > 0 {
        var d2 := Perform(d1, MakeDirectory);
        hide Pending, PreparedEnd;
        WritesLeave(d2, i, verifies, f1.(life := f1.life - 1));
      }
    }
  }

  // The writes, from the directory on.
  lemma WritesLeave(d: Disk, i: Intent, verifies: bool, fate: Fate)
    requires Pending(d, i) && d.directory && forall p <- d.files :: p == Child
    ensures var before: seq<Step> := if i.before.Some? then [Write(Before, i.before.value)] else [];
      var steps := before + ([Write(Candidate, i.candidate)] + ([Write(JournalFile, i.journal)]
                   + ([Write(Marker, i.marker)] + Clearing(verifies))));
      var left := Execute(d, steps, fate);
      if verifies && fate.life >= |steps| then PreparedEnd(left, i) else Pending(left, i)
  {
    var rest := [Write(Candidate, i.candidate)]
                + ([Write(JournalFile, i.journal)] + ([Write(Marker, i.marker)] + Clearing(verifies)));
    if i.before.Some? {
      var s := Write(Before, i.before.value);
      ExecuteStep(d, s, rest, fate);
      PendingStaysPending(d, i, s, fate.stored);
      if fate.life > 0 {
        CandidateWritesLeave(Perform(d, s), i, verifies, fate.(life := fate.life - 1));
      }
    } else {
      var none: seq<Step> := [];
      assert none + rest == rest;
      CandidateWritesLeave(d, i, verifies, fate);
    }
    hide Pending, PreparedEnd;
  }

  lemma CandidateWritesLeave(d: Disk, i: Intent, verifies: bool, fate: Fate)
    requires Pending(d, i) && d.directory && Observed(d, Before) == i.before
    requires forall p <- d.files :: p == Before || p == Child
    ensures var steps := [Write(Candidate, i.candidate)] + ([Write(JournalFile, i.journal)]
                   + ([Write(Marker, i.marker)] + Clearing(verifies)));
      var left := Execute(d, steps, fate);
      if verifies && fate.life >= |steps| then PreparedEnd(left, i) else Pending(left, i)
  {
    var c, j, m := Write(Candidate, i.candidate), Write(JournalFile, i.journal), Write(Marker, i.marker);
    var last := Clearing(verifies);
    ExecuteStep(d, c, [j] + ([m] + last), fate);
    PendingStaysPending(d, i, c, fate.stored);
    if fate.life > 0 {
      var d1, f1 := Perform(d, c), fate.(life := fate.life - 1);
      ExecuteStep(d1, j, [m] + last, f1);
      PendingStaysPending(d1, i, j, fate.stored);
      if f1.life > 0 {
        var d2, f2 := Perform(d1, j), f1.(life := f1.life - 1);
        ExecuteStep(d2, m, last, f2);
        PendingStaysPending(d2, i, m, fate.stored);
        if f2.life > 0 && verifies {
          LastStepEnds(Perform(d2, m), i, f2.(life := f2.life - 1));
        }
      }
    }
    hide Pending, PreparedEnd;
  }

  lemma LastStepEnds(d: Disk, i: Intent, fate: Fate)
    requires Pending(d, i) && d.directory && AllComplete(d, i)
    ensures var left := Execute(d, [ClearRow], fate);
      if fate.life == 0 then left == d else PreparedEnd(left, i)
  {
    var none: seq<Step> := [];
    assert [ClearRow] == [ClearRow] + none;
    ExecuteStep(d, ClearRow, none, fate);
    forall p | p != Child
      ensures Observed(Perform(d, ClearRow), p) == Expected(i, p)
    {
      PathsArePlanned(p);
    }
  }

  lemma PathsArePlanned(p: Path)
    ensures p == Child || p in PLANNED
  {
    assert PLANNED[0] == Candidate && PLANNED[1] == Before && PLANNED[2] == JournalFile && PLANNED[3] == Marker;
  }

  /** Recovery. */

  predicate NoRepeat(paths: seq<Path>) {
    forall k, m :: 0 <= k < m < |paths| ==> paths[k] != paths[m]
  }

  // Taking the files away one by one keeps the row pending; living through it leaves none of them.
  lemma {:induction false} UnlinksLeave(d: Disk, i: Intent, paths: seq<Path>, tail: seq<Step>, fate: Fate)
    returns (gone: Disk, left: Fate)
    requires Pending(d, i) && NoRepeat(paths)
    ensures Pending(gone, i)
    ensures fate.life < |UnlinkSteps(d, paths)| ==> Execute(d, UnlinkSteps(d, paths) + tail, fate) == gone
    ensures fate.life >= |UnlinkSteps(d, paths)| ==>
      && Execute(d, UnlinkSteps(d, paths) + tail, fate) == Execute(gone, tail, left)
      && left == fate.(life := fate.life - |UnlinkSteps(d, paths)|)
      && gone == d.(files := gone.files) && (forall p :: p in gone.files <==> p in d.files && p !in paths)
    decreases |paths|
  {
    if paths == [] {
      var none: seq<Step> := [];
      assert none + tail == tail;
      return d, fate;
    }
    var rest := paths[1..];
    assert forall p :: p in paths <==> p == paths[0] || p in rest;
    if paths[0] in d.files {
      var s := Unlink(paths[0]);
      var d1 := Perform(d, s);
      PendingStaysPending(d, i, s, fate.stored);
      SameUnlinks(d, d1, rest);
      assert UnlinkSteps(d, paths) + tail == [s] + (UnlinkSteps(d1, rest) + tail);
      ExecuteStep(d, s, UnlinkSteps(d1, rest) + tail, fate);
      if fate.life == 0 {
        return d, fate;
      }
      gone, left := UnlinksLeave(d1, i, rest, tail, fate.(life := fate.life - 1));
    } else {
      var none: seq<Step> := [];
      assert none + UnlinkSteps(d, rest) == UnlinkSteps(d, rest);
      gone, left := UnlinksLeave(d, i, rest, tail, fate);
    }
  }

  lemma {:induction false} SameUnlinks(d: Disk, e: Disk, paths: seq<Path>)
    requires forall p <- paths :: p in d.files <==> p in e.files
    ensures UnlinkSteps(d, paths) == UnlinkSteps(e, paths)
  {
    if paths != [] {
      assert paths[0] in paths;
      SameUnlinks(d, e, paths[1..]);
    }
  }

  lemma ReversedIsAll(p: Path)
    ensures NoRepeat(REVERSED)
    ensures p == Child || p in REVERSED
  {
    assert REVERSED[0] == Marker && REVERSED[1] == JournalFile && REVERSED[2] == Before && REVERSED[3] == Candidate;
  }

  // The end of a recovery that takes everything back.
  lemma RemovalEnds(d: Disk, i: Intent, directory: bool, fate: Fate)
    requires Pending(d, i) && d.files == map[] && d.directory == directory
    ensures var tail := (if directory then [RemoveDirectory] else []) + [ClearRow];
      var left := Execute(d, tail, fate);
      && (Pending(left, i) || ClearedEnd(left))
      && (fate.life >= |tail| ==> ClearedEnd(left))
  {
    var none: seq<Step> := [];
    var last: seq<Step> := [ClearRow];
    assert none + last == last && last == [ClearRow] + none;
    if directory {
      ExecuteStep(d, RemoveDirectory, last, fate);
      PendingStaysPending(d, i, RemoveDirectory, fate.stored);
      if fate.life > 0 {
        ExecuteStep(Perform(d, RemoveDirectory), ClearRow, none, fate.(life := fate.life - 1));
      }
    } else {
      ExecuteStep(d, ClearRow, none, fate);
    }
  }

  /** A recovery run from any pending state leaves a pending state or an end, and lived through it ends; it ends
      complete exactly when every file was complete and verifies, and everything is gone where one was not. With a file of
      a child process it refuses and changes nothing. */
  lemma RecoveryLeaves(f: Formats, d: Disk, i: Intent, verifies: bool, fate: Fate)
    requires Pending(d, i) && ParsesAs(f, i)
    ensures RecoverySteps(f, d, i, verifies).0
      == if Child in d.files || (AllComplete(d, i) && !verifies) then Refused
         else if AllComplete(d, i) then Prepared else Unpublished
    ensures var steps := RecoverySteps(f, d, i, verifies).1;
      var left := Execute(d, steps, fate);
      if Child in d.files || (AllComplete(d, i) && !verifies) then left == d
      else if AllComplete(d, i) then
        (left == d || PreparedEnd(left, i)) && (fate.life >= |steps| ==> PreparedEnd(left, i))
      else
        (Pending(left, i) || ClearedEnd(left)) && (fate.life >= |steps| ==> ClearedEnd(left))
  {
    if Child !in d.files {
      if AllComplete(d, i) {
        CompleteHasDirectory(d, i);
        LastStepEnds(d, i, fate);
      } else {
        IncompleteLeaves(f, d, i, verifies, fate);
      }
    }
  }

  lemma CompleteHasDirectory(d: Disk, i: Intent)
    requires Pending(d, i) && AllComplete(d, i)
    ensures d.directory
  {
    assert PLANNED[2] == JournalFile;
    assert JournalFile in PLANNED;
  }

  lemma IncompleteLeaves(f: Formats, d: Disk, i: Intent, verifies: bool, fate: Fate)
    requires Pending(d, i) && ParsesAs(f, i) && !AllComplete(d, i) && Child !in d.files
    ensures var steps := RecoverySteps(f, d, i, verifies).1;
      var left := Execute(d, steps, fate);
      (Pending(left, i) || ClearedEnd(left)) && (fate.life >= |steps| ==> ClearedEnd(left))
  {
    var tail := (if d.directory then [RemoveDirectory] else []) + [ClearRow];
    var steps := UnlinkSteps(d, REVERSED) + tail;
    assert RecoverySteps(f, d, i, verifies).1 == steps by {
      assert d.registration == i.before;
    }
    hide AllComplete, ParsesAs, RecoverySteps, Execute, UnlinkSteps;
    ReversedIsAll(Child);
    var gone, left := UnlinksLeave(d, i, REVERSED, tail, fate);
    if fate.life >= |UnlinkSteps(d, REVERSED)| {
      forall p
        ensures p !in gone.files
      {
        ReversedIsAll(p);
      }
      assert gone.files == map[];
      RemovalEnds(gone, i, d.directory, left);
    }
  }

  /** Steps leave the file of a child process alone. */

  predicate LeavesChild(steps: seq<Step>) {
    forall k :: 0 <= k < |steps| ==> !(steps[k].Write? && steps[k].path == Child) && steps[k] != Unlink(Child)
  }

  lemma {:induction false} ChildIsLeft(d: Disk, steps: seq<Step>, fate: Fate)
    requires LeavesChild(steps)
    ensures Observed(Execute(d, steps, fate), Child) == Observed(d, Child)
    decreases |steps|
  {
    if steps != [] && fate.life > 0 {
      var rest := steps[1..];
      assert forall k :: 0 <= k < |rest| ==> rest[k] == steps[k + 1];
      ChildIsLeft(Perform(d, steps[0]), rest, fate.(life := fate.life - 1));
    }
  }

  lemma {:induction false} UnlinksLeaveChild(d: Disk, paths: seq<Path>)
    requires Child !in paths
    ensures LeavesChild(UnlinkSteps(d, paths))
  {
    if paths != [] {
      UnlinksLeaveChild(d, paths[1..]);
    }
  }

  lemma RecoveryLeavesChild(f: Formats, d: Disk, i: Intent, verifies: bool, fate: Fate)
    ensures Observed(Execute(d, RecoverySteps(f, d, i, verifies).1, fate), Child) == Observed(d, Child)
  {
    hide ParsesAs, AllKnown, AllComplete, UnlinkSteps, Execute;
    ReversedIsAll(Child);
    UnlinksLeaveChild(d, REVERSED);
    ChildIsLeft(d, RecoverySteps(f, d, i, verifies).1, fate);
  }

  lemma PreparationLeavesChild(d: Disk, i: Intent, verifies: bool, fate: Fate)
    ensures Observed(Execute(d, PrepareSteps(i, verifies), fate), Child) == Observed(d, Child)
  {
    hide Execute;
    ChildIsLeft(d, PrepareSteps(i, verifies), fate);
  }

  /** Any number of deaths. */

  // One process that finds the row and runs recovery, and whether what it finds complete verifies.
  datatype Attempt = Attempt(fate: Fate, verifies: bool)

  function Recoveries(f: Formats, d: Disk, attempts: seq<Attempt>): Disk
    decreases |attempts|
  {
    if attempts == [] || d.row.None? then d
    else
      var a := attempts[0];
      Recoveries(f, Execute(d, RecoverySteps(f, d, d.row.value, a.verifies).1, a.fate), attempts[1..])
  }

  lemma {:induction false} RecoveriesLeave(f: Formats, d: Disk, i: Intent, attempts: seq<Attempt>)
    requires ParsesAs(f, i) && (Pending(d, i) || PreparedEnd(d, i) || ClearedEnd(d))
    ensures var left := Recoveries(f, d, attempts);
      && (Pending(left, i) || PreparedEnd(left, i) || ClearedEnd(left))
      && Observed(left, Child) == Observed(d, Child)
      && (Child in d.files || d.row.None? ==> left == d)
    decreases |attempts|
  {
    if attempts != [] && d.row.Some? {
      var a := attempts[0];
      RecoveryLeaves(f, d, i, a.verifies, a.fate);
      RecoveryLeavesChild(f, d, i, a.verifies, a.fate);
      hide AllComplete, ParsesAs, RecoverySteps, Execute, PreparedEnd, ClearedEnd;
      RecoveriesLeave(f, Execute(d, RecoverySteps(f, d, i, a.verifies).1, a.fate), i, attempts[1..]);
    }
  }

  /** From a death in any step of preparation, through any number of deaths inside recovery, a recovery that lives and
      verifies clears the row exactly where no file of a child process stood at the start, or nothing was lost inside; the
      end is then everything complete or nothing left, and never both. Where such a file stood, nothing changes any more. */
  lemma EveryCrashIsRecovered(f: Formats, d: Disk, id: string, stageId: string, candidate: Bytes, verifies: bool, fate: Fate,
                              attempts: seq<Attempt>, last: Fate)
    requires Clean(d)
    ensures var i := PlanFor(f, id, stageId, candidate, d.registration);
      var dead := Execute(d, PrepareSteps(i, verifies), fate);
      var crashed := Recoveries(f, dead, attempts);
      var steps := RecoverySteps(f, crashed, i, true).1;
      var settled := if crashed.row.None? then crashed else Execute(crashed, steps, last);
      last.life >= |steps| ==>
        && (settled.row.None? <==> Child !in d.files || !LostInside(i, verifies, fate))
        && (settled.row.None? ==>
              (PreparedEnd(settled, i) || ClearedEnd(settled)) && !(PreparedEnd(settled, i) && ClearedEnd(settled)))
        && (settled.row.Some? ==> settled == dead)
        && Observed(settled, Child) == Observed(d, Child)
  {
    var i := PlanFor(f, id, stageId, candidate, d.registration);
    PrepareWritesLeave(f, d, i, verifies, fate);
    PreparationLeavesChild(d, i, verifies, fate);
    var dead := Execute(d, PrepareSteps(i, verifies), fate);
    hide PrepareSteps, Execute, RecoverySteps;
    RecoveriesLeave(f, dead, i, attempts);
    var crashed := Recoveries(f, dead, attempts);
    hide Recoveries;
    if Pending(crashed, i) {
      RecoveryLeaves(f, crashed, i, true, last);
      RecoveryLeavesChild(f, crashed, i, true, last);
    }
    EndsDiffer(i);
    hide AllComplete, AllKnown, LostInside;
  }

  /** A file of a child process, left from another run of the operation, lets a preparation begin and its recovery never end. */
  lemma LeftoverChildBlocksRecovery(f: Formats, id: string, stageId: string, candidate: Bytes, child: Bytes,
                                    attempts: seq<Attempt>)
    ensures var d := Disk(map[Child := child], false, false, None, None);
      var i := PlanFor(f, id, stageId, candidate, None);
      var dead := Execute(d, PrepareSteps(i, true), Fate(1, None));
      && NothingThere(d) && dead.row == Some(i) && Recoveries(f, dead, attempts) == dead
  {
    var d := Disk(map[Child := child], false, false, None, None);
    var i := PlanFor(f, id, stageId, candidate, None);
    PrepareWritesLeave(f, d, i, true, Fate(1, None));
    PreparationLeavesChild(d, i, true, Fate(1, None));
    var dead := Execute(d, PrepareSteps(i, true), Fate(1, None));
    assert Child in dead.files;
    hide Execute, Recoveries;
    RecoveriesLeave(f, dead, i, attempts);
  }

  lemma EndsDiffer(i: Intent)
    ensures forall d: Disk :: !(PreparedEnd(d, i) && ClearedEnd(d))
  {
  }

  /** Asked afterwards, recovery says of a preparation that has come to its end which of the two ends it is. */
  lemma EndIsRecognised(f: Formats, d: Disk, i: Intent)
    requires ParsesAs(f, i) && f.stage(i.candidate) == Some(i.stageId) && d.registration == i.before
    requires PreparedEnd(d, i) || ClearedEnd(d)
    ensures OutcomeWithoutRow(f, d, i.operationId, true) == if PreparedEnd(d, i) then Prepared else Absent
  {
    if PreparedEnd(d, i) {
      assert forall p <- PLANNED :: Observed(d, p) == Expected(i, p);
      assert Observed(d, Candidate) == Some(i.candidate) && Observed(d, Marker) == Some(i.marker);
      assert Observed(d, JournalFile) == Some(i.journal) && Observed(d, Before) == i.before;
      assert PlanFound(f, d, i.operationId) == Some(i);
      forall p <- PLANNED
        ensures KnownPrefix(d, i, p)
      {
        if p in d.files {
          PrefixOfItself(d.files[p]);
        }
      }
    }
  }

  /** Where the files alone say prepared, every planned file is complete and the row is no longer needed. */
  lemma PreparedWithoutRowIsComplete(f: Formats, d: Disk, id: string)
    requires OutcomeWithoutRow(f, d, id, true) == Prepared
    ensures var i := PlanFound(f, d, id).value;
      && ParsesAs(f, i) && d.registration == i.before && !d.strange
      && forall p :: p != Child ==> Observed(d, p) == Expected(i, p)
  {
    var i := PlanFound(f, d, id).value;
    forall p | p != Child
      ensures Observed(d, p) == Expected(i, p)
    {
      PathsArePlanned(p);
      if Expected(i, p).None? {
        assert KnownPrefix(d, i, p);
      }
    }
  }

  /** No trial before the row is cleared. */

  // What issuing a trial capability requires of the disk: no row, a prepared receipt, and the marker bound to it.
  predicate TrialIssuable(f: Formats, d: Disk, id: string, evidence: Bytes) {
    && d.row.None?
    && Observed(d, JournalFile) == Some(f.preparedPhase(id, Sha256(evidence)))
    && Observed(d, Marker) == Some(f.marker(id, Sha256(f.preparedPhase(id, Sha256(evidence)))))
  }

  /** Wherever preparation and recovery were interrupted, a trial can be issued only once the preparation is complete. */
  lemma TrialOnlyWhenComplete(f: Formats, d: Disk, id: string, stageId: string, candidate: Bytes, verifies: bool, fate: Fate,
                              attempts: seq<Attempt>, trial: string, evidence: Bytes)
    requires Clean(d)
    ensures var i := PlanFor(f, id, stageId, candidate, d.registration);
      var now := Recoveries(f, Execute(d, PrepareSteps(i, verifies), fate), attempts);
      TrialIssuable(f, now, trial, evidence) ==> PreparedEnd(now, i)
  {
    var i := PlanFor(f, id, stageId, candidate, d.registration);
    PrepareWritesLeave(f, d, i, verifies, fate);
    hide PrepareSteps, Execute, RecoverySteps;
    RecoveriesLeave(f, Execute(d, PrepareSteps(i, verifies), fate), i, attempts);
    hide Recoveries;
  }
}
