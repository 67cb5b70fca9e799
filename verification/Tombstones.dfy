/**
The deletion journal of one owner (src/desktop-activity-tombstones.js): a bounded list of
intent and deleted entries above a floor, mutated in place and rewritten as a whole.
*/
module Tombstones {
  import opened Wrappers

  const TOMBSTONE_LIMIT: nat := 256
  const PAGE_LIMIT: nat := 100

  datatype EntryState = Intent | Deleted

  // The key of one journal file. Paths are digests of the owner, so distinct owners have distinct files.
  datatype Owner = Owner(subjectId: string, workspaceIds: set<string>)

  // A context of the live session catalog.
  datatype Context = Context(sessionId: string, createdAt: nat, subjectId: string, workspaceIds: set<string>)

  type Catalog = map<string, Context>

  // An entry without workspace ids was written before entries were scoped; it stands for the owner's whole grant.
  datatype Entry = Entry(sequence: nat, sessionId: string, createdAt: nat, deletedAt: nat,
                         state: EntryState, workspaceIds: Option<set<string>>)
  {
    function Scope(owner: Owner): set<string> {
      match workspaceIds
      case Some(ids) => ids
      case None => owner.workspaceIds
    }
  }

  datatype Journal = Journal(owner: Owner, nextSequence: nat, floor: nat, entries: seq<Entry>)

  datatype File = Missing | Malformed | Stored(journal: Journal)

  datatype Error =
    | JournalInvalid
    | ContextInvalid
    | RetentionFull
    | SessionUnavailable
    | SessionExists
    | RequestInvalid
    | WriteFailed

  datatype Outcome<+T> = Refused(error: Error) | Done(changed: bool, journal: Journal, value: T)

  datatype Record = Record(sequence: nat, sessionId: string, createdAt: nat, deletedAt: nat)

  datatype Page = Gap(floor: nat) | Records(floor: nat, nextCursor: nat, records: seq<Record>)

  /** Reading a journal file. */

  function EmptyJournal(owner: Owner): Journal {
    Journal(owner, 1, 0, [])
  }

  predicate ValidEntry(e: Entry, owner: Owner) {
    && e.createdAt > 0
    && e.deletedAt > 0
    && e.sequence > 0
    && (e.workspaceIds.Some? ==> e.workspaceIds.value != {} && e.workspaceIds.value <= owner.workspaceIds)
  }

  ghost predicate Contiguous(j: Journal) {
    && j.floor + |j.entries| + 1 == j.nextSequence
    && forall i :: 0 <= i < |j.entries| ==> j.entries[i].sequence == j.floor + 1 + i
  }

  ghost predicate WellFormed(j: Journal, owner: Owner) {
    && j.owner == owner
    && Contiguous(j)
    && |j.entries| <= TOMBSTONE_LIMIT
    && forall i :: 0 <= i < |j.entries| ==> ValidEntry(j.entries[i], owner)
  }

  // The scan accepts exactly the well-formed journals; anything else is refused, never repaired.
  method ReadJournal(file: File, owner: Owner) returns (r: Result<Journal, Error>)
    ensures file.Missing? ==> r == Success(EmptyJournal(owner))
    ensures file.Malformed? ==> r == Failure(JournalInvalid)
    ensures file.Stored? && WellFormed(file.journal, owner) ==> r == Success(file.journal)
    ensures file.Stored? && !WellFormed(file.journal, owner) ==> r == Failure(JournalInvalid)
    ensures r.Success? ==> WellFormed(r.value, owner)
    ensures file.Stored? ==>
      var j := file.journal;
      (r.Success? <==>
        && j.owner == owner && |j.entries| <= 256 && j.floor + |j.entries| + 1 == j.nextSequence
        && forall i :: 0 <= i < |j.entries| ==>
             var e := j.entries[i];
             && e.sequence == j.floor + 1 + i && e.createdAt >= 1 && e.deletedAt >= 1
             && (e.workspaceIds.Some? ==>
                   e.workspaceIds.value != {} && forall id <- e.workspaceIds.value :: id in owner.workspaceIds))
  {
    match file {
      case Missing => return Success(EmptyJournal(owner));
      case Malformed => return Failure(JournalInvalid);
      case Stored(j) =>
        if j.owner != owner || j.nextSequence < 1 || j.floor >= j.nextSequence || |j.entries| > TOMBSTONE_LIMIT {
          return Failure(JournalInvalid);
        }
        if exists i | 0 <= i < |j.entries| :: !ValidEntry(j.entries[i], owner) {
          return Failure(JournalInvalid);
        }
        var previous := j.floor;
        var i := 0;
        while i < |j.entries|
          invariant 0 <= i <= |j.entries|
          invariant previous == j.floor + i
          invariant forall k :: 0 <= k < i ==> j.entries[k].sequence == j.floor + 1 + k
        {
          if j.entries[i].sequence != previous + 1 || j.entries[i].sequence >= j.nextSequence {
            return Failure(JournalInvalid);
          }
          previous := j.entries[i].sequence;
          i := i + 1;
        }
        if previous + 1 != j.nextSequence {
          return Failure(JournalInvalid);
        }
        return Success(j);
    }
  }

  /** Comparing an entry with the catalog. */

  predicate CurrentPair(contexts: Catalog, e: Entry, owner: Owner) {
    && e.sessionId in contexts
    && var context := contexts[e.sessionId];
       context.createdAt == e.createdAt && context.subjectId == owner.subjectId
       && context.workspaceIds == e.Scope(owner)
  }

  predicate InScope(context: Context, owner: Owner) {
    context.subjectId == owner.subjectId && context.workspaceIds <= owner.workspaceIds
  }

  predicate SamePair(e: Entry, context: Context, owner: Owner) {
    e.sessionId == context.sessionId && e.createdAt == context.createdAt && e.Scope(owner) == context.workspaceIds
  }

  // An intent whose pair has left the catalog counts as a deletion.
  predicate Unresolved(contexts: Catalog, e: Entry, owner: Owner) {
    e.state.Intent? && CurrentPair(contexts, e, owner)
  }

  function Settle(e: Entry, settle: bool): Entry {
    if settle then e.(state := Deleted) else e
  }

  // The first index at or after `from` whose entry satisfies p.
  function Find(entries: seq<Entry>, p: Entry -> bool, from: nat := 0): (r: Option<nat>)
    requires from <= |entries|
    ensures r.Some? ==> from <= r.value < |entries| && p(entries[r.value])
    ensures r.Some? ==> forall k :: from <= k < r.value ==> !p(entries[k])
    ensures r.None? ==> forall k :: from <= k < |entries| ==> !p(entries[k])
    decreases |entries| - from
  {
    if from == |entries| then None
    else if p(entries[from]) then Some(from)
    else Find(entries, p, from + 1)
  }

  /** What each mutation does to a journal that was read. */

  function Reconciled(j: Journal, contexts: Catalog): (r: seq<Entry>)
    ensures |r| == |j.entries|
    ensures forall i :: 0 <= i < |r| ==>
      r[i] == Settle(j.entries[i], j.entries[i].state.Intent? && !CurrentPair(contexts, j.entries[i], j.owner))
  {
    seq(|j.entries|, i requires 0 <= i < |j.entries| =>
      Settle(j.entries[i], j.entries[i].state.Intent? && !CurrentPair(contexts, j.entries[i], j.owner)))
  }

  function AfterReconcile(j: Journal, contexts: Option<Catalog>): (r: Journal)
    ensures |r.entries| == |j.entries|
  {
    if contexts.None? then j else j.(entries := Reconciled(j, contexts.value))
  }

  function Pruned(j: Journal): Journal {
    if |j.entries| >= TOMBSTONE_LIMIT then j.(entries := j.entries[1..], floor := j.entries[0].sequence) else j
  }

  function NewIntent(j: Journal, context: Context, now: nat): Entry {
    Entry(j.nextSequence, context.sessionId, context.createdAt, now, Intent, Some(context.workspaceIds))
  }

  function FindIntent(j: Journal, context: Context): Option<nat> {
    Find(j.entries, (e: Entry) => e.state.Intent? && SamePair(e, context, j.owner))
  }

  function Prepared(j: Journal, context: Context, contexts: Option<Catalog>, now: nat): Outcome<nat> {
    if !InScope(context, j.owner) then Refused(JournalInvalid)
    else
      var settled := AfterReconcile(j, contexts);
      var existing := FindIntent(settled, context);
      if existing.Some? then Done(settled != j, settled, settled.entries[existing.value].sequence)
      else if |settled.entries| >= TOMBSTONE_LIMIT && !settled.entries[0].state.Deleted? then Refused(RetentionFull)
      else
        var kept := Pruned(settled);
        Done(true,
             kept.(nextSequence := kept.nextSequence + 1, entries := kept.entries + [NewIntent(kept, context, now)]),
             kept.nextSequence)
  }

  function FindReceipt(j: Journal, context: Context, sequence: nat): Option<nat> {
    Find(j.entries, (e: Entry) => e.sequence == sequence && SamePair(e, context, j.owner))
  }

  function Committed(j: Journal, context: Context, sequence: nat): Outcome<()> {
    if !InScope(context, j.owner) then Refused(JournalInvalid)
    else
      var found := FindReceipt(j, context, sequence);
      if found.None? then
        if 0 < sequence <= j.floor then Done(false, j, ()) else Refused(JournalInvalid)
      else if j.entries[found.value].state.Deleted? then Done(false, j, ())
      else Done(true, j.(entries := j.entries[found.value := Settle(j.entries[found.value], true)]), ())
  }

  function Named(j: Journal, sessionId: string): Option<nat> {
    Find(j.entries, (e: Entry) => e.sessionId == sessionId)
  }

  function SettledNamed(j: Journal, sessionId: string): (r: Journal)
    ensures r == j.(entries := r.entries) && |r.entries| == |j.entries|
    ensures forall i :: 0 <= i < |r.entries| ==>
      r.entries[i] == Settle(j.entries[i], j.entries[i].sessionId == sessionId && j.entries[i].state.Intent?)
  {
    j.(entries := seq(|j.entries|, i requires 0 <= i < |j.entries| =>
      Settle(j.entries[i], j.entries[i].sessionId == sessionId && j.entries[i].state.Intent?)))
  }

  function BeforeCreate(j: Journal, sessionId: string, contexts: Catalog, preventReuse: bool): Outcome<()> {
    if preventReuse && Named(j, sessionId).Some? then Refused(SessionUnavailable)
    else if Find(j.entries, (e: Entry) => e.sessionId == sessionId && Unresolved(contexts, e, j.owner)).Some? then
      Refused(SessionExists)
    else
      var settled := SettledNamed(j, sessionId);
      Done(settled != j, settled, ())
  }

  /** What those mutations come to, entry by entry. */

  // The entry was written for this context; one without workspace ids stands for the owner's whole grant.
  predicate StandsFor(e: Entry, context: Context, owner: Owner) {
    && e.sessionId == context.sessionId && e.createdAt == context.createdAt
    && context.workspaceIds == if e.workspaceIds.Some? then e.workspaceIds.value else owner.workspaceIds
  }

  // The contexts hold, under the entry's session id, what the entry was written for.
  predicate Holds(contexts: Catalog, e: Entry, owner: Owner) {
    && e.sessionId in contexts && contexts[e.sessionId].subjectId == owner.subjectId
    && StandsFor(e, contexts[e.sessionId].(sessionId := e.sessionId), owner)
  }

  predicate Open(contexts: Catalog, e: Entry, owner: Owner) {
    e.state.Intent? && Holds(contexts, e, owner)
  }

  predicate Shows(record: Record, e: Entry) {
    record == Record(e.sequence, e.sessionId, e.createdAt, e.deletedAt)
  }

  // An intent that reconciling with these contexts leaves open.
  predicate StaysOpen(e: Entry, contexts: Option<Catalog>, owner: Owner) {
    e.state.Intent? && (contexts.Some? ==> Holds(contexts.value, e, owner))
  }

  predicate MayDelete(context: Context, owner: Owner) {
    context.subjectId == owner.subjectId && forall id <- context.workspaceIds :: id in owner.workspaceIds
  }

  ghost predicate IsOpen(j: Journal, context: Context, contexts: Option<Catalog>, i: int) {
    0 <= i < |j.entries| && StaysOpen(j.entries[i], contexts, j.owner) && StandsFor(j.entries[i], context, j.owner)
  }

  // From that entry on all are kept, and those that do not stay open are settled.
  ghost predicate KeepsFrom(j: Journal, after: Journal, contexts: Option<Catalog>, from: nat) {
    && |after.entries| + from >= |j.entries|
    && forall i :: from <= i < |j.entries| ==>
         after.entries[i - from]
           == if StaysOpen(j.entries[i], contexts, j.owner) then j.entries[i] else j.entries[i].(state := Deleted)
  }

  // An open intent of the context is found again; otherwise one is added behind the others, in place of the oldest where
  // the journal is full.
  ghost predicate PreparesTo(j: Journal, context: Context, contexts: Option<Catalog>, now: nat, o: Outcome<nat>) {
    if !MayDelete(context, j.owner) then o == Refused(JournalInvalid)
    else if exists i :: IsOpen(j, context, contexts, i) then
      && o.Done? && o.journal == j.(entries := o.journal.entries) && |o.journal.entries| == |j.entries|
      && KeepsFrom(j, o.journal, contexts, 0) && (o.changed <==> o.journal != j)
      && exists i :: IsOpen(j, context, contexts, i) && j.entries[i].sequence == o.value
    else if |j.entries| >= TOMBSTONE_LIMIT && StaysOpen(j.entries[0], contexts, j.owner) then o == Refused(RetentionFull)
    else
      var from := if |j.entries| >= TOMBSTONE_LIMIT then 1 else 0;
      && o.Done? && o.changed && o.value == j.nextSequence
      && o.journal.owner == j.owner && o.journal.nextSequence == j.nextSequence + 1
      && o.journal.floor == (if from == 1 then j.entries[0].sequence else j.floor)
      && |o.journal.entries| == |j.entries| - from + 1 && KeepsFrom(j, o.journal, contexts, from)
      && o.journal.entries[|j.entries| - from]
         == Entry(j.nextSequence, context.sessionId, context.createdAt, now, Intent, Some(context.workspaceIds))
  }

  ghost predicate Receives(j: Journal, context: Context, sequence: nat, i: int) {
    0 <= i < |j.entries| && j.entries[i].sequence == sequence && StandsFor(j.entries[i], context, j.owner)
  }

  // The receipt's entry is settled now, or was before, or lies below the floor.
  ghost predicate CommitsTo(j: Journal, context: Context, sequence: nat, o: Outcome<()>) {
    if !MayDelete(context, j.owner) then o == Refused(JournalInvalid)
    else if exists i :: Receives(j, context, sequence, i) then
      exists i :: Receives(j, context, sequence, i)
        && o == Done(j.entries[i].state.Intent?, j.(entries := j.entries[i := j.entries[i].(state := Deleted)]), ())
    else if 0 < sequence <= j.floor then o == Done(false, j, ())
    else o == Refused(JournalInvalid)
  }

  ghost predicate IsRetained(j: Journal, sessionId: string) {
    exists i :: 0 <= i < |j.entries| && j.entries[i].sessionId == sessionId
  }

  ghost predicate HasIntentOf(j: Journal, sessionId: string) {
    exists i :: 0 <= i < |j.entries| && j.entries[i].sessionId == sessionId && j.entries[i].state.Intent?
  }

  // An intent that names the session id is of a context that is there.
  ghost predicate IsTaken(j: Journal, sessionId: string, contexts: Catalog) {
    exists i :: 0 <= i < |j.entries| && j.entries[i].sessionId == sessionId && Open(contexts, j.entries[i], j.owner)
  }

  // Every intent that names the session id became a deletion, and nothing else changed.
  ghost predicate SettledFor(before: Journal, after: Journal, sessionId: string) {
    && after == before.(entries := after.entries) && |after.entries| == |before.entries|
    && forall i :: 0 <= i < |before.entries| ==>
         after.entries[i]
           == if before.entries[i].sessionId == sessionId then before.entries[i].(state := Deleted) else before.entries[i]
  }

  // What keeps a session id from being used for a new context.
  ghost function ReuseRefusal(j: Journal, sessionId: string, contexts: Catalog, preventReuse: bool): Option<Error> {
    if preventReuse && IsRetained(j, sessionId) then Some(SessionUnavailable)
    else if IsTaken(j, sessionId, contexts) then Some(SessionExists)
    else None
  }

  lemma HeldIsCurrent(contexts: Catalog, e: Entry, owner: Owner)
    ensures Holds(contexts, e, owner) <==> CurrentPair(contexts, e, owner)
    ensures Open(contexts, e, owner) <==> Unresolved(contexts, e, owner)
  {
  }

  lemma ReconciledEntry(j: Journal, contexts: Option<Catalog>, i: nat)
    requires i < |j.entries|
    ensures AfterReconcile(j, contexts).entries[i]
      == if StaysOpen(j.entries[i], contexts, j.owner) then j.entries[i] else j.entries[i].(state := Deleted)
  {
    if contexts.Some? {
      HeldIsCurrent(contexts.value, j.entries[i], j.owner);
    }
  }

  lemma PreparedExact(j: Journal, context: Context, contexts: Option<Catalog>, now: nat)
    ensures PreparesTo(j, context, contexts, now, Prepared(j, context, contexts, now))
  {
    var settled := AfterReconcile(j, contexts);
    forall i | 0 <= i < |j.entries|
      ensures settled.entries[i]
        == if StaysOpen(j.entries[i], contexts, j.owner) then j.entries[i] else j.entries[i].(state := Deleted)
    {
      ReconciledEntry(j, contexts, i);
    }
    var existing := FindIntent(settled, context);
    hide AfterReconcile, StaysOpen;
    if existing.Some? {
      assert IsOpen(j, context, contexts, existing.value);
    }
  }

  lemma CommittedExact(j: Journal, context: Context, sequence: nat)
    ensures CommitsTo(j, context, sequence, Committed(j, context, sequence))
  {
    var found := FindReceipt(j, context, sequence);
    if found.Some? {
      assert Receives(j, context, sequence, found.value);
    }
  }

  lemma BeforeCreateExact(j: Journal, sessionId: string, contexts: Catalog, preventReuse: bool)
    ensures var o, refusal := BeforeCreate(j, sessionId, contexts, preventReuse), ReuseRefusal(j, sessionId, contexts, preventReuse);
      if refusal.Some? then o == Refused(refusal.value)
      else o.Done? && SettledFor(j, o.journal, sessionId) && (o.changed <==> HasIntentOf(j, sessionId))
  {
    forall e: Entry
      ensures Open(contexts, e, j.owner) <==> Unresolved(contexts, e, j.owner)
    {
      HeldIsCurrent(contexts, e, j.owner);
    }
    hide Open, Unresolved;
  }

  /** Paging. */

  function RecordOf(e: Entry): Record {
    Record(e.sequence, e.sessionId, e.createdAt, e.deletedAt)
  }

  function RecordsOf(entries: seq<Entry>): (r: seq<Record>)
    ensures |r| == |entries|
    ensures forall i :: 0 <= i < |r| ==> r[i] == RecordOf(entries[i])
  {
    seq(|entries|, i requires 0 <= i < |entries| => RecordOf(entries[i]))
  }

  // The retained entries above the cursor, in order.
  function Candidates(entries: seq<Entry>, after: nat): (r: seq<Entry>) {
    if entries == [] then []
    else if entries[0].sequence > after then [entries[0]] + Candidates(entries[1..], after)
    else Candidates(entries[1..], after)
  }

  // At most `limit` of the entries before the first unresolved one.
  function Ready(candidates: seq<Entry>, unresolved: Option<nat>, limit: nat): (r: seq<Entry>)
    requires unresolved.Some? ==> unresolved.value <= |candidates|
    ensures |r| <= |candidates| && r == candidates[..|r|]
    ensures var available := if unresolved.None? then |candidates| else unresolved.value;
            |r| == if available <= limit then available else limit
  {
    var ready := if unresolved.None? then candidates else candidates[..unresolved.value];
    if |ready| <= limit then ready else ready[..limit]
  }

  function PageFrom(candidates: seq<Entry>, floor: nat, owner: Owner, contexts: Catalog, after: nat, limit: nat): Page {
    var unresolved := Find(candidates, (e: Entry) => Unresolved(contexts, e, owner));
    if unresolved == Some(0) && Find(candidates, (e: Entry) => !Unresolved(contexts, e, owner), 1).Some? then Gap(floor)
    else
      var records := RecordsOf(Ready(candidates, unresolved, limit));
      Records(floor, if records == [] then after else records[|records| - 1].sequence, records)
  }

  function PageOf(j: Journal, contexts: Catalog, after: nat, limit: nat): Page {
    if after < j.floor || after >= j.nextSequence then Gap(j.floor)
    else PageFrom(Candidates(j.entries, after), j.floor, j.owner, contexts, after, limit)
  }

  /** The owner of the journal files. */

  class DesktopActivityTombstones {
    var files: map<Owner, File>

    constructor (files: map<Owner, File>)
      ensures this.files == files
    {
      this.files := files;
    }

    function FileOf(owner: Owner): File
      reads this
    {
      if owner in files then files[owner] else Missing
    }

    // The journal a mutation starts from, when the file can be read at all.
    ghost function Current(owner: Owner): Journal
      reads this
    {
      if FileOf(owner).Stored? then FileOf(owner).journal else EmptyJournal(owner)
    }

    ghost predicate Readable(owner: Owner)
      reads this
    {
      FileOf(owner).Missing? || (FileOf(owner).Stored? && WellFormed(FileOf(owner).journal, owner))
    }

    // The reconciliation loop of a prepare.
    static method ReconcileEntries(journal: Journal, contexts: Catalog) returns (settled: Journal, changed: bool)
      ensures settled == journal.(entries := Reconciled(journal, contexts))
      ensures changed <==> settled != journal
    {
      var entries := journal.entries;
      changed := false;
      var i := 0;
      while i < |entries|
        invariant 0 <= i <= |entries| == |journal.entries|
        invariant forall k :: 0 <= k < i ==> entries[k] == Reconciled(journal, contexts)[k]
        invariant forall k :: i <= k < |entries| ==> entries[k] == journal.entries[k]
        invariant changed <==> entries != journal.entries
      {
        var entry := entries[i];
        if entry.state.Intent? && !CurrentPair(contexts, entry, journal.owner) {
          entries := entries[i := entry.(state := Deleted)];
          changed := true;
          assert entries[i] != journal.entries[i];
        }
        i := i + 1;
      }
      assert entries == Reconciled(journal, contexts);
      settled := journal.(entries := entries);
    }

    // The loop of a create over the entries that name its session id; it stops at a live intent.
    static method SettleEntries(journal: Journal, sessionId: string, contexts: Catalog)
      returns (r: Result<Journal, Error>, changed: bool)
      ensures r.Failure? ==> r.error == SessionExists
      ensures r.Failure? <==>
        exists k :: 0 <= k < |journal.entries| && journal.entries[k].sessionId == sessionId
                    && Unresolved(contexts, journal.entries[k], journal.owner)
      ensures r.Success? ==> r.value == SettledNamed(journal, sessionId) && (changed <==> r.value != journal)
    {
      var entries := journal.entries;
      changed := false;
      var i := 0;
      while i < |entries|
        invariant 0 <= i <= |entries| == |journal.entries|
        invariant forall k :: 0 <= k < i ==> entries[k] == SettledNamed(journal, sessionId).entries[k]
        invariant forall k :: i <= k < |entries| ==> entries[k] == journal.entries[k]
        invariant changed <==> entries != journal.entries
        invariant forall k :: 0 <= k < i && journal.entries[k].sessionId == sessionId ==>
          !Unresolved(contexts, journal.entries[k], journal.owner)
      {
        var entry := entries[i];
        if entry.sessionId == sessionId && entry.state.Intent? {
          if CurrentPair(contexts, entry, journal.owner) {
            return Failure(SessionExists), changed;
          }
          entries := entries[i := entry.(state := Deleted)];
          changed := true;
          assert entries[i] != journal.entries[i];
        }
        i := i + 1;
      }
      assert entries == SettledNamed(journal, sessionId).entries;
      r := Success(journal.(entries := entries));
    }

    // The change a prepare makes to the journal it was given.
    static method ChangeForPrepare(read: Journal, context: Context, contexts: Option<Catalog>, now: nat)
      returns (r: Outcome<nat>)
      ensures r == Prepared(read, context, contexts, now)
    {
      var journal := read;
      if !InScope(context, journal.owner) {
        return Refused(JournalInvalid);
      }
      var reconciled := false;
      if contexts.Some? {
        journal, reconciled := ReconcileEntries(journal, contexts.value);
      }
      var existing := FindIntent(journal, context);
      if existing.Some? {
        return Done(reconciled, journal, journal.entries[existing.value].sequence);
      }
      if |journal.entries| >= TOMBSTONE_LIMIT {
        var oldest := journal.entries[0];
        if !oldest.state.Deleted? {
          return Refused(RetentionFull);
        }
        journal := journal.(entries := journal.entries[1..], floor := oldest.sequence);
      }
      var sequence := journal.nextSequence;
      var added := Entry(sequence, context.sessionId, context.createdAt, now, Intent, Some(context.workspaceIds));
      journal := journal.(nextSequence := sequence + 1, entries := journal.entries + [added]);
      return Done(true, journal, sequence);
    }

    // The change a committed receipt makes.
    static method ChangeForCommitted(read: Journal, context: Context, sequence: nat) returns (r: Outcome<()>)
      ensures r == Committed(read, context, sequence)
    {
      var journal := read;
      if !InScope(context, journal.owner) {
        return Refused(JournalInvalid);
      }
      var found := FindReceipt(journal, context, sequence);
      if found.None? {
        if sequence > 0 && sequence <= journal.floor {
          return Done(false, journal, ());
        }
        return Refused(JournalInvalid);
      }
      var entry := journal.entries[found.value];
      if entry.state.Deleted? {
        return Done(false, journal, ());
      }
      journal := journal.(entries := journal.entries[found.value := entry.(state := Deleted)]);
      return Done(true, journal, ());
    }

    // The change made before a session id is used again.
    static method ChangeBeforeCreate(read: Journal, sessionId: string, contexts: Catalog, preventReuse: bool)
      returns (r: Outcome<()>)
      ensures r == BeforeCreate(read, sessionId, contexts, preventReuse)
    {
      if preventReuse && exists i | 0 <= i < |read.entries| :: read.entries[i].sessionId == sessionId {
        return Refused(SessionUnavailable);
      }
      var settled, changed := SettleEntries(read, sessionId, contexts);
      if settled.Failure? {
        return Refused(settled.error);
      }
      return Done(changed, settled.value, ());
    }

    // A changed journal replaces the whole file. A refusal or a failed write leaves every file as it was.
    ghost predicate Applied<T>(before: map<Owner, File>, owner: Owner, outcome: Outcome<T>, writeOk: bool, r: Result<T, Error>)
      reads this
    {
      match outcome
      case Refused(e) => r == Failure(e) && files == before
      case Done(changed, j, value) =>
        if changed && !writeOk then r == Failure(WriteFailed) && files == before
        else r == Success(value) && files == if changed then before[owner := Stored(j)] else before
    }

    method Apply<T>(owner: Owner, outcome: Outcome<T>, writeOk: bool) returns (r: Result<T, Error>)
      modifies this
      ensures Applied(old(files), owner, outcome, writeOk, r)
    {
      match outcome {
        case Refused(e) => return Failure(e);
        case Done(changed, j, value) =>
          if changed {
            if !writeOk {
              return Failure(WriteFailed);
            }
            files := files[owner := Stored(j)];
          }
          return Success(value);
      }
    }

    method Prepare(context: Context, contexts: Option<Catalog>, principal: Owner, now: nat, writeOk: bool)
      returns (r: Result<nat, Error>)
      modifies this
      ensures context.createdAt == 0 || !old(Readable(principal)) ==> r.Failure? && files == old(files)
      ensures context.createdAt > 0 && old(Readable(principal)) ==>
        Applied(old(files), principal, Prepared(old(Current(principal)), context, contexts, now), writeOk, r)
    {
      if context.createdAt == 0 {
        return Failure(ContextInvalid);
      }
      var read := ReadJournal(FileOf(principal), principal);
      if read.Failure? {
        return Failure(read.error);
      }
      var outcome := ChangeForPrepare(read.value, context, contexts, now);
      r := Apply(principal, outcome, writeOk);
    }

    method Commit(context: Context, sequence: nat, principal: Owner, writeOk: bool) returns (r: Result<(), Error>)
      modifies this
      ensures context.createdAt == 0 || !old(Readable(principal)) ==> r.Failure? && files == old(files)
      ensures context.createdAt > 0 && old(Readable(principal)) ==>
        Applied(old(files), principal, Committed(old(Current(principal)), context, sequence), writeOk, r)
    {
      if context.createdAt == 0 {
        return Failure(ContextInvalid);
      }
      var read := ReadJournal(FileOf(principal), principal);
      if read.Failure? {
        return Failure(read.error);
      }
      var outcome := ChangeForCommitted(read.value, context, sequence);
      r := Apply(principal, outcome, writeOk);
    }

    // One of the two journal passes made before a session id is used again.
    method SettleBeforeCreate(sessionId: string, principal: Owner, contexts: Catalog, preventReuse: bool, writeOk: bool)
      returns (r: Result<(), Error>)
      modifies this
      ensures r == var failure := old(PassFailure(principal, sessionId, contexts, preventReuse, writeOk));
        if failure.Some? then Failure(failure.value) else Success(())
      ensures if r.Success? then SettledFor(old(Current(principal)), Current(principal), sessionId)
        else FileOf(principal) == old(FileOf(principal))
      ensures forall o :: o != principal ==> FileOf(o) == old(FileOf(o))
    {
      hide WellFormed, SettledNamed, ReuseRefusal, IsRetained, HasIntentOf;
      var read := ReadJournal(FileOf(principal), principal);
      if read.Failure? {
        return Failure(read.error);
      }
      BeforeCreateExact(read.value, sessionId, contexts, preventReuse);
      var outcome := ChangeBeforeCreate(read.value, sessionId, contexts, preventReuse);
      r := Apply(principal, outcome, writeOk);
    }

    // Why the pass over this owner's journal fails, if it does.
    ghost function PassFailure(owner: Owner, sessionId: string, contexts: Catalog, preventReuse: bool, writeOk: bool)
      : Option<Error>
      reads this
    {
      if !Readable(owner) then Some(JournalInvalid)
      else
        var refusal := ReuseRefusal(Current(owner), sessionId, contexts, preventReuse);
        if refusal.Some? then refusal
        else if HasIntentOf(Current(owner), sessionId) && !writeOk then Some(WriteFailed)
        else None
    }

    // The binding grant's journal, where it is another one, is settled first and stays so if the caller's is then refused.
    method BeforeCreateSession(sessionId: string, principal: Owner, contexts: Catalog, preventReuse: bool,
                               binding: Option<Owner>, bindingWriteOk: bool, writeOk: bool) returns (r: Result<(), Error>)
      modifies this
      ensures var apart := binding.Some? && binding.value != principal;
        var first := if apart then old(PassFailure(binding.value, sessionId, contexts, preventReuse, bindingWriteOk)) else None;
        var second := old(PassFailure(principal, sessionId, contexts, preventReuse, writeOk));
        && r == (if first.Some? then Failure(first.value) else if second.Some? then Failure(second.value) else Success(()))
        && (if apart && first.None? then SettledFor(old(Current(binding.value)), Current(binding.value), sessionId)
            else apart ==> FileOf(binding.value) == old(FileOf(binding.value)))
        && (if r.Success? then SettledFor(old(Current(principal)), Current(principal), sessionId)
            else FileOf(principal) == old(FileOf(principal)))
      ensures forall o :: o != principal && Some(o) != binding ==> FileOf(o) == old(FileOf(o))
    {
      if binding.Some? && binding.value != principal {
        r := SettleBeforeCreate(sessionId, binding.value, contexts, preventReuse, bindingWriteOk);
        if r.Failure? {
          return;
        }
      }
      r := SettleBeforeCreate(sessionId, principal, contexts, preventReuse, writeOk);
    }

    method ReadPage(principal: Owner, contexts: Catalog, after: nat, limit: nat) returns (r: Result<Page, Error>)
      ensures limit < 1 || limit > PAGE_LIMIT ==> r == Failure(RequestInvalid)
      ensures 1 <= limit <= PAGE_LIMIT && !Readable(principal) ==> r == Failure(JournalInvalid)
      ensures 1 <= limit <= PAGE_LIMIT && Readable(principal) ==>
        r == Success(PageOf(Current(principal), contexts, after, limit))
    {
      if limit < 1 || limit > PAGE_LIMIT {
        return Failure(RequestInvalid);
      }
      var read := ReadJournal(FileOf(principal), principal);
      if read.Failure? {
        return Failure(read.error);
      }
      return Success(PageOf(read.value, contexts, after, limit));
    }
  }
}
