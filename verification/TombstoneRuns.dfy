/**
Whole runs of one owner's deletion journal beside the session catalog, with a reader that
pages through it. The catalog may lose any context at any time and may gain a context whose
(session id, creation time) pair was never used before.
*/
module TombstoneRuns {
  import opened Wrappers
  import opened Tombstones

  // history[k] is the context the entry with sequence k + 1 was written for, retained or pruned.
  // used holds every pair the catalog has ever held.
  datatype World = World(journal: Journal, catalog: Catalog, history: seq<Context>, used: set<(string, nat)>)

  datatype Action =
    | Prepare(context: Context, contexts: Option<Catalog>, now: nat)
    | Remove(sessionId: string)
    | Commit(context: Context, sequence: nat)
    | Settle(reusedId: string, snapshot: Catalog, preventReuse: bool)
    | Create(created: Context)

  predicate Live(catalog: Catalog, sessionId: string, createdAt: nat) {
    sessionId in catalog && catalog[sessionId].createdAt == createdAt
  }

  // A catalog snapshot covers the journal when every intent of a live context is current in it.
  // The current catalog always does; an older snapshot does if no context was created and prepared since.
  predicate Covers(w: World, contexts: Catalog) {
    forall e <- w.journal.entries ::
      e.state.Intent? && Live(w.catalog, e.sessionId, e.createdAt) ==> Holds(contexts, e, w.journal.owner)
  }

  predicate EntryFor(e: Entry, context: Context) {
    && e.sessionId == context.sessionId
    && e.createdAt == context.createdAt
    && e.workspaceIds == Some(context.workspaceIds)
  }

  ghost predicate CatalogConsistent(w: World) {
    && (forall id :: id in w.catalog ==> w.catalog[id].sessionId == id && (id, w.catalog[id].createdAt) in w.used)
    && forall k :: 0 <= k < |w.history| ==>
      var context := w.history[k];
      && (context.sessionId, context.createdAt) in w.used
      && (Live(w.catalog, context.sessionId, context.createdAt) ==> w.catalog[context.sessionId] == context)
  }

  // Everything that is no longer an intent, pruned or retained, has really left the catalog.
  ghost predicate DeletionsAreReal(w: World) {
    && (forall k :: 0 <= k < |w.history| && k < w.journal.floor ==>
          !Live(w.catalog, w.history[k].sessionId, w.history[k].createdAt))
    && forall e <- w.journal.entries :: e.state.Deleted? ==> !Live(w.catalog, e.sessionId, e.createdAt)
  }

  ghost predicate HistoryMatches(w: World) {
    && |w.history| + 1 == w.journal.nextSequence
    && w.journal.floor + |w.journal.entries| == |w.history|
    && (forall k :: 0 <= k < |w.history| ==> InScope(w.history[k], w.journal.owner))
    && forall i :: 0 <= i < |w.journal.entries| ==> EntryFor(w.journal.entries[i], w.history[w.journal.floor + i])
  }

  ghost predicate Distinct(w: World) {
    forall i, k :: 0 <= i < k < |w.history| ==>
      (w.history[i].sessionId, w.history[i].createdAt) != (w.history[k].sessionId, w.history[k].createdAt)
  }

  ghost predicate Inv(w: World, owner: Owner) {
    && WellFormed(w.journal, owner)
    && HistoryMatches(w)
    && CatalogConsistent(w)
    && DeletionsAreReal(w)
    && Distinct(w)
  }

  predicate Enabled(w: World, a: Action) {
    match a
    case Prepare(context, contexts, now) =>
      && now > 0 && context.createdAt > 0 && context.workspaceIds != {}
      && context.sessionId in w.catalog && w.catalog[context.sessionId] == context
      && (contexts.Some? ==> Covers(w, contexts.value))
    case Remove(_) => true
    case Commit(context, sequence) =>
      && 0 < sequence <= |w.history| && w.history[sequence - 1] == context
      && !Live(w.catalog, context.sessionId, context.createdAt)
    case Settle(_, contexts, _) => Covers(w, contexts)
    case Create(context) =>
      context.sessionId !in w.catalog && (context.sessionId, context.createdAt) !in w.used
  }

  // A refused mutation writes nothing.
  function Next(w: World, a: Action): World {
    match a
    case Prepare(context, contexts, now) => (
      match Prepared(w.journal, context, contexts, now)
      case Refused(_) => w
      case Done(_, j, _) =>
        w.(journal := j,
           history := if j.nextSequence > w.journal.nextSequence then w.history + [context] else w.history)
    )
    case Remove(id) => w.(catalog := w.catalog - {id})
    case Commit(context, sequence) => (
      match Committed(w.journal, context, sequence)
      case Refused(_) => w
      case Done(_, j, _) => w.(journal := j)
    )
    case Settle(id, contexts, preventReuse) => (
      match BeforeCreate(w.journal, id, contexts, preventReuse)
      case Refused(_) => w
      case Done(_, j, _) => w.(journal := j)
    )
    case Create(context) =>
      w.(catalog := w.catalog[context.sessionId := context],
         used := w.used + {(context.sessionId, context.createdAt)})
  }

  /** Each step keeps the journal whole and its deletions real. */

  // Settling entries keeps the invariant when every settled entry has left the catalog.
  lemma SettlingKeepsInv(w: World, entries: seq<Entry>, owner: Owner)
    requires Inv(w, owner)
    requires |entries| == |w.journal.entries|
    requires forall i :: 0 <= i < |entries| ==>
      || entries[i] == w.journal.entries[i]
      || (entries[i] == Tombstones.Settle(w.journal.entries[i], true)
          && !Live(w.catalog, entries[i].sessionId, entries[i].createdAt))
    ensures Inv(w.(journal := w.journal.(entries := entries)), owner)
  {
    var j := w.journal.(entries := entries);
    forall i | 0 <= i < |entries|
      ensures ValidEntry(entries[i], owner)
      ensures EntryFor(entries[i], w.history[j.floor + i])
      ensures entries[i].state.Deleted? ==> !Live(w.catalog, entries[i].sessionId, entries[i].createdAt)
      ensures entries[i].sequence == j.floor + 1 + i
    {
      assert ValidEntry(w.journal.entries[i], owner);
      assert EntryFor(w.journal.entries[i], w.history[j.floor + i]);
      assert w.journal.entries[i] in w.journal.entries;
    }
  }

  // For an entry of a reachable journal, "the snapshot does not show the pair" means the pair is gone.
  lemma UnmatchedIsGone(w: World, contexts: Catalog, i: nat, owner: Owner)
    requires Inv(w, owner) && Covers(w, contexts)
    requires i < |w.journal.entries| && w.journal.entries[i].state.Intent?
    requires !Holds(contexts, w.journal.entries[i], owner)
    ensures !Live(w.catalog, w.journal.entries[i].sessionId, w.journal.entries[i].createdAt)
  {
    var e := w.journal.entries[i];
    assert e in w.journal.entries;
    assert EntryFor(e, w.history[w.journal.floor + i]);
    assert InScope(w.history[w.journal.floor + i], w.journal.owner);
  }

  // A snapshot that shows a live context as the catalog has it makes its entry current.
  lemma ShownIsCurrent(w: World, contexts: Catalog, i: nat, owner: Owner)
    requires Inv(w, owner) && i < |w.journal.entries|
    requires Live(w.catalog, w.journal.entries[i].sessionId, w.journal.entries[i].createdAt)
    requires w.journal.entries[i].sessionId in contexts
    requires contexts[w.journal.entries[i].sessionId] == w.catalog[w.journal.entries[i].sessionId]
    ensures Holds(contexts, w.journal.entries[i], owner)
  {
    assert EntryFor(w.journal.entries[i], w.history[w.journal.floor + i]);
    assert InScope(w.history[w.journal.floor + i], w.journal.owner);
  }

  // In the catalog itself an entry is held exactly when its context is live.
  lemma HeldIffLive(w: World, i: nat, owner: Owner)
    requires Inv(w, owner) && i < |w.journal.entries|
    ensures Holds(w.catalog, w.journal.entries[i], owner)
      <==> Live(w.catalog, w.journal.entries[i].sessionId, w.journal.entries[i].createdAt)
  {
    if Live(w.catalog, w.journal.entries[i].sessionId, w.journal.entries[i].createdAt) {
      ShownIsCurrent(w, w.catalog, i, owner);
    }
  }

  // The catalog itself covers the journal.
  lemma CatalogCovers(w: World, owner: Owner)
    requires Inv(w, owner)
    ensures Covers(w, w.catalog)
  {
    forall e <- w.journal.entries | e.state.Intent? && Live(w.catalog, e.sessionId, e.createdAt)
      ensures Holds(w.catalog, e, w.journal.owner)
    {
      var i :| 0 <= i < |w.journal.entries| && w.journal.entries[i] == e;
      ShownIsCurrent(w, w.catalog, i, owner);
    }
  }

  lemma ReconcileKeepsInv(w: World, contexts: Option<Catalog>, owner: Owner)
    requires Inv(w, owner)
    requires contexts.Some? ==> Covers(w, contexts.value)
    ensures Inv(w.(journal := AfterReconcile(w.journal, contexts)), owner)
  {
    if contexts.Some? {
      forall i | 0 <= i < |w.journal.entries| && w.journal.entries[i].state.Intent?
                 && !Holds(contexts.value, w.journal.entries[i], owner)
        ensures !Live(w.catalog, w.journal.entries[i].sessionId, w.journal.entries[i].createdAt)
      {
        UnmatchedIsGone(w, contexts.value, i, owner);
      }
      SettlingKeepsInv(w, Reconciled(w.journal, contexts.value), owner);
    }
  }

  // A context about to be deleted has either one unresolved intent or no trace in the journal at all.
  lemma FreshUnlessIntended(w: World, context: Context, owner: Owner)
    requires Inv(w, owner)
    requires Live(w.catalog, context.sessionId, context.createdAt) && w.catalog[context.sessionId] == context
    requires forall i :: 0 <= i < |w.journal.entries| ==>
      !(w.journal.entries[i].state.Intent? && SamePair(w.journal.entries[i], context, owner))
    ensures forall k :: 0 <= k < |w.history| ==>
      (w.history[k].sessionId, w.history[k].createdAt) != (context.sessionId, context.createdAt)
  {
    forall k | 0 <= k < |w.history|
      ensures (w.history[k].sessionId, w.history[k].createdAt) != (context.sessionId, context.createdAt)
    {
      if k >= w.journal.floor {
        var e := w.journal.entries[k - w.journal.floor];
        assert e in w.journal.entries;
        assert EntryFor(e, w.history[w.journal.floor + (k - w.journal.floor)]);
      }
    }
  }

  lemma PruneKeepsInv(w: World, owner: Owner)
    requires Inv(w, owner)
    requires |w.journal.entries| >= TOMBSTONE_LIMIT ==> w.journal.entries[0].state.Deleted?
    ensures Inv(w.(journal := Pruned(w.journal)), owner)
    ensures |Pruned(w.journal).entries| < TOMBSTONE_LIMIT
    ensures Pruned(w.journal).entries <= w.journal.entries || Pruned(w.journal).entries == w.journal.entries[1..]
  {
    var j := w.journal;
    if |j.entries| >= TOMBSTONE_LIMIT {
      var p := Pruned(j);
      assert j.entries[0].sequence == j.floor + 1;
      assert j.entries[0] in j.entries;
      assert EntryFor(j.entries[0], w.history[j.floor + 0]);
      forall i | 0 <= i < |p.entries|
        ensures p.entries[i] == j.entries[i + 1] && p.entries[i] in j.entries
        ensures p.entries[i].sequence == p.floor + 1 + i
        ensures EntryFor(p.entries[i], w.history[p.floor + i])
      {
        assert EntryFor(j.entries[i + 1], w.history[j.floor + (i + 1)]);
      }
    }
  }

  lemma AppendKeepsInv(w: World, context: Context, now: nat, owner: Owner)
    requires Inv(w, owner) && |w.journal.entries| < TOMBSTONE_LIMIT
    requires now > 0 && context.createdAt > 0 && context.workspaceIds != {} && InScope(context, owner)
    requires context.sessionId in w.catalog && w.catalog[context.sessionId] == context
    requires forall k :: 0 <= k < |w.history| ==>
      (w.history[k].sessionId, w.history[k].createdAt) != (context.sessionId, context.createdAt)
    ensures Inv(w.(journal := w.journal.(nextSequence := w.journal.nextSequence + 1,
                                         entries := w.journal.entries + [NewIntent(w.journal, context, now)]),
                   history := w.history + [context]), owner)
  {
    var added := NewIntent(w.journal, context, now);
    var entries := w.journal.entries + [added];
    var history := w.history + [context];
    forall i | 0 <= i < |entries|
      ensures EntryFor(entries[i], history[w.journal.floor + i])
      ensures entries[i].sequence == w.journal.floor + 1 + i
      ensures ValidEntry(entries[i], owner)
      ensures entries[i].state.Deleted? ==> !Live(w.catalog, entries[i].sessionId, entries[i].createdAt)
    {
      if i < |w.journal.entries| {
        assert EntryFor(w.journal.entries[i], w.history[w.journal.floor + i]);
        assert w.journal.entries[i] in w.journal.entries;
      }
    }
  }

  // The three outcomes of a prepare whose scope is admitted, after reconciliation.
  lemma PreparedCases(j: Journal, context: Context, contexts: Option<Catalog>, now: nat, existing: Option<nat>)
    requires InScope(context, j.owner)
    requires existing == FindIntent(AfterReconcile(j, contexts), context)
    ensures var settled := AfterReconcile(j, contexts);
            if existing.Some? then
              && settled.nextSequence == j.nextSequence
              && Prepared(j, context, contexts, now)
                 == Done(settled != j, settled, settled.entries[existing.value].sequence)
            else if |settled.entries| >= TOMBSTONE_LIMIT && settled.entries[0].state.Intent? then
              Prepared(j, context, contexts, now) == Refused(RetentionFull)
            else
              var kept := Pruned(settled);
              Prepared(j, context, contexts, now)
              == Done(true, kept.(nextSequence := kept.nextSequence + 1,
                                  entries := kept.entries + [NewIntent(kept, context, now)]), j.nextSequence)
  {
  }

  lemma PrepareKeepsInv(w: World, context: Context, contexts: Option<Catalog>, now: nat, owner: Owner)
    requires Inv(w, owner) && Enabled(w, Prepare(context, contexts, now))
    ensures Inv(Next(w, Prepare(context, contexts, now)), owner)
  {
    if InScope(context, owner) {
      ReconcileKeepsInv(w, contexts, owner);
      var settled := w.(journal := AfterReconcile(w.journal, contexts));
      var existing := FindIntent(settled.journal, context);
      PreparedCases(w.journal, context, contexts, now, existing);
      if existing.None? && (|settled.journal.entries| < TOMBSTONE_LIMIT || settled.journal.entries[0].state.Deleted?) {
        AddIntentKeepsInv(settled, context, now, owner);
      }
      hide WellFormed, HistoryMatches, CatalogConsistent, DeletionsAreReal, Distinct, Prepared, Pruned;
    }
  }

  /** The receipt that prepare hands out names the context it was asked for. */
  lemma PrepareIssuesReceipt(w: World, context: Context, contexts: Option<Catalog>, now: nat, owner: Owner)
    requires Inv(w, owner) && Enabled(w, Prepare(context, contexts, now))
    requires Prepared(w.journal, context, contexts, now).Done?
    ensures var sequence := Prepared(w.journal, context, contexts, now).value;
            var history := Next(w, Prepare(context, contexts, now)).history;
            0 < sequence <= |history| && history[sequence - 1] == context
  {
    assert InScope(context, w.journal.owner);
    hide Prepared, CatalogConsistent, DeletionsAreReal, Distinct;
    ReconcileKeepsInv(w, contexts, owner);
    var settled := w.(journal := AfterReconcile(w.journal, contexts));
    var existing := FindIntent(settled.journal, context);
    PreparedCases(w.journal, context, contexts, now, existing);
    if existing.Some? {
      ExistingIntentNamesContext(settled, context, existing.value, owner);
    }
  }

  lemma ExistingIntentNamesContext(w: World, context: Context, i: nat, owner: Owner)
    requires Inv(w, owner) && i < |w.journal.entries|
    requires w.catalog.Keys >= {context.sessionId} && w.catalog[context.sessionId] == context
    requires SamePair(w.journal.entries[i], context, owner)
    ensures var sequence := w.journal.entries[i].sequence;
            0 < sequence <= |w.history| && w.history[sequence - 1] == context
  {
    assert EntryFor(w.journal.entries[i], w.history[w.journal.floor + i]);
    assert Live(w.catalog, context.sessionId, context.createdAt);
  }

  lemma AddIntentKeepsInv(w: World, context: Context, now: nat, owner: Owner)
    requires Inv(w, owner) && Enabled(w, Prepare(context, None, now)) && InScope(context, owner)
    requires |w.journal.entries| < TOMBSTONE_LIMIT || w.journal.entries[0].state.Deleted?
    requires forall i :: 0 <= i < |w.journal.entries| ==>
      !(w.journal.entries[i].state.Intent? && SamePair(w.journal.entries[i], context, owner))
    ensures var kept := Pruned(w.journal);
      Inv(w.(journal := kept.(nextSequence := kept.nextSequence + 1,
                              entries := kept.entries + [NewIntent(kept, context, now)]),
             history := w.history + [context]), owner)
  {
    FreshUnlessIntended(w, context, owner);
    PruneKeepsInv(w, owner);
    AppendKeepsInv(w.(journal := Pruned(w.journal)), context, now, owner);
  }

  lemma CommitKeepsInv(w: World, context: Context, sequence: nat, owner: Owner)
    requires Inv(w, owner) && Enabled(w, Commit(context, sequence))
    ensures Inv(Next(w, Commit(context, sequence)), owner)
  {
    var committed := Committed(w.journal, context, sequence);
    if committed.Done? {
      SettlingKeepsInv(w, committed.journal.entries, owner);
    }
  }

  lemma SettleKeepsInv(w: World, id: string, contexts: Catalog, preventReuse: bool, owner: Owner)
    requires Inv(w, owner) && Covers(w, contexts)
    ensures Inv(Next(w, Action.Settle(id, contexts, preventReuse)), owner)
  {
    var settled := BeforeCreate(w.journal, id, contexts, preventReuse);
    if settled.Done? {
      forall i | 0 <= i < |w.journal.entries| && w.journal.entries[i].sessionId == id && w.journal.entries[i].state.Intent?
        ensures !Live(w.catalog, w.journal.entries[i].sessionId, w.journal.entries[i].createdAt)
      {
        UnmatchedIsGone(w, contexts, i, owner);
      }
      SettlingKeepsInv(w, settled.journal.entries, owner);
    }
  }

  lemma CreateKeepsInv(w: World, context: Context, owner: Owner)
    requires Inv(w, owner) && Enabled(w, Create(context))
    ensures Inv(Next(w, Create(context)), owner)
  {
    var n := Next(w, Create(context));
    forall i | 0 <= i < |w.journal.entries|
      ensures Live(n.catalog, w.journal.entries[i].sessionId, w.journal.entries[i].createdAt) ==>
                Live(w.catalog, w.journal.entries[i].sessionId, w.journal.entries[i].createdAt)
    {
      assert EntryFor(w.journal.entries[i], w.history[w.journal.floor + i]);
    }
  }

  lemma StepKeepsInv(w: World, a: Action, owner: Owner)
    requires Inv(w, owner) && Enabled(w, a)
    ensures Inv(Next(w, a), owner)
    // The history only grows, and a pair that has left the catalog never returns.
    ensures w.history <= Next(w, a).history
    ensures forall k :: 0 <= k < |w.history| && !Live(w.catalog, w.history[k].sessionId, w.history[k].createdAt) ==>
      !Live(Next(w, a).catalog, w.history[k].sessionId, w.history[k].createdAt)
  {
    match a {
      case Prepare(context, contexts, now) => PrepareKeepsInv(w, context, contexts, now, owner);
      case Remove(id) =>
      case Commit(context, sequence) => CommitKeepsInv(w, context, sequence, owner);
      case Settle(id, contexts, preventReuse) => SettleKeepsInv(w, id, contexts, preventReuse, owner);
      case Create(context) => CreateKeepsInv(w, context, owner);
    }
  }

  /** A receipt that was issued is always accepted, even after its entry was pruned. */
  lemma CommittedNeverFails(w: World, sequence: nat, owner: Owner)
    requires Inv(w, owner) && 0 < sequence <= |w.history|
    ensures Committed(w.journal, w.history[sequence - 1], sequence).Done?
    ensures sequence > w.journal.floor ==>
      var j := Committed(w.journal, w.history[sequence - 1], sequence).journal;
      j.entries[sequence - 1 - j.floor].state.Deleted?
  {
    var context := w.history[sequence - 1];
    if sequence > w.journal.floor {
      var i := sequence - 1 - w.journal.floor;
      assert EntryFor(w.journal.entries[i], w.history[w.journal.floor + i]);
      assert SamePair(w.journal.entries[i], context, owner);
    }
  }

  /** What a page of a well-formed journal holds. */

  lemma {:induction false} CandidatesAreTail(entries: seq<Entry>, floor: nat, after: nat)
    requires forall i :: 0 <= i < |entries| ==> entries[i].sequence == floor + 1 + i
    ensures Candidates(entries, after) ==
      if after <= floor then entries else if after - floor <= |entries| then entries[after - floor..] else []
  {
    if entries != [] {
      var rest := entries[1..];
      CandidatesAreTail(rest, floor + 1, after);
      if after <= floor {
        assert entries == [entries[0]] + rest;
      }
    }
  }

  // A page over the entries beyond the cursor is refused exactly when a live intent stands first with a
  // deletion behind it. Otherwise it holds a prefix of those entries, none of them a live intent, and
  // stops short of the limit only at a live intent or at the end.
  ghost predicate ExactPage(page: Page, beyond: seq<Entry>, owner: Owner, contexts: Catalog, after: nat, limit: nat) {
    match page
    case Gap(_) =>
      && |beyond| > 0 && Open(contexts, beyond[0], owner)
      && exists k :: 0 < k < |beyond| && !Open(contexts, beyond[k], owner)
    case Records(_, nextCursor, records) =>
      && after <= nextCursor <= after + |beyond|
      && |records| == nextCursor - after <= limit
      && (forall k :: 0 <= k < |records| ==> Shows(records[k], beyond[k]))
      && (forall k :: 0 <= k < nextCursor - after ==> !Open(contexts, beyond[k], owner))
      && (|records| < limit && nextCursor < after + |beyond| ==> Open(contexts, beyond[nextCursor - after], owner))
      && (|beyond| > 0 && Open(contexts, beyond[0], owner) ==>
            forall k :: 0 <= k < |beyond| ==> Open(contexts, beyond[k], owner))
  }

  lemma PageFromExact(beyond: seq<Entry>, floor: nat, owner: Owner, contexts: Catalog, after: nat, limit: nat)
    requires limit > 0
    requires forall k :: 0 <= k < |beyond| ==> beyond[k].sequence == after + 1 + k
    ensures PageFrom(beyond, floor, owner, contexts, after, limit).floor == floor
    ensures ExactPage(PageFrom(beyond, floor, owner, contexts, after, limit), beyond, owner, contexts, after, limit)
  {
    forall e: Entry
      ensures Open(contexts, e, owner) <==> Unresolved(contexts, e, owner)
    {
      HeldIsCurrent(contexts, e, owner);
    }
    hide Open, Unresolved;
    var unresolved := Find(beyond, (e: Entry) => Unresolved(contexts, e, owner));
    if unresolved != Some(0) {
      hide Ready;
      var page := Ready(beyond, unresolved, limit);
      assert page != [] ==> page[|page| - 1] == beyond[|page| - 1];
    }
  }

  /** A page is a gap outside the retained range; inside it, the page is exact. */
  lemma PageExact(j: Journal, contexts: Catalog, after: nat, limit: nat, owner: Owner)
    requires WellFormed(j, owner) && limit > 0
    ensures PageOf(j, contexts, after, limit).floor == j.floor
    ensures after < j.floor || after >= j.nextSequence ==> PageOf(j, contexts, after, limit).Gap?
    ensures j.floor <= after < j.nextSequence ==>
      ExactPage(PageOf(j, contexts, after, limit), j.entries[after - j.floor..], owner, contexts, after, limit)
  {
    hide PageFrom;
    if j.floor <= after < j.nextSequence {
      CandidatesAreTail(j.entries, j.floor, after);
      PageFromExact(j.entries[after - j.floor..], j.floor, owner, contexts, after, limit);
    }
  }

  // What PageExact says, read at the positions of the journal.
  ghost predicate PageAt(j: Journal, page: Page, contexts: Catalog, after: nat, limit: nat) {
    var from := after - j.floor;
    && 0 <= from <= |j.entries|
    && match page
       case Gap(_) => from < |j.entries| && Open(contexts, j.entries[from], j.owner)
       case Records(_, nextCursor, records) =>
         && nextCursor == after + |records| && |records| <= limit && from + |records| <= |j.entries|
         && (forall i :: 0 <= i < |records| ==> Shows(records[i], j.entries[from + i]))
         && (forall m :: from <= m < from + |records| ==> !Open(contexts, j.entries[m], j.owner))
         && (|records| < limit && from + |records| < |j.entries| ==>
               Open(contexts, j.entries[from + |records|], j.owner))
  }

  lemma PageIsAt(j: Journal, contexts: Catalog, after: nat, limit: nat, owner: Owner)
    requires WellFormed(j, owner) && limit > 0 && j.floor <= after < j.nextSequence
    ensures PageAt(j, PageOf(j, contexts, after, limit), contexts, after, limit)
  {
    hide PageOf, Open;
    PageExact(j, contexts, after, limit, owner);
    var from := after - j.floor;
    var beyond := j.entries[from..];
    var page := PageOf(j, contexts, after, limit);
    if page.Records? {
      forall m | from <= m < from + |page.records|
        ensures !Open(contexts, j.entries[m], j.owner)
      {
        assert beyond[m - from] == j.entries[m];
      }
    }
  }

  /** The reader. */

  datatype Reader = Reader(start: nat, cursor: nat, got: seq<Record>, gap: bool)

  function Turn(r: Reader, page: Page): Reader {
    match page
    case Gap(_) => r.(gap := true)
    case Records(_, nextCursor, records) => r.(cursor := nextCursor, got := r.got + records)
  }

  predicate Reports(record: Record, context: Context, k: nat) {
    record.sequence == k + 1 && record.sessionId == context.sessionId && record.createdAt == context.createdAt
  }

  // What a reader that was never shown a gap has: every deletion up to its cursor, once, in order, each real.
  ghost predicate NothingMissed(w: World, r: Reader) {
    && r.start <= r.cursor <= |w.history|
    && |r.got| == r.cursor - r.start
    && forall k :: r.start <= k < r.cursor ==>
      && Reports(r.got[k - r.start], w.history[k], k)
      && !Live(w.catalog, w.history[k].sessionId, w.history[k].createdAt)
  }

  datatype Event =
    | Act(action: Action)
    | ReadNext(contexts: Catalog, limit: nat)

  predicate EventEnabled(w: World, e: Event) {
    match e
    case Act(a) => Enabled(w, a)
    case ReadNext(contexts, limit) => Covers(w, contexts) && 1 <= limit <= PAGE_LIMIT
  }

  function Advance(w: World, r: Reader, e: Event): (World, Reader) {
    match e
    case Act(a) => (Next(w, a), r)
    case ReadNext(contexts, limit) =>
      (w, if r.gap then r else Turn(r, PageOf(w.journal, contexts, r.cursor, limit)))
  }

  function Run(w: World, r: Reader, events: seq<Event>): (World, Reader)
    decreases |events|
  {
    if events == [] then (w, r)
    else
      var (w1, r1) := Advance(w, r, events[0]);
      Run(w1, r1, events[1..])
  }

  predicate RunEnabled(w: World, r: Reader, events: seq<Event>)
    decreases |events|
  {
    events != [] ==>
      && EventEnabled(w, events[0])
      && var (w1, r1) := Advance(w, r, events[0]);
         RunEnabled(w1, r1, events[1..])
  }

  // An entry that a page passes over is a real deletion of the context the history names.
  lemma PassedEntryIsReal(w: World, contexts: Catalog, k: nat, owner: Owner)
    requires Inv(w, owner) && Covers(w, contexts)
    requires w.journal.floor <= k < |w.history|
    requires !Open(contexts, w.journal.entries[k - w.journal.floor], owner)
    ensures Reports(RecordOf(w.journal.entries[k - w.journal.floor]), w.history[k], k)
    ensures !Live(w.catalog, w.history[k].sessionId, w.history[k].createdAt)
  {
    var i := k - w.journal.floor;
    var e := w.journal.entries[i];
    assert e in w.journal.entries;
    assert EntryFor(e, w.history[w.journal.floor + i]);
    if e.state.Intent? {
      UnmatchedIsGone(w, contexts, i, owner);
    }
  }

  lemma ReadKeepsNothingMissed(w: World, r: Reader, contexts: Catalog, limit: nat, owner: Owner)
    requires Inv(w, owner) && NothingMissed(w, r) && Covers(w, contexts) && limit > 0
    requires PageOf(w.journal, contexts, r.cursor, limit).Records?
    ensures NothingMissed(w, Turn(r, PageOf(w.journal, contexts, r.cursor, limit)))
  {
    hide PageOf, Open, Covers, CatalogConsistent, DeletionsAreReal, Distinct;
    PageExact(w.journal, contexts, r.cursor, limit, owner);
    var page := PageOf(w.journal, contexts, r.cursor, limit);
    var beyond := w.journal.entries[r.cursor - w.journal.floor..];
    forall k | r.cursor <= k < page.nextCursor
      ensures Reports(page.records[k - r.cursor], w.history[k], k)
      ensures !Live(w.catalog, w.history[k].sessionId, w.history[k].createdAt)
    {
      assert beyond[k - r.cursor] == w.journal.entries[k - w.journal.floor];
      PassedEntryIsReal(w, contexts, k, owner);
    }
  }

  /** Over every run, a reader that never saw a gap has missed no deletion and passed no live intent. */
  lemma {:induction false} ReaderMissesNothing(w: World, r: Reader, events: seq<Event>, owner: Owner)
    requires Inv(w, owner) && (r.gap || NothingMissed(w, r))
    requires RunEnabled(w, r, events)
    ensures var (w', r') := Run(w, r, events);
            Inv(w', owner) && (r'.gap || NothingMissed(w', r'))
    decreases |events|
  {
    if events != [] {
      var (w1, r1) := Advance(w, r, events[0]);
      match events[0] {
        case Act(a) => StepKeepsInv(w, a, owner);
        case ReadNext(contexts, limit) =>
          if !r.gap && PageOf(w.journal, contexts, r.cursor, limit).Records? {
            ReadKeepsNothingMissed(w, r, contexts, limit, owner);
          }
      }
      ReaderMissesNothing(w1, r1, events[1..], owner);
    }
  }

  // An owner with no journal file, and a reader at the beginning.
  lemma EmptyJournalInv(catalog: Catalog, used: set<(string, nat)>, owner: Owner)
    requires forall id :: id in catalog ==> catalog[id].sessionId == id && (id, catalog[id].createdAt) in used
    ensures Inv(World(EmptyJournal(owner), catalog, [], used), owner)
    ensures NothingMissed(World(EmptyJournal(owner), catalog, [], used), Reader(0, 0, [], false))
  {
  }

  /** So it is for every run from an owner with no journal file. */
  lemma FirstReaderMissesNothing(catalog: Catalog, used: set<(string, nat)>, events: seq<Event>, owner: Owner)
    requires forall id :: id in catalog ==> catalog[id].sessionId == id && (id, catalog[id].createdAt) in used
    requires RunEnabled(World(EmptyJournal(owner), catalog, [], used), Reader(0, 0, [], false), events)
    ensures var (w, r) := Run(World(EmptyJournal(owner), catalog, [], used), Reader(0, 0, [], false), events);
            r.gap || NothingMissed(w, r)
  {
    EmptyJournalInv(catalog, used, owner);
    ReaderMissesNothing(World(EmptyJournal(owner), catalog, [], used), Reader(0, 0, [], false), events, owner);
  }

  /** A reader is not held back: with no live intent left it is shown everything that remains. */
  lemma PageDrains(w: World, r: Reader, contexts: Catalog, limit: nat, owner: Owner)
    requires Inv(w, owner) && NothingMissed(w, r) && limit > 0
    requires r.cursor >= w.journal.floor
    requires forall i :: 0 <= i < |w.journal.entries| ==> !Open(contexts, w.journal.entries[i], owner)
    ensures var page := PageOf(w.journal, contexts, r.cursor, limit);
            && page.Records?
            && page.nextCursor == if |w.history| - r.cursor <= limit then |w.history| else r.cursor + limit
  {
    hide PageOf, Open, CatalogConsistent, DeletionsAreReal, Distinct;
    PageIsAt(w.journal, contexts, r.cursor, limit, owner);
  }

  predicate LiveAt(w: World, k: nat)
    requires k < |w.history|
  {
    Live(w.catalog, w.history[k].sessionId, w.history[k].createdAt)
  }

  lemma OpenIffLive(w: World, k: nat, owner: Owner)
    requires Inv(w, owner) && w.journal.floor <= k < |w.history|
    ensures Open(w.catalog, w.journal.entries[k - w.journal.floor], owner) <==> LiveAt(w, k)
  {
    var i := k - w.journal.floor;
    HeldIffLive(w, i, owner);
    assert w.journal.entries[i] in w.journal.entries;
    assert EntryFor(w.journal.entries[i], w.history[w.journal.floor + i]);
  }

  // The deletions up to the first context that is there; refused where such a context comes first and a deletion is behind.
  ghost predicate CatalogPage(w: World, page: Page, after: nat, limit: nat) {
    match page
    case Gap(_) => after < |w.history| && LiveAt(w, after) && exists k :: after < k < |w.history| && !LiveAt(w, k)
    case Records(_, nextCursor, records) =>
      && nextCursor == after + |records| <= |w.history| && |records| <= limit
      && (forall i :: 0 <= i < |records| ==> !LiveAt(w, after + i) && Reports(records[i], w.history[after + i], after + i))
      && (|records| < limit && nextCursor < |w.history| ==> LiveAt(w, nextCursor))
      && (after < |w.history| && LiveAt(w, after) ==> forall k :: after < k < |w.history| ==> LiveAt(w, k))
  }

  ghost predicate BeyondAt(w: World, beyond: seq<Entry>, after: nat, k: nat)
    requires after <= k < |w.history| && |beyond| == |w.history| - after
  {
    var e := beyond[k - after];
    e.sequence == k + 1 && EntryFor(e, w.history[k]) && (Open(w.catalog, e, w.journal.owner) <==> LiveAt(w, k))
  }

  lemma BeyondHolds(w: World, beyond: seq<Entry>, after: nat, k: nat, owner: Owner)
    requires Inv(w, owner) && w.journal.floor <= after <= k < |w.history|
    requires |beyond| == |w.history| - after && beyond == w.journal.entries[after - w.journal.floor..]
    ensures BeyondAt(w, beyond, after, k)
  {
    OpenIffLive(w, k, owner);
    EntryAt(w, k, owner);
    hide Open, LiveAt;
    assert beyond[k - after] == w.journal.entries[k - w.journal.floor];
  }

  lemma EntryAt(w: World, k: nat, owner: Owner)
    requires Inv(w, owner) && w.journal.floor <= k < |w.history|
    ensures var e := w.journal.entries[k - w.journal.floor];
      e.sequence == k + 1 && EntryFor(e, w.history[k])
  {
    assert EntryFor(w.journal.entries[k - w.journal.floor], w.history[w.journal.floor + (k - w.journal.floor)]);
  }

  lemma CatalogPageHolds(w: World, page: Page, beyond: seq<Entry>, after: nat, limit: nat)
    requires after <= |w.history| && |beyond| == |w.history| - after
    requires ExactPage(page, beyond, w.journal.owner, w.catalog, after, limit)
    requires forall k :: after <= k < |w.history| ==> BeyondAt(w, beyond, after, k)
    ensures CatalogPage(w, page, after, limit)
  {
    hide Open, LiveAt;
    forall i | 0 <= i < |beyond|
      ensures Open(w.catalog, beyond[i], w.journal.owner) <==> LiveAt(w, after + i)
      ensures beyond[i].sequence == after + i + 1 && EntryFor(beyond[i], w.history[after + i])
    {
      assert BeyondAt(w, beyond, after, after + i);
    }
    if page.Gap? {
      var i :| 0 < i < |beyond| && !Open(w.catalog, beyond[i], w.journal.owner);
      assert !LiveAt(w, after + i);
    } else {
      forall i | 0 <= i < |page.records|
        ensures !LiveAt(w, after + i) && Reports(page.records[i], w.history[after + i], after + i)
      {
        assert Shows(page.records[i], beyond[i]) && !Open(w.catalog, beyond[i], w.journal.owner);
      }
      if after < |w.history| && LiveAt(w, after) {
        assert Open(w.catalog, beyond[0], w.journal.owner);
        forall k | after < k < |w.history|
          ensures LiveAt(w, k)
        {
          assert Open(w.catalog, beyond[k - after], w.journal.owner) && BeyondAt(w, beyond, after, k);
        }
      }
    }
  }

  /** A page of the catalog itself shows the deletions up to the first context that is there, and is refused exactly where
      such a context comes first and a deletion stands behind it. */
  lemma CatalogPageIsExact(w: World, after: nat, limit: nat, owner: Owner)
    requires Inv(w, owner) && limit > 0 && w.journal.floor <= after <= |w.history|
    ensures CatalogPage(w, PageOf(w.journal, w.catalog, after, limit), after, limit)
  {
    hide ExactPage, PageOf, Open, LiveAt, CatalogConsistent, DeletionsAreReal, Distinct, CatalogPage, BeyondAt;
    PageExact(w.journal, w.catalog, after, limit, owner);
    var beyond := w.journal.entries[after - w.journal.floor..];
    assert |beyond| == |w.history| - after;
    forall k | after <= k < |w.history|
      ensures BeyondAt(w, beyond, after, k)
    {
      BeyondHolds(w, beyond, after, k, owner);
    }
    hide Inv;
    CatalogPageHolds(w, PageOf(w.journal, w.catalog, after, limit), beyond, after, limit);
  }

  /** Which pages are wrong when the snapshot is older than the journal. */

  predicate LiveEntry(w: World, k: nat)
    requires k < |w.journal.entries|
  {
    Live(w.catalog, w.journal.entries[k].sessionId, w.journal.entries[k].createdAt)
  }

  // The page tells its reader that a context which is there was deleted.
  predicate ReportsLive(w: World, page: Page) {
    page.Records?
    && exists i :: 0 <= i < |page.records| && Live(w.catalog, page.records[i].sessionId, page.records[i].createdAt)
  }

  // Within reach of the cursor and the limit stands an intent of a live context, and from the cursor up to it the
  // snapshot shows no intent as current.
  predicate LiveIntentInReach(w: World, contexts: Catalog, after: nat, limit: nat) {
    exists k :: 0 <= k < |w.journal.entries| && InReach(w, contexts, after, limit, k)
  }

  predicate InReach(w: World, contexts: Catalog, after: nat, limit: nat, k: nat)
    requires k < |w.journal.entries|
  {
    && w.journal.floor <= after <= w.journal.floor + k < after + limit
    && w.journal.entries[k].state.Intent? && LiveEntry(w, k)
    && forall m :: after - w.journal.floor <= m <= k ==> !Open(contexts, w.journal.entries[m], w.journal.owner)
  }

  lemma ReportedIsInReach(w: World, contexts: Catalog, after: nat, limit: nat, page: Page, owner: Owner)
    requires Inv(w, owner) && PageAt(w.journal, page, contexts, after, limit) && ReportsLive(w, page)
    ensures LiveIntentInReach(w, contexts, after, limit)
  {
    hide Open, CatalogConsistent, Distinct, HistoryMatches, WellFormed;
    var i :| 0 <= i < |page.records| && Live(w.catalog, page.records[i].sessionId, page.records[i].createdAt);
    var k := after - w.journal.floor + i;
    assert w.journal.entries[k] in w.journal.entries;
    assert InReach(w, contexts, after, limit, k);
  }

  lemma InReachIsReported(w: World, contexts: Catalog, after: nat, limit: nat, page: Page)
    requires PageAt(w.journal, page, contexts, after, limit) && LiveIntentInReach(w, contexts, after, limit)
    ensures ReportsLive(w, page)
  {
    hide Open;
    var k :| 0 <= k < |w.journal.entries| && InReach(w, contexts, after, limit, k);
    var from := after - w.journal.floor;
    assert !Open(contexts, w.journal.entries[from], w.journal.owner);
    assert Shows(page.records[k - from], w.journal.entries[k]);
  }

  /** Before the call: a page will report a live context exactly when such an intent is in reach of it. */
  lemma PageReportsLiveIffInReach(w: World, contexts: Catalog, after: nat, limit: nat, owner: Owner)
    requires Inv(w, owner) && limit > 0
    ensures ReportsLive(w, PageOf(w.journal, contexts, after, limit)) <==> LiveIntentInReach(w, contexts, after, limit)
  {
    hide ReportsLive, PageAt, CatalogConsistent, DeletionsAreReal, Distinct;
    var page := PageOf(w.journal, contexts, after, limit);
    if w.journal.floor <= after < w.journal.nextSequence {
      PageIsAt(w.journal, contexts, after, limit, owner);
      if ReportsLive(w, page) {
        ReportedIsInReach(w, contexts, after, limit, page, owner);
      }
      if LiveIntentInReach(w, contexts, after, limit) {
        InReachIsReported(w, contexts, after, limit, page);
      }
    } else {
      GapReportsNothing(w, page);
    }
  }

  lemma GapReportsNothing(w: World, page: Page)
    requires page.Gap?
    ensures !ReportsLive(w, page)
  {
  }

  /** A snapshot is safe to page with, at every cursor and with every limit, exactly when it covers the journal. */
  lemma SnapshotIsSafeIffItCovers(w: World, contexts: Catalog, owner: Owner)
    requires Inv(w, owner)
    ensures Covers(w, contexts) <==>
      forall after: nat, limit: nat :: 1 <= limit <= PAGE_LIMIT ==>
        !ReportsLive(w, PageOf(w.journal, contexts, after, limit))
  {
    hide PageOf, ReportsLive, Inv;
    if Covers(w, contexts) {
      forall after: nat, limit: nat | 1 <= limit <= PAGE_LIMIT
        ensures !ReportsLive(w, PageOf(w.journal, contexts, after, limit))
      {
        PageReportsLiveIffInReach(w, contexts, after, limit, owner);
      }
    } else {
      var e :| e in w.journal.entries && e.state.Intent? && Live(w.catalog, e.sessionId, e.createdAt)
               && !Holds(contexts, e, w.journal.owner);
      var k :| 0 <= k < |w.journal.entries| && w.journal.entries[k] == e;
      PageReportsLiveIffInReach(w, contexts, w.journal.floor + k, 1, owner);
      assert InReach(w, contexts, w.journal.floor + k, 1, k);
    }
  }

  const OWNER := Owner("u", {"a"})
  const CONTEXT := Context("s", 7, "u", {"a"})
  const INTENT := Entry(1, "s", 7, 9, Intent, Some({"a"}))
  const PREPARED := World(Journal(OWNER, 2, 0, [INTENT]), map["s" := CONTEXT], [CONTEXT], {("s", 7)})

  // A page whose snapshot predates the creation of a context reports that live context as deleted.
  lemma StalePageReportsLiveContext()
    ensures Inv(PREPARED, OWNER)
    ensures !Covers(PREPARED, map[])
    ensures PageOf(PREPARED.journal, map[], 0, 1) == Records(0, 1, [RecordOf(INTENT)])
    ensures Live(PREPARED.catalog, INTENT.sessionId, INTENT.createdAt)
  {
    assert INTENT in PREPARED.journal.entries && !Holds(map[], INTENT, OWNER);
    assert Candidates([INTENT], 0) == [INTENT];
    assert !Open(map[], INTENT, OWNER);
    assert RecordsOf([INTENT]) == [RecordOf(INTENT)];
  }
}
