/**
Mutations are called at one moment, with the catalog as it is then, and run later, in call order,
behind one promise chain; the catalog goes on changing in between. This module proves that a mutation
that finally runs is always one that TombstoneRuns allows, although its snapshot may be out of date.
*/
module TombstoneQueue {
  import opened Wrappers
  import opened Tombstones
  import opened TombstoneRuns

  datatype System = System(w: World, queue: seq<Action>)

  datatype Step =
    | Call(action: Action)
    | RunHead
    | Lose(sessionId: string)
    | Gain(context: Context)

  predicate IsMutation(a: Action) {
    a.Prepare? || a.Commit? || a.Settle?
  }

  // The snapshot argument is the catalog at the time of the call.
  predicate CalledNow(w: World, a: Action) {
    && IsMutation(a)
    && Enabled(w, a)
    && (a.Prepare? ==> a.contexts == None || a.contexts == Some(w.catalog))
    && (a.Settle? ==> a.snapshot == w.catalog)
  }

  // A close awaits its prepare before it removes the context it is closing.
  predicate Allowed(s: System, step: Step) {
    match step
    case Call(a) => CalledNow(s.w, a)
    case RunHead => s.queue != []
    case Lose(id) => forall a <- s.queue :: a.Prepare? ==> a.context.sessionId != id
    case Gain(context) => Enabled(s.w, Create(context))
  }

  function Take(s: System, step: Step): System {
    match step
    case Call(a) => s.(queue := s.queue + [a])
    case RunHead => if s.queue == [] then s else System(Next(s.w, s.queue[0]), s.queue[1..])
    case Lose(id) => s.(w := Next(s.w, Remove(id)))
    case Gain(context) => s.(w := Next(s.w, Create(context)))
  }

  // A snapshot shows a context unless the context has since left the catalog.
  predicate Shows(snapshot: Catalog, w: World, sessionId: string, createdAt: nat) {
    Live(w.catalog, sessionId, createdAt) ==>
      sessionId in snapshot && snapshot[sessionId] == w.catalog[sessionId]
  }

  function SnapshotOf(a: Action): Option<Catalog> {
    match a
    case Prepare(_, contexts, _) => contexts
    case Settle(_, contexts, _) => Some(contexts)
    case _ => None
  }

  ghost predicate QueuedSound(w: World, queue: seq<Action>, k: nat)
    requires k < |queue|
  {
    var a := queue[k];
    && IsMutation(a)
    && (SnapshotOf(a).Some? ==> Covers(w, SnapshotOf(a).value))
    // It also shows the contexts whose intents will be written before this mutation runs.
    && (SnapshotOf(a).Some? ==> forall i :: 0 <= i < k && queue[i].Prepare? ==>
          Shows(SnapshotOf(a).value, w, queue[i].context.sessionId, queue[i].context.createdAt))
    && (a.Prepare? ==> Enabled(w, a.(contexts := None))
                       && (a.context.sessionId, a.context.createdAt) in w.used)
    && (a.Commit? ==> Enabled(w, a) && (a.context.sessionId, a.context.createdAt) in w.used)
  }

  ghost predicate QueueInv(s: System, owner: Owner) {
    && Inv(s.w, owner)
    && forall k :: 0 <= k < |s.queue| ==> QueuedSound(s.w, s.queue, k)
  }

  // Running the head adds at most the head's own intent to the journal.
  lemma HeadAddsOwnIntent(w: World, a: Action, e: Entry)
    requires IsMutation(a) && e in Next(w, a).journal.entries && e.state.Intent?
    ensures e in w.journal.entries
      || (a.Prepare? && e.sessionId == a.context.sessionId && e.createdAt == a.context.createdAt)
  {
    var j := Next(w, a).journal;
    if !a.Prepare? {
      var i :| 0 <= i < |j.entries| && j.entries[i] == e;
      assert w.journal.entries[i] == e;
    } else if Prepared(w.journal, a.context, a.contexts, a.now).Done? {
      IntentsAfterReconcile(w.journal, a.contexts);
      var settled := AfterReconcile(w.journal, a.contexts);
      PreparedCases(w.journal, a.context, a.contexts, a.now, FindIntent(settled, a.context));
    }
  }

  lemma IntentsAfterReconcile(j: Journal, contexts: Option<Catalog>)
    ensures forall e <- AfterReconcile(j, contexts).entries :: e.state.Intent? ==> e in j.entries
  {
    var settled := AfterReconcile(j, contexts);
    forall e <- settled.entries | e.state.Intent?
      ensures e in j.entries
    {
      var i :| 0 <= i < |settled.entries| && settled.entries[i] == e;
      assert j.entries[i] == e;
    }
  }

  lemma RunHeadKeepsInv(s: System, owner: Owner)
    requires QueueInv(s, owner) && s.queue != []
    ensures Enabled(s.w, s.queue[0])
    ensures QueueInv(Take(s, RunHead), owner)
  {
    var head := s.queue[0];
    assert QueuedSound(s.w, s.queue, 0);
    StepKeepsInv(s.w, head, owner);
    var n := Take(s, RunHead);
    forall k | 0 <= k < |n.queue|
      ensures QueuedSound(n.w, n.queue, k)
    {
      assert QueuedSound(s.w, s.queue, k + 1);
      assert n.queue[k] == s.queue[k + 1];
      if SnapshotOf(n.queue[k]).Some? {
        var snapshot := SnapshotOf(n.queue[k]).value;
        forall e <- n.w.journal.entries | e.state.Intent? && Live(n.w.catalog, e.sessionId, e.createdAt)
          ensures Holds(snapshot, e, n.w.journal.owner)
        {
          HeadAddsOwnIntent(s.w, head, e);
          if e !in s.w.journal.entries {
            var i :| 0 <= i < |n.w.journal.entries| && n.w.journal.entries[i] == e;
            ShownIsCurrent(n.w, snapshot, i, owner);
          }
          assert s.queue[0].Prepare? ==>
            Shows(snapshot, s.w, s.queue[0].context.sessionId, s.queue[0].context.createdAt);
        }
        assert forall i :: 0 <= i < k ==> n.queue[i] == s.queue[i + 1];
      }
    }
  }

  // Losing a context takes nothing away from what a snapshot must show; a context gained is new to all.
  lemma CatalogChangeKeepsSound(s: System, w': World, owner: Owner)
    requires QueueInv(s, owner)
    requires w' == s.w.(catalog := w'.catalog, used := w'.used) && s.w.used <= w'.used
    requires forall id, createdAt :: (id, createdAt) in s.w.used && Live(w'.catalog, id, createdAt) ==>
      id in s.w.catalog && s.w.catalog[id] == w'.catalog[id]
    requires forall a <- s.queue :: a.Prepare? ==>
      a.context.sessionId in w'.catalog && w'.catalog[a.context.sessionId] == a.context
    ensures forall k :: 0 <= k < |s.queue| ==> QueuedSound(w', s.queue, k)
  {
    forall e <- s.w.journal.entries
      ensures (e.sessionId, e.createdAt) in s.w.used
    {
      var i :| 0 <= i < |s.w.journal.entries| && s.w.journal.entries[i] == e;
      assert EntryFor(e, s.w.history[s.w.journal.floor + i]);
    }
    forall k | 0 <= k < |s.queue|
      ensures QueuedSound(w', s.queue, k)
    {
      assert QueuedSound(s.w, s.queue, k);
      forall i | 0 <= i < k && s.queue[i].Prepare?
        ensures (s.queue[i].context.sessionId, s.queue[i].context.createdAt) in s.w.used
      {
        assert QueuedSound(s.w, s.queue, i);
      }
      assert s.queue[k] in s.queue;
    }
  }

  lemma CallKeepsInv(s: System, a: Action, owner: Owner)
    requires QueueInv(s, owner) && CalledNow(s.w, a)
    ensures QueueInv(Take(s, Call(a)), owner)
  {
    var n := Take(s, Call(a));
    CatalogCovers(s.w, owner);
    forall k | 0 <= k < |n.queue|
      ensures QueuedSound(n.w, n.queue, k)
    {
      if k < |s.queue| {
        assert QueuedSound(s.w, s.queue, k);
        assert forall i :: 0 <= i <= k ==> n.queue[i] == s.queue[i];
      }
    }
  }

  /** However calls, mutations and catalog changes interleave, the mutation that runs is an enabled one. */
  lemma InterleavingKeepsInv(s: System, step: Step, owner: Owner)
    requires QueueInv(s, owner) && Allowed(s, step)
    ensures QueueInv(Take(s, step), owner)
    ensures step.RunHead? ==> Enabled(s.w, s.queue[0])
  {
    match step {
      case Call(a) => CallKeepsInv(s, a, owner);
      case RunHead => RunHeadKeepsInv(s, owner);
      case Lose(id) =>
        StepKeepsInv(s.w, Remove(id), owner);
        forall a <- s.queue | a.Prepare?
          ensures a.context.sessionId in Take(s, step).w.catalog
          ensures Take(s, step).w.catalog[a.context.sessionId] == a.context
        {
          var k :| 0 <= k < |s.queue| && s.queue[k] == a;
          assert QueuedSound(s.w, s.queue, k);
        }
        CatalogChangeKeepsSound(s, Next(s.w, Remove(id)), owner);
      case Gain(context) =>
        StepKeepsInv(s.w, Create(context), owner);
        forall a <- s.queue | a.Prepare?
          ensures a.context.sessionId in Take(s, step).w.catalog
          ensures Take(s, step).w.catalog[a.context.sessionId] == a.context
        {
          var k :| 0 <= k < |s.queue| && s.queue[k] == a;
          assert QueuedSound(s.w, s.queue, k);
        }
        CatalogChangeKeepsSound(s, Next(s.w, Create(context)), owner);
    }
  }

  /** Whole interleaved runs, with a reader. */

  datatype SystemEvent =
    | Stepped(step: Step)
    | PageRead(contexts: Catalog, limit: nat)

  predicate SystemAllowed(s: System, e: SystemEvent) {
    match e
    case Stepped(step) => Allowed(s, step)
    case PageRead(contexts, limit) => Covers(s.w, contexts) && 1 <= limit <= PAGE_LIMIT
  }

  function SystemAdvance(s: System, r: Reader, e: SystemEvent): (System, Reader) {
    match e
    case Stepped(step) => (Take(s, step), r)
    case PageRead(contexts, limit) => (s, Advance(s.w, r, ReadNext(contexts, limit)).1)
  }

  function SystemRun(s: System, r: Reader, events: seq<SystemEvent>): (System, Reader)
    decreases |events|
  {
    if events == [] then (s, r)
    else
      var (s1, r1) := SystemAdvance(s, r, events[0]);
      SystemRun(s1, r1, events[1..])
  }

  predicate SystemRunAllowed(s: System, r: Reader, events: seq<SystemEvent>)
    decreases |events|
  {
    events != [] ==>
      && SystemAllowed(s, events[0])
      && var (s1, r1) := SystemAdvance(s, r, events[0]);
         SystemRunAllowed(s1, r1, events[1..])
  }

  lemma StepKeepsNothingMissed(s: System, r: Reader, step: Step, owner: Owner)
    requires QueueInv(s, owner) && Allowed(s, step) && NothingMissed(s.w, r)
    ensures NothingMissed(Take(s, step).w, r)
  {
    InterleavingKeepsInv(s, step, owner);
    match step {
      case Call(a) =>
      case RunHead => StepKeepsInv(s.w, s.queue[0], owner);
      case Lose(id) => StepKeepsInv(s.w, Remove(id), owner);
      case Gain(context) => StepKeepsInv(s.w, Create(context), owner);
    }
  }

  /** Over every interleaving of calls, delayed mutations, catalog changes and page reads whose snapshot
      covers the journal: a reader that never saw a gap missed no deletion and passed no live intent. */
  lemma {:induction false} InterleavedReaderMissesNothing(s: System, r: Reader, events: seq<SystemEvent>, owner: Owner)
    requires QueueInv(s, owner) && (r.gap || NothingMissed(s.w, r))
    requires SystemRunAllowed(s, r, events)
    ensures var (s', r') := SystemRun(s, r, events);
            QueueInv(s', owner) && (r'.gap || NothingMissed(s'.w, r'))
    decreases |events|
  {
    if events != [] {
      var (s1, r1) := SystemAdvance(s, r, events[0]);
      match events[0] {
        case Stepped(step) =>
          InterleavingKeepsInv(s, step, owner);
          if !r.gap {
            StepKeepsNothingMissed(s, r, step, owner);
          }
        case PageRead(contexts, limit) =>
          if !r.gap && PageOf(s.w.journal, contexts, r.cursor, limit).Records? {
            ReadKeepsNothingMissed(s.w, r, contexts, limit, owner);
          }
      }
      InterleavedReaderMissesNothing(s1, r1, events[1..], owner);
    }
  }
}
