/**
 * Advancing one collection: incremental when a cursor can be replayed, otherwise a full listing,
 * silent the first time and diffed against the cache after that.
 */
module Reconcile {
  import opened Basics
  import opened Spine
  import opened SyncStore
  import opened Emission
  import Announce

  // ---------------------------------------------------------------- one change

  function Observed(h: Hasher, c: EventChange): SyncedEvent
    requires c.event.Some?
  {
    var e := c.event.value;
    SyncedEvent(c.eventId, Or(c.seriesId, e.recurringEventId), e.title, e.start, e.end, e.allDay, ChangeHash(h, e))
  }

  /** What, if anything, a change is news about, given the cached row. */
  function Classify(h: Hasher, c: EventChange, cached: Option<SyncedEvent>): Option<Decision> {
    if c.cancelled then
      match cached
      case None => None
      case Some(row) =>
        Some(Decision(Cancelled, c.eventId, Or(c.seriesId, row.seriesId), row.title,
                      CancelPayload(Clip(row.title, 200)), row.start, false))
    else if c.event.None? then None
    else
      var e := c.event.value;
      var hash := ChangeHash(h, e);
      var series := Or(c.seriesId, e.recurringEventId);
      var payload := Payload(Clip(e.title, 200), e.start, e.end, e.allDay, hash, None);
      match cached
      case None => Some(Decision(Created, c.eventId, series, e.title, payload, e.start, false))
      case Some(row) =>
        if row.changeHash == hash then None
        else Some(Decision(Updated, c.eventId, series, e.title,
                           payload.(timeChanged := Some(row.start != e.start || row.end != e.end)), e.start, false))
  }

  function Lookup(cache: Cache, id: string): Option<SyncedEvent> {
    if id in cache then Some(cache[id]) else None
  }

  // ---------------------------------------------------------------- a list of changes

  function Upserts(h: Hasher, changes: seq<EventChange>): seq<SyncedEvent> {
    if changes == [] then []
    else
      var front := Upserts(h, changes[..|changes| - 1]);
      var c := changes[|changes| - 1];
      if c.Live() then front + [Observed(h, c)] else front
  }

  function Removals(changes: seq<EventChange>, cached: Cache): seq<string> {
    if changes == [] then []
    else
      var front := Removals(changes[..|changes| - 1], cached);
      var c := changes[|changes| - 1];
      if c.cancelled && c.eventId in cached then front + [c.eventId] else front
  }

  function Decisions(h: Hasher, changes: seq<EventChange>, cached: Cache): seq<Decision> {
    if changes == [] then []
    else
      var front := Decisions(h, changes[..|changes| - 1], cached);
      var d := Classify(h, changes[|changes| - 1], Lookup(cached, changes[|changes| - 1].eventId));
      if d.Some? then front + [d.value] else front
  }

  /** The cache commits of _apply. */
  function Apply(h: Hasher, t: Trace, changes: seq<EventChange>, cached: Cache): Trace {
    Remove(Upsert(t, Upserts(h, changes)), Removals(changes, cached))
  }

  // ---------------------------------------------------------------- a pass

  /** Tombstones for cached rows a listing no longer mentions, in the order the rows are listed. */
  function Gone(order: seq<string>, cached: Cache, present: set<string>, since: int): seq<EventChange>
    requires forall id :: id in order ==> id in cached
  {
    if order == [] then []
    else
      var front := Gone(order[..|order| - 1], cached, present, since);
      var id := order[|order| - 1];
      if id !in present && since < cached[id].end
      then front + [EventChange(id, true, None, cached[id].seriesId)] else front
  }

  /** Cached rows a listing no longer mentions because they ended before its anchor. */
  function AgedOut(order: seq<string>, cached: Cache, present: set<string>, since: int): seq<string>
    requires forall id :: id in order ==> id in cached
  {
    if order == [] then []
    else
      var front := AgedOut(order[..|order| - 1], cached, present, since);
      var id := order[|order| - 1];
      if id !in present && cached[id].end <= since then front + [id] else front
  }

  function LiveIds(changes: seq<EventChange>): set<string> {
    set c | c in changes && c.Live() :: c.eventId
  }

  /** What the provider answers a pass, and the order the database lists the cached rows in. */
  datatype Answer = Answer(delta: Option<Page>, full: Page, since: int, order: seq<string>)

  /** The order enumerates the cached rows. */
  ghost predicate Lists(order: seq<string>, cached: Cache) {
    (forall id :: id in order <==> id in cached) && Distinct(order)
  }

  predicate Replayable(col: Col) {
    col.state.Some? && col.state.value.token.Some? && col.state.value.token.value != ""
  }

  function ResyncChanges(col: Col, a: Answer): seq<EventChange>
    requires Lists(a.order, col.cache)
  {
    a.full.changes + Gone(a.order, col.cache, LiveIds(a.full.changes), a.since)
  }

  /** The commits of one pass, in order. */
  function Pass(h: Hasher, col: Col, a: Answer): Trace
    requires Lists(a.order, col.cache)
  {
    if col.state.None? then
      SetState(Replace(Begin(col), Upserts(h, a.full.changes)), a.full.nextCursor, Some(a.since))
    else if Replayable(col) && a.delta.Some? then
      SetState(Apply(h, Begin(col), a.delta.value.changes, col.cache), a.delta.value.nextCursor,
               col.state.value.windowStart)
    else
      SetState(Remove(Apply(h, Begin(col), ResyncChanges(col, a), col.cache),
                      AgedOut(a.order, col.cache, LiveIds(a.full.changes), a.since)),
               a.full.nextCursor, Some(a.since))
  }

  /** What one pass has to announce, before folding. */
  function PassDecisions(h: Hasher, col: Col, a: Answer): seq<Decision>
    requires Lists(a.order, col.cache)
  {
    if col.state.None? then []
    else if Replayable(col) && a.delta.Some? then Decisions(h, a.delta.value.changes, col.cache)
    else Decisions(h, ResyncChanges(col, a), col.cache)
  }

  // ---------------------------------------------------------------- the reconciler

  class CalendarReconciler {
    const store: CalendarSyncStore
    const emitter: Emitter
    const h: Hasher

    constructor (store: CalendarSyncStore, emitter: Emitter, h: Hasher)
      ensures this.store == store && this.emitter == emitter && this.h == h
    {
      this.store, this.emitter, this.h := store, emitter, h;
    }

    /** Classify, write the cache in full, then announce. */
    method ApplyChanges(scope: Scope, changes: seq<EventChange>, cached: Cache, clock: nat -> int,
                        sends: Decision -> bool, ghost t: Trace)
      returns (ok: bool)
      requires t.ok && View(store.tables, scope) == t.col
      modifies store, emitter, emitter.ledger
      ensures Did(old(store.Now()), store.Now(), scope, t, Apply(h, t, changes, cached))
      ensures ok == Apply(h, t, changes, cached).ok
      ensures
        var env := Env(emitter.tenant, emitter.provider, clock, sends, emitter.cap);
        var out := PassOutcome(env, if ok then Decisions(h, changes, cached) else [], old(emitter.Markers()));
        emitter.announced == old(emitter.announced) + out.announced && emitter.Markers() == out.ledger
    {
      EmptyPassIsSilent(Env(emitter.tenant, emitter.provider, clock, sends, emitter.cap), emitter.Markers());
      if changes == [] {
        DidNothing(store.Now(), scope, t);
        return true;
      }
      var decisions: seq<Decision> := [];
      var upserts: seq<SyncedEvent> := [];
      var removals: seq<string> := [];
      for i := 0 to |changes|
        invariant decisions == Decisions(h, changes[..i], cached)
        invariant upserts == Upserts(h, changes[..i])
        invariant removals == Removals(changes[..i], cached)
      {
        assert changes[..i + 1][..i] == changes[..i];
        var c := changes[i];
        var decision := Classify(h, c, Lookup(cached, c.eventId));
        if c.cancelled {
          if c.eventId in cached {
            removals := removals + [c.eventId];
          }
        } else if c.event.Some? {
          upserts := upserts + [Observed(h, c)];
        }
        if decision.Some? {
          decisions := decisions + [decision.value];
        }
      }
      assert changes[..|changes|] == changes;
      ghost var a := store.Now();
      ok := store.UpsertEvents(scope, upserts, t);
      ghost var t1 := Upsert(t, upserts);
      if !ok {
        return;
      }
      ghost var b := store.Now();
      store.RemoveEvents(scope, removals, t1);
      DidThen(a, b, store.Now(), scope, t, t1, Remove(t1, removals));
      var emitted, consumed := emitter.EmitAll(decisions, clock, sends);
    }

    method FullSync(scope: Scope, first: bool, a: Answer, clock: nat -> int, sends: Decision -> bool, ghost col: Col)
      returns (ok: bool)
      requires View(store.tables, scope) == col && Lists(a.order, col.cache)
      requires first == col.state.None? && !(Replayable(col) && a.delta.Some?)
      modifies store, emitter, emitter.ledger
      ensures Did(old(store.Now()), store.Now(), scope, Begin(col), Pass(h, col, a)) && ok == Pass(h, col, a).ok
      ensures Announced(clock, sends, if ok then PassDecisions(h, col, a) else [],
                        old(emitter.announced), old(emitter.Markers()))
    {
      ghost var s0 := store.Now();
      EmptyPassIsSilent(Env(emitter.tenant, emitter.provider, clock, sends, emitter.cap), emitter.Markers());
      ghost var t1;
      if first {
        var rows := LiveRows(h, a.full.changes);
        ok := store.ReplaceEvents(scope, rows, Begin(col));
        t1 := Replace(Begin(col), rows);
      } else {
        var cached := View(store.tables, scope).cache;
        var present := LiveIds(a.full.changes);
        var gone := Gone(a.order, cached, present, a.since);
        ok := ApplyChanges(scope, a.full.changes + gone, cached, clock, sends, Begin(col));
        t1 := Apply(h, Begin(col), ResyncChanges(col, a), col.cache);
        if ok {
          var aged := AgedOut(a.order, cached, present, a.since);
          ghost var s1 := store.Now();
          store.RemoveEvents(scope, aged, t1);
          DidThen(s0, s1, store.Now(), scope, Begin(col), t1, Remove(t1, aged));
          t1 := Remove(t1, aged);
        }
      }
      if ok {
        ghost var s2 := store.Now();
        store.CommitState(scope, a.full.nextCursor, Some(a.since), t1);
        DidThen(s0, s2, store.Now(), scope, Begin(col), t1, Pass(h, col, a));
      }
    }

    /** The announcements and the ledger are what the decisions call for. */
    ghost predicate Announced(clock: nat -> int, sends: Decision -> bool, ds: seq<Decision>, before: seq<Decision>,
                              ledger: Option<Announce.Ledger>)
      reads emitter, emitter.ledger
    {
      var out := PassOutcome(Env(emitter.tenant, emitter.provider, clock, sends, emitter.cap), ds, ledger);
      emitter.announced == before + out.announced && emitter.Markers() == out.ledger
    }

    method SyncCollection(scope: Scope, a: Answer, clock: nat -> int, sends: Decision -> bool) returns (ok: bool)
      requires Lists(a.order, View(store.tables, scope).cache)
      modifies store, emitter, emitter.ledger
      ensures var col := old(View(store.tables, scope));
        && Did(old(store.Now()), store.Now(), scope, Begin(col), Pass(h, col, a))
        && ok == Pass(h, col, a).ok
        && Announced(clock, sends, if ok then PassDecisions(h, col, a) else [],
                     old(emitter.announced), old(emitter.Markers()))
    {
      ghost var s0 := store.Now();
      var col := View(store.tables, scope);
      if col.state.None? {
        ok := FullSync(scope, true, a, clock, sends, col);
        return;
      }
      if !Replayable(col) || a.delta.None? {
        ok := FullSync(scope, false, a, clock, sends, col);
        return;
      }
      var page := a.delta.value;
      ok := ApplyChanges(scope, page.changes, col.cache, clock, sends, Begin(col));
      if ok {
        ghost var t1 := Apply(h, Begin(col), page.changes, col.cache);
        ghost var s1 := store.Now();
        store.CommitState(scope, page.nextCursor, col.state.value.windowStart, t1);
        DidThen(s0, s1, store.Now(), scope, Begin(col), t1, Pass(h, col, a));
      }
    }
  }

  method LiveRows(h: Hasher, changes: seq<EventChange>) returns (rows: seq<SyncedEvent>)
    ensures rows == Upserts(h, changes)
  {
    rows := [];
    for i := 0 to |changes|
      invariant rows == Upserts(h, changes[..i])
    {
      assert changes[..i + 1][..i] == changes[..i];
      if !changes[i].cancelled && changes[i].event.Some? {
        rows := rows + [Observed(h, changes[i])];
      }
    }
    assert changes[..|changes|] == changes;
  }

  lemma EmptyPassIsSilent(env: Env, ledger: Option<Announce.Ledger>)
    ensures PassOutcome(env, [], ledger) == Outcome(ledger, [], [])
  {
    assert Announce.Collapsed([]) == [];
  }
}
