/**
 * Every run of passes over one collection, crashes between commits included: whenever a pass
 * completes with a cursor, the cache is the observation of the provider's snapshot at that cursor.
 */
module ReconcileRuns {
  import opened Basics
  import opened Spine
  import opened SyncStore
  import opened Reconcile
  import opened ReconcileProofs

  // ---------------------------------------------------------------- the provider

  /** An event as the provider reports it. */
  datatype Live = Live(event: Event, seriesId: Option<string>)

  /** A history of snapshots, and the snapshot each minted cursor stands for. */
  datatype Provider = Provider(snaps: nat -> map<string, Live>, version: string -> nat)

  function At(p: Provider, v: nat, id: string): Option<Live> {
    if id in p.snaps(v) then Some(p.snaps(v)[id]) else None
  }

  /** The event changed at some point after snapshot a and up to snapshot b, even if it changed back. */
  ghost predicate Touched(p: Provider, id: string, a: nat, b: nat) {
    exists k: nat :: a <= k < b && At(p, k, id) != At(p, k + 1, id)
  }

  function Observation(h: Hasher, id: string, live: Live): SyncedEvent {
    Stored(Observed(h, EventChange(id, false, Some(live.event), live.seriesId)))
  }

  predicate InWindow(live: Option<Live>, since: int) {
    live.Some? && since < live.value.event.end
  }

  /** The change tells the truth about snapshot v: a live event as it is, or one absent from the window. */
  predicate Reports(p: Provider, v: nat, since: int, c: EventChange) {
    if c.Live() then At(p, v, c.eventId) == Some(Live(c.event.value, c.seriesId))
    else c.cancelled && !InWindow(At(p, v, c.eventId), since)
  }

  predicate Minted(cursor: Option<string>) {
    cursor.Some? && cursor.value != ""
  }

  /** A delta from snapshot a to snapshot b: truthful, each id at most once, and, if it mints a cursor, complete. */
  ghost predicate DeltaContract(p: Provider, a: nat, b: nat, since: int, page: Page, lapsed: set<string>) {
    && DistinctChanges(page.changes)
    && (forall c :: c in page.changes ==> Reports(p, b, since, c))
    && (Minted(page.nextCursor) ==>
          && p.version(page.nextCursor.value) == b && page.nextCursor.value !in lapsed
          && forall id :: Touched(p, id, a, b) ==> Mentioned(page.changes, id))
  }

  /** A full listing of snapshot b: truthful, each id at most once, and, if it mints a cursor, complete. */
  ghost predicate ListingContract(p: Provider, b: nat, since: int, page: Page, lapsed: set<string>) {
    && DistinctChanges(page.changes)
    && (forall c :: c in page.changes ==> Reports(p, b, since, c))
    && (Minted(page.nextCursor) ==>
          && p.version(page.nextCursor.value) == b && page.nextCursor.value !in lapsed
          && forall id :: InWindow(At(p, b, id), since) ==> Mentioned(page.changes, id))
  }

  // ---------------------------------------------------------------- what a cache can be

  /** At this id the cache shows snapshot v: a cached row is current, and an in-window event is cached. */
  ghost predicate ShowsAt(h: Hasher, p: Provider, v: nat, since: int, cache: Cache, id: string) {
    && (id in cache ==> At(p, v, id).Some? && cache[id] == Observation(h, id, At(p, v, id).value))
    && (InWindow(At(p, v, id), since) ==> id in cache)
  }

  ghost predicate Shows(h: Hasher, p: Provider, v: nat, since: int, cache: Cache) {
    forall id :: ShowsAt(h, p, v, since, cache, id)
  }

  /**
   * From cache to cache', the row at id was left alone, set to snapshot b's, or dropped for being out of its
   * window.
   */
  ghost predicate MovedAt(h: Hasher, p: Provider, b: nat, since: int, cache: Cache, cache': Cache, id: string) {
    || Lookup(cache', id) == Lookup(cache, id)
    || (At(p, b, id).Some? && Lookup(cache', id) == Some(Observation(h, id, At(p, b, id).value)))
    || (Lookup(cache', id) == None && !InWindow(At(p, b, id), since))
  }

  // ---------------------------------------------------------------- runs

  /** The collection, how far the provider's history has been served, and the cursors it has refused. */
  datatype Node = Node(col: Col, served: nat, lapsed: set<string>)

  /** One pass, answered at snapshot b and stopped after n commits: by a crash, an error, or by completing. */
  ghost predicate PassStep(h: Hasher, p: Provider, node: Node, node': Node, a: Answer, b: nat, n: nat) {
    && Lists(a.order, node.col.cache)
    && node.served <= b == node'.served
    && n <= |Pass(h, node.col, a).commits|
    && node'.col == (if n == 0 then node.col else Pass(h, node.col, a).commits[n - 1])
    && ListingContract(p, b, a.since, a.full, node.lapsed)
    && (if Replayable(node.col) then
          var cursor := node.col.state.value.token.value;
          if a.delta.None? then node'.lapsed == node.lapsed + {cursor}
          else
            && node'.lapsed == node.lapsed && cursor !in node.lapsed
            && node.col.state.value.windowStart.Some?
            && DeltaContract(p, p.version(cursor), b, node.col.state.value.windowStart.value, a.delta.value,
                             node.lapsed)
        else node'.lapsed == node.lapsed)
  }

  ghost predicate Completes(h: Hasher, node: Node, a: Answer, n: nat)
    requires Lists(a.order, node.col.cache)
  {
    n == |Pass(h, node.col, a).commits| && Pass(h, node.col, a).ok
  }

  ghost predicate SomePass(h: Hasher, p: Provider, node: Node, node': Node) {
    exists a, b, n :: PassStep(h, p, node, node', a, b, n)
  }

  ghost predicate StepAt(h: Hasher, p: Provider, nodes: seq<Node>, i: nat)
    requires i + 1 < |nodes|
  {
    SomePass(h, p, nodes[i], nodes[i + 1])
  }

  /** A run from a collection never synced, over whatever the cache table held. */
  ghost predicate Run(h: Hasher, p: Provider, nodes: seq<Node>) {
    && nodes != [] && nodes[0].col.state == None && nodes[0].lapsed == {}
    && forall i :: 0 <= i < |nodes| - 1 ==> StepAt(h, p, nodes, i)
  }

  /** While a cursor can still be replayed, whatever it will not mention is shown as the cursor saw it. */
  ghost predicate Sound(h: Hasher, p: Provider, node: Node) {
    Replayable(node.col) && node.col.state.value.token.value !in node.lapsed ==>
      var v := p.version(node.col.state.value.token.value);
      && node.col.state.value.windowStart.Some? && v <= node.served
      && forall id :: !Touched(p, id, v, node.served) ==>
           ShowsAt(h, p, v, node.col.state.value.windowStart.value, node.col.cache, id)
  }

  // ---------------------------------------------------------------- snapshots between cursors

  lemma {:induction false} UntouchedIsConstant(p: Provider, id: string, a: nat, b: nat)
    requires a <= b && !Touched(p, id, a, b)
    ensures At(p, a, id) == At(p, b, id)
    decreases b - a
  {
    if a < b {
      UntouchedIsConstant(p, id, a, b - 1);
    }
  }

  // ---------------------------------------------------------------- a pass's commits

  lemma UpsertMoves(h: Hasher, p: Provider, b: nat, since: int, cache: Cache, changes: seq<EventChange>, id: string)
    requires DistinctChanges(changes) && forall c :: c in changes ==> Reports(p, b, since, c)
    ensures MovedAt(h, p, b, since, cache, Upserted(cache, Upserts(h, changes)), id)
  {
    UpsertsAt(h, changes, cache, id);
    if c :| c in changes && c.eventId == id && c.Live() {
      assert c == EventChange(id, false, Some(c.event.value), c.seriesId);
    }
  }

  lemma ApplyMoves(h: Hasher, p: Provider, b: nat, since: int, col: Col, changes: seq<EventChange>, id: string)
    requires DistinctChanges(changes) && forall c :: c in changes ==> Reports(p, b, since, c)
    ensures MovedAt(h, p, b, since, col.cache, Apply(h, Begin(col), changes, col.cache).col.cache, id)
  {
    ApplyLeaves(h, col, changes, id);
    if c :| c in changes && c.eventId == id {
      if c.Live() { assert c == EventChange(id, false, Some(c.event.value), c.seriesId); }
    }
  }

  /** Whatever commit an incremental pass stops at, each row moved truthfully; before the last, the cursor stays. */
  lemma IncrementalCommits(h: Hasher, p: Provider, node: Node, node': Node, a: Answer, b: nat, n: nat, id: string)
    requires PassStep(h, p, node, node', a, b, n) && Replayable(node.col) && a.delta.Some?
    ensures MovedAt(h, p, b, node.col.state.value.windowStart.value, node.col.cache, node'.col.cache, id)
    ensures Pass(h, node.col, a).ok
    ensures n < |Pass(h, node.col, a).commits| ==> node'.col.state == node.col.state
    ensures n == |Pass(h, node.col, a).commits| ==>
      && node'.col.state == Some(SyncState(a.delta.value.nextCursor, node.col.state.value.windowStart))
      && LeavesAt(h, a.delta.value.changes, node.col.cache, node'.col.cache, id)
  {
    var col, changes, since := node.col, a.delta.value.changes, node.col.state.value.windowStart.value;
    ApplyLeaves(h, col, changes, id);
    ApplyMoves(h, p, b, since, col, changes, id);
    UpsertMoves(h, p, b, since, col.cache, changes, id);
    var t := Apply(h, Begin(col), changes, col.cache);
    assert |Pass(h, col, a).commits| == |t.commits| + 1;
    if n <= |t.commits| {
      StoppedCaches(h, col, changes, n);
      if n > 0 { assert Pass(h, col, a).commits[n - 1] == t.commits[n - 1]; }
    }
  }

  /** A row the delta does not touch is still shown after a move. */
  lemma MovedStillShows(h: Hasher, p: Provider, v: nat, b: nat, since: int, cache: Cache, cache': Cache, id: string)
    requires ShowsAt(h, p, v, since, cache, id) && At(p, v, id) == At(p, b, id)
    requires MovedAt(h, p, b, since, cache, cache', id)
    ensures ShowsAt(h, p, v, since, cache', id) && ShowsAt(h, p, b, since, cache', id)
  {
    assert Lookup(cache', id).Some? <==> id in cache';
    assert Lookup(cache, id).Some? <==> id in cache;
  }

  lemma IncrementalStaysSound(h: Hasher, p: Provider, node: Node, node': Node, a: Answer, b: nat, n: nat)
    requires Sound(h, p, node) && PassStep(h, p, node, node', a, b, n)
    requires Replayable(node.col) && a.delta.Some? && n < |Pass(h, node.col, a).commits|
    ensures Sound(h, p, node')
  {
    var s := node.col.state.value;
    var v, since := p.version(s.token.value), s.windowStart.value;
    IncrementalCommits(h, p, node, node', a, b, n, "");
    forall id | !Touched(p, id, v, b) ensures ShowsAt(h, p, v, since, node'.col.cache, id) {
      IncrementalCommits(h, p, node, node', a, b, n, id);
      UntouchedIsConstant(p, id, v, b);
      assert !Touched(p, id, v, node.served);
      MovedStillShows(h, p, v, b, since, node.col.cache, node'.col.cache, id);
    }
  }

  lemma IncrementalShows(h: Hasher, p: Provider, node: Node, node': Node, a: Answer, b: nat, n: nat, id: string)
    requires Sound(h, p, node) && PassStep(h, p, node, node', a, b, n)
    requires Replayable(node.col) && a.delta.Some? && n == |Pass(h, node.col, a).commits|
      && Minted(a.delta.value.nextCursor)
    ensures ShowsAt(h, p, b, node.col.state.value.windowStart.value, node'.col.cache, id)
  {
    var s, changes := node.col.state.value, a.delta.value.changes;
    var v, since := p.version(s.token.value), s.windowStart.value;
    IncrementalCommits(h, p, node, node', a, b, n, id);
    if c :| c in changes && c.eventId == id {
      assert Reports(p, b, since, c);
      if c.Live() { assert c == EventChange(id, false, Some(c.event.value), c.seriesId); }
      assert Lookup(node'.col.cache, id).Some? <==> id in node'.col.cache;
    } else {
      assert !Mentioned(changes, id) && !Touched(p, id, v, b);
      assert !Touched(p, id, v, node.served);
      UntouchedIsConstant(p, id, v, b);
      MovedStillShows(h, p, v, b, since, node.col.cache, node'.col.cache, id);
    }
  }

  // ---------------------------------------------------------------- full listings

  /** Before its last commit, a full sync leaves the cursor row alone. */
  lemma FullSyncKeepsCursor(h: Hasher, col: Col, a: Answer, n: nat)
    requires Lists(a.order, col.cache) && !(Replayable(col) && a.delta.Some?)
    requires n < |Pass(h, col, a).commits| || !Pass(h, col, a).ok
    requires n <= |Pass(h, col, a).commits|
    ensures (if n == 0 then col else Pass(h, col, a).commits[n - 1]).state == col.state
  {
    var commits := Pass(h, col, a).commits;
    if col.state.None? {
      CommitsKeepState(Replace(Begin(col), Upserts(h, a.full.changes)), col);
    } else {
      var t := Remove(Apply(h, Begin(col), ResyncChanges(col, a), col.cache),
                      AgedOut(a.order, col.cache, LiveIds(a.full.changes), a.since));
      CommitsKeepState(t, col);
    }
  }

  lemma CommitsKeepState(t: Trace, col: Col)
    requires forall c :: c in t.commits ==> c.state == col.state
    ensures forall i :: 0 <= i < |t.commits| ==> t.commits[i].state == col.state
  {}

  lemma PrimeShows(h: Hasher, p: Provider, b: nat, col: Col, a: Answer, lapsed: set<string>, id: string)
    requires Lists(a.order, col.cache) && col.state.None? && ListingContract(p, b, a.since, a.full, lapsed)
    requires Minted(a.full.nextCursor)
    ensures Pass(h, col, a).ok && ShowsAt(h, p, b, a.since, Pass(h, col, a).col.cache, id)
    ensures Pass(h, col, a).col.state == Some(SyncState(a.full.nextCursor, Some(a.since)))
  {
    var changes := a.full.changes;
    UpsertMembers(h, changes);
    UpsertsAt(h, changes, map[], id);
    var cache := Pass(h, col, a).col.cache;
    assert cache == Upserted(map[], Upserts(h, changes));
    assert Lookup(cache, id).Some? <==> id in cache;
    if c :| c in changes && c.eventId == id {
      assert Reports(p, b, a.since, c);
      if c.Live() {
        assert c == EventChange(id, false, Some(c.event.value), c.seriesId);
      } else {
        forall c' | c' in changes && c'.eventId == id ensures c' == c {}
      }
    } else {
      assert !Mentioned(changes, id);
    }
  }

  lemma {:induction false} TombstonesUpsertNothing(h: Hasher, changes: seq<EventChange>, gone: seq<EventChange>)
    requires forall c :: c in gone ==> c.cancelled
    ensures Upserts(h, changes + gone) == Upserts(h, changes)
  {
    if gone == [] {
      assert changes + gone == changes;
    } else {
      var n := |gone| - 1;
      var all := changes + gone;
      assert all[..|all| - 1] == changes + gone[..n];
      assert gone[n] in gone;
      TombstonesUpsertNothing(h, changes, gone[..n]);
    }
  }

  /** The cache after a resync: the listing's events, and nothing the listing does not show. */
  lemma ResyncLeaves(h: Hasher, col: Col, a: Answer, id: string)
    requires Lists(a.order, col.cache) && col.state.Some? && !(Replayable(col) && a.delta.Some?)
    requires DistinctChanges(a.full.changes)
    ensures var t := Pass(h, col, a);
      && t.ok && t.col.state == Some(SyncState(a.full.nextCursor, Some(a.since)))
      && (forall c :: c in a.full.changes && c.eventId == id && c.Live() ==>
          Lookup(t.col.cache, id) == Some(Stored(Observed(h, c))))
      && (id !in LiveIds(a.full.changes) ==> Mentioned(a.full.changes, id) || id !in t.col.cache)
      && ((exists c :: c in a.full.changes && c.eventId == id && c.cancelled) ==> id !in t.col.cache)
  {
    var listing, present := a.full.changes, LiveIds(a.full.changes);
    var gone := Gone(a.order, col.cache, present, a.since);
    ResyncAt(h, col, a, id);
    ResyncRemoves(col, a, id);
    UpsertsAt(h, listing, col.cache, id);
    if c :| c in listing && c.eventId == id {
      forall c' | c' in listing && c'.eventId == id ensures c' == c {}
      assert c.Live() <==> id in present;
    }
  }

  /** Row by row, a resync upserts the listing's live events and takes out what is cancelled, gone or aged out. */
  lemma ResyncAt(h: Hasher, col: Col, a: Answer, id: string)
    requires Lists(a.order, col.cache) && col.state.Some? && !(Replayable(col) && a.delta.Some?)
    requires DistinctChanges(a.full.changes)
    ensures var t := Pass(h, col, a);
      && t.ok && t.col.state == Some(SyncState(a.full.nextCursor, Some(a.since)))
      && Lookup(t.col.cache, id) ==
           if id in Removals(ResyncChanges(col, a), col.cache)
             || id in AgedOut(a.order, col.cache, LiveIds(a.full.changes), a.since)
           then None else Lookup(Upserted(col.cache, Upserts(h, a.full.changes)), id)
  {
    var gone := Gone(a.order, col.cache, LiveIds(a.full.changes), a.since);
    GoneMembers(a.order, col.cache, LiveIds(a.full.changes), a.since);
    TombstonesUpsertNothing(h, a.full.changes, gone);
    UpsertMembers(h, a.full.changes);
  }

  /** What a resync takes out: a cached row that is cancelled, or that the listing does not show. */
  lemma ResyncRemoves(col: Col, a: Answer, id: string)
    requires Lists(a.order, col.cache)
    ensures var listing := a.full.changes; var present := LiveIds(listing);
      (id in Removals(ResyncChanges(col, a), col.cache) || id in AgedOut(a.order, col.cache, present, a.since)) <==>
        (id in col.cache && (id !in present || exists c :: c in listing && c.cancelled && c.eventId == id))
  {
    var listing, present := a.full.changes, LiveIds(a.full.changes);
    var gone := Gone(a.order, col.cache, present, a.since);
    GoneMembers(a.order, col.cache, present, a.since);
    AgedMembers(a.order, col.cache, present, a.since, id);
    RemovalMembers(ResyncChanges(col, a), col.cache, id);
    assert forall c :: c in ResyncChanges(col, a) <==> c in listing || c in gone;
    if id in col.cache && id !in present && a.since < col.cache[id].end {
      assert EventChange(id, true, None, col.cache[id].seriesId) in gone;
    }
  }

  lemma ResyncShows(h: Hasher, p: Provider, b: nat, col: Col, a: Answer, lapsed: set<string>, id: string)
    requires Lists(a.order, col.cache) && col.state.Some? && !(Replayable(col) && a.delta.Some?)
    requires ListingContract(p, b, a.since, a.full, lapsed) && Minted(a.full.nextCursor)
    ensures ShowsAt(h, p, b, a.since, Pass(h, col, a).col.cache, id)
  {
    ResyncLeaves(h, col, a, id);
    var cache := Pass(h, col, a).col.cache;
    assert Lookup(cache, id).Some? <==> id in cache;
    if c :| c in a.full.changes && c.eventId == id {
      assert Reports(p, b, a.since, c);
      if c.Live() { assert c == EventChange(id, false, Some(c.event.value), c.seriesId); }
    } else {
      assert !Mentioned(a.full.changes, id) && id !in LiveIds(a.full.changes);
    }
  }

  // ---------------------------------------------------------------- every run

  lemma FullSyncStaysSound(h: Hasher, p: Provider, node: Node, node': Node, a: Answer, b: nat, n: nat)
    requires PassStep(h, p, node, node', a, b, n) && !(Replayable(node.col) && a.delta.Some?)
    ensures Sound(h, p, node')
    ensures Completes(h, node, a, n) ==> node'.col.state == Some(SyncState(a.full.nextCursor, Some(a.since)))
    ensures Completes(h, node, a, n) && Minted(a.full.nextCursor) ==> Shows(h, p, b, a.since, node'.col.cache)
  {
    if n < |Pass(h, node.col, a).commits| || !Pass(h, node.col, a).ok {
      FullSyncKeepsCursor(h, node.col, a, n);
    } else {
      if node.col.state.None? {
        UpsertMembers(h, a.full.changes);
      } else {
        ResyncLeaves(h, node.col, a, "");
      }
      assert node'.col == Pass(h, node.col, a).col;
      if Minted(a.full.nextCursor) {
        forall id ensures ShowsAt(h, p, b, a.since, node'.col.cache, id) {
          if node.col.state.None? {
            PrimeShows(h, p, b, node.col, a, node.lapsed, id);
          } else {
            ResyncShows(h, p, b, node.col, a, node.lapsed, id);
          }
        }
      }
    }
  }

  /**
   * A pass from a sound state, stopped anywhere, leaves a sound state; and one that completes with a
   * cursor leaves the cache showing the provider's snapshot at that cursor, within the window.
   */
  lemma PassKeepsSound(h: Hasher, p: Provider, node: Node, node': Node, a: Answer, b: nat, n: nat)
    requires Sound(h, p, node) && PassStep(h, p, node, node', a, b, n)
    ensures Sound(h, p, node')
    ensures Completes(h, node, a, n) && Replayable(node'.col) ==>
      && node'.col.state.value.windowStart.Some?
      && p.version(node'.col.state.value.token.value) == b
      && Shows(h, p, b, node'.col.state.value.windowStart.value, node'.col.cache)
  {
    if Replayable(node.col) && a.delta.Some? {
      if n < |Pass(h, node.col, a).commits| {
        IncrementalStaysSound(h, p, node, node', a, b, n);
      } else {
        IncrementalCommits(h, p, node, node', a, b, n, "");
        if Minted(a.delta.value.nextCursor) {
          forall id ensures ShowsAt(h, p, b, node.col.state.value.windowStart.value, node'.col.cache, id) {
            IncrementalShows(h, p, node, node', a, b, n, id);
          }
        }
      }
    } else {
      FullSyncStaysSound(h, p, node, node', a, b, n);
    }
  }

  lemma {:induction false} RunsAreSound(h: Hasher, p: Provider, nodes: seq<Node>)
    requires Run(h, p, nodes)
    ensures Sound(h, p, nodes[|nodes| - 1])
  {
    var n := |nodes| - 1;
    if n > 0 {
      assert Run(h, p, nodes[..n]) by {
        forall i | 0 <= i < n - 1 ensures StepAt(h, p, nodes[..n], i) {
          assert StepAt(h, p, nodes, i);
        }
      }
      RunsAreSound(h, p, nodes[..n]);
      assert StepAt(h, p, nodes, n - 1);
      SomePassKeepsSound(h, p, nodes[n - 1], nodes[n]);
    }
  }

  lemma SomePassKeepsSound(h: Hasher, p: Provider, node: Node, node': Node)
    requires Sound(h, p, node) && SomePass(h, p, node, node')
    ensures Sound(h, p, node')
  {
    var a, b, n :| PassStep(h, p, node, node', a, b, n);
    PassKeepsSound(h, p, node, node', a, b, n);
  }

  /** The rows a cache holds inside the window. */
  function Windowed(cache: Cache, since: int): Cache {
    map id | id in cache && since < cache[id].end :: cache[id]
  }

  /** What a full listing of snapshot v would have cached. */
  function Listed(h: Hasher, p: Provider, v: nat, since: int): Cache {
    map id | id in p.snaps(v) && InWindow(At(p, v, id), since) :: Observation(h, id, p.snaps(v)[id])
  }

  /**
   * After any run of passes, primed, incremental, resynced or cut short anywhere, a pass that completes
   * with a cursor leaves exactly the cache a full listing at that cursor's snapshot would: the
   * incremental path refines the listing. Decisions, suppression and publishing play no part.
   */
  lemma CompletedPassMatchesSnapshot(h: Hasher, p: Provider, nodes: seq<Node>, node': Node, a: Answer, b: nat, n: nat)
    requires Run(h, p, nodes) && PassStep(h, p, nodes[|nodes| - 1], node', a, b, n)
    requires Completes(h, nodes[|nodes| - 1], a, n) && Replayable(node'.col)
    ensures node'.col.state.value.windowStart.Some?
    ensures var since, v := node'.col.state.value.windowStart.value, p.version(node'.col.state.value.token.value);
      Windowed(node'.col.cache, since) == Listed(h, p, v, since)
  {
    RunsAreSound(h, p, nodes);
    PassKeepsSound(h, p, nodes[|nodes| - 1], node', a, b, n);
    var since := node'.col.state.value.windowStart.value;
    var left, right := Windowed(node'.col.cache, since), Listed(h, p, b, since);
    forall id ensures Lookup(left, id) == Lookup(right, id) {
      assert ShowsAt(h, p, b, since, node'.col.cache, id);
    }
    SameRows(left, right);
  }
}
