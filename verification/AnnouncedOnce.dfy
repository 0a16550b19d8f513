/** Over every run of passes, crashes included, when a pass decides again what an earlier one had decided and cached. */
module AnnouncedOnce {
  import opened Basics
  import opened Spine
  import opened SyncStore
  import opened Reconcile
  import opened ReconcileProofs
  import opened ReconcileRuns

  /** A cached row of the event is its observation at snapshot b. */
  ghost predicate Current(h: Hasher, p: Provider, b: nat, cache: Cache, id: string) {
    id in cache ==> At(p, b, id).Some? && cache[id] == Observation(h, id, At(p, b, id).value)
  }

  /** What a pass commits before it announces anything; a first sync announces nothing. */
  function NewsTrace(h: Hasher, col: Col, a: Answer): Trace
    requires Lists(a.order, col.cache)
  {
    if col.state.None? then Replace(Begin(col), Upserts(h, a.full.changes))
    else if Replayable(col) && a.delta.Some? then Apply(h, Begin(col), a.delta.value.changes, col.cache)
    else Apply(h, Begin(col), ResyncChanges(col, a), col.cache)
  }

  /** The pass got as far as announcing; the rows that aged out may still be there, and the cursor not stored. */
  ghost predicate Announcing(h: Hasher, node: Node, a: Answer, n: nat)
    requires Lists(a.order, node.col.cache)
  {
    n >= |NewsTrace(h, node.col, a).commits| && Pass(h, node.col, a).ok
  }

  /**
   * The pass has by then dealt with the event: a delta mentions it or is complete; of a full listing only the
   * rows to drop for their age are left, and this is not one of them unless the listing speaks of it.
   */
  ghost predicate Accounts(h: Hasher, node: Node, a: Answer, n: nat, id: string)
    requires Lists(a.order, node.col.cache)
  {
    if node.col.state.None? then true
    else if Replayable(node.col) && a.delta.Some? then
      Minted(a.delta.value.nextCursor) || Mentioned(a.delta.value.changes, id)
    else
      || n + 1 >= |Pass(h, node.col, a).commits|
      || id !in AgedOut(a.order, node.col.cache, LiveIds(a.full.changes), a.since)
      || Mentioned(a.full.changes, id)
  }

  /** The listing shows the event, in its window. */
  ghost predicate Shown(p: Provider, a: Answer, b: nat, id: string) {
    InWindow(At(p, b, id), a.since) && Mentioned(a.full.changes, id)
  }

  /** The event is in the pass's window, and a full listing, if it is one, shows it. */
  ghost predicate Sees(p: Provider, node: Node, a: Answer, b: nat, id: string) {
    if Replayable(node.col) && a.delta.Some? then
      node.col.state.value.windowStart.Some? && InWindow(At(p, b, id), node.col.state.value.windowStart.value)
    else Shown(p, a, b, id)
  }

  /** Whatever a pass decides, it accounts for, wherever it stops. */
  lemma NewsIsAccounted(h: Hasher, node: Node, a: Answer, n: nat, d: Decision)
    requires Lists(a.order, node.col.cache) && d in PassDecisions(h, node.col, a)
    ensures Accounts(h, node, a, n, d.eventId)
  {
    if Replayable(node.col) && a.delta.Some? {
      DeltaDecidesTheNews(h, a.delta.value.changes, node.col.cache, d);
    } else {
      ResyncDecidesTheDiff(h, node.col, a, d);
      AgedMembers(a.order, node.col.cache, LiveIds(a.full.changes), a.since, d.eventId);
    }
  }

  // ---------------------------------------------------------------- the pass that settles an event

  /** What a pass does before it stores the cursor. */
  function CacheTrace(h: Hasher, col: Col, a: Answer): Trace
    requires Lists(a.order, col.cache)
  {
    if col.state.None? then Replace(Begin(col), Upserts(h, a.full.changes))
    else if Replayable(col) && a.delta.Some? then Apply(h, Begin(col), a.delta.value.changes, col.cache)
    else Remove(Apply(h, Begin(col), ResyncChanges(col, a), col.cache),
                AgedOut(a.order, col.cache, LiveIds(a.full.changes), a.since))
  }

  /** The trace stands where its last commit left it, or where it began. */
  lemma TraceEnds(h: Hasher, col: Col, a: Answer)
    requires Lists(a.order, col.cache)
    ensures var t := CacheTrace(h, col, a); t.col == if t.commits == [] then col else t.commits[|t.commits| - 1]
  {}

  lemma CursorComesLast(h: Hasher, col: Col, a: Answer)
    requires Lists(a.order, col.cache) && Pass(h, col, a).ok
    ensures var t := Pass(h, col, a);
      t.commits == CacheTrace(h, col, a).commits + [t.col] && t.col.cache == CacheTrace(h, col, a).col.cache
  {}

  /** From the announcements on, the row of an event accounted for is the one the pass ends with. */
  lemma RowIsFinal(h: Hasher, p: Provider, node: Node, node': Node, a: Answer, b: nat, n: nat, id: string)
    requires PassStep(h, p, node, node', a, b, n) && Announcing(h, node, a, n) && Accounts(h, node, a, n, id)
    ensures Lookup(node'.col.cache, id) == Lookup(Pass(h, node.col, a).col.cache, id)
  {
    CursorComesLast(h, node.col, a);
    TraceEnds(h, node.col, a);
    var t := NewsTrace(h, node.col, a);
    if n + 1 < |Pass(h, node.col, a).commits| && node.col.state.Some? && !(Replayable(node.col) && a.delta.Some?) {
      var aged := AgedOut(a.order, node.col.cache, LiveIds(a.full.changes), a.since);
      NewsEnds(h, node.col, a);
      assert n == |t.commits| && node'.col == t.col;
      if id in aged {
        AgedMembers(a.order, node.col.cache, LiveIds(a.full.changes), a.since, id);
        TombstoneTakesOut(h, p, node, a, b, id);
      }
    }
  }

  lemma NewsEnds(h: Hasher, col: Col, a: Answer)
    requires Lists(a.order, col.cache) && col.state.Some? && !(Replayable(col) && a.delta.Some?) && Pass(h, col, a).ok
    ensures var t := NewsTrace(h, col, a); var aged := AgedOut(a.order, col.cache, LiveIds(a.full.changes), a.since);
      && t.col == (if t.commits == [] then col else t.commits[|t.commits| - 1])
      && t.commits <= Pass(h, col, a).commits
      && |Pass(h, col, a).commits| == |t.commits| + (if aged == [] then 1 else 2)
      && Pass(h, col, a).col.cache == (if aged == [] then t.col.cache else Without(t.col.cache, aged))
  {}

  /** A row the listing reports cancelled is out before the announcements. */
  lemma TombstoneTakesOut(h: Hasher, p: Provider, node: Node, a: Answer, b: nat, id: string)
    requires Lists(a.order, node.col.cache) && node.col.state.Some? && !(Replayable(node.col) && a.delta.Some?)
    requires ListingContract(p, b, a.since, a.full, node.lapsed) && Pass(h, node.col, a).ok
    requires id in node.col.cache && id !in LiveIds(a.full.changes) && Mentioned(a.full.changes, id)
    ensures id !in NewsTrace(h, node.col, a).col.cache
  {
    var c :| c in a.full.changes && c.eventId == id;
    assert Reports(p, b, a.since, c);
    RemovalMembers(ResyncChanges(node.col, a), node.col.cache, id);
    assert c in ResyncChanges(node.col, a);
    assert id in Removals(ResyncChanges(node.col, a), node.col.cache);
  }

  lemma PassSettles(h: Hasher, p: Provider, node: Node, node': Node, a: Answer, b: nat, n: nat, id: string)
    requires Sound(h, p, node) && PassStep(h, p, node, node', a, b, n)
    requires Announcing(h, node, a, n) && Accounts(h, node, a, n, id)
    ensures Current(h, p, b, node'.col.cache, id)
    ensures Sees(p, node, a, b, id) ==> id in node'.col.cache
  {
    RowIsFinal(h, p, node, node', a, b, n, id);
    if Replayable(node.col) && a.delta.Some? {
      DeltaSettles(h, p, node, node', a, b, n, id);
    } else if node.col.state.None? {
      PrimeSettles(h, p, node.col, a, b, node.lapsed, id);
    } else {
      ResyncSettles(h, p, node.col, a, b, node.lapsed, id);
    }
    SameRow(Pass(h, node.col, a).col.cache, node'.col.cache, id);
  }

  lemma SameRow(a: Cache, b: Cache, id: string)
    requires Lookup(a, id) == Lookup(b, id)
    ensures id in a <==> id in b
    ensures id in a ==> a[id] == b[id]
  {
    assert Lookup(a, id).Some? <==> id in a;
    assert Lookup(b, id).Some? <==> id in b;
  }

  lemma DeltaSettles(h: Hasher, p: Provider, node: Node, node': Node, a: Answer, b: nat, n: nat, id: string)
    requires Sound(h, p, node) && PassStep(h, p, node, node', a, b, n) && Replayable(node.col) && a.delta.Some?
    requires Minted(a.delta.value.nextCursor) || Mentioned(a.delta.value.changes, id)
    ensures Current(h, p, b, Pass(h, node.col, a).col.cache, id)
    ensures Sees(p, node, a, b, id) ==> id in Pass(h, node.col, a).col.cache
  {
    IncrementalCommits(h, p, node, node', a, b, n, id);
    var t := Pass(h, node.col, a);
    var end := Node(t.col, b, node.lapsed);
    assert t.commits[|t.commits| - 1] == t.col;
    assert PassStep(h, p, node, end, a, b, |t.commits|);
    if Minted(a.delta.value.nextCursor) {
      IncrementalShows(h, p, node, end, a, b, |t.commits|, id);
    } else {
      IncrementalCommits(h, p, node, end, a, b, |t.commits|, id);
      var c :| c in a.delta.value.changes && c.eventId == id;
      assert Reports(p, b, node.col.state.value.windowStart.value, c);
      if c.Live() { assert c == EventChange(id, false, Some(c.event.value), c.seriesId); }
    }
  }

  lemma PrimeSettles(h: Hasher, p: Provider, col: Col, a: Answer, b: nat, lapsed: set<string>, id: string)
    requires Lists(a.order, col.cache) && col.state.None? && ListingContract(p, b, a.since, a.full, lapsed)
    ensures Current(h, p, b, Pass(h, col, a).col.cache, id)
    ensures Shown(p, a, b, id) ==> id in Pass(h, col, a).col.cache
  {
    var changes := a.full.changes;
    UpsertMembers(h, changes);
    UpsertsAt(h, changes, map[], id);
    assert Pass(h, col, a).col.cache == Upserted(map[], Upserts(h, changes));
    ListedIsCurrent(h, p, b, a.since, changes, map[], id);
  }

  /** Upserting a truthful listing leaves the row alone or brings it up to the snapshot. */
  lemma ListedIsCurrent(h: Hasher, p: Provider, b: nat, since: int, changes: seq<EventChange>, cache: Cache, id: string)
    requires DistinctChanges(changes) && forall c :: c in changes ==> Reports(p, b, since, c)
    ensures var up := Upserted(cache, Upserts(h, changes));
      Lookup(up, id) == Lookup(cache, id)
      || (At(p, b, id).Some? && Lookup(up, id) == Some(Observation(h, id, At(p, b, id).value)))
  {
    UpsertsAt(h, changes, cache, id);
    if c :| c in changes && c.eventId == id && c.Live() {
      assert c == EventChange(id, false, Some(c.event.value), c.seriesId);
    }
  }

  lemma ResyncSettles(h: Hasher, p: Provider, col: Col, a: Answer, b: nat, lapsed: set<string>, id: string)
    requires Lists(a.order, col.cache) && col.state.Some? && !(Replayable(col) && a.delta.Some?)
    requires ListingContract(p, b, a.since, a.full, lapsed)
    ensures Current(h, p, b, Pass(h, col, a).col.cache, id)
    ensures Shown(p, a, b, id) ==> id in Pass(h, col, a).col.cache
  {
    ResyncLeaves(h, col, a, id);
    var cache := Pass(h, col, a).col.cache;
    assert Lookup(cache, id).Some? <==> id in cache;
    if id in cache && id in LiveIds(a.full.changes) {
      var c :| c in a.full.changes && c.Live() && c.eventId == id;
      assert Reports(p, b, a.since, c);
      assert c == EventChange(id, false, Some(c.event.value), c.seriesId);
    }
  }

  // ---------------------------------------------------------------- the passes after it

  /** Stopped anywhere, a full sync has left the row alone, brought it up to its snapshot, or dropped it. */
  lemma FullSyncMoves(h: Hasher, p: Provider, node: Node, node': Node, a: Answer, b: nat, n: nat, id: string)
    requires PassStep(h, p, node, node', a, b, n) && !(Replayable(node.col) && a.delta.Some?)
    ensures Lookup(node'.col.cache, id) == Lookup(node.col.cache, id) || Lookup(node'.col.cache, id) == None
            || (At(p, b, id).Some? && Lookup(node'.col.cache, id) == Some(Observation(h, id, At(p, b, id).value)))
  {
    var col, rows := node.col, Upserts(h, a.full.changes);
    UpsertMembers(h, a.full.changes);
    if col.state.None? {
      ListedIsCurrent(h, p, b, a.since, a.full.changes, map[], id);
      assert node'.col.cache == col.cache || node'.col.cache == map[] || node'.col.cache == Upserted(map[], rows);
    } else {
      ListedIsCurrent(h, p, b, a.since, a.full.changes, col.cache, id);
      var gone := Gone(a.order, col.cache, LiveIds(a.full.changes), a.since);
      GoneMembers(a.order, col.cache, LiveIds(a.full.changes), a.since);
      TombstonesUpsertNothing(h, a.full.changes, gone);
      ResyncStops(h, col, a, n, id);
    }
  }

  /** Each of a resync's commits leaves the row as it was, as upserted, or gone. */
  lemma ResyncStops(h: Hasher, col: Col, a: Answer, n: nat, id: string)
    requires Lists(a.order, col.cache) && col.state.Some? && !(Replayable(col) && a.delta.Some?)
    requires Upserts(h, ResyncChanges(col, a)) == Upserts(h, a.full.changes) && DistinctIds(Upserts(h, a.full.changes))
    requires n <= |Pass(h, col, a).commits|
    ensures var cache := (if n == 0 then col else Pass(h, col, a).commits[n - 1]).cache;
      Lookup(cache, id) in {Lookup(col.cache, id), None, Lookup(Upserted(col.cache, Upserts(h, a.full.changes)), id)}
  {
    var rows, gone := Upserts(h, a.full.changes), Removals(ResyncChanges(col, a), col.cache);
    var aged := AgedOut(a.order, col.cache, LiveIds(a.full.changes), a.since);
    var t1 := Upsert(Begin(col), rows);
    StopsAt(t1, col, rows, id);
    var t2 := Remove(t1, gone);
    var t3 := Remove(t2, aged);
    assert Pass(h, col, a) == SetState(t3, a.full.nextCursor, Some(a.since));
    assert forall c :: c in t2.commits ==>
      Lookup(c.cache, id) in {Lookup(col.cache, id), None, Lookup(Upserted(col.cache, rows), id)};
    assert forall c :: c in t3.commits ==>
      Lookup(c.cache, id) in {Lookup(col.cache, id), None, Lookup(Upserted(col.cache, rows), id)};
    assert Lookup(t3.col.cache, id) in {Lookup(col.cache, id), None, Lookup(Upserted(col.cache, rows), id)};
  }

  lemma StopsAt(t: Trace, col: Col, rows: seq<SyncedEvent>, id: string)
    requires t == Upsert(Begin(col), rows) && DistinctIds(rows)
    ensures t.ok && Lookup(t.col.cache, id) in {Lookup(col.cache, id), Lookup(Upserted(col.cache, rows), id)}
    ensures forall c :: c in t.commits ==> Lookup(c.cache, id) == Lookup(Upserted(col.cache, rows), id)
  {}

  /** A pass answered at a snapshot where the event is as it was keeps its row current. */
  lemma PassKeepsCurrent(h: Hasher, p: Provider, node: Node, node': Node, a: Answer, b: nat, b': nat, n: nat,
                         id: string)
    requires PassStep(h, p, node, node', a, b', n) && At(p, b, id) == At(p, b', id)
    requires Current(h, p, b, node.col.cache, id)
    ensures Current(h, p, b, node'.col.cache, id)
  {
    if Replayable(node.col) && a.delta.Some? {
      IncrementalCommits(h, p, node, node', a, b', n, id);
    } else {
      FullSyncMoves(h, p, node, node', a, b', n, id);
    }
    assert Lookup(node'.col.cache, id).Some? <==> id in node'.col.cache;
    assert Lookup(node.col.cache, id).Some? <==> id in node.col.cache;
  }

  /** Until a listing that shows the event has been applied in part or in full, its row is not taken out. */
  lemma ResyncKeepsShown(h: Hasher, p: Provider, col: Col, a: Answer, b: nat, lapsed: set<string>, n: nat, id: string)
    requires Lists(a.order, col.cache) && col.state.Some? && !(Replayable(col) && a.delta.Some?)
    requires ListingContract(p, b, a.since, a.full, lapsed) && Shown(p, a, b, id) && id in col.cache
    requires n <= |Pass(h, col, a).commits|
    ensures id in (if n == 0 then col else Pass(h, col, a).commits[n - 1]).cache
  {
    var c :| c in a.full.changes && c.eventId == id;
    assert Reports(p, b, a.since, c);
    forall c' | c' in a.full.changes && c'.eventId == id ensures c' == c {}
    assert id in LiveIds(a.full.changes);
    ResyncRemoves(col, a, id);
    var rows, gone := Upserts(h, ResyncChanges(col, a)), Removals(ResyncChanges(col, a), col.cache);
    var aged := AgedOut(a.order, col.cache, LiveIds(a.full.changes), a.since);
    assert id !in gone && id !in aged;
    var t1 := Upsert(Begin(col), rows);
    KeepsOnUpsert(col, rows, id);
    var t2 := Remove(t1, gone);
    assert (forall k :: k in t2.commits ==> id in k.cache) && id in t2.col.cache;
    var t3 := Remove(t2, aged);
    assert (forall k :: k in t3.commits ==> id in k.cache) && id in t3.col.cache;
    assert Pass(h, col, a) == SetState(t3, a.full.nextCursor, Some(a.since));
  }

  lemma KeepsOnUpsert(col: Col, rows: seq<SyncedEvent>, id: string)
    requires id in col.cache
    ensures var t := Upsert(Begin(col), rows); (forall k :: k in t.commits ==> id in k.cache) && id in t.col.cache
  {
    if DistinctIds(rows) { SyncStore.UpsertedAt(col.cache, rows, id); }
  }

  /** A first sync, in whatever commit it stops, has stored no cursor row, or holds the event it was shown. */
  lemma PrimeHolds(h: Hasher, p: Provider, node: Node, node': Node, a: Answer, b: nat, n: nat, id: string)
    requires PassStep(h, p, node, node', a, b, n) && node.col.state.None? && Shown(p, a, b, id)
    ensures node'.col.state.None? || id in node'.col.cache
  {
    PrimeSettles(h, p, node.col, a, b, node.lapsed, id);
    if n < |Pass(h, node.col, a).commits| || !Pass(h, node.col, a).ok {
      FullSyncKeepsCursor(h, node.col, a, n);
    } else {
      UpsertMembers(h, a.full.changes);
      assert node'.col == Pass(h, node.col, a).col;
    }
  }

  /** A pass that sees the event leaves its row in place, or a collection that has never been synced. */
  lemma PassKeepsRow(h: Hasher, p: Provider, node: Node, node': Node, a: Answer, b: nat, n: nat, id: string)
    requires PassStep(h, p, node, node', a, b, n) && Sees(p, node, a, b, id)
    requires node.col.state.None? || id in node.col.cache
    ensures node'.col.state.None? || id in node'.col.cache
  {
    if node.col.state.None? {
      PrimeHolds(h, p, node, node', a, b, n, id);
    } else if Replayable(node.col) && a.delta.Some? {
      IncrementalCommits(h, p, node, node', a, b, n, id);
      assert Lookup(node'.col.cache, id).Some? <==> id in node'.col.cache;
      assert Lookup(node.col.cache, id).Some? <==> id in node.col.cache;
    } else {
      ResyncKeepsShown(h, p, node.col, a, b, node.lapsed, n, id);
    }
  }

  // ---------------------------------------------------------------- what a pass decides of an event

  /** What the provider answered the pass with. */
  function Changes(col: Col, a: Answer): seq<EventChange> {
    if Replayable(col) && a.delta.Some? then a.delta.value.changes else a.full.changes
  }

  predicate Decided(h: Hasher, col: Col, a: Answer, id: string, k: Kind)
    requires Lists(a.order, col.cache)
  {
    exists d :: d in PassDecisions(h, col, a) && d.eventId == id && d.kind == k
  }

  /** The answer lists the event though its row is not there. */
  predicate FoundAgain(col: Col, a: Answer, id: string) {
    col.state.Some? && id !in col.cache && id in LiveIds(Changes(col, a))
  }

  /**
   * The row is there, and the provider reports a tombstone though the event only lies outside its window, or
   * answers with a listing that is silent about an event inside the window.
   */
  ghost predicate LostAgain(p: Provider, col: Col, a: Answer, b: nat, id: string) {
    && col.state.Some? && id in col.cache
    && ((exists c :: c in Changes(col, a) && c.cancelled && c.eventId == id)
        || (!(Replayable(col) && a.delta.Some?) && InWindow(At(p, b, id), a.since) && !Mentioned(a.full.changes, id)))
  }

  /** A truthful answer lists an event as it is, or not at all. */
  lemma AnswerIsTrue(h: Hasher, p: Provider, node: Node, node': Node, a: Answer, b: nat, n: nat, c: EventChange)
    requires PassStep(h, p, node, node', a, b, n) && node.col.state.Some? && c in Changes(node.col, a)
    ensures c.Live() || c.cancelled
    ensures c.Live() ==> At(p, b, c.eventId) == Some(Live(c.event.value, c.seriesId))
    ensures DistinctChanges(Changes(node.col, a))
    ensures c.cancelled && !(Replayable(node.col) && a.delta.Some?) ==> !InWindow(At(p, b, c.eventId), a.since)
    ensures c.cancelled && Replayable(node.col) && a.delta.Some? ==>
      !InWindow(At(p, b, c.eventId), node.col.state.value.windowStart.value)
  {
    var since := if Replayable(node.col) && a.delta.Some? then node.col.state.value.windowStart.value else a.since;
    assert Reports(p, b, since, c);
  }

  lemma CreatedIff(h: Hasher, p: Provider, node: Node, node': Node, a: Answer, b: nat, n: nat, id: string)
    requires PassStep(h, p, node, node', a, b, n)
    ensures Decided(h, node.col, a, id, Created) <==> FoundAgain(node.col, a, id)
  {
    var col := node.col;
    if d :| d in PassDecisions(h, col, a) && d.eventId == id && d.kind == Created {
      NewsAbout(h, col, a, d);
    }
    if FoundAgain(col, a, id) {
      var c :| c in Changes(col, a) && c.Live() && c.eventId == id;
      var d := Classify(h, c, Lookup(col.cache, c.eventId)).value;
      ListedDecides(h, col.cache, c, d);
      NewsDecided(h, col, a, c, d);
    }
  }

  /** Each decision answers a change, or is the diff's own cancellation. */
  lemma NewsAbout(h: Hasher, col: Col, a: Answer, d: Decision)
    requires Lists(a.order, col.cache) && d in PassDecisions(h, col, a)
    ensures col.state.Some?
    ensures (exists c :: c in Changes(col, a) && NewsOf(h, col.cache, c, d))
      || (!(Replayable(col) && a.delta.Some?) && NewsOfUnlisted(col.cache, a.full.changes, a.since, d))
  {
    if Replayable(col) && a.delta.Some? {
      DeltaDecidesTheNews(h, a.delta.value.changes, col.cache, d);
    } else {
      ResyncDecidesTheDiff(h, col, a, d);
    }
  }

  lemma NewsDecided(h: Hasher, col: Col, a: Answer, c: EventChange, d: Decision)
    requires Lists(a.order, col.cache) && col.state.Some? && c in Changes(col, a) && NewsOf(h, col.cache, c, d)
    ensures d in PassDecisions(h, col, a)
  {
    if Replayable(col) && a.delta.Some? {
      DeltaDecidesTheNews(h, a.delta.value.changes, col.cache, d);
    } else {
      ResyncDecidesTheDiff(h, col, a, d);
    }
  }

  lemma CancelledIff(h: Hasher, p: Provider, node: Node, node': Node, a: Answer, b: nat, n: nat, id: string)
    requires PassStep(h, p, node, node', a, b, n) && Current(h, p, b, node.col.cache, id)
    ensures Decided(h, node.col, a, id, Cancelled) <==> LostAgain(p, node.col, a, b, id)
  {
    var col := node.col;
    if d :| d in PassDecisions(h, col, a) && d.eventId == id && d.kind == Cancelled {
      NewsAbout(h, col, a, d);
      if !(Replayable(col) && a.delta.Some?) { UnlistedIsSilent(h, p, node, node', a, b, n, id); }
    }
    if LostAgain(p, col, a, b, id) {
      if c :| c in Changes(col, a) && c.cancelled && c.eventId == id {
        var d := Classify(h, c, Lookup(col.cache, id)).value;
        NewsDecided(h, col, a, c, d);
      } else {
        UnlistedIsSilent(h, p, node, node', a, b, n, id);
        var row := col.cache[id];
        var d := Decision(Cancelled, id, row.seriesId, row.title, CancelPayload(Clip(row.title, 200)), row.start,
                          false);
        ResyncDecidesTheDiff(h, col, a, d);
      }
    }
  }

  /** Of a full listing: an event not listed as live is reported cancelled or not spoken of. */
  lemma UnlistedIsSilent(h: Hasher, p: Provider, node: Node, node': Node, a: Answer, b: nat, n: nat, id: string)
    requires PassStep(h, p, node, node', a, b, n) && node.col.state.Some? && !(Replayable(node.col) && a.delta.Some?)
    ensures id !in LiveIds(a.full.changes) <==>
      !Mentioned(a.full.changes, id) || exists c :: c in a.full.changes && c.cancelled && c.eventId == id
  {
    if c :| c in a.full.changes && c.eventId == id {
      AnswerIsTrue(h, p, node, node', a, b, n, c);
      forall c' | c' in a.full.changes && c'.eventId == id ensures c' == c {}
    }
  }

  /** An event whose row is current is not updated. */
  lemma CurrentIsNotUpdated(h: Hasher, p: Provider, node: Node, node': Node, a: Answer, b: nat, n: nat, id: string)
    requires PassStep(h, p, node, node', a, b, n) && Current(h, p, b, node.col.cache, id)
    ensures !Decided(h, node.col, a, id, Updated)
  {
    forall c | node.col.state.Some? && c in Changes(node.col, a) && c.eventId == id && c.Live()
      ensures id in node.col.cache ==> node.col.cache[id].changeHash == ChangeHash(h, c.event.value)
    {
      AnswerIsTrue(h, p, node, node', a, b, n, c);
    }
    if d :| d in PassDecisions(h, node.col, a) && d.eventId == id && d.kind == Updated {
      NewsAbout(h, node.col, a, d);
    }
  }

  // ---------------------------------------------------------------- over whole runs

  lemma {:induction false} RunsKeepCurrent(h: Hasher, p: Provider, nodes: seq<Node>, i: nat, j: nat, b: nat, id: string)
    requires Run(h, p, nodes) && i <= j < |nodes| && nodes[i].served >= b && Current(h, p, b, nodes[i].col.cache, id)
    requires nodes[j].served >= b && !Touched(p, id, b, nodes[j].served)
    ensures Current(h, p, b, nodes[j].col.cache, id)
    decreases j - i
  {
    if i < j {
      ServedGrows(h, p, nodes, i, j - 1);
      RunStep(h, p, nodes, j - 1);
      assert !Touched(p, id, b, nodes[j - 1].served);
      RunsKeepCurrent(h, p, nodes, i, j - 1, b, id);
      SomePassKeepsCurrent(h, p, nodes[j - 1], nodes[j], b, id);
    }
  }

  lemma SomePassKeepsCurrent(h: Hasher, p: Provider, node: Node, node': Node, b: nat, id: string)
    requires SomePass(h, p, node, node') && Current(h, p, b, node.col.cache, id)
    requires b <= node'.served && !Touched(p, id, b, node'.served)
    ensures Current(h, p, b, node'.col.cache, id)
  {
    var a, v, n :| PassStep(h, p, node, node', a, v, n);
    UntouchedIsConstant(p, id, b, v);
    PassKeepsCurrent(h, p, node, node', a, b, v, n, id);
  }

  lemma RunStep(h: Hasher, p: Provider, nodes: seq<Node>, k: nat)
    requires Run(h, p, nodes) && k + 1 < |nodes|
    ensures SomePass(h, p, nodes[k], nodes[k + 1]) && nodes[k].served <= nodes[k + 1].served
  {
    assert StepAt(h, p, nodes, k);
  }

  lemma {:induction false} ServedGrows(h: Hasher, p: Provider, nodes: seq<Node>, i: nat, j: nat)
    requires Run(h, p, nodes) && i <= j < |nodes|
    ensures nodes[i].served <= nodes[j].served
    decreases j - i
  {
    if i < j {
      ServedGrows(h, p, nodes, i, j - 1);
      RunStep(h, p, nodes, j - 1);
    }
  }

  lemma RunPrefix(h: Hasher, p: Provider, nodes: seq<Node>, i: nat)
    requires Run(h, p, nodes) && i < |nodes|
    ensures Run(h, p, nodes[..i + 1])
  {
    var front := nodes[..i + 1];
    forall k | 0 <= k < |front| - 1 ensures StepAt(h, p, front, k) {
      assert StepAt(h, p, nodes, k);
    }
  }

  lemma SettledInARun(h: Hasher, p: Provider, nodes: seq<Node>, i: nat, a: Answer, b: nat, n: nat, id: string)
    requires Run(h, p, nodes) && i < |nodes| - 1 && PassStep(h, p, nodes[i], nodes[i + 1], a, b, n)
    requires Announcing(h, nodes[i], a, n) && Accounts(h, nodes[i], a, n, id)
    ensures Current(h, p, b, nodes[i + 1].col.cache, id)
    ensures Sees(p, nodes[i], a, b, id) ==> id in nodes[i + 1].col.cache
  {
    RunPrefix(h, p, nodes, i);
    RunsAreSound(h, p, nodes[..i + 1]);
    assert nodes[..i + 1][i] == nodes[i];
    PassSettles(h, p, nodes[i], nodes[i + 1], a, b, n, id);
  }

  lemma StillCurrent(h: Hasher, p: Provider, nodes: seq<Node>, i: nat, a: Answer, b: nat, n: nat, j: nat, a': Answer,
                     b': nat, n': nat, id: string)
    requires Run(h, p, nodes) && i < j < |nodes| - 1
    requires PassStep(h, p, nodes[i], nodes[i + 1], a, b, n) && PassStep(h, p, nodes[j], nodes[j + 1], a', b', n')
    requires Current(h, p, b, nodes[i + 1].col.cache, id) && !Touched(p, id, b, b')
    ensures b <= b' && Current(h, p, b, nodes[j].col.cache, id)
  {
    ServedGrows(h, p, nodes, i + 1, j);
    assert b <= nodes[i + 1].served && nodes[j].served <= b';
    assert !Touched(p, id, b, nodes[j].served);
    RunsKeepCurrent(h, p, nodes, i + 1, j, b, id);
  }

  /**
   * In any run, let the i-th pass, answered at b, get as far as announcing and account for an event, as it does
   * for every event it decides something about. Let a later pass, incremental or resync, be answered at a
   * snapshot up to which the event was not touched. It decides no update of it; a creation exactly when it
   * finds the row missing and lists the event; a cancellation exactly when the provider reports a tombstone of
   * an event that is merely outside the window, or cuts its listing short of one inside.
   */
  lemma NothingDecidedTwice(h: Hasher, p: Provider, nodes: seq<Node>, i: nat, a: Answer, b: nat, n: nat, j: nat,
                            a': Answer, b': nat, n': nat, id: string)
    requires Run(h, p, nodes) && i < j < |nodes| - 1
    requires PassStep(h, p, nodes[i], nodes[i + 1], a, b, n)
    requires Announcing(h, nodes[i], a, n) && Accounts(h, nodes[i], a, n, id)
    requires PassStep(h, p, nodes[j], nodes[j + 1], a', b', n') && !Touched(p, id, b, b')
    ensures !Decided(h, nodes[j].col, a', id, Updated)
    ensures Decided(h, nodes[j].col, a', id, Created) <==> FoundAgain(nodes[j].col, a', id)
    ensures Decided(h, nodes[j].col, a', id, Cancelled) <==> LostAgain(p, nodes[j].col, a', b', id)
  {
    SettledInARun(h, p, nodes, i, a, b, n, id);
    StillCurrent(h, p, nodes, i, a, b, n, j, a', b', n', id);
    UntouchedIsConstant(p, id, b, b');
    CurrentIsNotUpdated(h, p, nodes[j], nodes[j + 1], a', b', n', id);
    CreatedIff(h, p, nodes[j], nodes[j + 1], a', b', n', id);
    CancelledIff(h, p, nodes[j], nodes[j + 1], a', b', n', id);
  }

  /** A deleted event is not decided about again at all. */
  lemma DeletedStaysSilent(h: Hasher, p: Provider, nodes: seq<Node>, i: nat, a: Answer, b: nat, n: nat, j: nat,
                           a': Answer, b': nat, n': nat, d: Decision)
    requires Run(h, p, nodes) && i < j < |nodes| - 1
    requires PassStep(h, p, nodes[i], nodes[i + 1], a, b, n)
    requires Announcing(h, nodes[i], a, n) && Accounts(h, nodes[i], a, n, d.eventId)
    requires PassStep(h, p, nodes[j], nodes[j + 1], a', b', n') && !Touched(p, d.eventId, b, b')
    requires At(p, b, d.eventId).None?
    ensures d !in PassDecisions(h, nodes[j].col, a')
  {
    var id := d.eventId;
    SettledInARun(h, p, nodes, i, a, b, n, id);
    StillCurrent(h, p, nodes, i, a, b, n, j, a', b', n', id);
    UntouchedIsConstant(p, id, b, b');
    if d in PassDecisions(h, nodes[j].col, a') {
      NewsAbout(h, nodes[j].col, a', d);
      var c :| c in Changes(nodes[j].col, a') && NewsOf(h, nodes[j].col.cache, c, d);
      AnswerIsTrue(h, p, nodes[j], nodes[j + 1], a', b', n', c);
    }
  }

  /** Some pass from one node to the next sees the event. */
  ghost predicate SeeingPass(h: Hasher, p: Provider, node: Node, node': Node, id: string) {
    exists a, b, n :: PassStep(h, p, node, node', a, b, n) && Sees(p, node, a, b, id)
  }

  ghost predicate SeenThroughout(h: Hasher, p: Provider, nodes: seq<Node>, i: nat, j: nat, id: string) {
    forall k :: i <= k < j < |nodes| ==> SeenAt(h, p, nodes, k, id)
  }

  ghost predicate SeenAt(h: Hasher, p: Provider, nodes: seq<Node>, k: nat, id: string)
    requires k + 1 < |nodes|
  {
    SeeingPass(h, p, nodes[k], nodes[k + 1], id)
  }

  lemma {:induction false} SeenKeepsRow(h: Hasher, p: Provider, nodes: seq<Node>, i: nat, j: nat, id: string)
    requires i <= j < |nodes| && id in nodes[i].col.cache && SeenThroughout(h, p, nodes, i, j, id)
    ensures nodes[j].col.state.None? || id in nodes[j].col.cache
    decreases j - i
  {
    if i < j {
      SeenKeepsRow(h, p, nodes, i, j - 1, id);
      assert SeenAt(h, p, nodes, j - 1, id);
      SeeingKeepsRow(h, p, nodes[j - 1], nodes[j], id);
    }
  }

  lemma SeeingKeepsRow(h: Hasher, p: Provider, node: Node, node': Node, id: string)
    requires SeeingPass(h, p, node, node', id) && (node.col.state.None? || id in node.col.cache)
    ensures node'.col.state.None? || id in node'.col.cache
  {
    var a, b, n :| PassStep(h, p, node, node', a, b, n) && Sees(p, node, a, b, id);
    PassKeepsRow(h, p, node, node', a, b, n, id);
  }

  /**
   * An event that every pass from the settling one on sees, in its window and, where it is a full listing,
   * listed, is announced once: no creation, update or cancellation of it is decided again while it is untouched.
   */
  lemma SeenIsDecidedOnce(h: Hasher, p: Provider, nodes: seq<Node>, i: nat, a: Answer, b: nat, n: nat, j: nat,
                          a': Answer, b': nat, n': nat, d: Decision)
    requires Run(h, p, nodes) && i < j < |nodes| - 1
    requires PassStep(h, p, nodes[i], nodes[i + 1], a, b, n)
    requires Announcing(h, nodes[i], a, n) && Accounts(h, nodes[i], a, n, d.eventId)
      && Sees(p, nodes[i], a, b, d.eventId)
    requires SeenThroughout(h, p, nodes, i + 1, j, d.eventId)
    requires PassStep(h, p, nodes[j], nodes[j + 1], a', b', n') && Sees(p, nodes[j], a', b', d.eventId)
    requires !Touched(p, d.eventId, b, b')
    ensures d !in PassDecisions(h, nodes[j].col, a')
  {
    var id := d.eventId;
    SettledInARun(h, p, nodes, i, a, b, n, id);
    StillCurrent(h, p, nodes, i, a, b, n, j, a', b', n', id);
    UntouchedIsConstant(p, id, b, b');
    SeenKeepsRow(h, p, nodes, i + 1, j, id);
    HeldAndSeenIsSilent(h, p, nodes[j], nodes[j + 1], a', b', n', d);
  }

  lemma HeldAndSeenIsSilent(h: Hasher, p: Provider, node: Node, node': Node, a: Answer, b: nat, n: nat, d: Decision)
    requires PassStep(h, p, node, node', a, b, n) && Sees(p, node, a, b, d.eventId)
    requires Current(h, p, b, node.col.cache, d.eventId) && (node.col.state.None? || d.eventId in node.col.cache)
    ensures d !in PassDecisions(h, node.col, a)
  {
    assert d in PassDecisions(h, node.col, a) ==> Decided(h, node.col, a, d.eventId, d.kind);
    CurrentIsNotUpdated(h, p, node, node', a, b, n, d.eventId);
    CreatedIff(h, p, node, node', a, b, n, d.eventId);
    CancelledIff(h, p, node, node', a, b, n, d.eventId);
    SeenIsNotLost(h, p, node, node', a, b, n, d.eventId);
  }

  lemma SeenIsNotLost(h: Hasher, p: Provider, node: Node, node': Node, a: Answer, b: nat, n: nat, id: string)
    requires PassStep(h, p, node, node', a, b, n) && Sees(p, node, a, b, id)
    ensures !LostAgain(p, node.col, a, b, id)
  {
    if node.col.state.Some? {
      forall c | c in Changes(node.col, a) && c.eventId == id ensures !c.cancelled {
        AnswerIsTrue(h, p, node, node', a, b, n, c);
      }
    }
  }

  // ---------------------------------------------------------------- a listing cut short

  /**
   * A resync whose listing has no cursor cancels a cached event that is there and inside the window exactly
   * when the listing does not mention it.
   */
  lemma CutListingCancelsIff(h: Hasher, p: Provider, node: Node, node': Node, a: Answer, b: nat, n: nat, id: string)
    requires PassStep(h, p, node, node', a, b, n) && node.col.state.Some? && !(Replayable(node.col) && a.delta.Some?)
    requires id in node.col.cache && a.since < node.col.cache[id].end && InWindow(At(p, b, id), a.since)
    ensures Decided(h, node.col, a, id, Cancelled) <==> !Mentioned(a.full.changes, id)
    ensures !Mentioned(a.full.changes, id) ==> !Minted(a.full.nextCursor)
  {
    UnlistedIsSilent(h, p, node, node', a, b, n, id);
    if c :| c in a.full.changes && c.eventId == id {
      AnswerIsTrue(h, p, node, node', a, b, n, c);
    }
    if d :| d in PassDecisions(h, node.col, a) && d.eventId == id && d.kind == Cancelled {
      NewsAbout(h, node.col, a, d);
    }
    if !Mentioned(a.full.changes, id) {
      var row := node.col.cache[id];
      var d := Decision(Cancelled, id, row.seriesId, row.title, CancelPayload(Clip(row.title, 200)), row.start, false);
      ResyncDecidesTheDiff(h, node.col, a, d);
    }
  }
}
