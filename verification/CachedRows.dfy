/** What the cache tells of an event, field by field. */
module CachedRows {
  import opened Basics
  import opened Spine
  import opened SyncStore
  import opened Reconcile
  import opened ReconcileProofs
  import opened ReconcileRuns

  // ---------------------------------------------------------------- the fields of a row

  /** The row holds the event's own fields: its title clipped, and the provider's series id or else the event's. */
  predicate Tells(h: Hasher, row: SyncedEvent, id: string, e: Event, seriesId: Option<string>) {
    && row.eventId == id && row.start == e.start && row.end == e.end && row.allDay == e.allDay
    && |row.title| <= 512 && row.title <= e.title && (|row.title| < 512 ==> row.title == e.title)
    && (seriesId.Some? && seriesId.value != "" ==> row.seriesId == seriesId)
    && (seriesId.None? || seriesId.value == "" ==> row.seriesId == e.recurringEventId)
    && row.changeHash == h(Fingerprint(e.title, e.start, e.end, e.description, e.location, e.allDay))
  }

  /**
   * After any run, a pass that completes with a cursor leaves, for every event of the snapshot at that cursor
   * that ends after the window's start, a row that tells it; and no other row that ends after it.
   */
  lemma CompletedPassTellsEachEvent(h: Hasher, p: Provider, nodes: seq<Node>, node': Node, a: Answer, b: nat, n: nat,
                                    id: string)
    requires Run(h, p, nodes) && PassStep(h, p, nodes[|nodes| - 1], node', a, b, n)
    requires Completes(h, nodes[|nodes| - 1], a, n) && Replayable(node'.col)
    ensures node'.col.state.value.windowStart.Some?
    ensures
      var since, now := node'.col.state.value.windowStart.value, p.snaps(p.version(node'.col.state.value.token.value));
      && (id in now && since < now[id].event.end ==>
            id in node'.col.cache && Tells(h, node'.col.cache[id], id, now[id].event, now[id].seriesId))
      && (id in node'.col.cache && since < node'.col.cache[id].end ==> id in now && since < now[id].event.end)
  {
    CompletedPassMatchesSnapshot(h, p, nodes, node', a, b, n);
    var since, v := node'.col.state.value.windowStart.value, p.version(node'.col.state.value.token.value);
    assert id in Windowed(node'.col.cache, since) <==> id in Listed(h, p, v, since);
  }

  /** A full sync that completes leaves a row for each event its listing shows, and the row tells it. */
  lemma FullSyncTellsEachEvent(h: Hasher, p: Provider, node: Node, node': Node, a: Answer, b: nat, n: nat,
                               c: EventChange)
    requires PassStep(h, p, node, node', a, b, n) && !(Replayable(node.col) && a.delta.Some?)
    requires Completes(h, node, a, n) && c in a.full.changes && !c.cancelled && c.event.Some?
    ensures c.eventId in node'.col.cache
    ensures Tells(h, node'.col.cache[c.eventId], c.eventId, c.event.value, c.seriesId)
  {
    if node.col.state.None? {
      UpsertMembers(h, a.full.changes);
      UpsertsAt(h, a.full.changes, map[], c.eventId);
    } else {
      ResyncLeaves(h, node.col, a, c.eventId);
    }
    assert node'.col == Pass(h, node.col, a).col;
    assert Lookup(node'.col.cache, c.eventId) == Some(Stored(Observed(h, c)));
    assert Lookup(node'.col.cache, c.eventId).Some? <==> c.eventId in node'.col.cache;
  }
}
