/** What one pass decides and leaves behind: the diff of a resync, and the silence of a replay. */
module ReconcileProofs {
  import opened Basics
  import opened Spine
  import opened SyncStore
  import opened Reconcile

  ghost predicate DistinctChanges(changes: seq<EventChange>) {
    forall i, j :: 0 <= i < j < |changes| ==> changes[i].eventId != changes[j].eventId
  }

  // ---------------------------------------------------------------- members

  lemma {:induction false} UpsertMembers(h: Hasher, changes: seq<EventChange>)
    ensures forall row :: row in Upserts(h, changes) <==> exists c :: c in changes && c.Live() && Observed(h, c) == row
    ensures DistinctChanges(changes) ==> DistinctIds(Upserts(h, changes))
  {
    if changes != [] {
      var n := |changes| - 1;
      UpsertMembers(h, changes[..n]);
      assert changes == changes[..n] + [changes[n]];
      var front := Upserts(h, changes[..n]);
      forall row ensures row in Upserts(h, changes) <==> exists c :: c in changes && c.Live() && Observed(h, c) == row {
        if row in front {
          var c :| c in changes[..n] && c.Live() && Observed(h, c) == row;
          assert c in changes;
        }
        if c :| c in changes && c.Live() && Observed(h, c) == row {
          assert c in changes[..n] || c == changes[n];
        }
        if changes[n].Live() { assert changes[n] in changes; }
      }
      if DistinctChanges(changes) {
        forall i | 0 <= i < |front| ensures front[i].eventId != changes[n].eventId {
          assert front[i] in front;
          var c :| c in changes[..n] && c.Live() && Observed(h, c) == front[i];
        }
      }
    }
  }

  lemma {:induction false} RemovalMembers(changes: seq<EventChange>, cached: Cache, id: string)
    ensures id in Removals(changes, cached) <==>
      id in cached && exists c :: c in changes && c.cancelled && c.eventId == id
  {
    if changes != [] {
      var n := |changes| - 1;
      RemovalMembers(changes[..n], cached, id);
      assert changes == changes[..n] + [changes[n]];
    }
  }

  lemma {:induction false} DecisionMembers(h: Hasher, changes: seq<EventChange>, cached: Cache, d: Decision)
    ensures d in Decisions(h, changes, cached) <==>
      exists c :: c in changes && Classify(h, c, Lookup(cached, c.eventId)) == Some(d)
  {
    if changes != [] {
      var n := |changes| - 1;
      DecisionMembers(h, changes[..n], cached, d);
      assert changes == changes[..n] + [changes[n]];
    }
  }

  ghost predicate OnePerEvent(ds: seq<Decision>) {
    forall i, j :: 0 <= i < j < |ds| ==> ds[i].eventId != ds[j].eventId
  }

  lemma {:induction false} OneDecisionPerId(h: Hasher, changes: seq<EventChange>, cached: Cache)
    requires DistinctChanges(changes)
    ensures OnePerEvent(Decisions(h, changes, cached))
  {
    if changes != [] {
      var n := |changes| - 1;
      OneDecisionPerId(h, changes[..n], cached);
      var front := Decisions(h, changes[..n], cached);
      forall i | 0 <= i < |front| ensures front[i].eventId != changes[n].eventId {
        DecisionMembers(h, changes[..n], cached, front[i]);
        assert front[i] in front;
        var c :| c in changes[..n] && Classify(h, c, Lookup(cached, c.eventId)) == Some(front[i]);
      }
      var d := Classify(h, changes[n], Lookup(cached, changes[n].eventId));
      var ds := Decisions(h, changes, cached);
      assert ds == if d.Some? then front + [d.value] else front;
      assert OnePerEvent(front);
    }
  }

  lemma {:induction false} GoneMembers(order: seq<string>, cached: Cache, present: set<string>, since: int)
    requires forall id :: id in order ==> id in cached
    ensures forall c :: c in Gone(order, cached, present, since) <==>
      c.eventId in order && c.eventId !in present && since < cached[c.eventId].end
      && c == EventChange(c.eventId, true, None, cached[c.eventId].seriesId)
    ensures Distinct(order) ==> DistinctChanges(Gone(order, cached, present, since))
  {
    if order != [] {
      var n := |order| - 1;
      GoneMembers(order[..n], cached, present, since);
      assert order == order[..n] + [order[n]];
      var front := Gone(order[..n], cached, present, since);
      assert forall i :: 0 <= i < |front| ==> front[i] in front;
    }
  }

  lemma {:induction false} AgedMembers(order: seq<string>, cached: Cache, present: set<string>, since: int, id: string)
    requires forall k :: k in order ==> k in cached
    ensures id in AgedOut(order, cached, present, since) <==> id in order && id !in present && cached[id].end <= since
  {
    if order != [] {
      var n := |order| - 1;
      AgedMembers(order[..n], cached, present, since, id);
      assert order == order[..n] + [order[n]];
    }
  }

  // ---------------------------------------------------------------- the cache an application leaves

  /** The row the changes leave for id, told without replaying them. */
  ghost predicate LeavesAt(h: Hasher, changes: seq<EventChange>, cache: Cache, cache': Cache, id: string) {
    && (forall c :: c in changes && c.eventId == id && c.Live() ==> Lookup(cache', id) == Some(Stored(Observed(h, c))))
    && (forall c :: c in changes && c.eventId == id && c.cancelled ==> Lookup(cache', id) == None)
    && ((forall c :: c in changes && c.eventId == id ==> !c.cancelled && !c.Live()) ==>
        Lookup(cache', id) == Lookup(cache, id))
  }

  lemma UpsertsAt(h: Hasher, changes: seq<EventChange>, cache: Cache, id: string)
    requires DistinctChanges(changes)
    ensures var up := Upserted(cache, Upserts(h, changes));
      && (forall c :: c in changes && c.eventId == id && c.Live() ==> Lookup(up, id) == Some(Stored(Observed(h, c))))
      && ((forall c :: c in changes && c.eventId == id ==> !c.Live()) ==> Lookup(up, id) == Lookup(cache, id))
  {
    var rows := Upserts(h, changes);
    UpsertMembers(h, changes);
    UpsertedAt(cache, rows, id);
    if c :| c in changes && c.eventId == id && c.Live() {
      assert Observed(h, c) in rows;
      var i :| 0 <= i < |rows| && rows[i] == Observed(h, c);
      assert Ids(rows)[i] == id;
      forall c' | c' in changes && c'.eventId == id ensures c' == c {}
    } else {
      forall i | 0 <= i < |rows| ensures Ids(rows)[i] != id {
        assert rows[i] in rows;
      }
    }
  }

  lemma ApplyLeaves(h: Hasher, col: Col, changes: seq<EventChange>, id: string)
    requires DistinctChanges(changes)
    ensures var t := Apply(h, Begin(col), changes, col.cache);
      t.ok && t.col.state == col.state && LeavesAt(h, changes, col.cache, t.col.cache, id)
  {
    UpsertMembers(h, changes);
    UpsertsAt(h, changes, col.cache, id);
    RemovalMembers(changes, col.cache, id);
    var up := Upserted(col.cache, Upserts(h, changes));
    if Upserts(h, changes) == [] {
      assert up == col.cache;
    }
    var t1 := Upsert(Begin(col), Upserts(h, changes));
    assert t1.ok && t1.col.cache == up;
    forall c | c in changes && c.eventId == id && c.cancelled
      ensures forall c' :: c' in changes && c'.eventId == id ==> c' == c
    {}
  }

  // ---------------------------------------------------------------- a lapsed cursor is answered by the diff

  predicate Mentioned(changes: seq<EventChange>, id: string) {
    exists c :: c in changes && c.eventId == id
  }

  /** d announces the listed event c: a creation when it was not cached, an update when its hash moved. */
  predicate NewsOfListed(h: Hasher, cached: Cache, c: EventChange, d: Decision)
    requires c.Live()
  {
    var e := c.event.value;
    var hash := ChangeHash(h, e);
    && d.eventId == c.eventId && d.seriesId == Or(c.seriesId, e.recurringEventId)
    && d.title == e.title && d.start == e.start && !d.collapsed
    && (if c.eventId in cached
        then d.kind == Updated && cached[c.eventId].changeHash != hash
             && d.payload == Payload(Clip(e.title, 200), e.start, e.end, e.allDay, hash,
                                     Some(cached[c.eventId].start != e.start || cached[c.eventId].end != e.end))
        else d.kind == Created && d.payload == Payload(Clip(e.title, 200), e.start, e.end, e.allDay, hash, None))
  }

  /** d cancels a cached event. */
  predicate NewsOfVanished(row: SyncedEvent, id: string, d: Decision) {
    d == Decision(Cancelled, id, row.seriesId, row.title, CancelPayload(Clip(row.title, 200)), row.start, false)
  }

  /** d cancels a cached event a delta reports gone; the change's series id comes first, the cached one after. */
  predicate NewsOfTombstone(cached: Cache, c: EventChange, d: Decision) {
    && c.cancelled && c.eventId in cached
    && var row := cached[c.eventId];
       d == Decision(Cancelled, c.eventId, Or(c.seriesId, row.seriesId), row.title,
                     CancelPayload(Clip(row.title, 200)), row.start, false)
  }

  /** d is what a provider's change has to say against the cache. */
  predicate NewsOf(h: Hasher, cached: Cache, c: EventChange, d: Decision) {
    (c.Live() && NewsOfListed(h, cached, c, d)) || NewsOfTombstone(cached, c, d)
  }

  /**
   * A delta decides a creation for each live event not cached, an update for each cached one whose hash
   * moved, a cancellation for each tombstone of a cached event, and nothing else.
   */
  lemma DeltaDecidesTheNews(h: Hasher, changes: seq<EventChange>, cached: Cache, d: Decision)
    ensures d in Decisions(h, changes, cached) <==>
      exists c :: c in changes && NewsOf(h, cached, c, d)
  {
    DecisionMembers(h, changes, cached, d);
    forall c | c in changes
      ensures Classify(h, c, Lookup(cached, c.eventId)) == Some(d) <==>
              NewsOf(h, cached, c, d)
    {
      if c.Live() { ListedDecides(h, cached, c, d); }
    }
  }

  /**
   * The listing reports a cached event cancelled that ended after the anchor, so that the pass computes it gone
   * too.
   */
  ghost predicate ToldTwice(cached: Cache, listing: seq<EventChange>, since: int, c: EventChange) {
    c in listing && c.cancelled && c.eventId in cached && since < cached[c.eventId].end
  }

  /** The diff's own cancellation: cached, ended after the anchor, and not listed as live. */
  predicate NewsOfUnlisted(cached: Cache, listing: seq<EventChange>, since: int, d: Decision) {
    && d.eventId in cached && since < cached[d.eventId].end && d.eventId !in LiveIds(listing)
    && NewsOfVanished(cached[d.eventId], d.eventId, d)
  }

  /**
   * After a lapsed cursor the pass decides exactly the diff of the cache against the listing: creations
   * for new ids, updates where the hash moved, cancellations for cached ids that ended after the anchor
   * and are not listed as live, nothing for rows that aged out; and, besides, the listing's own tombstones
   * of cached ids.
   */
  lemma ResyncDecidesTheDiff(h: Hasher, col: Col, a: Answer, d: Decision)
    requires col.state.Some? && !(Replayable(col) && a.delta.Some?) && Lists(a.order, col.cache)
    ensures d in PassDecisions(h, col, a) <==>
      || (exists c :: c in a.full.changes && NewsOf(h, col.cache, c, d))
      || NewsOfUnlisted(col.cache, a.full.changes, a.since, d)
  {
    var listing, present := a.full.changes, LiveIds(a.full.changes);
    var gone := Gone(a.order, col.cache, present, a.since);
    DecisionsConcat(h, listing, gone, col.cache);
    DeltaDecidesTheNews(h, listing, col.cache, d);
    DecisionMembers(h, gone, col.cache, d);
    GoneMembers(a.order, col.cache, present, a.since);
    if c :| c in gone && Classify(h, c, Lookup(col.cache, c.eventId)) == Some(d) {
      VanishedDecides(h, col.cache, c.eventId, d);
    }
    if NewsOfUnlisted(col.cache, listing, a.since, d) {
      VanishedDecides(h, col.cache, d.eventId, d);
      assert Vanished(col.cache, d.eventId) in gone;
    }
  }

  lemma {:induction false} DecisionsConcat(h: Hasher, a: seq<EventChange>, b: seq<EventChange>, cached: Cache)
    ensures Decisions(h, a + b, cached) == Decisions(h, a, cached) + Decisions(h, b, cached)
  {
    if b == [] {
      assert a + b == a;
    } else {
      var n := |b| - 1;
      assert (a + b)[..|a + b| - 1] == a + b[..n];
      DecisionsConcat(h, a, b[..n], cached);
    }
  }

  /**
   * A resync decides once per event if and only if no listed tombstone names a cached event that ended after
   * the anchor: such an event is cancelled by the tombstone, and by the diff again.
   */
  lemma ResyncDecidesOnceIff(h: Hasher, col: Col, a: Answer)
    requires col.state.Some? && !(Replayable(col) && a.delta.Some?)
    requires Lists(a.order, col.cache) && DistinctChanges(a.full.changes)
    ensures OnePerEvent(PassDecisions(h, col, a)) <==> !exists c :: ToldTwice(col.cache, a.full.changes, a.since, c)
  {
    var listing, gone := a.full.changes, Gone(a.order, col.cache, LiveIds(a.full.changes), a.since);
    var first, second := Decisions(h, listing, col.cache), Decisions(h, gone, col.cache);
    GoneMembers(a.order, col.cache, LiveIds(listing), a.since);
    DecisionsConcat(h, listing, gone, col.cache);
    OneDecisionPerId(h, listing, col.cache);
    OneDecisionPerId(h, gone, col.cache);
    if c :| ToldTwice(col.cache, listing, a.since, c) {
      var i, j := CancelledTwice(h, col, a, c);
    } else {
      forall i, j | 0 <= i < |first| && 0 <= j < |second| ensures first[i].eventId != second[j].eventId {
        DecidedApart(h, col, a, first[i], second[j]);
      }
      OnceEach(first, second);
    }
  }

  /** Without an event told twice, the listing and the computed tombstones decide about different events. */
  lemma DecidedApart(h: Hasher, col: Col, a: Answer, d: Decision, e: Decision)
    requires Lists(a.order, col.cache) && forall c :: !ToldTwice(col.cache, a.full.changes, a.since, c)
    requires d in Decisions(h, a.full.changes, col.cache)
    requires e in Decisions(h, Gone(a.order, col.cache, LiveIds(a.full.changes), a.since), col.cache)
    ensures d.eventId != e.eventId
  {
    var listing, gone := a.full.changes, Gone(a.order, col.cache, LiveIds(a.full.changes), a.since);
    GoneMembers(a.order, col.cache, LiveIds(listing), a.since);
    DecisionMembers(h, listing, col.cache, d);
    DecisionMembers(h, gone, col.cache, e);
    var c :| c in listing && Classify(h, c, Lookup(col.cache, c.eventId)) == Some(d);
    var g :| g in gone && Classify(h, g, Lookup(col.cache, g.eventId)) == Some(e);
    assert !ToldTwice(col.cache, listing, a.since, c);
    assert c.Live() ==> c.eventId in LiveIds(listing);
  }

  lemma OnceEach(a: seq<Decision>, b: seq<Decision>)
    requires OnePerEvent(a) && OnePerEvent(b)
    requires forall i, j :: 0 <= i < |a| && 0 <= j < |b| ==> a[i].eventId != b[j].eventId
    ensures OnePerEvent(a + b)
  {}

  /** The two cancellations of an event told twice. */
  lemma CancelledTwice(h: Hasher, col: Col, a: Answer, c: EventChange) returns (i: nat, j: nat)
    requires col.state.Some? && !(Replayable(col) && a.delta.Some?)
    requires Lists(a.order, col.cache) && DistinctChanges(a.full.changes)
      && ToldTwice(col.cache, a.full.changes, a.since, c)
    ensures i < j < |PassDecisions(h, col, a)|
    ensures NewsOfTombstone(col.cache, c, PassDecisions(h, col, a)[i])
    ensures NewsOfVanished(col.cache[c.eventId], c.eventId, PassDecisions(h, col, a)[j])
  {
    var listing, gone := a.full.changes, Gone(a.order, col.cache, LiveIds(a.full.changes), a.since);
    DecisionsConcat(h, listing, gone, col.cache);
    assert c.eventId !in LiveIds(listing) by {
      forall c' | c' in listing && c'.eventId == c.eventId ensures c' == c {}
    }
    var told := CancelledByTombstone(h, listing, col.cache, c);
    var computed := CancelledByDiff(h, col, a, c.eventId);
    i := IndexOf(Decisions(h, listing, col.cache), told);
    var k := IndexOf(Decisions(h, gone, col.cache), computed);
    j := |Decisions(h, listing, col.cache)| + k;
  }

  lemma IndexOf(ds: seq<Decision>, d: Decision) returns (i: nat)
    requires d in ds
    ensures i < |ds| && ds[i] == d
  {
    i :| 0 <= i < |ds| && ds[i] == d;
  }

  lemma CancelledByTombstone(h: Hasher, listing: seq<EventChange>, cached: Cache, c: EventChange) returns (d: Decision)
    requires c in listing && c.cancelled && c.eventId in cached
    ensures d in Decisions(h, listing, cached) && NewsOfTombstone(cached, c, d)
  {
    d := Classify(h, c, Lookup(cached, c.eventId)).value;
    DecisionMembers(h, listing, cached, d);
  }

  lemma CancelledByDiff(h: Hasher, col: Col, a: Answer, id: string) returns (d: Decision)
    requires Lists(a.order, col.cache) && id in col.cache && id !in LiveIds(a.full.changes)
      && a.since < col.cache[id].end
    ensures d in Decisions(h, Gone(a.order, col.cache, LiveIds(a.full.changes), a.since), col.cache)
    ensures NewsOfVanished(col.cache[id], id, d)
  {
    var gone, g := Gone(a.order, col.cache, LiveIds(a.full.changes), a.since), Vanished(col.cache, id);
    GoneMembers(a.order, col.cache, LiveIds(a.full.changes), a.since);
    assert g in gone;
    d := Classify(h, g, Lookup(col.cache, id)).value;
    VanishedDecides(h, col.cache, id, d);
    DecisionMembers(h, gone, col.cache, d);
  }

  lemma ListedDecides(h: Hasher, cached: Cache, c: EventChange, d: Decision)
    requires c.Live()
    ensures Classify(h, c, Lookup(cached, c.eventId)) == Some(d) <==> NewsOfListed(h, cached, c, d)
  {}

  /** The computed tombstone of a cached event. */
  function Vanished(cached: Cache, id: string): EventChange
    requires id in cached
  {
    EventChange(id, true, None, cached[id].seriesId)
  }

  lemma VanishedDecides(h: Hasher, cached: Cache, id: string, d: Decision)
    requires id in cached
    ensures Classify(h, Vanished(cached, id), Lookup(cached, id)) == Some(d) <==>
      d.eventId == id && NewsOfVanished(cached[id], id, d)
  {
    assert Or(cached[id].seriesId, cached[id].seriesId) == cached[id].seriesId;
  }

  // ---------------------------------------------------------------- replays are silent

  /**
   * A pass that stopped after n of its cache commits and is replayed with the same delta decides
   * nothing it did not decide the first time, and, once the cache was written in full, nothing at all;
   * the replay then leaves the cache as it is.
   */
  lemma ReplayDecidesNothingNew(h: Hasher, col: Col, changes: seq<EventChange>, n: nat, d: Decision)
    requires DistinctChanges(changes)
    requires n <= |Apply(h, Begin(col), changes, col.cache).commits|
    ensures var t := Apply(h, Begin(col), changes, col.cache);
      var stopped := if n == 0 then col else t.commits[n - 1];
      && (d in Decisions(h, changes, stopped.cache) ==> d in Decisions(h, changes, col.cache))
      && (n == |t.commits| ==> d !in Decisions(h, changes, stopped.cache))
      && (n == |t.commits| ==> Apply(h, Begin(stopped), changes, stopped.cache).col == stopped)
  {
    var t := Apply(h, Begin(col), changes, col.cache);
    var stopped := if n == 0 then col else t.commits[n - 1];
    DecisionMembers(h, changes, stopped.cache, d);
    DecisionMembers(h, changes, col.cache, d);
    UpsertMembers(h, changes);
    forall c | c in changes
      ensures Classify(h, c, Lookup(stopped.cache, c.eventId)) == Some(d) ==>
        Classify(h, c, Lookup(col.cache, c.eventId)) == Some(d)
      ensures n == |t.commits| ==> Classify(h, c, Lookup(stopped.cache, c.eventId)) == None
    {
      UpsertsAt(h, changes, col.cache, c.eventId);
      ApplyLeaves(h, col, changes, c.eventId);
      StoppedCaches(h, col, changes, n);
      forall c' | c' in changes && c'.eventId == c.eventId ensures c' == c {}
    }
    if n == |t.commits| {
      StoppedCaches(h, col, changes, n);
      ReplayLeavesCache(h, col, changes);
    }
  }

  lemma StoppedCaches(h: Hasher, col: Col, changes: seq<EventChange>, n: nat)
    requires DistinctChanges(changes)
    requires n <= |Apply(h, Begin(col), changes, col.cache).commits|
    ensures var t := Apply(h, Begin(col), changes, col.cache);
      var stopped := if n == 0 then col else t.commits[n - 1];
      && stopped.state == col.state
      && (stopped == col || stopped.cache == Upserted(col.cache, Upserts(h, changes)) || stopped == t.col)
      && (n == |t.commits| ==> stopped == t.col)
  {
    UpsertMembers(h, changes);
  }

  lemma ReplayLeavesCache(h: Hasher, col: Col, changes: seq<EventChange>)
    requires DistinctChanges(changes)
    ensures var t := Apply(h, Begin(col), changes, col.cache);
      Apply(h, Begin(t.col), changes, t.col.cache).col == t.col
  {
    var once := Apply(h, Begin(col), changes, col.cache).col;
    var twice := Apply(h, Begin(once), changes, once.cache).col;
    ApplyLeaves(h, col, changes, "");
    ApplyLeaves(h, once, changes, "");
    forall id ensures Lookup(twice.cache, id) == Lookup(once.cache, id) {
      ApplyLeaves(h, col, changes, id);
      ApplyLeaves(h, once, changes, id);
      if c :| c in changes && c.eventId == id && (c.cancelled || c.Live()) {
      } else {
        assert forall c :: c in changes && c.eventId == id ==> !c.cancelled && !c.Live();
      }
    }
    SameRows(twice.cache, once.cache);
  }

  lemma SameRows(a: Cache, b: Cache)
    requires forall id :: Lookup(a, id) == Lookup(b, id)
    ensures a == b
  {
    forall id ensures id in a <==> id in b { assert Lookup(a, id) == Lookup(b, id); }
    forall id | id in a ensures a[id] == b[id] { assert Lookup(a, id) == Lookup(b, id); }
  }
}
