/** Occurrences of one series, listed once and gone from the next listing: what the pass announces of them. */
module SeriesGone {
  import opened Basics
  import opened Spine
  import opened SyncStore
  import opened Reconcile
  import opened ReconcileProofs
  import opened ReconcileRuns
  import opened Emission
  import opened CachedRows
  import NewsOrder
  import Announce
  import DeletedOccurrence

  /** The listed event belongs to the series: by the provider's word, or else by its own. */
  predicate Belongs(c: EventChange, s: string) {
    && s != "" && !c.cancelled && c.event.Some?
    && (if c.seriesId.Some? && c.seriesId.value != "" then c.seriesId else c.event.value.recurringEventId) == Some(s)
  }

  /** The listing does not speak of the event. */
  predicate Absent(changes: seq<EventChange>, id: string) {
    forall c :: c in changes ==> c.eventId != id
  }

  /** A row of the series that the listing passes over is cancelled, under the series. */
  lemma AbsentIsCancelled(h: Hasher, col: Col, a: Answer, id: string, s: string) returns (i: nat)
    requires col.state.Some? && !(Replayable(col) && a.delta.Some?) && Lists(a.order, col.cache)
    requires id in col.cache && col.cache[id].seriesId == Some(s) && a.since < col.cache[id].end
    requires Absent(a.full.changes, id)
    ensures i < |PassDecisions(h, col, a)|
    ensures var d := PassDecisions(h, col, a)[i]; d.kind == Cancelled && d.eventId == id && d.seriesId == Some(s)
  {
    var row := col.cache[id];
    var d := Decision(Cancelled, id, row.seriesId, row.title, CancelPayload(Clip(row.title, 200)), row.start, false);
    assert NewsOfUnlisted(col.cache, a.full.changes, a.since, d);
    ResyncDecidesTheDiff(h, col, a, d);
    i := IndexOf(PassDecisions(h, col, a), d);
  }

  /**
   * Two decisions of one kind under one series fold into one of the series, flagged, and nothing else of that
   * kind is under it.
   */
  lemma TwoFoldToTheSeries(ds: seq<Decision>, i: nat, j: nat, s: string, k: Kind) returns (out: Decision)
    requires i < |ds| && j < |ds| && i != j && s != ""
    requires ds[i].kind == k && ds[j].kind == k && ds[i].seriesId == Some(s) && ds[j].seriesId == Some(s)
    ensures out in Announce.Collapsed(ds) && out.kind == k
    ensures out.eventId == s && out.seriesId == Some(s) && out.collapsed
  {
    var key := (s, k);
    DeletedOccurrence.GroupOfTwo(ds, if i < j then i else j, if i < j then j else i, key);
    Announce.GroupMembers(ds, key);
    Announce.KeysAreMet(ds, key);
    var group := Announce.Group(ds, key);
    assert ds[i] in group;
    out := Announce.Folded(group, key);
    assert Announce.Earliest(group) in group;
    Announce.CollapseFoldsGroups(ds, out);
  }

  /** The ledger holds no marker for the series that is still live at any reading of the pass. */
  ghost predicate Unmarked(env: Env, ledger: Option<Announce.Ledger>, s: string, k: Kind) {
    ledger.Some? ==>
      var m := (env.tenant, SelfWriteKey(k, env.provider, s));
      m in ledger.value ==> forall i: nat :: ledger.value[m] <= env.clock(i)
  }

  lemma JudgedKeepsUnmarked(env: Env, i: nat, ledger: Option<Announce.Ledger>, d: Decision, s: string, k: Kind)
    requires Unmarked(env, ledger, s, k)
    ensures Unmarked(env, Judged(env, i, ledger, d).2, s, k)
    ensures d.collapsed && d.eventId == s && d.kind == k ==> !Judged(env, i, ledger, d).0
  {}

  /**
   * A collapsed group that no live marker of its series answers for is announced when there is room for every
   * group.
   */
  lemma {:induction false} CollapsedIsAnnounced(env: Env, groups: seq<Decision>, i: nat, n: nat,
                                                ledger: Option<Announce.Ledger>, at: nat, out: Outcome)
    requires i <= at < |groups| && n + |groups| - i <= env.cap && out == Emit(env, groups, i, n, ledger)
    requires groups[at].collapsed && env.sends(groups[at]) && Unmarked(env, ledger, groups[at].eventId, groups[at].kind)
    ensures groups[at] in out.announced
    decreases |groups| - i
  {
    var j := Judged(env, i, ledger, groups[i]);
    var sent := Sent(env, j.0, groups[i]);
    JudgedKeepsUnmarked(env, i, ledger, groups[i], groups[at].eventId, groups[at].kind);
    EmitOnce(env, groups, i, n, ledger);
    var rest := Emit(env, groups, i + 1, n + |sent|, j.2);
    assert out.announced == sent + rest.announced;
    if i == at {
      assert sent == [groups[at]];
    } else {
      CollapsedIsAnnounced(env, groups, i + 1, n + |sent|, j.2, at, rest);
    }
  }

  /**
   * Let the cache hold two occurrences of a series, and a pass, its cursor lapsed, be answered by a listing that
   * passes over both, which end after its anchor. Then it announces the series cancelled, flagged as collapsed,
   * and no other cancellation under that series.
   */
  lemma RowsGoneTogether(h: Hasher, col: Col, a: Answer, id: string, id': string, s: string, env: Env,
                         ledger: Option<Announce.Ledger>)
    returns (out: Decision, at: nat)
    requires col.state.Some? && !(Replayable(col) && a.delta.Some?) && Lists(a.order, col.cache) && id != id' && s != ""
    requires id in col.cache && col.cache[id].seriesId == Some(s) && a.since < col.cache[id].end
    requires id' in col.cache && col.cache[id'].seriesId == Some(s) && a.since < col.cache[id'].end
    requires Absent(a.full.changes, id) && Absent(a.full.changes, id')
    requires Unmarked(env, ledger, s, Cancelled) && forall d :: env.sends(d)
    requires |Announce.Collapsed(PassDecisions(h, col, a))| <= env.cap
    ensures SeriesCancelled(out, s)
      && AnnouncedAlone(PassOutcome(env, PassDecisions(h, col, a), ledger).announced, out, at, s)
  {
    var ds := PassDecisions(h, col, a);
    var i := AbsentIsCancelled(h, col, a, id, s);
    var j := AbsentIsCancelled(h, col, a, id', s);
    out := TwoFoldToTheSeries(ds, i, j, s, Cancelled);
    at := AnnouncedAt(env, ds, ledger, out, s);
  }

  /** The cancellation of the whole series. */
  predicate SeriesCancelled(d: Decision, s: string) {
    d.kind == Cancelled && d.eventId == s && d.seriesId == Some(s) && d.collapsed
  }

  /** It is announced, and is the only cancellation under the series that is. */
  predicate AnnouncedAlone(said: seq<Decision>, d: Decision, at: nat, s: string) {
    && at < |said| && said[at] == d
    && forall i :: 0 <= i < |said| && said[i].kind == d.kind && said[i].seriesId == Some(s) ==> i == at
  }

  /**
   * After any run, let a pass complete with a cursor at a snapshot that shows two occurrences of a series inside
   * the window, and let the next pass, that cursor lapsed, be answered by a listing that passes over both, which end
   * after its anchor. There is exactly one announcement of the series cancelled and none of either occurrence,
   * provided there is room, no live marker of the series, and a bus that takes it.
   */
  lemma GoneTogetherIsAnnouncedOnce(h: Hasher, p: Provider, nodes: seq<Node>, node: Node, node': Node, a: Answer,
                                    b: nat, n: nat, a': Answer, b': nat, n': nat, id: string, id': string, s: string,
                                    env: Env, ledger: Option<Announce.Ledger>)
    returns (out: Decision, at: nat)
    requires Run(h, p, nodes) && ReconcileRuns.PassStep(h, p, nodes[|nodes| - 1], node, a, b, n)
    requires Completes(h, nodes[|nodes| - 1], a, n) && Replayable(node.col) && node.col.state.value.windowStart.Some?
    requires ReconcileRuns.PassStep(h, p, node, node', a', b', n') && a'.delta.None?
    requires var since, now := node.col.state.value.windowStart.value,
      p.snaps(p.version(node.col.state.value.token.value));
      && id in now && id' in now && id != id' && OfSeries(now[id], s) && OfSeries(now[id'], s)
      && since < now[id].event.end && since < now[id'].event.end
      && a'.since < now[id].event.end && a'.since < now[id'].event.end
    requires Absent(a'.full.changes, id) && Absent(a'.full.changes, id')
    requires Unmarked(env, ledger, s, Cancelled) && forall d :: env.sends(d)
    requires |Announce.Collapsed(PassDecisions(h, node.col, a'))| <= env.cap
    ensures SeriesCancelled(out, s)
    ensures AnnouncedAlone(PassOutcome(env, PassDecisions(h, node.col, a'), ledger).announced, out, at, s)
  {
    CompletedPassTellsEachEvent(h, p, nodes, node, a, b, n, id);
    CompletedPassTellsEachEvent(h, p, nodes, node, a, b, n, id');
    out, at := RowsGoneTogether(h, node.col, a', id, id', s, env, ledger);
  }

  /** The event belongs to the series, by the provider's word, or else by its own. */
  predicate OfSeries(live: Live, s: string) {
    && s != ""
    && (if live.seriesId.Some? && live.seriesId.value != "" then live.seriesId else live.event.recurringEventId) ==
      Some(s)
  }

  /**
   * The same after a full sync that completes, first or not and with a cursor or not, and shows both as its
   * listing has them.
   */
  lemma ListedThenGoneIsAnnouncedOnce(h: Hasher, p: Provider, node: Node, node': Node, a: Answer, b: nat, n: nat,
                                      node'': Node, a': Answer, b': nat, n': nat, s: string, c: EventChange,
                                      c': EventChange, env: Env, ledger: Option<Announce.Ledger>)
    returns (out: Decision, at: nat)
    requires ReconcileRuns.PassStep(h, p, node, node', a, b, n) && Completes(h, node, a, n)
    requires !(Replayable(node.col) && a.delta.Some?)
    requires ReconcileRuns.PassStep(h, p, node', node'', a', b', n') && !(Replayable(node'.col) && a'.delta.Some?)
    requires c in a.full.changes && c' in a.full.changes && c.eventId != c'.eventId && Belongs(c, s) && Belongs(c', s)
    requires Absent(a'.full.changes, c.eventId) && Absent(a'.full.changes, c'.eventId)
    requires a'.since < c.event.value.end && a'.since < c'.event.value.end
    requires Unmarked(env, ledger, s, Cancelled) && (forall d :: env.sends(d))
    requires |Announce.Collapsed(PassDecisions(h, node'.col, a'))| <= env.cap
    ensures SeriesCancelled(out, s)
    ensures AnnouncedAlone(PassOutcome(env, PassDecisions(h, node'.col, a'), ledger).announced, out, at, s)
  {
    FullSyncTellsEachEvent(h, p, node, node', a, b, n, c);
    FullSyncTellsEachEvent(h, p, node, node', a, b, n, c');
    FullSyncStaysSound(h, p, node, node', a, b, n);
    out, at := RowsGoneTogether(h, node'.col, a', c.eventId, c'.eventId, s, env, ledger);
  }

  lemma AnnouncedAt(env: Env, ds: seq<Decision>, ledger: Option<Announce.Ledger>, out: Decision, s: string)
    returns (at: nat)
    requires out in Announce.Collapsed(ds) && out.collapsed && env.sends(out) && s != ""
    requires out.eventId == s && out.seriesId == Some(s)
    requires Unmarked(env, ledger, s, out.kind) && |Announce.Collapsed(ds)| <= env.cap
    ensures AnnouncedAlone(PassOutcome(env, ds, ledger).announced, out, at, s)
  {
    var groups := Announce.Collapsed(ds);
    var g := IndexOf(groups, out);
    CollapsedIsAnnounced(env, groups, 0, 0, ledger, g, PassOutcome(env, ds, ledger));
    var said := PassOutcome(env, ds, ledger).announced;
    at := IndexOf(said, out);
    NewsOrder.AnnouncesOneEach(env, ds, ledger);
    forall i | 0 <= i < |said| && said[i].kind == out.kind && said[i].seriesId == Some(s) ensures i == at {
      assert NewsOrder.SameNews(said[i], said[at]) && NewsOrder.SameNews(said[at], said[i]);
    }
  }
}
