/** A deletion that a full listing reports as a tombstone and the pass computes again: what it is announced as. */
module DeletedOccurrence {
  import opened Basics
  import opened Spine
  import opened SyncStore
  import opened Reconcile
  import opened ReconcileProofs
  import Announce

  /** Two members make a group of two at least. */
  lemma {:induction false} GroupOfTwo(ds: seq<Decision>, i: nat, j: nat, k: Announce.Key)
    requires i < j < |ds| && Announce.KeyOf(ds[i]) == k && Announce.KeyOf(ds[j]) == k
    ensures |Announce.Group(ds, k)| >= 2
  {
    var n := |ds| - 1;
    if j < n {
      GroupOfTwo(ds[..n], i, j, k);
    } else {
      Announce.GroupMembers(ds[..n], k);
      assert ds[..n][i] in ds[..n] && ds[i] in Announce.Group(ds[..n], k);
    }
  }

  /**
   * One occurrence of a series deleted while the cursor was lapsed, listed as a tombstone that names no other
   * series: its two cancellations fold into a cancellation of the whole series, flagged as such.
   */
  lemma DeletedOccurrenceCancelsItsSeries(h: Hasher, col: Col, a: Answer, c: EventChange, s: string)
    returns (out: Decision)
    requires col.state.Some? && !(Replayable(col) && a.delta.Some?)
    requires Lists(a.order, col.cache) && DistinctChanges(a.full.changes)
    requires ToldTwice(col.cache, a.full.changes, a.since, c)
    requires col.cache[c.eventId].seriesId == Some(s) && s != "" && Or(c.seriesId, Some(s)) == Some(s)
    ensures out in Announce.Collapsed(PassDecisions(h, col, a))
    ensures out.kind.Cancelled? && out.eventId == s && out.seriesId == Some(s) && out.collapsed
  {
    var ds := PassDecisions(h, col, a);
    var i, j := CancelledTwice(h, col, a, c);
    var k := (s, Cancelled);
    GroupOfTwo(ds, i, j, k);
    Announce.GroupMembers(ds, k);
    Announce.KeysAreMet(ds, k);
    var group := Announce.Group(ds, k);
    assert ds[i] in group;
    out := Announce.Folded(group, k);
    assert Announce.Earliest(group) in group;
    Announce.CollapseFoldsGroups(ds, out);
  }

  /**
   * The smallest such pass: one cached occurrence of a series, and a listing that holds its tombstone alone.
   * The single thing announced is the cancellation of the series.
   */
  lemma OneOccurrenceDeleted(h: Hasher, id: string, s: string, row: SyncedEvent, token: string, since: int)
    requires id != s && s != "" && row.eventId == id && row.seriesId == Some(s) && since < row.end
    ensures
      var col := Col(Some(SyncState(Some(token), Some(since))), map[id := row]);
      var a := Answer(None, Page([EventChange(id, true, None, Some(s))], Some(token)), since, [id]);
      var d := Decision(Cancelled, id, Some(s), row.title, CancelPayload(Clip(row.title, 200)), row.start, false);
      && Lists(a.order, col.cache) && DistinctChanges(a.full.changes) && PassDecisions(h, col, a) == [d, d]
      && Announce.Collapsed([d, d]) == [d.(eventId := s, collapsed := true)]
  {
    var col := Col(Some(SyncState(Some(token), Some(since))), map[id := row]);
    var tombstone := EventChange(id, true, None, Some(s));
    var a := Answer(None, Page([tombstone], Some(token)), since, [id]);
    var d := Decision(Cancelled, id, Some(s), row.title, CancelPayload(Clip(row.title, 200)), row.start, false);
    TombstoneAndGone(h, col, tombstone, a, d);
    FoldsTwins(d, s);
  }

  lemma TombstoneAndGone(h: Hasher, col: Col, c: EventChange, a: Answer, d: Decision)
    requires c.cancelled && c.event.None? && col.cache.Keys == {c.eventId}
      && col.cache[c.eventId].seriesId == c.seriesId
    requires col.state.Some? && a.delta.None? && a.full.changes == [c] && a.order == [c.eventId]
    requires a.since < col.cache[c.eventId].end && Classify(h, c, Some(col.cache[c.eventId])) == Some(d)
    ensures Lists(a.order, col.cache) && PassDecisions(h, col, a) == [d, d]
  {
    assert LiveIds([c]) == {};
    assert [c.eventId][..0] == [] && [c][..0] == [];
    assert Gone([c.eventId], col.cache, {}, a.since) == [c];
    DecisionsConcat(h, [c], [c], col.cache);
    assert Decisions(h, [c], col.cache) == [d];
  }

  /** Two equal decisions of a series fold into one of the series. */
  lemma FoldsTwins(d: Decision, s: string)
    requires d.seriesId == Some(s) && s != ""
    ensures Announce.Collapsed([d, d]) == [d.(eventId := s, collapsed := true)]
  {
    var k, out := (s, d.kind), d.(eventId := s, collapsed := true);
    TwinsGroup(d, k);
    assert d in [d, d] && Announce.Folded([d, d], k) == out;
    assert [k][..0] == [] && [out][..0] == [];
    assert Announce.FoldAll([d, d], [k]) == [out];
    assert Announce.Sort([out]) == [out];
  }

  lemma {:induction false} TwinsGroup(d: Decision, k: Announce.Key)
    requires Announce.KeyOf(d) == k
    ensures Announce.Keys([d, d]) == [k] && Announce.Group([d, d], k) == [d, d] && Announce.Earliest([d, d]) == d
  {
    assert [d, d][..1] == [d] && [d][..0] == [];
    assert Announce.Keys([d]) == [k] && Announce.Group([d], k) == [d];
  }
}
