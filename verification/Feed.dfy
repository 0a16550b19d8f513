/**
 * The live feed: a subscriber queue registered before the history query, so that an event stored
 * while the history is being read is repeated rather than missed.
 */
module Feed {
  import opened Basics
  import opened Envelope

  const FEED_HISTORY: nat := 200
  const QUEUE_MAX: nat := 500

  datatype Filter = Filter(tenant: string, moduleName: string, eventType: string)

  predicate Matches(q: Filter, f: Fields) {
    && f.tenant == q.tenant
    && (q.moduleName == "" || f.moduleName == q.moduleName)
    && (q.eventType == "" || f.eventType == q.eventType)
  }

  datatype Phase = Closed | Registered | Live

  /** Rows are named by id, their position in the log; openedAt and readAt remember when the feed did what. */
  datatype State = State(log: seq<Fields>, published: seq<nat>, phase: Phase, openedAt: nat, readAt: nat,
                         queue: seq<nat>, yielded: seq<nat>)

  datatype Move = Store(f: Fields) | Publish(id: nat) | Open | Read | Take

  /** Matching ids below a bound, ascending. */
  function Matching(log: seq<Fields>, bound: nat, q: Filter): seq<nat>
    requires bound <= |log|
  {
    if bound == 0 then []
    else Matching(log, bound - 1, q) + if Matches(q, log[bound - 1]) then [bound - 1] else []
  }

  function Newest(ids: seq<nat>, limit: nat): seq<nat> {
    if |ids| <= limit then ids else ids[|ids| - limit..]
  }

  /** The replay: the newest matching rows, oldest first. */
  function History(log: seq<Fields>, q: Filter): seq<nat> {
    Newest(Matching(log, |log|, q), FEED_HISTORY)
  }

  ghost predicate Known(log: seq<Fields>, ids: seq<nat>) {
    forall i :: 0 <= i < |ids| ==> ids[i] < |log|
  }

  /** The matching ones among ids, in order. */
  function Selected(log: seq<Fields>, ids: seq<nat>, q: Filter): seq<nat>
    requires Known(log, ids)
  {
    if ids == [] then []
    else
      Selected(log, ids[..|ids| - 1], q) + if Matches(q, log[ids[|ids| - 1]]) then [ids[|ids| - 1]] else []
  }

  /** Every row is published once, after it is stored; the queue is assumed never to fill. */
  predicate Enabled(s: State, move: Move) {
    match move
    case Store(_) => true
    case Publish(id) => id < |s.log| && id !in s.published && |s.queue| < QUEUE_MAX
    case Open => s.phase.Closed?
    case Read => s.phase.Registered?
    case Take => s.phase.Live? && s.queue != [] && s.queue[0] < |s.log|
  }

  function Next(s: State, move: Move, q: Filter): State
    requires Enabled(s, move)
  {
    match move
    case Store(f) => s.(log := s.log + [f])
    case Publish(id) =>
      s.(published := s.published + [id], queue := if s.phase.Closed? then s.queue else s.queue + [id])
    case Open => s.(phase := Registered, openedAt := |s.published|)
    case Read => s.(phase := Live, readAt := |s.log|, yielded := History(s.log, q))
    case Take =>
      s.(queue := s.queue[1..], yielded := s.yielded + if Matches(q, s.log[s.queue[0]]) then [s.queue[0]] else [])
  }

  ghost predicate Runs(s: State, moves: seq<Move>, q: Filter)
    decreases |moves|
  {
    moves == [] || (Enabled(s, moves[0]) && Runs(Next(s, moves[0], q), moves[1..], q))
  }

  ghost function End(s: State, moves: seq<Move>, q: Filter): State
    requires Runs(s, moves, q)
    decreases |moves|
  {
    if moves == [] then s else End(Next(s, moves[0], q), moves[1..], q)
  }

  ghost predicate Start(s: State) {
    s.phase.Closed? && s.queue == [] && s.yielded == [] && Ids(s)
  }

  ghost predicate Ids(s: State) {
    Distinct(s.published) && Known(s.log, s.published)
  }

  /** How many of the rows published since opening have left the queue. */
  function TakenCount(s: State): int {
    |s.published| - s.openedAt - |s.queue|
  }

  /** The queue is what was published since opening and not yet taken; what was taken was yielded if it matched. */
  ghost predicate Inv(s: State, q: Filter) {
    && Ids(s)
    && (s.phase.Closed? ==> s.queue == [] && s.yielded == [])
    && (!s.phase.Closed? ==>
          && s.openedAt <= |s.published| && TakenCount(s) >= 0
          && s.published[s.openedAt + TakenCount(s)..] == s.queue)
    && (s.phase.Registered? ==> TakenCount(s) == 0 && s.yielded == [])
    && (s.phase.Live? ==>
          && s.readAt <= |s.log|
          && s.yielded == History(s.log[..s.readAt], q)
                          + Selected(s.log, s.published[s.openedAt..s.openedAt + TakenCount(s)], q))
  }

  ghost predicate Ascending(ids: seq<nat>) {
    forall i, j :: 0 <= i < j < |ids| ==> ids[i] < ids[j]
  }

  lemma {:induction false} MatchingIds(log: seq<Fields>, bound: nat, q: Filter)
    requires bound <= |log|
    ensures forall id: nat :: id in Matching(log, bound, q) <==> id < bound && Matches(q, log[id])
  {
    if bound > 0 {
      MatchingIds(log, bound - 1, q);
    }
  }

  lemma {:induction false} MatchingAscends(log: seq<Fields>, bound: nat, q: Filter)
    requires bound <= |log|
    ensures Ascending(Matching(log, bound, q))
  {
    if bound > 0 {
      MatchingAscends(log, bound - 1, q);
      MatchingIds(log, bound - 1, q);
      var front := Matching(log, bound - 1, q);
      assert forall i :: 0 <= i < |front| ==> front[i] in front;
    }
  }

  lemma MatchingOf(log: seq<Fields>, bound: nat, q: Filter)
    requires bound <= |log|
    ensures Distinct(Matching(log, bound, q))
    ensures forall id: nat :: id in Matching(log, bound, q) <==> id < bound && Matches(q, log[id])
    ensures Ascending(Matching(log, bound, q))
  {
    MatchingIds(log, bound, q);
    MatchingAscends(log, bound, q);
  }

  lemma {:induction false} SelectedGrows(log: seq<Fields>, f: Fields, ids: seq<nat>, q: Filter)
    requires Known(log, ids)
    ensures Selected(log + [f], ids, q) == Selected(log, ids, q)
  {
    if ids != [] {
      SelectedGrows(log, f, ids[..|ids| - 1], q);
    }
  }

  lemma {:induction false} SelectedOf(log: seq<Fields>, ids: seq<nat>, q: Filter, id: nat)
    requires Known(log, ids) && Distinct(ids) && id < |log|
    ensures Count(Selected(log, ids, q), id) == if id in ids && Matches(q, log[id]) then 1 else 0
  {
    if ids != [] {
      var n := |ids| - 1;
      SelectedOf(log, ids[..n], q, id);
      assert ids == ids[..n] + [ids[n]];
      var last := if Matches(q, log[ids[n]]) then [ids[n]] else [];
      CountConcat(Selected(log, ids[..n], q), last, id);
      assert Count(last, id) == if last == [id] then 1 else 0;
    }
  }

  lemma StoreKeepsInv(s: State, f: Fields, q: Filter)
    requires Inv(s, q)
    ensures Inv(Next(s, Store(f), q), q)
  {
    if s.phase.Live? {
      assert (s.log + [f])[..s.readAt] == s.log[..s.readAt];
      SelectedGrows(s.log, f, s.published[s.openedAt..s.openedAt + TakenCount(s)], q);
    }
  }

  lemma PublishKeepsInv(s: State, id: nat, q: Filter)
    requires Inv(s, q) && Enabled(s, Publish(id))
    ensures Inv(Next(s, Publish(id), q), q)
  {
    var s' := Next(s, Publish(id), q);
    assert Ids(s');
    if !s.phase.Closed? {
      var k := s.openedAt + TakenCount(s);
      assert s'.published[k..] == s.published[k..] + [id];
      assert s'.published[s.openedAt..k] == s.published[s.openedAt..k];
      assert TakenCount(s') == TakenCount(s);
    }
  }

  lemma TakeKeepsInv(s: State, q: Filter)
    requires Inv(s, q) && Enabled(s, Take)
    ensures Inv(Next(s, Take, q), q)
  {
    var k := s.openedAt + TakenCount(s);
    assert s.published[k] == s.queue[0];
    assert s.published[k + 1..] == s.queue[1..];
    var taken := s.published[s.openedAt..k + 1];
    assert taken[..|taken| - 1] == s.published[s.openedAt..k];
    assert taken[|taken| - 1] == s.queue[0];
    var past := History(s.log[..s.readAt], q);
    var last := if Matches(q, s.log[s.queue[0]]) then [s.queue[0]] else [];
    assert (past + Selected(s.log, taken[..|taken| - 1], q)) + last == past + Selected(s.log, taken, q);
  }

  lemma NextKeepsInv(s: State, move: Move, q: Filter)
    requires Inv(s, q) && Enabled(s, move)
    ensures Inv(Next(s, move, q), q)
  {
    match move {
      case Store(f) => StoreKeepsInv(s, f, q);
      case Publish(id) => PublishKeepsInv(s, id, q);
      case Open =>
      case Read =>
        assert s.log[..|s.log|] == s.log;
        assert s.published[s.openedAt..s.openedAt] == [];
      case Take => TakeKeepsInv(s, q);
    }
  }

  lemma {:induction false} RunKeepsInv(s: State, moves: seq<Move>, q: Filter)
    requires Inv(s, q) && Runs(s, moves, q)
    ensures Inv(End(s, moves, q), q)
    decreases |moves|
  {
    if moves != [] {
      NextKeepsInv(s, moves[0], q);
      RunKeepsInv(Next(s, moves[0], q), moves[1..], q);
    }
  }

  /**
   * However stores, publications, the opening, the query and the reads interleave, a feed that has read
   * its queue out has yielded the newest history, oldest first, and then every matching event published
   * since it opened, in order; each of those at least once and at most twice.
   */
  lemma FeedMissesNothing(s: State, moves: seq<Move>, q: Filter, id: nat)
    requires Start(s) && Runs(s, moves, q)
    requires End(s, moves, q).phase.Live? && End(s, moves, q).queue == []
    ensures var e := End(s, moves, q);
      && e.openedAt <= |e.published| && e.readAt <= |e.log| && Ids(e)
      && e.yielded == History(e.log[..e.readAt], q) + Selected(e.log, e.published[e.openedAt..], q)
      && (id in e.published[e.openedAt..] && Matches(q, e.log[id]) ==> 1 <= Count(e.yielded, id) <= 2)
      && (id in e.yielded ==> id < |e.log| && Matches(q, e.log[id]))
  {
    RunKeepsInv(s, moves, q);
    var e := End(s, moves, q);
    assert e.published[e.openedAt..e.openedAt + TakenCount(e)] == e.published[e.openedAt..];
    CountsInFeed(e.log, e.readAt, e.published[e.openedAt..], q, id);
  }

  lemma CountsInFeed(log: seq<Fields>, readAt: nat, live: seq<nat>, q: Filter, id: nat)
    requires readAt <= |log| && Known(log, live) && Distinct(live)
    ensures var yielded := History(log[..readAt], q) + Selected(log, live, q);
      && (id in live && Matches(q, log[id]) ==> 1 <= Count(yielded, id) <= 2)
      && (id in yielded ==> id < |log| && Matches(q, log[id]))
  {
    var past := History(log[..readAt], q);
    MatchingOf(log[..readAt], readAt, q);
    NewestKeeps(Matching(log[..readAt], readAt, q), FEED_HISTORY, id);
    CountConcat(past, Selected(log, live, q), id);
    CountZeroIffAbsent(past + Selected(log, live, q), id);
    if id < |log| {
      SelectedOf(log, live, q, id);
    } else {
      SelectedKnown(log, live, q, id);
    }
  }

  lemma {:induction false} SelectedKnown(log: seq<Fields>, ids: seq<nat>, q: Filter, id: nat)
    requires Known(log, ids)
    ensures id in Selected(log, ids, q) ==> id < |log|
  {
    if ids != [] {
      SelectedKnown(log, ids[..|ids| - 1], q, id);
    }
  }

  lemma NewestKeeps(ids: seq<nat>, limit: nat, id: nat)
    requires Distinct(ids)
    ensures Count(Newest(ids, limit), id) <= 1
    ensures Count(Newest(ids, limit), id) >= 1 ==> id in ids
  {
    DistinctCountsOnce(Newest(ids, limit), id);
  }

  /** The replay is the newest: no matching row left out of it is newer than one in it. */
  lemma HistoryIsNewest(log: seq<Fields>, q: Filter, kept: nat, left: nat)
    requires kept in History(log, q) && left < |log| && Matches(q, log[left]) && left !in History(log, q)
    ensures left < kept && |History(log, q)| == FEED_HISTORY
  {
    MatchingOf(log, |log|, q);
    var all := Matching(log, |log|, q);
    assert left in all;
    var i :| 0 <= i < |all| && all[i] == left;
    var n := |all| - FEED_HISTORY;
    assert n > 0;
    assert i < n ==> forall j :: 0 <= j < |all[n..]| ==> left < all[n..][j];
    assert left in all[n..] || i < n;
  }

  /**
   * The row is one the subscriber asked for: of its tenant, and of the module and the type it named, if it
   * named any.
   */
  predicate AskedFor(q: Filter, f: Fields) {
    f.tenant == q.tenant && (q.moduleName != "" ==> f.moduleName == q.moduleName)
    && (q.eventType != "" ==> f.eventType == q.eventType)
  }

  /**
   * A feed that has read its queue out has shown nothing its subscriber did not ask for, least of all another
   * tenant's, and everything asked for that was published since it opened; and its history is 200 rows at most.
   */
  lemma FeedShowsWhatWasAskedFor(s: State, moves: seq<Move>, q: Filter, id: nat)
    requires Start(s) && Runs(s, moves, q)
    requires End(s, moves, q).phase.Live? && End(s, moves, q).queue == []
    ensures var e := End(s, moves, q);
      && (id in e.yielded ==> id < |e.log| && AskedFor(q, e.log[id]))
      && e.openedAt <= |e.published|
      && (id in e.published[e.openedAt..] ==> id < |e.log| && (AskedFor(q, e.log[id]) ==> id in e.yielded))
      && e.readAt <= |e.log| && |History(e.log[..e.readAt], q)| <= 200
  {
    FeedMissesNothing(s, moves, q, id);
    CountZeroIffAbsent(End(s, moves, q).yielded, id);
  }
}
