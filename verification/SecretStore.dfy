/**
 * The cached secret-store client, shared by worker threads: built under a lock, dropped by whoever
 * first sees it refused, and retried once per call. Clients are numbered in the order they are built.
 */
module SecretStore {
  import opened Basics

  // ---------------------------------------------------------------- the critical sections

  /** The cached client, and how many have been built. */
  datatype Cache = Cache(client: Option<nat>, built: nat)

  /** _client_sync under the lock: reuse, or build when the token is accepted; None is the raised error. */
  function Fetched(c: Cache, accepted: bool): (Option<nat>, Cache) {
    if c.client.Some? then (c.client, c)
    else if accepted then (Some(c.built), Cache(Some(c.built), c.built + 1))
    else (None, c)
  }

  /** _invalidate under the lock: drop the stale client unless another thread already replaced it. */
  function Dropped(c: Cache, stale: nat): Cache {
    if c.client == Some(stale) then c.(client := None) else c
  }

  class SecretStore {
    var cache: Cache

    constructor ()
      ensures cache == Cache(None, 0)
    {
      cache := Cache(None, 0);
    }

    method ClientSync(accepted: bool) returns (client: Option<nat>)
      modifies this
      ensures (client, cache) == Fetched(old(cache), accepted)
    {
      if cache.client.None? {
        if !accepted {
          return None;
        }
        cache := Cache(Some(cache.built), cache.built + 1);
      }
      client := cache.client;
    }

    method Invalidate(stale: nat)
      modifies this
      ensures cache == Dropped(old(cache), stale)
    {
      if cache.client == Some(stale) {
        cache := cache.(client := None);
      }
    }

    /**
     * _call: the operation runs with the cached client, and once more with a fresh one when the first is
     * refused; used lists the clients it ran with, and done says whether its last run was not refused.
     */
    method Call(accepted: bool, acceptedAgain: bool, refuses: nat -> bool) returns (used: seq<nat>, done: bool)
      requires cache.client.Some? ==> cache.client.value < cache.built
      modifies this
      ensures |used| <= 2 && (done <==> used != [] && !refuses(used[|used| - 1]))
      ensures |used| == 2 ==> used[0] < used[1] && refuses(used[0])
      ensures cache.client.Some? ==> cache.client.value < cache.built
      ensures |used| >= 1 && !refuses(used[0]) ==> |used| == 1 && cache.client == Some(used[0])
      ensures cache.built <= old(cache).built + |used|
      ensures used == [] <==> old(cache).client.None? && !accepted
      ensures used != [] ==> used[0] == if old(cache).client.Some? then old(cache).client.value else old(cache).built
      ensures used != [] && refuses(used[0]) ==> (|used| == 2 <==> acceptedAgain)
      ensures |used| == 1 && refuses(used[0]) ==> cache.client.None?
      ensures |used| == 2 ==> cache.client == Some(used[1]) && cache.built == used[1] + 1
    {
      var first := ClientSync(accepted);
      if first.None? {
        return [], false;
      }
      if !refuses(first.value) {
        return [first.value], true;
      }
      Invalidate(first.value);
      var second := ClientSync(acceptedAgain);
      if second.None? {
        return [first.value], false;
      }
      used := [first.value, second.value];
      done := !refuses(second.value);
    }
  }

  // ---------------------------------------------------------------- threads interleaved

  datatype Pc = Idle | Fetching | Running(client: nat) | Rejected(client: nat)

  /** used: the clients each thread's current call has run its operation with. */
  datatype State = State(cache: Cache, pcs: seq<Pc>, used: seq<seq<nat>>, refused: set<nat>, dropped: seq<nat>)

  datatype Move = Begin(t: nat)
                | Fetch(t: nat, accepted: bool)
                | Succeed(t: nat)
                | Refuse(t: nat)
                | Invalidate(t: nat)

  predicate Enabled(s: State, move: Move) {
    && move.t < |s.pcs| && move.t < |s.used|
    && match move
       case Begin(t) => s.pcs[t].Idle?
       case Fetch(t, _) => s.pcs[t].Fetching?
       case Succeed(t) => s.pcs[t].Running?
       case Refuse(t) => s.pcs[t].Running?
       case Invalidate(t) => s.pcs[t].Rejected?
  }

  function Next(s: State, move: Move): State
    requires Enabled(s, move)
  {
    match move
    case Begin(t) => s.(pcs := s.pcs[t := Fetching], used := s.used[t := []])
    case Fetch(t, accepted) =>
      var f := Fetched(s.cache, accepted);
      (match f.0
       case None => s.(pcs := s.pcs[t := Idle])
       case Some(c) => s.(cache := f.1, pcs := s.pcs[t := Running(c)], used := s.used[t := s.used[t] + [c]]))
    case Succeed(t) => s.(pcs := s.pcs[t := Idle])
    case Refuse(t) =>
      var c := s.pcs[t].client;
      s.(refused := s.refused + {c}, pcs := s.pcs[t := if |s.used[t]| == 1 then Rejected(c) else Idle])
    case Invalidate(t) =>
      var c := s.pcs[t].client;
      s.(cache := Dropped(s.cache, c), pcs := s.pcs[t := Fetching],
         dropped := if s.cache.client == Some(c) then s.dropped + [c] else s.dropped)
  }

  ghost predicate Runs(s: State, moves: seq<Move>)
    decreases |moves|
  {
    moves == [] || (Enabled(s, moves[0]) && Runs(Next(s, moves[0]), moves[1..]))
  }

  ghost function End(s: State, moves: seq<Move>): State
    requires Runs(s, moves)
    decreases |moves|
  {
    if moves == [] then s else End(Next(s, moves[0]), moves[1..])
  }

  ghost predicate Start(s: State) {
    && s.cache == Cache(None, 0) && s.refused == {} && s.dropped == []
    && |s.used| == |s.pcs| && (forall t :: 0 <= t < |s.pcs| ==> s.pcs[t].Idle? && s.used[t] == [])
  }

  /** One thread's call: at most two clients, the second newer, and a dropped one never fetched again. */
  predicate ThreadOk(pc: Pc, used: seq<nat>, cache: Cache, refused: set<nat>) {
    && |used| <= 2
    && (forall c :: c in used ==> c < cache.built)
    && (|used| == 2 ==> used[0] < used[1])
    && match pc
       case Idle => true
       case Fetching => |used| <= 1 && (|used| == 1 ==> cache.client != Some(used[0]))
       case Running(c) => |used| >= 1 && used[|used| - 1] == c
       case Rejected(c) => used == [c] && c in refused
  }

  /** Clients are dropped once, after being refused, and all but the cached one have been dropped. */
  ghost predicate CacheOk(s: State) {
    && (s.cache.client.Some? ==> s.cache.client.value + 1 == s.cache.built && s.cache.client.value !in s.dropped)
    && Distinct(s.dropped)
    && (forall c :: c in s.dropped ==> c < s.cache.built && c in s.refused)
    && s.cache.built == |s.dropped| + (if s.cache.client.Some? then 1 else 0)
  }

  ghost predicate Inv(s: State) {
    && CacheOk(s) && |s.used| == |s.pcs|
    && forall t :: 0 <= t < |s.pcs| ==> ThreadOk(s.pcs[t], s.used[t], s.cache, s.refused)
  }

  lemma NextKeepsInv(s: State, move: Move)
    requires Inv(s) && Enabled(s, move)
    ensures Inv(Next(s, move))
  {
    var s' := Next(s, move);
    forall t | 0 <= t < |s'.pcs| ensures ThreadOk(s'.pcs[t], s'.used[t], s'.cache, s'.refused) {
      assert ThreadOk(s.pcs[t], s.used[t], s.cache, s.refused);
      if s.used[t] != [] { assert s.used[t][0] in s.used[t]; }
    }
  }

  lemma {:induction false} RunKeepsInv(s: State, moves: seq<Move>)
    requires Inv(s) && Runs(s, moves)
    ensures Inv(End(s, moves))
    decreases |moves|
  {
    if moves != [] {
      NextKeepsInv(s, moves[0]);
      RunKeepsInv(Next(s, moves[0]), moves[1..]);
    }
  }

  lemma {:induction false} DistinctFits(s: seq<nat>, bound: set<nat>)
    requires Distinct(s) && forall c :: c in s ==> c in bound
    ensures |s| <= |bound|
  {
    if s != [] {
      var n := |s| - 1;
      assert s[n] in s && forall c :: c in s[..n] ==> c in s;
      assert forall c :: c in s[..n] ==> c in bound - {s[n]};
      DistinctFits(s[..n], bound - {s[n]});
    }
  }

  /**
   * However the threads interleave: a call has run its operation at most twice, the second time with a
   * strictly newer client; each client is dropped at most once; and clients built never exceed one more
   * than the distinct clients refused, however many threads were refused at once.
   */
  lemma ReauthIsBounded(s: State, moves: seq<Move>, t: nat)
    requires Start(s) && Runs(s, moves) && t < |s.pcs|
    ensures var e := End(s, moves);
      && |e.used| == |e.pcs| && e.cache.built <= 1 + |e.refused| && Distinct(e.dropped)
      && (t < |e.pcs| ==> |e.used[t]| <= 2 && (|e.used[t]| == 2 ==> e.used[t][0] < e.used[t][1]))
  {
    RunKeepsInv(s, moves);
    var e := End(s, moves);
    DistinctFits(e.dropped, e.refused);
    if t < |e.pcs| { assert ThreadOk(e.pcs[t], e.used[t], e.cache, e.refused); }
  }

  // ---------------------------------------------------------------- the retry

  /** Whether the thread that is running a client can, by its own moves alone, come to run a newer one. */
  lemma RefusedCallRunsAgain(s: State, moves: seq<Move>, t: nat, accepted: bool)
    requires Start(s) && Runs(s, moves) && t < |End(s, moves).pcs|
    requires t < |End(s, moves).used| && End(s, moves).pcs[t].Running? && |End(s, moves).used[t]| == 1
    ensures var e := End(s, moves); var c := e.pcs[t].client;
      && Enabled(e, Refuse(t)) && Enabled(Next(e, Refuse(t)), Invalidate(t))
      && Enabled(Next(Next(e, Refuse(t)), Invalidate(t)), Fetch(t, accepted))
      && var e' := Next(Next(Next(e, Refuse(t)), Invalidate(t)), Fetch(t, accepted));
         if e.cache.client.Some? && e.cache.client != Some(c) then e'.pcs[t] == Running(e.cache.client.value)
         else if accepted then e'.pcs[t] == Running(e.cache.built) && c < e.cache.built
         else e'.pcs[t] == Idle
  {
    RunKeepsInv(s, moves);
    var e := End(s, moves);
    assert ThreadOk(e.pcs[t], e.used[t], e.cache, e.refused);
    assert e.used[t][0] in e.used[t];
  }
}
