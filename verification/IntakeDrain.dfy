/** Draining a stream: it terminates, it can always finish, and it always ends with the same keys on file. */
module IntakeDrain {
  import opened Basics
  import opened Envelope
  import opened Intake

  predicate Faulty(move: Move) {
    move.Crash? || move.StoreFails? || (move.Ack? && move.lost) || (move.Refuse? && move.lost)
  }

  ghost predicate Complete(s: State) {
    |s.status| == |s.msgs| && forall i :: 0 <= i < |s.msgs| ==> !s.status[i].Open?
  }

  ghost predicate Draining(moves: seq<Move>) {
    forall move :: move in moves ==> !move.Publish?
  }

  function Faults(moves: seq<Move>): nat {
    if moves == [] then 0 else (if Faulty(moves[0]) then 1 else 0) + Faults(moves[1..])
  }

  // ---------------------------------------------------------------- what a complete drain leaves

  ghost predicate SameKeys(a: State, b: State) {
    forall k :: HasKey(a.rows, k) <==> HasKey(b.rows, k)
  }

  ghost predicate KeyOfSomeMessage(msgs: seq<Message>, k: Key) {
    exists i :: 0 <= i < |msgs| && Acceptable(msgs[i]) && MessageKey(msgs[i]) == k
  }

  lemma {:induction false} DrainingKeepsMessages(s: State, moves: seq<Move>, n: nat)
    requires Runs(s, moves, n) && Draining(moves)
    ensures End(s, moves, n).msgs == s.msgs
    decreases |moves|
  {
    if moves != [] {
      assert moves[0] in moves && forall m :: m in moves[1..] ==> m in moves;
      DrainingKeepsMessages(Next(s, moves[0], n), moves[1..], n);
    }
  }

  /** A complete drain has on file the keys it started with and those of the acceptable messages, no others. */
  lemma DrainedKeys(s: State, moves: seq<Move>, n: nat, k: Key)
    requires Start(s) && Runs(s, moves, n) && Draining(moves) && Complete(End(s, moves, n))
    ensures HasKey(End(s, moves, n).rows, k) <==> HasKey(s.rows, k) || KeyOfSomeMessage(s.msgs, k)
  {
    var e := End(s, moves, n);
    DrainingKeepsMessages(s, moves, n);
    RunKeepsInv(s, moves, |s.rows|, n);
    if HasKey(e.rows, k) {
      var r :| 0 <= r < |e.rows| && KeyOf(e.rows[r]) == k;
      if r < |s.rows| {
        assert s.rows[r] == e.rows[r];
      } else {
        assert CarriedBy(e.msgs, e.rows[r]);
        var i :| 0 <= i < |e.msgs| && Acceptable(e.msgs[i]) && Parse(e.msgs[i]) == Some(e.rows[r]);
        assert MessageKey(s.msgs[i]) == k;
      }
    }
    if HasKey(s.rows, k) {
      var r :| 0 <= r < |s.rows| && KeyOf(s.rows[r]) == k;
      assert e.rows[r] == s.rows[r];
    }
    if KeyOfSomeMessage(s.msgs, k) {
      var i :| 0 <= i < |s.msgs| && Acceptable(s.msgs[i]) && MessageKey(s.msgs[i]) == k;
      assert e.status[i].Acked?;
    }
  }

  /** However deliveries, redeliveries, lost acknowledgements, store failures and crashes fall, two drains agree. */
  lemma DrainsAgree(s: State, moves: seq<Move>, moves': seq<Move>, n: nat)
    requires Start(s) && Runs(s, moves, n) && Runs(s, moves', n) && Draining(moves) && Draining(moves')
    requires Complete(End(s, moves, n)) && Complete(End(s, moves', n))
    ensures SameKeys(End(s, moves, n), End(s, moves', n))
  {
    forall k ensures HasKey(End(s, moves, n).rows, k) <==> HasKey(End(s, moves', n).rows, k) {
      DrainedKeys(s, moves, n, k);
      DrainedKeys(s, moves', n, k);
    }
  }

  // ---------------------------------------------------------------- a ranking function

  function OpenCount(status: seq<Status>): nat {
    if status == [] then 0 else (if status[0].Open? then 1 else 0) + OpenCount(status[1..])
  }

  lemma {:induction false} OpenCountUpdate(status: seq<Status>, i: nat, to: Status)
    requires i < |status| && !to.Open?
    ensures OpenCount(status[i := to]) == OpenCount(status) - if status[i].Open? then 1 else 0
    ensures OpenCount(status) <= |status|
  {
    OpenCountBound(status);
    if i == 0 {
      assert status[0 := to][1..] == status[1..];
    } else {
      assert status[i := to][1..] == status[1..][i - 1 := to];
      OpenCountUpdate(status[1..], i - 1, to);
    }
  }

  lemma {:induction false} OpenCountBound(status: seq<Status>)
    ensures OpenCount(status) <= |status|
  {
    if status != [] { OpenCountBound(status[1..]); }
  }

  /**
   * How far a worker is from picking up another message. Holding an open message ranks below idling,
   * because closing it pays for what follows; holding one already closed ranks above.
   */
  function PcRank(pc: Pc, status: seq<Status>, n: nat): nat {
    match pc
    case Idle => 3
    case Got(i) => if i < |status| && status[i].Open? then 2 else n + 6
    case OnFile(i, _) => if i < |status| && status[i].Open? then 1 else n + 5
    case FanOut(_, _, next) => 4 + if next < n then n - next else 0
  }

  function PcRanks(pcs: seq<Pc>, status: seq<Status>, n: nat): nat {
    if pcs == [] then 0 else PcRank(pcs[0], status, n) + PcRanks(pcs[1..], status, n)
  }

  lemma {:induction false} PcRanksUpdate(pcs: seq<Pc>, status: seq<Status>, n: nat, w: nat, pc: Pc)
    requires w < |pcs|
    ensures PcRanks(pcs[w := pc], status, n) ==
      PcRanks(pcs, status, n) - PcRank(pcs[w], status, n) + PcRank(pc, status, n)
  {
    if w == 0 {
      assert pcs[0 := pc][1..] == pcs[1..];
    } else {
      assert pcs[w := pc][1..] == pcs[1..][w - 1 := pc];
      PcRanksUpdate(pcs[1..], status, n, w - 1, pc);
    }
  }

  lemma {:induction false} PcRanksBound(pcs: seq<Pc>, status: seq<Status>, n: nat)
    ensures PcRanks(pcs, status, n) <= |pcs| * (n + 6)
  {
    if pcs != [] {
      PcRanksBound(pcs[1..], status, n);
      assert |pcs| * (n + 6) == (n + 6) + (|pcs| - 1) * (n + 6);
    }
  }

  /** Everything a state can cost between two closings. */
  function Lap(workers: nat, n: nat): nat {
    workers * (n + 6) + 1
  }

  /** The steps left: faults outweigh open messages, which outweigh the workers' progress. */
  function Rank(s: State, faults: nat, n: nat): nat {
    faults * ((|s.msgs| + 1) * Lap(|s.pcs|, n)) + OpenCount(s.status) * Lap(|s.pcs|, n) + PcRanks(s.pcs, s.status, n)
  }

  lemma LexLess(f: nat, f': nat, o: nat, o': nat, r: nat, r': nat, m: nat, lap: nat)
    requires r < lap && r' < lap && o <= m && o' <= m
    requires f' < f || (f' == f && (o' < o || (o' == o && r' < r)))
    ensures f' * ((m + 1) * lap) + o' * lap + r' < f * ((m + 1) * lap) + o * lap + r
  {
    var big := (m + 1) * lap;
    assert big == m * lap + lap;
    if f' < f {
      Multiples(f', f, big);
      if o' < m { Multiples(o', m, lap); }
    } else if o' < o {
      Multiples(o', o, lap);
    }
  }

  lemma Multiples(a: nat, b: nat, k: nat)
    requires a < b
    ensures a * k + k <= b * k
  {
    assert b * k == a * k + (b - a) * k;
    assert (b - a) * k == k + (b - a - 1) * k;
  }

  function Handled(s: State, move: Move): nat
    requires !move.Publish? && move.w < |s.pcs|
  {
    if move.Deliver? then move.msg else if s.pcs[move.w].Idle? then 0 else s.pcs[move.w].msg
  }

  /**
   * A move changes one worker, and either closes the one message it handles or, unless faulty, brings its
   * worker on.
   */
  lemma OneWorkerMoves(s: State, move: Move, base: nat, n: nat)
    requires Inv(s, base, n) && Enabled(s, move, n) && !move.Publish?
    ensures var s' := Next(s, move, n);
      && move.w < |s.pcs| && s'.msgs == s.msgs && s'.pcs == s.pcs[move.w := s'.pcs[move.w]]
      && (s'.status == s.status && !Faulty(move) ==>
            PcRank(s'.pcs[move.w], s.status, n) < PcRank(s.pcs[move.w], s.status, n))
  {}

  lemma OneMessageCloses(s: State, move: Move, base: nat, n: nat)
    requires Inv(s, base, n) && Enabled(s, move, n) && !move.Publish?
    ensures var s' := Next(s, move, n); var i := Handled(s, move);
      && |s'.status| == |s.status|
      && (s'.status != s.status ==>
            i < |s.status| && s.status[i].Open? && !s'.status[i].Open? && s'.status == s.status[i := s'.status[i]])
  {}

  /** Every move but a publication lowers the rank, a fault by using up one of the faults allowed. */
  lemma MovesLowerRank(s: State, move: Move, base: nat, faults: nat, n: nat)
    requires Inv(s, base, n) && Enabled(s, move, n) && !move.Publish? && (Faulty(move) ==> faults >= 1)
    ensures Rank(Next(s, move, n), if Faulty(move) then faults - 1 else faults, n) < Rank(s, faults, n)
  {
    var s' := Next(s, move, n);
    OneWorkerMoves(s, move, base, n);
    OneMessageCloses(s, move, base, n);
    RankFalls(s, s', move.w, Handled(s, move), faults, if Faulty(move) then faults - 1 else faults, n);
  }

  lemma RankFalls(s: State, s': State, w: nat, i: nat, faults: nat, faults': nat, n: nat)
    requires w < |s.pcs| && s'.msgs == s.msgs && w < |s'.pcs| && s'.pcs == s.pcs[w := s'.pcs[w]]
    requires |s.status| == |s'.status| == |s.msgs|
    requires s'.status != s.status ==>
               i < |s.status| && s.status[i].Open? && !s'.status[i].Open? && s'.status == s.status[i := s'.status[i]]
    requires faults' < faults
             || (faults' == faults && (s'.status == s.status ==>
                                       PcRank(s'.pcs[w], s.status, n) < PcRank(s.pcs[w], s.status, n)))
    ensures Rank(s', faults', n) < Rank(s, faults, n)
  {
    PcRanksBound(s.pcs, s.status, n);
    PcRanksBound(s'.pcs, s'.status, n);
    OpenCountBound(s.status);
    OpenCountBound(s'.status);
    PcRanksUpdate(s.pcs, s.status, n, w, s'.pcs[w]);
    if s'.status != s.status {
      OpenCountUpdate(s.status, i, s'.status[i]);
    }
    LexLess(faults, faults', OpenCount(s.status), OpenCount(s'.status),
            PcRanks(s.pcs, s.status, n), PcRanks(s'.pcs, s'.status, n), |s.msgs|, Lap(|s.pcs|, n));
  }

  /** A drain with so many faults is no longer than its rank: it terminates. */
  lemma {:induction false} DrainIsBounded(s: State, moves: seq<Move>, base: nat, n: nat)
    requires Inv(s, base, n) && Runs(s, moves, n) && Draining(moves)
    ensures |moves| <= Rank(s, Faults(moves), n)
    decreases |moves|
  {
    if moves != [] {
      assert moves[0] in moves && forall m :: m in moves[1..] ==> m in moves;
      MovesLowerRank(s, moves[0], base, Faults(moves), n);
      NextKeepsInv(s, moves[0], base, n);
      DrainIsBounded(Next(s, moves[0], n), moves[1..], base, n);
    }
  }

  /** While a message is open some move other than a fault is possible. */
  function Onward(s: State): Move
    requires |s.pcs| >= 1
  {
    match s.pcs[0]
    case Idle => Deliver(0, FirstOpen(s.status))
    case Got(i) => if i < |s.msgs| && Acceptable(s.msgs[i]) then Append(0) else Refuse(0, false)
    case OnFile(_, _) => Ack(0, false)
    case FanOut(_, _, _) => Call(0)
  }

  function FirstOpen(status: seq<Status>): nat {
    if status == [] || status[0].Open? then 0 else 1 + FirstOpen(status[1..])
  }

  lemma {:induction false} FirstOpenIsOpen(status: seq<Status>)
    requires exists i :: 0 <= i < |status| && status[i].Open?
    ensures FirstOpen(status) < |status| && status[FirstOpen(status)].Open?
  {
    if !status[0].Open? {
      var i :| 0 <= i < |status| && status[i].Open?;
      assert status[1..][i - 1].Open?;
      FirstOpenIsOpen(status[1..]);
    }
  }

  /** From any reachable state the stream can be drained without another fault. */
  lemma {:induction false} CanDrain(s: State, base: nat, n: nat) returns (moves: seq<Move>)
    requires Inv(s, base, n) && |s.pcs| >= 1
    ensures Runs(s, moves, n) && Draining(moves) && Faults(moves) == 0 && Complete(End(s, moves, n))
    decreases Rank(s, 0, n)
  {
    if Complete(s) {
      moves := [];
    } else {
      FirstOpenIsOpen(s.status);
      var move := Onward(s);
      assert Enabled(s, move, n);
      MovesLowerRank(s, move, base, 0, n);
      NextKeepsInv(s, move, base, n);
      var rest := CanDrain(Next(s, move, n), base, n);
      moves := [move] + rest;
    }
  }
}
