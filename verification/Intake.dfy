/**
 * Durable intake as a state machine: a stream that redelivers what is not acknowledged, workers that
 * store before they acknowledge, and a log whose uniqueness constraint absorbs the redeliveries.
 */
module Intake {
  import opened Basics
  import opened Envelope

  datatype Status = Open | Acked | Terminated

  /** Where a worker is with the message it holds; row is the log row this delivery wrote, if it wrote one. */
  datatype Pc = Idle
              | Got(msg: nat)
              | OnFile(msg: nat, row: Option<nat>)
              | FanOut(msg: nat, wrote: nat, next: nat)

  /** Calls are (listener, row) pairs in the order they were made; listener 0 is the live feed. */
  datatype State = State(msgs: seq<Message>, status: seq<Status>, rows: seq<Fields>, pcs: seq<Pc>,
                         calls: seq<(nat, nat)>)

  datatype Move = Publish(m: Message)
                | Deliver(w: nat, msg: nat)
                | Refuse(w: nat, lost: bool)
                | Append(w: nat)
                | StoreFails(w: nat, committed: bool)
                | Ack(w: nat, lost: bool)
                | Call(w: nat)
                | Crash(w: nat)

  predicate HasKey(rows: seq<Fields>, k: Key) {
    exists r :: 0 <= r < |rows| && KeyOf(rows[r]) == k
  }

  predicate Holds(s: State, w: nat) {
    w < |s.pcs| && s.pcs[w].Got? && s.pcs[w].msg < |s.msgs|
  }

  /** When a move can happen, with n listeners registered. */
  predicate Enabled(s: State, move: Move, n: nat) {
    match move
    case Publish(_) => true
    case Deliver(w, i) => w < |s.pcs| && s.pcs[w].Idle? && i < |s.msgs| && i < |s.status| && s.status[i].Open?
    case Refuse(w, _) => Holds(s, w) && !Acceptable(s.msgs[s.pcs[w].msg])
    case Append(w) => Holds(s, w) && Acceptable(s.msgs[s.pcs[w].msg])
    case StoreFails(w, _) => Holds(s, w) && Acceptable(s.msgs[s.pcs[w].msg])
    case Ack(w, _) => w < |s.pcs| && s.pcs[w].OnFile?
    case Call(w) => w < |s.pcs| && s.pcs[w].FanOut? && s.pcs[w].next < n
    case Crash(w) => w < |s.pcs| && !s.pcs[w].Idle?
  }

  /** An acknowledgement or a termination, unless the broker never hears it or had already closed the message. */
  function Close(status: seq<Status>, i: nat, to: Status, lost: bool): seq<Status> {
    if !lost && i < |status| && status[i].Open? then status[i := to] else status
  }

  /** The insert, which loses to the constraint when the key is on file. */
  function Appended(rows: seq<Fields>, f: Fields): seq<Fields> {
    if HasKey(rows, KeyOf(f)) then rows else rows + [f]
  }

  function Next(s: State, move: Move, n: nat): State
    requires Enabled(s, move, n)
  {
    match move
    case Publish(m) => s.(msgs := s.msgs + [m], status := s.status + [Open])
    case Deliver(w, i) => s.(pcs := s.pcs[w := Got(i)])
    case Refuse(w, lost) => s.(status := Close(s.status, s.pcs[w].msg, Terminated, lost), pcs := s.pcs[w := Idle])
    case Append(w) =>
      var i := s.pcs[w].msg;
      var f := Parse(s.msgs[i]).value;
      s.(rows := Appended(s.rows, f),
         pcs := s.pcs[w := OnFile(i, if HasKey(s.rows, KeyOf(f)) then None else Some(|s.rows|))])
    case StoreFails(w, committed) =>
      s.(rows := if committed then Appended(s.rows, Parse(s.msgs[s.pcs[w].msg]).value) else s.rows,
         pcs := s.pcs[w := Idle])
    case Ack(w, lost) =>
      var pc := s.pcs[w];
      s.(status := Close(s.status, pc.msg, Acked, lost),
         pcs := s.pcs[w := if pc.row.Some? && n > 0 then FanOut(pc.msg, pc.row.value, 0) else Idle])
    case Call(w) =>
      var pc := s.pcs[w];
      s.(calls := s.calls + [(pc.next, pc.wrote)],
         pcs := s.pcs[w := if pc.next + 1 < n then pc.(next := pc.next + 1) else Idle])
    case Crash(w) => s.(pcs := s.pcs[w := Idle])
  }

  ghost predicate Runs(s: State, moves: seq<Move>, n: nat)
    decreases |moves|
  {
    moves == [] || (Enabled(s, moves[0], n) && Runs(Next(s, moves[0], n), moves[1..], n))
  }

  ghost function End(s: State, moves: seq<Move>, n: nat): State
    requires Runs(s, moves, n)
    decreases |moves|
  {
    if moves == [] then s else End(Next(s, moves[0], n), moves[1..], n)
  }

  /** A start: nothing closed, nothing in hand, nothing called; the log may hold earlier events. */
  ghost predicate Start(s: State) {
    && |s.status| == |s.msgs| && (forall i :: 0 <= i < |s.status| ==> s.status[i].Open?)
    && (forall w :: 0 <= w < |s.pcs| ==> s.pcs[w].Idle?)
    && s.calls == []
    && UniqueKeys(s.rows)
  }

  ghost predicate UniqueKeys(rows: seq<Fields>) {
    forall a, b :: 0 <= a < b < |rows| ==> KeyOf(rows[a]) != KeyOf(rows[b])
  }

  // ---------------------------------------------------------------- what every reachable state keeps

  /** The row a worker has yet to announce, and the first listener it has not called. */
  function Owes(pc: Pc): Option<(nat, nat)> {
    match pc
    case OnFile(_, Some(r)) => Some((r, 0))
    case FanOut(_, r, next) => Some((r, next))
    case _ => None
  }

  ghost predicate Messages(s: State) {
    && |s.status| == |s.msgs|
    && (forall i :: 0 <= i < |s.msgs| && s.status[i].Acked? ==>
          Acceptable(s.msgs[i]) && HasKey(s.rows, MessageKey(s.msgs[i])))
    && (forall i :: 0 <= i < |s.msgs| && s.status[i].Terminated? ==> !Acceptable(s.msgs[i]))
  }

  ghost predicate Workers(s: State, n: nat) {
    forall w :: 0 <= w < |s.pcs| ==>
      match s.pcs[w]
      case Idle => true
      case Got(i) => i < |s.msgs|
      case OnFile(i, _) => i < |s.msgs| && Acceptable(s.msgs[i]) && HasKey(s.rows, MessageKey(s.msgs[i]))
      case FanOut(i, _, next) => i < |s.msgs| && next < n
  }

  /** Every row past the first base ones is the envelope of an acceptable message. */
  ghost predicate Sourced(s: State, base: nat) {
    base <= |s.rows| && forall r :: base <= r < |s.rows| ==> CarriedBy(s.msgs, s.rows[r])
  }

  ghost predicate CarriedBy(msgs: seq<Message>, f: Fields) {
    exists i :: 0 <= i < |msgs| && Acceptable(msgs[i]) && Parse(msgs[i]) == Some(f)
  }

  /** Each row is announced by one worker, in listener order, so no listener hears of it twice. */
  ghost predicate Announcements(s: State) {
    && (forall w :: 0 <= w < |s.pcs| && Owes(s.pcs[w]).Some? ==>
          Owes(s.pcs[w]).value.0 < |s.rows|
          && forall c :: c in s.calls && c.1 == Owes(s.pcs[w]).value.0 ==> c.0 < Owes(s.pcs[w]).value.1)
    && (forall v, w :: 0 <= v < w < |s.pcs| && Owes(s.pcs[v]).Some? && Owes(s.pcs[w]).Some? ==>
          Owes(s.pcs[v]).value.0 != Owes(s.pcs[w]).value.0)
    && (forall c :: c in s.calls ==> c.1 < |s.rows|)
    && Distinct(s.calls)
  }

  ghost predicate Inv(s: State, base: nat, n: nat) {
    Messages(s) && UniqueKeys(s.rows) && Workers(s, n) && Sourced(s, base) && Announcements(s)
  }

  lemma AppendedKeeps(rows: seq<Fields>, f: Fields)
    requires UniqueKeys(rows)
    ensures UniqueKeys(Appended(rows, f)) && rows <= Appended(rows, f) && HasKey(Appended(rows, f), KeyOf(f))
    ensures forall k :: HasKey(rows, k) ==> HasKey(Appended(rows, f), k)
  {
    var rows' := Appended(rows, f);
    if !HasKey(rows, KeyOf(f)) {
      assert KeyOf(rows'[|rows|]) == KeyOf(f);
    }
    forall k | HasKey(rows, k) ensures HasKey(rows', k) {
      var r :| 0 <= r < |rows| && KeyOf(rows[r]) == k;
      assert rows'[r] == rows[r];
    }
  }

  /** The log only ever grows, keeps its keys unique, and holds what an append has just stored. */
  lemma NextKeepsRows(s: State, move: Move, n: nat)
    requires UniqueKeys(s.rows) && Enabled(s, move, n)
    ensures UniqueKeys(Next(s, move, n).rows) && s.rows <= Next(s, move, n).rows
    ensures forall k :: HasKey(s.rows, k) ==> HasKey(Next(s, move, n).rows, k)
    ensures move.Append? ==> HasKey(Next(s, move, n).rows, MessageKey(s.msgs[s.pcs[move.w].msg]))
  {
    if move.Append? || move.StoreFails? {
      AppendedKeeps(s.rows, Parse(s.msgs[s.pcs[move.w].msg]).value);
    } else {
      assert Next(s, move, n).rows == s.rows;
    }
  }

  lemma NextKeepsMessages(s: State, move: Move, base: nat, n: nat)
    requires Inv(s, base, n) && Enabled(s, move, n)
    ensures Messages(Next(s, move, n))
  {
    NextKeepsRows(s, move, n);
  }

  lemma NextKeepsWorkers(s: State, move: Move, base: nat, n: nat)
    requires Inv(s, base, n) && Enabled(s, move, n)
    ensures Workers(Next(s, move, n), n)
  {
    NextKeepsRows(s, move, n);
    var s' := Next(s, move, n);
    assert move.Publish? || forall v :: 0 <= v < |s.pcs| && v != move.w ==> s'.pcs[v] == s.pcs[v];
    assert s.msgs <= s'.msgs;
  }

  lemma NextKeepsSources(s: State, move: Move, base: nat, n: nat)
    requires Inv(s, base, n) && Enabled(s, move, n)
    ensures Sourced(Next(s, move, n), base)
  {
    var s' := Next(s, move, n);
    forall r | base <= r < |s'.rows| ensures CarriedBy(s'.msgs, s'.rows[r]) {
      if r < |s.rows| {
        assert CarriedBy(s.msgs, s.rows[r]);
        var i :| 0 <= i < |s.msgs| && Acceptable(s.msgs[i]) && Parse(s.msgs[i]) == Some(s.rows[r]);
        assert s'.msgs[i] == s.msgs[i];
      } else {
        var i := s.pcs[move.w].msg;
        assert Acceptable(s'.msgs[i]) && Parse(s'.msgs[i]) == Some(s'.rows[r]);
      }
    }
  }

  /** Worker w moves on without owing anything new. */
  lemma OwingNoMore(s: State, s': State, w: nat)
    requires Announcements(s) && w < |s.pcs| == |s'.pcs| && |s.rows| <= |s'.rows| && s'.calls == s.calls
    requires forall v :: 0 <= v < |s.pcs| && v != w ==> s'.pcs[v] == s.pcs[v]
    requires Owes(s'.pcs[w]).None? || Owes(s'.pcs[w]) == Owes(s.pcs[w])
    ensures Announcements(s')
  {
    forall v | 0 <= v < |s'.pcs| && Owes(s'.pcs[v]).Some? ensures Owes(s'.pcs[v]) == Owes(s.pcs[v]) {}
  }

  /** Worker w has just written the newest row, which nobody has been told of. */
  lemma OwingTheNewRow(s: State, s': State, w: nat)
    requires Announcements(s) && w < |s.pcs| == |s'.pcs| && |s'.rows| == |s.rows| + 1 && s'.calls == s.calls
    requires forall v :: 0 <= v < |s.pcs| && v != w ==> s'.pcs[v] == s.pcs[v]
    requires Owes(s'.pcs[w]) == Some((|s.rows|, 0))
    ensures Announcements(s')
  {}

  /** Worker w tells the next listener. */
  lemma OwingOneLess(s: State, s': State, w: nat, row: nat, next: nat)
    requires Announcements(s) && w < |s.pcs| == |s'.pcs| && s'.rows == s.rows && s'.calls == s.calls + [(next, row)]
    requires forall v :: 0 <= v < |s.pcs| && v != w ==> s'.pcs[v] == s.pcs[v]
    requires Owes(s.pcs[w]) == Some((row, next))
    requires Owes(s'.pcs[w]).None? || Owes(s'.pcs[w]) == Some((row, next + 1))
    ensures Announcements(s')
  {
    assert (next, row) !in s.calls;
    forall v, c | 0 <= v < |s'.pcs| && Owes(s'.pcs[v]).Some? && c in s'.calls && c.1 == Owes(s'.pcs[v]).value.0
      ensures c.0 < Owes(s'.pcs[v]).value.1
    {
      if v != w { assert Owes(s.pcs[v]).value.0 != row; }
    }
  }

  lemma NextKeepsAnnouncements(s: State, move: Move, base: nat, n: nat)
    requires Inv(s, base, n) && Enabled(s, move, n)
    ensures Announcements(Next(s, move, n))
  {
    var s' := Next(s, move, n);
    match move {
      case Publish(_) =>
      case Append(w) =>
        if HasKey(s.rows, KeyOf(Parse(s.msgs[s.pcs[w].msg]).value)) {
          OwingNoMore(s, s', w);
        } else {
          OwingTheNewRow(s, s', w);
        }
      case Call(w) => OwingOneLess(s, s', w, s.pcs[w].wrote, s.pcs[w].next);
      case _ => OwingNoMore(s, s', move.w);
    }
  }

  lemma NextKeepsInv(s: State, move: Move, base: nat, n: nat)
    requires Inv(s, base, n) && Enabled(s, move, n)
    ensures Inv(Next(s, move, n), base, n)
  {
    NextKeepsRows(s, move, n);
    NextKeepsMessages(s, move, base, n);
    NextKeepsWorkers(s, move, base, n);
    NextKeepsSources(s, move, base, n);
    NextKeepsAnnouncements(s, move, base, n);
  }

  lemma {:induction false} RunKeepsInv(s: State, moves: seq<Move>, base: nat, n: nat)
    requires Inv(s, base, n) && Runs(s, moves, n)
    ensures Inv(End(s, moves, n), base, n) && s.rows <= End(s, moves, n).rows
    ensures s.msgs <= End(s, moves, n).msgs
    decreases |moves|
  {
    if moves != [] {
      NextKeepsInv(s, moves[0], base, n);
      NextKeepsRows(s, moves[0], n);
      RunKeepsInv(Next(s, moves[0], n), moves[1..], base, n);
    }
  }

  /**
   * In every reachable state: an acknowledged message is on file; a terminated one was malformed or
   * named two tenants; keys are unique; the rows that were there are there unchanged; and no listener
   * has been called twice for one key.
   */
  lemma Safety(s: State, moves: seq<Move>, n: nat, i: nat)
    requires Start(s) && Runs(s, moves, n) && i < |End(s, moves, n).msgs|
    ensures var e := End(s, moves, n);
      && |e.status| == |e.msgs|
      && (e.status[i].Acked? ==> Acceptable(e.msgs[i]) && HasKey(e.rows, MessageKey(e.msgs[i])))
      && (e.status[i].Terminated? ==> !Acceptable(e.msgs[i]))
      && UniqueKeys(e.rows) && s.rows <= e.rows
      && (forall a, b :: 0 <= a < b < |e.calls| && e.calls[a].0 == e.calls[b].0 ==>
            e.calls[a].1 < |e.rows| && e.calls[b].1 < |e.rows|
            && KeyOf(e.rows[e.calls[a].1]) != KeyOf(e.rows[e.calls[b].1]))
  {
    RunKeepsInv(s, moves, |s.rows|, n);
    var e := End(s, moves, n);
    forall a, b | 0 <= a < b < |e.calls| && e.calls[a].0 == e.calls[b].0
      ensures e.calls[a].1 < |e.rows| && e.calls[b].1 < |e.rows|
              && KeyOf(e.rows[e.calls[a].1]) != KeyOf(e.rows[e.calls[b].1])
    {
      assert e.calls[a] in e.calls && e.calls[b] in e.calls && e.calls[a] != e.calls[b];
    }
  }

  /** Nothing a producer publishes through emit_event is ever terminated, whatever else the stream carries. */
  lemma EmittedIsNeverTerminated(s: State, moves: seq<Move>, n: nat, i: nat, f: Fields)
    requires Start(s) && Runs(s, moves, n) && i < |End(s, moves, n).msgs|
    requires EmitEvent(f) == Some(End(s, moves, n).msgs[i])
    ensures |End(s, moves, n).status| == |End(s, moves, n).msgs|
    ensures !End(s, moves, n).status[i].Terminated?
  {
    Safety(s, moves, n, i);
    EmittedIsAcceptable(f);
  }

  // ---------------------------------------------------------------- whose rows are in the log

  /**
   * Every row a run adds is, field for field, the envelope of some message of the stream whose subject begins with
   * the row's own tenant: nothing published under one tenant's subject is ever filed under another.
   */
  lemma RowsAreUnderTheirTenant(s: State, moves: seq<Move>, n: nat, r: nat)
    requires Start(s) && Runs(s, moves, n) && |s.rows| <= r < |End(s, moves, n).rows|
    ensures var e := End(s, moves, n);
      exists i :: 0 <= i < |e.msgs| && e.msgs[i].data == Json(e.rows[r])
                  && (e.msgs[i].subject == e.rows[r].tenant || e.rows[r].tenant + "." <= e.msgs[i].subject)
    ensures Valid(End(s, moves, n).rows[r])
  {
    RunKeepsInv(s, moves, |s.rows|, n);
    var e := End(s, moves, n);
    assert CarriedBy(e.msgs, e.rows[r]);
    var i :| 0 <= i < |e.msgs| && Acceptable(e.msgs[i]) && Parse(e.msgs[i]) == Some(e.rows[r]);
    AcceptableIffOwn(e.msgs[i]);
  }

  /** Some row has the envelope's tenant, module and dedup key. */
  predicate Filed(rows: seq<Fields>, f: Fields) {
    exists r :: 0 <= r < |rows| && rows[r].tenant == f.tenant && rows[r].moduleName == f.moduleName
                && rows[r].dedupKey == f.dedupKey
  }

  /** A message is acknowledged only if its envelope is on file, and terminated only if it is not its own tenant's. */
  lemma AnsweredAsOwned(s: State, moves: seq<Move>, n: nat, i: nat)
    requires Start(s) && Runs(s, moves, n) && i < |End(s, moves, n).msgs|
    ensures var e := End(s, moves, n); var m := e.msgs[i];
      && |e.status| == |e.msgs|
      && (e.status[i].Terminated? ==> !Own(m))
      && (e.status[i].Acked? ==> Own(m) && Filed(e.rows, m.data.fields))
  {
    Safety(s, moves, n, i);
    AcceptableIffOwn(End(s, moves, n).msgs[i]);
  }

  /** No two rows name the same tenant, module and dedup key, and no listener is called twice for one of them. */
  lemma OneRowAKey(s: State, moves: seq<Move>, n: nat, a: nat, b: nat)
    requires Start(s) && Runs(s, moves, n) && a < b < |End(s, moves, n).rows|
    ensures var rows := End(s, moves, n).rows;
      rows[a].tenant != rows[b].tenant || rows[a].moduleName != rows[b].moduleName
        || rows[a].dedupKey != rows[b].dedupKey
  {
    RunKeepsInv(s, moves, |s.rows|, n);
  }
}
