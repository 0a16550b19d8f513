/** The intake's own code: the log table's insert, the handling of one message, and the live feed. */
module EventLog {
  import opened Basics
  import opened Envelope
  import opened Intake

  // ---------------------------------------------------------------- the table

  class EventLogStore {
    var rows: seq<Fields>

    constructor ()
      ensures rows == []
    {
      rows := [];
    }

    /** The row's id, or None when the constraint says the key is on file. First write wins. */
    method Append(f: Fields) returns (stored: Option<nat>)
      modifies this
      ensures rows == Appended(old(rows), f)
      ensures stored == if HasKey(old(rows), KeyOf(f)) then None else Some(|old(rows)|)
    {
      for r := 0 to |rows|
        invariant rows == old(rows)
        invariant forall k :: 0 <= k < r ==> KeyOf(rows[k]) != KeyOf(f)
      {
        if KeyOf(rows[r]) == KeyOf(f) {
          return None;
        }
      }
      stored := Some(|rows|);
      rows := rows + [f];
    }
  }

  // ---------------------------------------------------------------- one delivery

  /** What goes wrong while one message is handled. */
  datatype Trouble = Trouble(storeFails: bool, committed: bool, replyLost: bool)

  function Calls(count: nat): seq<Move> {
    if count == 0 then [] else [Call(0)] + Calls(count - 1)
  }

  /** The machine moves one delivery amounts to. */
  function Script(s: State, i: nat, t: Trouble, n: nat): seq<Move>
    requires i < |s.msgs|
  {
    if !Acceptable(s.msgs[i]) then [Refuse(0, t.replyLost)]
    else if t.storeFails then [StoreFails(0, t.committed)]
    else [Append(0), Ack(0, t.replyLost)] + Calls(if HasKey(s.rows, MessageKey(s.msgs[i])) then 0 else n)
  }

  class EventIntake {
    const store: EventLogStore
    const listeners: nat
    const msgs: seq<Message>
    var status: seq<Status>
    var calls: seq<(nat, nat)>

    constructor (store: EventLogStore, listeners: nat, msgs: seq<Message>)
      ensures this.store == store && this.listeners == listeners && this.msgs == msgs
      ensures status == seq(|msgs|, _ => Open) && calls == []
    {
      this.store, this.listeners, this.msgs := store, listeners, msgs;
      status := seq(|msgs|, _ => Open);
      calls := [];
    }

    ghost function View(pc: Pc): State
      reads this, store
    {
      State(msgs, status, store.rows, [pc], calls)
    }

    method Terminate(i: nat, lost: bool)
      modifies this`status
      ensures status == Close(old(status), i, Terminated, lost)
    {
      if !lost && i < |status| && status[i].Open? {
        status := status[i := Terminated];
      }
    }

    method Acknowledge(i: nat, lost: bool)
      modifies this`status
      ensures status == Close(old(status), i, Acked, lost)
    {
      if !lost && i < |status| && status[i].Open? {
        status := status[i := Acked];
      }
    }

    /** _publish and then each listener: the fan-out of one newly stored row. */
    method Tell(row: nat)
      modifies this`calls
      ensures calls == old(calls) + Told(row, 0, listeners)
    {
      for l := 0 to listeners
        invariant calls == old(calls) + Told(row, 0, l)
      {
        ToldMore(row, 0, l);
        calls := calls + [(l, row)];
      }
    }

    /** Parse, check tenancy, store, acknowledge, fan out: one run of the machine's moves for one delivery. */
    method Consume(i: nat, trouble: Trouble)
      requires i < |msgs|
      modifies this`status, this`calls, store
      ensures Handles(old(View(Got(i))), i, trouble, listeners, View(Idle))
      ensures !Own(msgs[i]) ==>
        && store.rows == old(store.rows) && calls == old(calls)
        && status == Close(old(status), i, Terminated, trouble.replyLost)
      ensures Own(msgs[i]) && trouble.storeFails ==>
        && store.rows == (if trouble.committed then Appended(old(store.rows), msgs[i].data.fields) else old(store.rows))
        && calls == old(calls) && status == old(status)
      ensures Own(msgs[i]) && !trouble.storeFails ==>
        && store.rows == Appended(old(store.rows), msgs[i].data.fields)
        && status == Close(old(status), i, Acked, trouble.replyLost)
        && calls == old(calls) + if HasKey(old(store.rows), KeyOf(msgs[i].data.fields)) then []
                                 else Told(|old(store.rows)|, 0, listeners)
    {
      AcceptableIffOwn(msgs[i]);
      ghost var s0 := View(Got(i));
      var envelope := Parse(msgs[i]);
      if envelope.None? || SubjectTenant(msgs[i].subject) != envelope.value.tenant {
        Terminate(i, trouble.replyLost);
        OneMove(s0, Refuse(0, trouble.replyLost), listeners);
        return;
      }
      if trouble.storeFails {
        if trouble.committed {
          var _ := store.Append(envelope.value);
        }
        OneMove(s0, StoreFails(0, trouble.committed), listeners);
        return;
      }
      var stored := store.Append(envelope.value);
      Acknowledge(i, trouble.replyLost);
      if stored.Some? {
        Tell(stored.value);
      }
      Delivered(s0, i, trouble, listeners);
    }
  }

  /** From s the script for the i-th message is a run of the machine, and ends in s'. */
  ghost predicate Handles(s: State, i: nat, t: Trouble, n: nat, s': State)
    requires i < |s.msgs|
  {
    Runs(s, Script(s, i, t, n), n) && End(s, Script(s, i, t, n), n) == s'
  }

  /** The script of a delivery that reaches the log. */
  lemma Delivered(s: State, i: nat, t: Trouble, n: nat)
    requires i < |s.msgs| && s.pcs == [Got(i)] && Acceptable(s.msgs[i]) && !t.storeFails
    ensures var f := Parse(s.msgs[i]).value;
      Handles(s, i, t, n, State(s.msgs, Close(s.status, i, Acked, t.replyLost), Appended(s.rows, f), [Idle],
                                s.calls + if HasKey(s.rows, KeyOf(f)) then [] else Told(|s.rows|, 0, n)))
  {
    var f := Parse(s.msgs[i]).value;
    var s1 := Next(s, Append(0), n);
    var s2 := Next(s1, Ack(0, t.replyLost), n);
    if HasKey(s.rows, KeyOf(f)) {
      TwoMoves(s, Append(0), Ack(0, t.replyLost), Calls(0), n);
      assert s2.pcs == [Idle];
    } else {
      if n > 0 {
        assert s2.pcs == [FanOut(i, |s.rows|, 0)];
        CallsTellAll(s2, i, |s.rows|, 0, n);
      } else {
        assert s2.pcs == [Idle] && Told(|s.rows|, 0, 0) == [];
      }
      TwoMoves(s, Append(0), Ack(0, t.replyLost), Calls(n), n);
    }
  }

  /** Listeners first up to end, each told of the row once. */
  function Told(row: nat, first: nat, end: nat): seq<(nat, nat)>
    requires first <= end
    decreases end - first
  {
    if first == end then [] else [(first, row)] + Told(row, first + 1, end)
  }

  /** Every listener is told of the row, in order and once. */
  lemma {:induction false} ToldAt(row: nat, first: nat, end: nat, l: nat)
    requires first <= l < end
    ensures |Told(row, first, end)| == end - first && Told(row, first, end)[l - first] == (l, row)
    decreases end - first
  {
    if l > first {
      ToldAt(row, first + 1, end, l);
    } else if first + 1 < end {
      ToldAt(row, first + 1, end, first + 1);
    } else {
      assert Told(row, end, end) == [];
    }
  }

  lemma {:induction false} ToldMore(row: nat, first: nat, end: nat)
    requires first <= end
    ensures Told(row, first, end + 1) == Told(row, first, end) + [(end, row)]
    decreases end - first
  {
    if first < end {
      ToldMore(row, first + 1, end);
    } else {
      assert Told(row, end + 1, end + 1) == [];
    }
  }

  lemma OneMove(s: State, move: Move, n: nat)
    requires Enabled(s, move, n)
    ensures Runs(s, [move], n) && End(s, [move], n) == Next(s, move, n)
  {
    assert [move][1..] == [];
  }

  lemma TwoMoves(s: State, a: Move, b: Move, rest: seq<Move>, n: nat)
    requires Enabled(s, a, n) && Enabled(Next(s, a, n), b, n) && Runs(Next(Next(s, a, n), b, n), rest, n)
    ensures Runs(s, [a, b] + rest, n) && End(s, [a, b] + rest, n) == End(Next(Next(s, a, n), b, n), rest, n)
  {
    assert ([a, b] + rest)[1..] == [b] + rest;
    assert ([b] + rest)[1..] == rest;
  }

  lemma {:induction false} CallsTellAll(s: State, i: nat, row: nat, next: nat, n: nat)
    requires next < n && s.pcs == [FanOut(i, row, next)]
    ensures Runs(s, Calls(n - next), n)
    ensures End(s, Calls(n - next), n) == s.(pcs := [Idle], calls := s.calls + Told(row, next, n))
    decreases n - next
  {
    var s' := Next(s, Call(0), n);
    assert Calls(n - next)[1..] == Calls(n - next - 1);
    assert Told(row, next, n) == [(next, row)] + Told(row, next + 1, n);
    if next + 1 < n {
      assert s'.pcs == [FanOut(i, row, next + 1)];
      CallsTellAll(s', i, row, next + 1, n);
      assert s'.calls + Told(row, next + 1, n) == s.calls + Told(row, next, n);
    } else {
      assert Told(row, n, n) == [];
      assert s'.pcs == [Idle];
    }
  }
}
