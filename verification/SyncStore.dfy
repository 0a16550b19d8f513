/**
 * The reconcile layer's durable state: a cursor row and a cache of observed events per collection.
 * Every method that commits appends the tables it left behind to a journal, so that what a crash
 * between two commits leaves is a prefix of it.
 */
module SyncStore {
  import opened Basics
  import opened Spine

  /** (tenant, account, collection). */
  type Scope = (string, string, string)

  datatype SyncState = SyncState(token: Option<string>, windowStart: Option<int>)

  type Cache = map<string, SyncedEvent>

  /** One collection's row in the cursor table and its rows in the cache table. */
  datatype Col = Col(state: Option<SyncState>, cache: Cache)

  function Ids(rows: seq<SyncedEvent>): (ids: seq<string>)
    ensures |ids| == |rows| && forall i :: 0 <= i < |rows| ==> ids[i] == rows[i].eventId
  {
    seq(|rows|, i requires 0 <= i < |rows| => rows[i].eventId)
  }

  predicate DistinctIds(rows: seq<SyncedEvent>) {
    forall i, j :: 0 <= i < j < |rows| ==> rows[i].eventId != rows[j].eventId
  }

  /** The row as the title column holds it. */
  function Stored(row: SyncedEvent): SyncedEvent {
    row.(title := Clip(row.title, 512))
  }

  function Upserted(cache: Cache, rows: seq<SyncedEvent>): Cache {
    if rows == [] then cache
    else Upserted(cache, rows[..|rows| - 1])[rows[|rows| - 1].eventId := Stored(rows[|rows| - 1])]
  }

  function Without(cache: Cache, ids: seq<string>): Cache {
    map id | id in cache && id !in ids :: cache[id]
  }

  lemma {:induction false} UpsertedAt(cache: Cache, rows: seq<SyncedEvent>, id: string)
    requires DistinctIds(rows)
    ensures id in Upserted(cache, rows) <==> id in cache || id in Ids(rows)
    ensures id !in Ids(rows) && id in cache ==> Upserted(cache, rows)[id] == cache[id]
    ensures forall i :: 0 <= i < |rows| && rows[i].eventId == id ==> Upserted(cache, rows)[id] == Stored(rows[i])
  {
    if rows != [] {
      var n := |rows| - 1;
      UpsertedAt(cache, rows[..n], id);
      assert Ids(rows) == Ids(rows[..n]) + [rows[n].eventId];
      forall i | 0 <= i < |rows| && rows[i].eventId == id ensures Upserted(cache, rows)[id] == Stored(rows[i]) {
        if i < n { assert rows[..n][i] == rows[i]; }
      }
    }
  }

  // ---------------------------------------------------------------- commits as values

  /** Where one collection stands, the commits that led there, and whether one was refused. */
  datatype Trace = Trace(col: Col, commits: seq<Col>, ok: bool)

  function Begin(col: Col): Trace {
    Trace(col, [], true)
  }

  function Commit(t: Trace, col: Col): Trace {
    Trace(col, t.commits + [col], t.ok)
  }

  function Upsert(t: Trace, rows: seq<SyncedEvent>): Trace {
    if !t.ok || rows == [] then t
    else if !DistinctIds(rows) then t.(ok := false)
    else Commit(t, t.col.(cache := Upserted(t.col.cache, rows)))
  }

  function Remove(t: Trace, ids: seq<string>): Trace {
    if !t.ok || ids == [] then t else Commit(t, t.col.(cache := Without(t.col.cache, ids)))
  }

  function Replace(t: Trace, rows: seq<SyncedEvent>): Trace {
    if !t.ok then t else Upsert(Commit(t, t.col.(cache := map[])), rows)
  }

  function SetState(t: Trace, token: Option<string>, windowStart: Option<int>): Trace {
    if !t.ok then t else Commit(t, t.col.(state := Some(SyncState(token, windowStart))))
  }

  // ---------------------------------------------------------------- the store

  /** Both tables, as one commit leaves them. */
  datatype Tables = Tables(states: map<Scope, SyncState>, events: map<Scope, Cache>)

  function View(t: Tables, scope: Scope): Col {
    Col(if scope in t.states then Some(t.states[scope]) else None,
        if scope in t.events then t.events[scope] else map[])
  }

  /** The journal entries of a trace: each changes this collection only. */
  ghost predicate Journals(entries: seq<Tables>, start: Tables, scope: Scope, commits: seq<Col>) {
    && |entries| == |commits|
    && (forall i :: 0 <= i < |entries| ==> View(entries[i], scope) == commits[i])
    && (forall i, other :: 0 <= i < |entries| && other != scope ==> View(entries[i], other) == View(start, other))
  }

  datatype Snapshot = Snapshot(tables: Tables, journal: seq<Tables>)

  /** From a to b the store did, in this collection alone, the commits that take t to t'. */
  ghost predicate Did(a: Snapshot, b: Snapshot, scope: Scope, t: Trace, t': Trace) {
    && t.commits <= t'.commits
    && View(a.tables, scope) == t.col && View(b.tables, scope) == t'.col
    && a.journal <= b.journal
    && Journals(b.journal[|a.journal|..], a.tables, scope, t'.commits[|t.commits|..])
    && (forall other :: other != scope ==> View(b.tables, other) == View(a.tables, other))
  }

  lemma DidNothing(a: Snapshot, scope: Scope, t: Trace)
    requires View(a.tables, scope) == t.col
    ensures Did(a, a, scope, t, t)
  {}

  lemma DidThen(a: Snapshot, b: Snapshot, c: Snapshot, scope: Scope, t0: Trace, t1: Trace, t2: Trace)
    requires Did(a, b, scope, t0, t1) && Did(b, c, scope, t1, t2)
    ensures Did(a, c, scope, t0, t2)
  {
    var n := |t1.commits| - |t0.commits|;
    assert c.journal[|a.journal|..] == b.journal[|a.journal|..] + c.journal[|b.journal|..];
    assert t2.commits[|t0.commits|..] == t1.commits[|t0.commits|..] + t2.commits[|t1.commits|..];
  }

  class CalendarSyncStore {
    var tables: Tables
    ghost var journal: seq<Tables>

    constructor ()
      ensures tables == Tables(map[], map[]) && journal == []
    {
      tables := Tables(map[], map[]);
      journal := [];
    }

    ghost function Now(): Snapshot
      reads this
    {
      Snapshot(tables, journal)
    }

    method CommitState(scope: Scope, token: Option<string>, windowStart: Option<int>, ghost t: Trace)
      requires t.ok && View(tables, scope) == t.col
      modifies this
      ensures Did(old(Now()), Now(), scope, t, SetState(t, token, windowStart))
    {
      tables := tables.(states := tables.states[scope := SyncState(token, windowStart)]);
      journal := journal + [tables];
    }

    method WriteCache(scope: Scope, cache: Cache, ghost t: Trace)
      requires View(tables, scope) == t.col
      modifies this
      ensures Did(old(Now()), Now(), scope, t, Commit(t, t.col.(cache := cache)))
    {
      tables := tables.(events := tables.events[scope := cache]);
      journal := journal + [tables];
    }

    method UpsertEvents(scope: Scope, rows: seq<SyncedEvent>, ghost t: Trace) returns (ok: bool)
      requires t.ok && View(tables, scope) == t.col
      modifies this
      ensures Did(old(Now()), Now(), scope, t, Upsert(t, rows)) && ok == Upsert(t, rows).ok
    {
      if rows == [] {
        return true;
      }
      ok := DistinctIds(rows);
      if !ok {
        return;
      }
      var cache := View(tables, scope).cache;
      for i := 0 to |rows|
        invariant tables == old(tables) && journal == old(journal)
        invariant cache == Upserted(View(tables, scope).cache, rows[..i])
      {
        assert rows[..i + 1][..i] == rows[..i];
        cache := cache[rows[i].eventId := Stored(rows[i])];
      }
      assert rows[..|rows|] == rows;
      WriteCache(scope, cache, t);
    }

    method RemoveEvents(scope: Scope, ids: seq<string>, ghost t: Trace)
      requires t.ok && View(tables, scope) == t.col
      modifies this
      ensures Did(old(Now()), Now(), scope, t, Remove(t, ids))
    {
      if ids != [] {
        var cache := View(tables, scope).cache;
        WriteCache(scope, Without(cache, ids), t);
      }
    }

    /** Two commits: a crash between them leaves an empty cache. */
    method ReplaceEvents(scope: Scope, rows: seq<SyncedEvent>, ghost t: Trace) returns (ok: bool)
      requires t.ok && View(tables, scope) == t.col
      modifies this
      ensures Did(old(Now()), Now(), scope, t, Replace(t, rows)) && ok == Replace(t, rows).ok
    {
      ghost var cleared := Commit(t, t.col.(cache := map[]));
      WriteCache(scope, map[], t);
      ghost var between := Now();
      ok := UpsertEvents(scope, rows, cleared);
      DidThen(old(Now()), between, Now(), scope, t, cleared, Replace(t, rows));
    }
  }
}
