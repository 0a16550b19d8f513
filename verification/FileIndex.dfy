/** The core file index: tenant-scoped rows by path, upserted in batches and deleted by LIKE. */
module FileIndex {
  import opened Text
  import Like

  datatype FileKind = File | Dir

  datatype Meta = Meta(name: string, size: int, mtime: int, kind: FileKind)

  datatype Row = Row(path: string, meta: Meta)

  /** Rows by (tenant, path), the table's unique key. */
  type Rows = map<(string, string), Meta>

  predicate DistinctPaths(entries: seq<Row>) {
    forall i, j :: 0 <= i < j < |entries| ==> entries[i].path != entries[j].path
  }

  function Upserted(rows: Rows, tenant: string, entries: seq<Row>): Rows {
    if entries == [] then rows
    else
      var last := entries[|entries| - 1];
      Upserted(rows, tenant, entries[..|entries| - 1])[(tenant, last.path) := last.meta]
  }

  lemma {:induction false} UpsertedConcat(rows: Rows, tenant: string, a: seq<Row>, b: seq<Row>)
    ensures Upserted(Upserted(rows, tenant, a), tenant, b) == Upserted(rows, tenant, a + b)
  {
    if b == [] {
      assert a + b == a;
    } else {
      assert (a + b)[..|a + b| - 1] == a + b[..|b| - 1];
      UpsertedConcat(rows, tenant, a, b[..|b| - 1]);
    }
  }

  /** A path named more than once ends with what the last of its entries says. */
  lemma {:induction false} UpsertedAt(rows: Rows, tenant: string, entries: seq<Row>, k: (string, string))
    ensures k in Upserted(rows, tenant, entries) <==>
      k in rows || (k.0 == tenant && exists e :: e in entries && e.path == k.1)
    ensures forall i ::
      0 <= i < |entries| && k == (tenant, entries[i].path) && (forall j :: i < j < |entries| ==> entries[j].path != k.1)
      ==> Upserted(rows, tenant, entries)[k] == entries[i].meta
    ensures (k.0 != tenant || forall e :: e in entries ==> e.path != k.1) && k in rows ==>
      Upserted(rows, tenant, entries)[k] == rows[k]
  {
    if entries != [] {
      var n := |entries| - 1;
      var front := entries[..n];
      UpsertedAt(rows, tenant, front, k);
      assert entries == front + [entries[n]];
      assert forall e :: e in front ==> e in entries;
      forall i | 0 <= i < |entries| && k == (tenant, entries[i].path) && forall j :: i < j < |entries| ==>
        entries[j].path != k.1
        ensures Upserted(rows, tenant, entries)[k] == entries[i].meta
      {
        if i < n { assert entries[n].path != k.1 && front[i] == entries[i]; }
      }
    }
  }

  /** The rows a count, a purge or a removal under a prefix looks at. */
  predicate InScope(k: (string, string), tenant: string, prefix: string) {
    k.0 == tenant && (prefix == "" || Like.Matches(Like.LikePrefix(prefix) + "%", k.1))
  }

  lemma ScopeIsPrefix(k: (string, string), tenant: string, prefix: string)
    ensures InScope(k, tenant, prefix) <==> k.0 == tenant && prefix <= k.1
  {
    if prefix != "" { Like.PrefixPatternIsPrefix(prefix, k.1); }
  }

  function Scope(rows: Rows, tenant: string, prefix: string): set<(string, string)> {
    set k | k in rows && InScope(k, tenant, prefix)
  }

  /** The tenant's rows whose path starts with the prefix. */
  function Under(rows: Rows, tenant: string, prefix: string): set<(string, string)> {
    set k | k in rows && k.0 == tenant && prefix <= k.1
  }

  lemma ScopeIsUnder(rows: Rows, tenant: string, prefix: string)
    ensures Scope(rows, tenant, prefix) == Under(rows, tenant, prefix)
  {
    forall k ensures k in Scope(rows, tenant, prefix) <==> k in Under(rows, tenant, prefix) {
      ScopeIsPrefix(k, tenant, prefix);
    }
  }

  function Stale(rows: Rows, tenant: string, prefix: string, seen: set<string>): set<(string, string)> {
    set k | k in rows && InScope(k, tenant, prefix) && k.1 !in seen
  }

  /** path.rstrip("/"). */
  function RStripSlash(path: string): string {
    if path != "" && path[|path| - 1] == '/' then RStripSlash(path[..|path| - 1]) else path
  }

  function NodePath(path: string): string {
    RStripSlash(Replace(path, '\\', "/"))
  }

  class FileIndex {
    var rows: Rows

    constructor ()
      ensures rows == map[]
    {
      rows := map[];
    }

    /** Delete-then-insert in one transaction; a repeated path breaks the unique key and changes nothing. */
    method UpsertBatch(tenant: string, entries: seq<Row>) returns (ok: bool)
      modifies this
      ensures ok == (entries == [] || DistinctPaths(entries))
      ensures rows == if ok then Upserted(old(rows), tenant, entries) else old(rows)
    {
      if entries == [] {
        return true;
      }
      ok := DistinctPaths(entries);
      if !ok {
        return;
      }
      for i := 0 to |entries|
        invariant rows == Upserted(old(rows), tenant, entries[..i])
      {
        assert entries[..i + 1][..i] == entries[..i];
        rows := rows[(tenant, entries[i].path) := entries[i].meta];
      }
      assert entries[..|entries|] == entries;
    }

    /** The number of the tenant's rows whose path starts with the prefix, whatever characters the prefix holds. */
    method CountRows(tenant: string, prefix: string) returns (n: nat)
      ensures n == |Under(rows, tenant, prefix)|
    {
      ScopeIsUnder(rows, tenant, prefix);
      n := |Scope(rows, tenant, prefix)|;
    }

    /** An empty walk is counted as the whole scope, without asking for membership in nothing. */
    method CountStale(tenant: string, seen: set<string>, prefix: string) returns (n: nat)
      ensures n == |Stale(rows, tenant, prefix, seen)|
    {
      if seen == {} {
        n := CountRows(tenant, prefix);
        ScopeIsUnder(rows, tenant, prefix);
        assert Scope(rows, tenant, prefix) == Stale(rows, tenant, prefix, seen);
        return;
      }
      n := |Stale(rows, tenant, prefix, seen)|;
    }

    /** Every row of the tenant under the prefix that was not seen goes, and nothing else. */
    method PurgeStale(tenant: string, seen: set<string>, prefix: string) returns (deleted: nat)
      modifies this
      ensures forall k :: k in rows <==> k in old(rows) && !(k.0 == tenant && prefix <= k.1 && k.1 !in seen)
      ensures forall k :: k in rows ==> rows[k] == old(rows)[k]
      ensures deleted == |old(rows)| - |rows|
      ensures rows == old(rows) - Stale(old(rows), tenant, prefix, seen)
    {
      var stale := Stale(rows, tenant, prefix, seen);
      forall k ensures k in stale <==> k in rows && k.0 == tenant && prefix <= k.1 && k.1 !in seen {
        ScopeIsPrefix(k, tenant, prefix);
      }
      RemovedCount(rows, stale);
      deleted := |stale|;
      rows := rows - stale;
    }

    /** Everything whose path starts with the prefix goes; a blank prefix is refused. */
    method RemovePrefix(tenant: string, prefix: string) returns (deleted: nat)
      modifies this
      ensures forall k :: k in rows <==> k in old(rows) && !(prefix != "" && k.0 == tenant && prefix <= k.1)
      ensures forall k :: k in rows ==> rows[k] == old(rows)[k]
      ensures deleted == |old(rows)| - |rows|
    {
      if prefix == "" {
        return 0;
      }
      var gone := Scope(rows, tenant, prefix);
      forall k ensures k in gone <==> k in rows && k.0 == tenant && prefix <= k.1 {
        ScopeIsPrefix(k, tenant, prefix);
      }
      RemovedCount(rows, gone);
      deleted := |gone|;
      rows := rows - gone;
    }

    /** The node and its descendants go, and nothing else: no sibling, no other tenant; the root is refused. */
    method RemoveSubtree(tenant: string, path: string) returns (deleted: nat)
      modifies this
      ensures var node := NodePath(path);
        forall k :: k in rows <==>
          k in old(rows) && !(node != "" && k.0 == tenant && (k.1 == node || node + "/" <= k.1))
      ensures forall k :: k in rows ==> rows[k] == old(rows)[k]
      ensures deleted == |old(rows)| - |rows|
    {
      var node := NodePath(path);
      if node == "" {
        return 0;
      }
      var gone := set k | k in rows && k.0 == tenant
                          && (k.1 == node || Like.Matches(Like.LikePrefix(node) + "/%", k.1));
      forall k ensures k in gone <==> k in rows && k.0 == tenant && (k.1 == node || node + "/" <= k.1) {
        Like.SubtreePatternIsSubtree(node, k.1);
      }
      RemovedCount(rows, gone);
      deleted := |gone|;
      rows := rows - gone;
    }
  }

  lemma RemovedCount(rows: Rows, gone: set<(string, string)>)
    requires gone <= rows.Keys
    ensures |rows - gone| == |rows| - |gone|
  {
    assert (rows - gone).Keys == rows.Keys - gone;
    assert |rows - gone| == |(rows - gone).Keys|;
  }

  /** A node's path is the path written with slashes, without the slashes at its end. */
  lemma {:induction false} RStripSlashTakes(path: string) returns (back: string)
    ensures path == RStripSlash(path) + back && forall c :: c in back ==> c == '/'
    ensures RStripSlash(path) != "" ==> RStripSlash(path)[|RStripSlash(path)| - 1] != '/'
  {
    back := "";
    if path != "" && path[|path| - 1] == '/' {
      var n := |path| - 1;
      var more := RStripSlashTakes(path[..n]);
      back := more + "/";
      assert path == path[..n] + "/";
    }
  }

  /** Slashes of either kind name the same node: character by character its path is the given one with slashes. */
  lemma NodePathSlashes(path: string, i: nat)
    requires i < |NodePath(path)|
    ensures i < |path| && NodePath(path)[i] == if path[i] == '\\' then '/' else path[i]
  {
    var flat := Replace(path, '\\', "/");
    var back := RStripSlashTakes(flat);
    assert NodePath(path)[i] == flat[i];
    if path != "" { ReplaceAt(path, '\\', '/', 0); }
    ReplaceAt(path, '\\', '/', i);
  }
}
