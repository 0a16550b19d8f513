/** What a scan means for the index: a mirror of the tree, stable under rescans, and what the fuse keeps safe. */
module FileScanProofs {
  import opened Basics
  import opened FileIndex
  import opened FileTree
  import opened FileScan

  /** A path has one entry behind it. */
  lemma FindsOneMeta(tree: Tree, ex: Excluder, prefix: string, path: string, a: Meta, b: Meta)
    requires WellFormed(tree) && Unambiguous(tree) && Finds(tree, ex, prefix, path, a)
      && Finds(tree, ex, prefix, path, b)
    ensures a == b
  {
    var d, e :| d in tree && Reached(tree, ex, d) && e in tree[d] && !ex(e) && path == prefix + e.path
      && a == MetaOf(e);
    var d', e' :| d' in tree && Reached(tree, ex, d') && e' in tree[d'] && !ex(e') && path == prefix + e'.path
      && b == MetaOf(e');
    SamePath(prefix, e.path, e'.path);
    OneParent(tree, d, e, d', e');
  }

  function At(rows: Rows, k: (string, string)): Option<Meta> {
    if k in rows then Some(rows[k]) else None
  }

  lemma SameRows(a: Rows, b: Rows)
    requires forall k :: At(a, k) == At(b, k)
    ensures a == b
  {
    forall k ensures k in a <==> k in b { assert At(a, k) == At(b, k); }
    forall k | k in a ensures a[k] == b[k] { assert At(a, k) == At(b, k); }
  }

  /** On an unambiguous tree the outcome depends on the tree and the starting index alone, not on how the walk went. */
  lemma SyncIsDetermined(before: Rows, a: Rows, b: Rows, tree: Tree, ex: Excluder, tenant: string, prefix: string,
                         purge: bool)
    requires WellFormed(tree) && Unambiguous(tree)
    requires Synced(before, a, tree, ex, tenant, prefix, purge) && Synced(before, b, tree, ex, tenant, prefix, purge)
    ensures a == b
  {
    forall k ensures At(a, k) == At(b, k) {
      assert SyncedAt(before, a, tree, ex, tenant, prefix, purge, k);
      assert SyncedAt(before, b, tree, ex, tenant, prefix, purge, k);
      if k.0 == tenant && FindsSome(tree, ex, prefix, k.1) {
        FindsOneMeta(tree, ex, prefix, k.1, a[k], b[k]);
      }
    }
    SameRows(a, b);
  }

  lemma FoundUnderPrefix(tree: Tree, ex: Excluder, prefix: string, path: string)
    requires FindsSome(tree, ex, prefix, path)
    ensures prefix <= path
  {
    var meta :| Finds(tree, ex, prefix, path, meta);
    var d, e :| d in tree && Reached(tree, ex, d) && e in tree[d] && !ex(e) && path == prefix + e.path
      && meta == MetaOf(e);
  }

  /**
   * After a purge that went ahead, the tenant's paths under the prefix are exactly those of the entries
   * reachable through unexcluded directories, each with the metadata of its entry, or of one of the two where
   * the tree lists it as both file and directory; every other row is as it was.
   */
  lemma ScanMirrorsTree(before: Rows, after: Rows, tree: Tree, ex: Excluder, tenant: string, prefix: string,
                        k: (string, string))
    requires WellFormed(tree) && Synced(before, after, tree, ex, tenant, prefix, true)
    ensures k.0 == tenant && prefix <= k.1 ==>
      && (k in after <==> FindsSome(tree, ex, prefix, k.1)) && (k in after ==> Finds(tree, ex, prefix, k.1, after[k]))
      && (Unambiguous(tree) ==> forall meta :: At(after, k) == Some(meta) <==> Finds(tree, ex, prefix, k.1, meta))
    ensures !(k.0 == tenant && prefix <= k.1) ==> At(after, k) == At(before, k)
  {
    assert SyncedAt(before, after, tree, ex, tenant, prefix, true, k);
    if k.0 == tenant && FindsSome(tree, ex, prefix, k.1) {
      FoundUnderPrefix(tree, ex, prefix, k.1);
      if Unambiguous(tree) {
        forall meta | Finds(tree, ex, prefix, k.1, meta) ensures meta == after[k] {
          FindsOneMeta(tree, ex, prefix, k.1, meta, after[k]);
        }
      }
    }
  }

  /** Scanning an unchanged tree again changes nothing, whether or not either purge went ahead. */
  lemma RescanChangesNothing(before: Rows, once: Rows, twice: Rows, tree: Tree, ex: Excluder, tenant: string,
                             prefix: string, purged: bool, purge: bool)
    requires WellFormed(tree) && Unambiguous(tree) && (purge ==> purged)
    requires Synced(before, once, tree, ex, tenant, prefix, purged)
    requires Synced(once, twice, tree, ex, tenant, prefix, purge)
    ensures twice == once
  {
    forall k ensures At(twice, k) == At(once, k) {
      assert SyncedAt(before, once, tree, ex, tenant, prefix, purged, k);
      assert SyncedAt(once, twice, tree, ex, tenant, prefix, purge, k);
      if k.0 == tenant && FindsSome(tree, ex, prefix, k.1) {
        FindsOneMeta(tree, ex, prefix, k.1, once[k], twice[k]);
      }
    }
    SameRows(twice, once);
  }

  // ---------------------------------------------------------------- the fuse's arithmetic

  function Keys(tenant: string, paths: set<string>): set<(string, string)> {
    set p | p in paths :: (tenant, p)
  }

  lemma {:induction false} KeysCount(tenant: string, paths: set<string>)
    ensures |Keys(tenant, paths)| == |paths|
  {
    if paths != {} {
      var p :| p in paths;
      KeysCount(tenant, paths - {p});
      assert Keys(tenant, paths) == Keys(tenant, paths - {p}) + {(tenant, p)};
    } else {
      assert Keys(tenant, paths) == {};
    }
  }

  lemma KeptOrStale(before: Rows, upserted: Rows, tree: Tree, ex: Excluder, tenant: string, prefix: string,
                    seen: set<string>, k: (string, string))
    requires Synced(before, upserted, tree, ex, tenant, prefix, false) && Visits(seen, tree, ex, prefix)
    ensures k in Scope(upserted, tenant, prefix) <==>
      k in Keys(tenant, seen) || k in Stale(upserted, tenant, prefix, seen)
  {
    assert SyncedAt(before, upserted, tree, ex, tenant, prefix, false, k);
    ScopeIsPrefix(k, tenant, prefix);
    if k in Keys(tenant, seen) { FoundUnderPrefix(tree, ex, prefix, k.1); }
  }

  /** After the upserts, indexed rows are the entries seen plus the rows a purge would delete. */
  lemma CountsAddUp(before: Rows, upserted: Rows, tree: Tree, ex: Excluder, tenant: string, prefix: string,
                    seen: set<string>)
    requires Synced(before, upserted, tree, ex, tenant, prefix, false) && Visits(seen, tree, ex, prefix)
    ensures |Scope(upserted, tenant, prefix)| == |seen| + |Stale(upserted, tenant, prefix, seen)|
  {
    var kept := Keys(tenant, seen);
    var stale := Stale(upserted, tenant, prefix, seen);
    KeysCount(tenant, seen);
    forall k ensures k in Scope(upserted, tenant, prefix) <==> k in kept || k in stale {
      KeptOrStale(before, upserted, tree, ex, tenant, prefix, seen, k);
    }
    assert Scope(upserted, tenant, prefix) == kept + stale;
    assert kept !! stale;
  }

  /** The rows one scan ends with, as Scan's contract says. */
  function Outcome(config: Option<FuseConfig>, upserted: Rows, tenant: string, prefix: string, seen: set<string>,
                   force: bool): (Option<Reason>, Rows) {
    var stale := Stale(upserted, tenant, prefix, seen);
    var refused := match config
                   case None => None
                   case Some(c) => Evaluate(c, |Scope(upserted, tenant, prefix)|, |stale|, |seen|, force);
    (refused, if refused.Some? then upserted else upserted - stale)
  }

  /**
   * An armed, unforced fuse: a store that lists nothing costs no row; a purge goes ahead exactly when it
   * deletes nothing, or something was listed and it deletes fewer than the floor or less than the ratio;
   * and a trip loses no path indexed before.
   */
  lemma FuseLimitsLoss(c: FuseConfig, before: Rows, upserted: Rows, tree: Tree, ex: Excluder, tenant: string,
                       prefix: string, seen: set<string>)
    requires c.enabled
    requires Synced(before, upserted, tree, ex, tenant, prefix, false) && Visits(seen, tree, ex, prefix)
    ensures var out := Outcome(Some(c), upserted, tenant, prefix, seen, false);
      var indexed, stale := |Scope(upserted, tenant, prefix)|, |Stale(upserted, tenant, prefix, seen)|;
      && (seen == {} ==> out.1 == before)
      && stale <= indexed
      && (out.0.None? <==>
            stale == 0 || (seen != {} && (stale < c.minDeletions || stale as real / indexed as real < c.maxRatio)))
      && (out.0.Some? ==> before.Keys <= out.1.Keys)
  {
    CountsAddUp(before, upserted, tree, ex, tenant, prefix, seen);
    var stale := Stale(upserted, tenant, prefix, seen);
    forall k | k in before ensures k in upserted {
      assert SyncedAt(before, upserted, tree, ex, tenant, prefix, false, k);
    }
    if seen == {} {
      forall k ensures At(upserted, k) == At(before, k) {
        assert SyncedAt(before, upserted, tree, ex, tenant, prefix, false, k);
        assert k.1 !in seen;
      }
      SameRows(upserted, before);
      if |stale| == 0 { assert upserted - stale == upserted; }
    }
  }

  /** Forced, or with no fuse or one that is off, a scan purges whatever it did not see. */
  lemma ForcedScanPurges(config: Option<FuseConfig>, upserted: Rows, tenant: string, prefix: string,
                         seen: set<string>, force: bool, k: (string, string))
    requires force || config.None? || !config.value.enabled
    ensures var out := Outcome(config, upserted, tenant, prefix, seen, force);
      && out.0.None?
      && (k in out.1 <==> k in upserted && !(k.0 == tenant && prefix <= k.1 && k.1 !in seen))
      && (k in out.1 ==> out.1[k] == upserted[k])
  {
    ScopeIsPrefix(k, tenant, prefix);
  }

  /** A refusal says whether nothing at all was listed. */
  lemma RefusalSaysWhy(config: Option<FuseConfig>, upserted: Rows, tenant: string, prefix: string, seen: set<string>)
    ensures var out := Outcome(config, upserted, tenant, prefix, seen, false);
      out.0.Some? ==> out.1 == upserted && (out.0 == Some(SourceEmpty) <==> seen == {})
  {}

  /** Scanning an unchanged tree again, with the same fuse, reaches the same verdict and the same index. */
  lemma RescanRepeatsVerdict(config: Option<FuseConfig>, before: Rows, upserted: Rows, upserted': Rows, tree: Tree,
                             ex: Excluder, tenant: string, prefix: string, seen: set<string>, seen': set<string>)
    requires WellFormed(tree) && Unambiguous(tree) && Visits(seen, tree, ex, prefix) && Visits(seen', tree, ex, prefix)
    requires Synced(before, upserted, tree, ex, tenant, prefix, false)
    requires Synced(Outcome(config, upserted, tenant, prefix, seen, false).1, upserted', tree, ex, tenant, prefix,
                    false)
    ensures Outcome(config, upserted', tenant, prefix, seen', false) ==
      Outcome(config, upserted, tenant, prefix, seen, false)
  {
    var out := Outcome(config, upserted, tenant, prefix, seen, false);
    forall p ensures p in seen <==> p in seen' { assert FindsSome(tree, ex, prefix, p) <==> p in seen; }
    assert seen == seen';
    if out.0.Some? {
      RescanChangesNothing(before, out.1, upserted', tree, ex, tenant, prefix, false, false);
    } else {
      PurgedIsSynced(before, upserted, tree, ex, tenant, prefix, seen);
      RescanChangesNothing(before, out.1, upserted', tree, ex, tenant, prefix, true, false);
      assert Stale(upserted', tenant, prefix, seen) == {};
      assert out.1 - {} == out.1;
    }
  }

  // ---------------------------------------------------------------- field by field

  /**
   * The walk comes to this directory and lists this entry in it: not excluded, and every directory on the way
   * neither.
   */
  ghost predicate Lists(tree: Tree, ex: Excluder, d: string, e: Entry) {
    d in tree && Reached(tree, ex, d) && e in tree[d] && !ex(e)
  }

  predicate Tells(meta: Meta, e: Entry) {
    meta.name == e.name && meta.size == e.size && meta.mtime == e.mtime && meta.kind == e.kind
  }

  lemma FindsIff(tree: Tree, ex: Excluder, prefix: string, path: string, meta: Meta)
    ensures Finds(tree, ex, prefix, path, meta) <==>
      exists d, e :: Lists(tree, ex, d, e) && path == prefix + e.path && Tells(meta, e)
  {
    if d, e :| Lists(tree, ex, d, e) && path == prefix + e.path && Tells(meta, e) {
      assert meta == MetaOf(e);
    }
    if Finds(tree, ex, prefix, path, meta) {
      var d, e :| d in tree && Reached(tree, ex, d) && e in tree[d] && !ex(e) && path == prefix + e.path
        && meta == MetaOf(e);
      assert Lists(tree, ex, d, e) && Tells(meta, e);
    }
  }

  /**
   * After a scan that did not fail, every entry the walk lists has a row under its path, and that row holds the name,
   * the size, the modification time and the kind of an entry listed there; of this one, on an unambiguous tree.
   * After a purge no other row of the tenant is left under the prefix.
   */
  lemma RowsTellTheirEntries(before: Rows, after: Rows, tree: Tree, ex: Excluder, tenant: string, prefix: string,
                             purge: bool, d: string, e: Entry, path: string)
    requires WellFormed(tree) && Synced(before, after, tree, ex, tenant, prefix, purge)
    ensures Lists(tree, ex, d, e) ==>
      && (tenant, prefix + e.path) in after
      && (exists d', e' :: Lists(tree, ex, d', e') && e'.path == e.path && Tells(after[(tenant, prefix + e.path)], e'))
      && (Unambiguous(tree) ==> Tells(after[(tenant, prefix + e.path)], e))
    ensures purge && (tenant, path) in after && prefix <= path ==>
      exists d', e' :: Lists(tree, ex, d', e') && path == prefix + e'.path && Tells(after[(tenant, path)], e')
  {
    if Lists(tree, ex, d, e) {
      var k := (tenant, prefix + e.path);
      FindsIff(tree, ex, prefix, k.1, MetaOf(e));
      assert Tells(MetaOf(e), e);
      assert FindsSome(tree, ex, prefix, k.1);
      RowIsFound(before, after, tree, ex, tenant, prefix, purge, k.1);
      var d', e' :| Lists(tree, ex, d', e') && k.1 == prefix + e'.path && Tells(after[k], e');
      SamePath(prefix, e'.path, e.path);
      if Unambiguous(tree) { OneParent(tree, d, e, d', e'); }
    }
    if purge && (tenant, path) in after && prefix <= path {
      assert SyncedAt(before, after, tree, ex, tenant, prefix, purge, (tenant, path));
      RowIsFound(before, after, tree, ex, tenant, prefix, purge, path);
    }
  }

  lemma RowIsFound(before: Rows, after: Rows, tree: Tree, ex: Excluder, tenant: string, prefix: string, purge: bool,
                   path: string)
    requires Synced(before, after, tree, ex, tenant, prefix, purge) && FindsSome(tree, ex, prefix, path)
    ensures (tenant, path) in after
    ensures exists d, e :: Lists(tree, ex, d, e) && path == prefix + e.path && Tells(after[(tenant, path)], e)
  {
    assert SyncedAt(before, after, tree, ex, tenant, prefix, purge, (tenant, path));
    FindsIff(tree, ex, prefix, path, after[(tenant, path)]);
  }

  /** A chain of directories, each listed in the one before, none excluded. */
  ghost predicate Chain(tree: Tree, ex: Excluder, dirs: seq<string>) {
    && dirs != [] && dirs[0] == ""
    && forall i :: 0 <= i < |dirs| - 1 ==> dirs[i] in tree && ListsDir(tree[dirs[i]], ex, dirs[i + 1])
  }

  ghost predicate ListsDir(children: seq<Entry>, ex: Excluder, dir: string) {
    exists e :: e in children && e.kind == Dir && !ex(e) && e.path == dir
  }

  /** The walk comes to exactly the directories such a chain from the root leads to. */
  lemma {:induction false} ReachedIsAChain(tree: Tree, ex: Excluder, d: string) returns (dirs: seq<string>)
    requires Reached(tree, ex, d)
    ensures Chain(tree, ex, dirs) && dirs[|dirs| - 1] == d
    decreases |d|
  {
    if d == "" {
      dirs := [""];
    } else {
      var p, e :| p in tree && |p| < |d| && e in tree[p] && e.kind.Dir? && !ex(e) && e.path == d
        && Reached(tree, ex, p);
      var front := ReachedIsAChain(tree, ex, p);
      dirs := front + [d];
      assert ListsDir(tree[p], ex, d);
      assert forall i :: 0 <= i < |front| ==> dirs[i] == front[i];
    }
  }

  lemma {:induction false} ChainIsReached(tree: Tree, ex: Excluder, dirs: seq<string>)
    requires WellFormed(tree) && Chain(tree, ex, dirs)
    ensures Reached(tree, ex, dirs[|dirs| - 1])
  {
    var n := |dirs| - 1;
    if n > 0 {
      var front := dirs[..n];
      assert forall i :: 0 <= i < n ==> front[i] == dirs[i];
      assert Chain(tree, ex, front);
      ChainIsReached(tree, ex, front);
      assert dirs[n - 1] in tree && ListsDir(tree[dirs[n - 1]], ex, dirs[n - 1 + 1]);
      var e :| e in tree[dirs[n - 1]] && e.kind == Dir && !ex(e) && e.path == dirs[n];
      var i :| 0 <= i < |tree[dirs[n - 1]]| && tree[dirs[n - 1]][i] == e;
      assert |dirs[n - 1]| < |e.path|;
    }
  }

  // ---------------------------------------------------------------- any tree, in its own order

  /** What a scan that does not fail leaves: the rows the walk writes, in its order, and the purge if it goes ahead. */
  function Scanned(rows: Rows, tenant: string, prefix: string, log: seq<Row>, purge: bool): Rows {
    var up := Upserted(rows, tenant, log);
    if purge then up - Stale(up, tenant, prefix, Paths(log)) else up
  }

  lemma ScannedAt(rows: Rows, tenant: string, prefix: string, log: seq<Row>, purge: bool, k: (string, string))
    ensures k.0 == tenant && k.1 in Paths(log) ==>
      exists i :: 0 <= i < |log| && log[i].path == k.1 && (forall j :: i < j < |log| ==> log[j].path != k.1)
                  && At(Scanned(rows, tenant, prefix, log, purge), k) == Some(log[i].meta)
    ensures !(k.0 == tenant && k.1 in Paths(log)) ==>
      At(Scanned(rows, tenant, prefix, log, purge), k)
      == if purge && k.0 == tenant && prefix <= k.1 then None else At(rows, k)
  {
    UpsertedAt(rows, tenant, log, k);
    ScopeIsPrefix(k, tenant, prefix);
    if k.0 == tenant && k.1 in Paths(log) {
      var i := LastOf(log, k.1);
      assert k == (tenant, log[i].path);
      assert At(Scanned(rows, tenant, prefix, log, purge), k) == Some(log[i].meta);
    } else {
      assert forall e :: e in log ==> e.path in Paths(log);
    }
  }

  /** A second scan leaves every row as the first did, even where a path is listed as file and as directory. */
  lemma RescanOfAnyTree(rows: Rows, tenant: string, prefix: string, log: seq<Row>, purged: bool, purge: bool)
    requires purge ==> purged
    ensures var once := Scanned(rows, tenant, prefix, log, purged); Scanned(once, tenant, prefix, log, purge) == once
  {
    var once := Scanned(rows, tenant, prefix, log, purged);
    forall k ensures At(Scanned(once, tenant, prefix, log, purge), k) == At(once, k) {
      ScannedAt(rows, tenant, prefix, log, purged, k);
      ScannedAt(once, tenant, prefix, log, purge, k);
    }
    SameRows(Scanned(once, tenant, prefix, log, purge), once);
  }

  // ---------------------------------------------------------------- a scan that fails

  function Folder(path: string, name: string): Entry {
    Entry(path, name, 0, 0, Dir)
  }

  function File(path: string, name: string): Entry {
    Entry(path, name, 1, 1, FileKind.File)
  }

  /** What a bucket lists that holds the two keys a and a/b. */
  function Bucket(a: string, b: string): Tree {
    map["" := [Folder(a, a), File(a, a)], a := [File(a + "/" + b, b)]]
  }

  /** Scanning that bucket fails, unless every row is a batch of its own. */
  lemma FileAndFolderFails(a: string, b: string, ex: Excluder, prefix: string, size: nat)
    requires a != "" && b != "" && '/' !in a && '/' !in b && size > 0 && forall e :: !ex(e)
    ensures WellFormed(Bucket(a, b))
    ensures BatchesApart(WalkLog(Bucket(a, b), ex, prefix), size) <==> size == 1
  {
    var tree := Bucket(a, b);
    var dir, file, below := Folder(a, a), File(a, a), File(a + "/" + b, b);
    var log := WalkLog(tree, ex, prefix);
    BucketLog(a, b, ex, prefix);
    var row := (e: Entry) => Row(prefix + e.path, MetaOf(e));
    assert log == [row(dir), row(file), row(below)];
    assert log[0].path == log[1].path && 0 / size == 0;
    assert |prefix + below.path| > |prefix + a|;
    if size >= 2 {
      assert 1 / size == 0;
    }
  }

  lemma BucketLog(a: string, b: string, ex: Excluder, prefix: string)
    requires a != "" && b != "" && '/' !in a && '/' !in b && forall e :: !ex(e)
    ensures var tree := Bucket(a, b); var dir, file, below := Folder(a, a), File(a, a), File(a + "/" + b, b);
      && WellFormed(tree)
      && WalkLog(tree, ex, prefix) == [Row(prefix + a, MetaOf(dir)), Row(prefix + a, MetaOf(file)),
                                       Row(prefix + below.path, MetaOf(below))]
  {
    var tree := Bucket(a, b);
    var dir, file, below := Folder(a, a), File(a, a), File(a + "/" + b, b);
    BucketIsWellFormed(a, b);
    ListingOf(ex, prefix, [below]);
    ListingOf(ex, prefix, [dir, file]);
    DirsOfBucket(ex, dir, file, below);
    LeafLog(tree, ex, prefix, a);
    ForestLast(tree, ex, prefix, [a]);
    assert [a][..0] == [] && ForestLog(tree, ex, prefix, []) == [];
    assert TreeLog(tree, ex, prefix, "") == RowsOf(prefix, ex, [dir, file]) + ForestLog(tree, ex, prefix, [a]);
  }

  lemma BucketIsWellFormed(a: string, b: string)
    requires a != "" && b != "" && '/' !in a && '/' !in b
    ensures WellFormed(Bucket(a, b))
  {
    assert a == Child("", a) && a + "/" + b == Child(a, b);
  }

  lemma DirsOfBucket(ex: Excluder, dir: Entry, file: Entry, below: Entry)
    requires (forall e :: !ex(e)) && dir.kind.Dir? && file.kind.File? && below.kind.File?
    ensures DirsOf(ex, [dir, file]) == [dir.path] && DirsOf(ex, [below]) == []
  {
    assert [dir, file][..1] == [dir] && [dir][..0] == [] && [below][..0] == [];
    assert DirsOf(ex, []) == [] && DirsOf(ex, [dir]) == [] + [dir.path];
  }

  /** A directory without directories. */
  lemma LeafLog(tree: Tree, ex: Excluder, prefix: string, d: string)
    requires WellFormed(tree) && d in tree && DirsOf(ex, tree[d]) == []
    ensures TreeLog(tree, ex, prefix, d) == RowsOf(prefix, ex, tree[d])
  {
    assert RowsOf(prefix, ex, tree[d]) + [] == RowsOf(prefix, ex, tree[d]);
  }

  lemma {:induction false} ListingOf(ex: Excluder, prefix: string, children: seq<Entry>)
    requires forall e :: !ex(e)
    ensures |RowsOf(prefix, ex, children)| == |children|
    ensures forall i :: 0 <= i < |children| ==>
      RowsOf(prefix, ex, children)[i] == Row(prefix + children[i].path, MetaOf(children[i]))
  {
    if children != [] {
      var n := |children| - 1;
      ListingOf(ex, prefix, children[..n]);
    }
  }
}
