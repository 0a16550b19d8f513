/** Walking a file store and bringing the index into step with it, with a fuse on the purge. */
module FileScan {
  import opened Basics
  import opened Text
  import opened FileIndex
  import opened FileTree

  // ---------------------------------------------------------------- the fuse

  datatype Reason = SourceEmpty | Wholesale

  datatype Trip = Trip(tenant: string, namespace: string, indexed: nat, wouldDelete: nat, seen: nat, reason: Reason)

  datatype FuseConfig = FuseConfig(enabled: bool, maxRatio: real, minDeletions: int)

  /** Why a prospective purge is refused, or None to go ahead. */
  function Evaluate(c: FuseConfig, indexed: nat, wouldDelete: nat, seen: nat, force: bool): Option<Reason> {
    if force || !c.enabled then None
    else if indexed == 0 || wouldDelete == 0 then None
    else if seen == 0 then Some(SourceEmpty)
    else if wouldDelete < c.minDeletions || wouldDelete as real / indexed as real < c.maxRatio then None
    else Some(Wholesale)
  }

  function NamespaceFor(prefix: string): string {
    if prefix == "" then "tenant" else prefix
  }

  class ScanFuse {
    const config: FuseConfig
    var trips: map<(string, string), Trip>

    constructor (config: FuseConfig)
      ensures this.config == config && trips == map[]
    {
      this.config := config;
      trips := map[];
    }

    method RecordTrip(trip: Trip)
      modifies this
      ensures trips == old(trips)[(trip.tenant, trip.namespace) := trip]
    {
      trips := trips[(trip.tenant, trip.namespace) := trip];
    }

    method Clear(tenant: string, namespace: string)
      modifies this
      ensures trips == old(trips) - {(tenant, namespace)}
    {
      trips := trips - {(tenant, namespace)};
    }
  }

  // ---------------------------------------------------------------- the scan

  /** The index after the upserts alone, or after the upserts and the purge. */
  ghost predicate Synced(before: Rows, after: Rows, tree: Tree, ex: Excluder, tenant: string, prefix: string,
                         purge: bool) {
    forall k :: SyncedAt(before, after, tree, ex, tenant, prefix, purge, k)
  }

  ghost predicate SyncedAt(before: Rows, after: Rows, tree: Tree, ex: Excluder, tenant: string, prefix: string,
                           purge: bool, k: (string, string)) {
    if k.0 == tenant && FindsSome(tree, ex, prefix, k.1) then k in after && Finds(tree, ex, prefix, k.1, after[k])
    else if purge && k.0 == tenant && prefix <= k.1 then k !in after
    else (k in after <==> k in before) && (k in after ==> after[k] == before[k])
  }

  ghost predicate FindsSome(tree: Tree, ex: Excluder, prefix: string, path: string) {
    exists meta :: Finds(tree, ex, prefix, path, meta)
  }

  /** The set of index paths a walk visits. */
  ghost predicate Visits(seen: set<string>, tree: Tree, ex: Excluder, prefix: string) {
    forall path :: path in seen <==> FindsSome(tree, ex, prefix, path)
  }

  /** What the walk has written down so far: the rows of the directories done, each once. */
  ghost predicate Logged(log: seq<Row>, done: set<string>, tree: Tree, ex: Excluder, prefix: string) {
    && Distinct(log)
    && forall row :: row in log <==>
      exists d, e :: d in done && d in tree && e in tree[d] && !ex(e) && row == Row(prefix + e.path, MetaOf(e))
  }

  /** The depth-first frontier: reached directories, not yet done, and no child of a done one forgotten. */
  ghost predicate Frontier(stack: seq<string>, done: set<string>, tree: Tree, ex: Excluder) {
    Waiting(stack, done, tree, ex) && Closed(stack, done, tree, ex) && Parented(stack, done, tree)
  }

  ghost predicate Waiting(stack: seq<string>, done: set<string>, tree: Tree, ex: Excluder) {
    && Distinct(stack)
    && (forall d :: d in stack ==> d !in done)
    && (forall d :: d in stack || d in done ==> d in tree && Reached(tree, ex, d))
    && ("" in done || "" in stack)
  }

  ghost predicate Closed(stack: seq<string>, done: set<string>, tree: Tree, ex: Excluder) {
    forall d, e :: d in done && d in tree && e in tree[d] && !ex(e) && e.kind.Dir? ==> e.path in done || e.path in stack
  }

  ghost predicate Parented(stack: seq<string>, done: set<string>, tree: Tree) {
    forall d :: d in stack || d in done ==> d == "" || ParentDone(d, done, tree)
  }

  ghost predicate ParentDone(dir: string, done: set<string>, tree: Tree) {
    exists p, e :: p in done && p in tree && e in tree[p] && e.path == dir
  }

  // ---------------------------------------------------------------- batches

  function Flat(batches: seq<seq<Row>>): seq<Row> {
    if batches == [] then [] else Flat(batches[..|batches| - 1]) + batches[|batches| - 1]
  }

  /** How many rows make a batch. */
  function Full(batchSize: nat): nat {
    if batchSize == 0 then 1 else batchSize
  }

  /** Full batches, none of which names a path twice. */
  ghost predicate Clean(batches: seq<seq<Row>>, batchSize: nat) {
    forall b :: b in batches ==> |b| == Full(batchSize) && DistinctPaths(b)
  }

  lemma FlatSnoc(batches: seq<seq<Row>>, batch: seq<Row>)
    ensures Flat(batches + [batch]) == Flat(batches) + batch
  {
    assert (batches + [batch])[..|batches|] == batches;
  }

  lemma EarlierBatch(i: nat, c: nat, size: nat)
    requires size > 0 && i < c * size
    ensures i / size < c
  {
    assert i == i / size * size + i % size;
    ScaledAway(i / size - c + 1, size);
    assert (i / size - c + 1) * size == i / size * size - c * size + size;
  }

  lemma {:induction false} FlatLength(batches: seq<seq<Row>>, batchSize: nat)
    requires Clean(batches, batchSize)
    ensures |Flat(batches)| == |batches| * Full(batchSize)
  {
    if batches != [] {
      var n := |batches| - 1;
      assert batches[n] in batches && forall b :: b in batches[..n] ==> b in batches;
      FlatLength(batches[..n], batchSize);
      assert |Flat(batches)| == |Flat(batches[..n])| + Full(batchSize);
      Product(n, |batches|, Full(batchSize));
    }
  }

  lemma Product(n: nat, m: nat, size: nat)
    requires m == n + 1
    ensures m * size == n * size + size
  {}

  /** A batch laid after c full ones keeps the log's batches apart exactly when it names no path twice. */
  lemma ApartStep(log: seq<Row>, batch: seq<Row>, c: nat, size: nat)
    requires size > 0 && |log| == c * size && |batch| <= size && BatchesApart(log, size)
    ensures BatchesApart(log + batch, size) <==> DistinctPaths(batch)
  {
    var all := log + batch;
    forall r | 0 <= r < |batch| ensures (|log| + r) / size == c && all[|log| + r] == batch[r] {
      DivUnique(|log| + r, size, c, r);
    }
    forall i | 0 <= i < |log| ensures i / size < c && all[i] == log[i] {
      EarlierBatch(i, c, size);
    }
    assert forall i :: |log| <= i < |all| ==> all[i] == batch[i - |log|] && (|log| + (i - |log|)) / size == c;
    if BatchesApart(all, size) {
      forall i, j | 0 <= i < j < |batch| ensures batch[i].path != batch[j].path {
        assert all[|log| + i] == batch[i] && all[|log| + j] == batch[j];
      }
    }
    if DistinctPaths(batch) {
      forall i, j | 0 <= i < j < |all| && all[i].path == all[j].path ensures i / size != j / size {}
    }
  }

  lemma {:induction false} FlatApart(batches: seq<seq<Row>>, batchSize: nat)
    requires Clean(batches, batchSize)
    ensures BatchesApart(Flat(batches), Full(batchSize))
  {
    if batches != [] {
      var n := |batches| - 1;
      assert batches[n] in batches && forall b :: b in batches[..n] ==> b in batches;
      FlatApart(batches[..n], batchSize);
      FlatLength(batches[..n], batchSize);
      ApartStep(Flat(batches[..n]), batches[n], n, Full(batchSize));
    }
  }

  lemma LastBatchDecides(batches: seq<seq<Row>>, last: seq<Row>, batchSize: nat)
    requires Clean(batches, batchSize) && |last| <= Full(batchSize)
    ensures BatchesApart(Flat(batches) + last, Full(batchSize)) <==> DistinctPaths(last)
  {
    FlatApart(batches, batchSize);
    FlatLength(batches, batchSize);
    ApartStep(Flat(batches), last, |batches|, Full(batchSize));
  }

  lemma ApartPrefix(log: seq<Row>, more: seq<Row>, size: nat)
    requires size > 0 && log <= more && BatchesApart(more, size)
    ensures BatchesApart(log, size)
  {
    assert forall i :: 0 <= i < |log| ==> log[i] == more[i];
  }

  /** Writes a batch on top of what was written before; a path named twice in it is refused, and changes nothing. */
  method Flush(index: FileIndex, tenant: string, batch: seq<Row>, ghost rows0: Rows, ghost flushed: seq<Row>)
    returns (ok: bool)
    requires index.rows == Upserted(rows0, tenant, flushed)
    modifies index
    ensures ok <==> DistinctPaths(batch)
    ensures index.rows == Upserted(rows0, tenant, if ok then flushed + batch else flushed)
  {
    ok := index.UpsertBatch(tenant, batch);
    UpsertedConcat(rows0, tenant, flushed, batch);
  }

  function Paths(rows: seq<Row>): set<string> {
    set row | row in rows :: row.path
  }

  /** One entry that is not excluded: note it, push it when it is a directory, write a full batch. */
  method VisitEntry(index: FileIndex, tenant: string, prefix: string, batchSize: nat, e: Entry, visited0: set<string>,
                    batch0: seq<Row>, stack0: seq<string>, ghost rows0: Rows, ghost batches0: seq<seq<Row>>)
    returns (ok: bool, visited: set<string>, batch: seq<Row>, stack: seq<string>, ghost batches: seq<seq<Row>>)
    requires Clean(batches0, batchSize) && |batch0| < Full(batchSize)
    requires index.rows == Upserted(rows0, tenant, Flat(batches0))
    modifies index
    ensures visited == visited0 + {prefix + e.path} && stack == stack0 + if e.kind.Dir? then [e.path] else []
    ensures Clean(batches, batchSize) && index.rows == Upserted(rows0, tenant, Flat(batches))
    ensures Flat(batches) + batch == Flat(batches0) + batch0 + [Row(prefix + e.path, MetaOf(e))]
    ensures if ok then |batch| < Full(batchSize) else |batch| == Full(batchSize) && !DistinctPaths(batch)
  {
    ok, batches := true, batches0;
    var row := Row(prefix + e.path, MetaOf(e));
    visited := visited0 + {row.path};
    batch := batch0 + [row];
    stack := stack0;
    Regroup(Flat(batches0), batch0, [row]);
    if e.kind.Dir? {
      stack := stack + [e.path];
    }
    if |batch| >= batchSize {
      ok, batch, batches := WriteBatch(index, tenant, batchSize, batch, rows0, batches);
    }
  }

  /** A full batch is written and begun anew, or refused and kept. */
  method WriteBatch(index: FileIndex, tenant: string, batchSize: nat, batch0: seq<Row>, ghost rows0: Rows,
                    ghost batches0: seq<seq<Row>>)
    returns (ok: bool, batch: seq<Row>, ghost batches: seq<seq<Row>>)
    requires Clean(batches0, batchSize) && |batch0| == Full(batchSize)
    requires index.rows == Upserted(rows0, tenant, Flat(batches0))
    modifies index
    ensures Clean(batches, batchSize) && index.rows == Upserted(rows0, tenant, Flat(batches))
    ensures Flat(batches) + batch == Flat(batches0) + batch0
    ensures if ok then batch == [] else batch == batch0 && !DistinctPaths(batch)
  {
    batch, batches := batch0, batches0;
    ok := Flush(index, tenant, batch, rows0, Flat(batches));
    if ok {
      FlatSnoc(batches0, batch0);
      batch, batches := [], batches0 + [batch0];
    }
  }

  lemma ShareStep(prefix: string, ex: Excluder, children: seq<Entry>, i: nat)
    requires i < |children|
    ensures var e := children[i]; var row := Row(prefix + e.path, MetaOf(e));
      var before, after := RowsOf(prefix, ex, children[..i]), RowsOf(prefix, ex, children[..i + 1]);
      && after == (if ex(e) then before else before + [row])
      && Paths(after) == Paths(before) + (if ex(e) then {} else {row.path})
      && DirsOf(ex, children[..i + 1]) == DirsOf(ex, children[..i]) + (if ex(e) || !e.kind.Dir? then [] else [e.path])
      && after <= RowsOf(prefix, ex, children)
  {
    assert children[..i + 1][..i] == children[..i];
    RowsPrefix(prefix, ex, children, i + 1);
    PathsSnoc(RowsOf(prefix, ex, children[..i]), Row(prefix + children[i].path, MetaOf(children[i])));
  }

  lemma PathsSnoc(rows: seq<Row>, row: Row)
    ensures Paths(rows + [row]) == Paths(rows) + {row.path}
  {}

  /** The rows, the stack and the paths after a directory's first i children. */
  ghost predicate Noted(prefix: string, ex: Excluder, children: seq<Entry>, i: nat, rows0: seq<Row>,
                        stack0: seq<string>, visited0: set<string>, rows: seq<Row>, stack: seq<string>,
                        visited: set<string>)
    requires i <= |children|
  {
    && rows == rows0 + RowsOf(prefix, ex, children[..i]) && stack == stack0 + DirsOf(ex, children[..i])
    && visited == visited0 + Paths(RowsOf(prefix, ex, children[..i]))
  }

  /** What one child adds: nothing when it is excluded. */
  lemma VisitStep(prefix: string, ex: Excluder, children: seq<Entry>, i: nat, rows0: seq<Row>, stack0: seq<string>,
                  visited0: set<string>, rows: seq<Row>, stack: seq<string>, visited: set<string>)
    requires i < |children| && Noted(prefix, ex, children, i, rows0, stack0, visited0, rows, stack, visited)
    ensures ex(children[i]) ==> Noted(prefix, ex, children, i + 1, rows0, stack0, visited0, rows, stack, visited)
    ensures !ex(children[i]) ==>
      var e := children[i]; var row := Row(prefix + e.path, MetaOf(e));
      && Noted(prefix, ex, children, i + 1, rows0, stack0, visited0, rows + [row],
               stack + (if e.kind.Dir? then [e.path] else []), visited + {row.path})
      && rows + [row] <= rows0 + RowsOf(prefix, ex, children)
  {
    var e := children[i];
    ShareStep(prefix, ex, children, i);
    Regroup(rows0, RowsOf(prefix, ex, children[..i]), [Row(prefix + e.path, MetaOf(e))]);
    Regroup(stack0, DirsOf(ex, children[..i]), if e.kind.Dir? then [e.path] else []);
  }

  lemma AllNoted(prefix: string, ex: Excluder, children: seq<Entry>, rows0: seq<Row>, stack0: seq<string>,
                 visited0: set<string>, rows: seq<Row>, stack: seq<string>, visited: set<string>)
    requires Noted(prefix, ex, children, |children|, rows0, stack0, visited0, rows, stack, visited)
    ensures rows == rows0 + RowsOf(prefix, ex, children) && stack == stack0 + DirsOf(ex, children)
    ensures visited == visited0 + Paths(RowsOf(prefix, ex, children))
  {
    assert children[..|children|] == children;
  }

  /** One directory's children, in the order they are listed, up to a batch that is refused. */
  method VisitDirectory(index: FileIndex, tenant: string, prefix: string, ex: Excluder, batchSize: nat,
                        children: seq<Entry>, visited0: set<string>, batch0: seq<Row>, stack0: seq<string>,
                        ghost rows0: Rows, ghost batches0: seq<seq<Row>>)
    returns (ok: bool, visited: set<string>, batch: seq<Row>, stack: seq<string>, ghost batches: seq<seq<Row>>)
    requires Clean(batches0, batchSize) && |batch0| < Full(batchSize)
    requires index.rows == Upserted(rows0, tenant, Flat(batches0))
    modifies index
    ensures Clean(batches, batchSize) && index.rows == Upserted(rows0, tenant, Flat(batches))
    ensures Flat(batches) + batch <= Flat(batches0) + batch0 + RowsOf(prefix, ex, children)
    ensures ok ==> Flat(batches) + batch == Flat(batches0) + batch0 + RowsOf(prefix, ex, children)
    ensures ok ==> stack == stack0 + DirsOf(ex, children) && visited == visited0 + Paths(RowsOf(prefix, ex, children))
    ensures if ok then |batch| < Full(batchSize) else |batch| == Full(batchSize) && !DistinctPaths(batch)
  {
    ok, visited, batch, stack, batches := true, visited0, batch0, stack0, batches0;
    ghost var rows := Flat(batches0) + batch0;
    assert rows + [] == rows && visited0 + {} == visited0;
    for i := 0 to |children|
      invariant ok && Clean(batches, batchSize) && |batch| < Full(batchSize)
      invariant index.rows == Upserted(rows0, tenant, Flat(batches))
      invariant Noted(prefix, ex, children, i, rows, stack0, visited0, Flat(batches) + batch, stack, visited)
    {
      VisitStep(prefix, ex, children, i, rows, stack0, visited0, Flat(batches) + batch, stack, visited);
      if !ex(children[i]) {
        ok, visited, batch, stack, batches :=
          VisitEntry(index, tenant, prefix, batchSize, children[i], visited, batch, stack, rows0, batches);
        if !ok {
          return;
        }
      }
    }
    AllNoted(prefix, ex, children, rows, stack0, visited0, Flat(batches) + batch, stack, visited);
  }

  lemma {:induction false} RowsPrefix(prefix: string, ex: Excluder, children: seq<Entry>, i: nat)
    requires i <= |children|
    ensures RowsOf(prefix, ex, children[..i]) <= RowsOf(prefix, ex, children)
    decreases |children| - i
  {
    if i == |children| {
      assert children[..i] == children;
    } else {
      assert children[..i + 1][..i] == children[..i];
      RowsPrefix(prefix, ex, children, i + 1);
    }
  }

  // ---------------------------------------------------------------- the frontier advances

  lemma ChildrenDistinct(tree: Tree, d: string)
    requires WellFormed(tree) && d in tree
    ensures DistinctEntries(tree[d])
  {
    forall i, j | 0 <= i < j < |tree[d]| && tree[d][i].path == tree[d][j].path
      ensures tree[d][i].kind != tree[d][j].kind {
      ChildInjective(d, tree[d][i].name, d, tree[d][j].name);
    }
  }

  /** No path is listed under two directories, nor twice in one as the same kind. */
  lemma OneParent(tree: Tree, d: string, e: Entry, d': string, e': Entry)
    requires WellFormed(tree) && d in tree && d' in tree && e in tree[d] && e' in tree[d'] && e.path == e'.path
    ensures d == d' && e.name == e'.name && (e.kind == e'.kind || Unambiguous(tree) ==> e == e')
  {
    var i :| 0 <= i < |tree[d]| && tree[d][i] == e;
    var j :| 0 <= j < |tree[d']| && tree[d'][j] == e';
    ChildInjective(d, e.name, d', e'.name);
  }

  lemma SamePath(prefix: string, a: string, b: string)
    requires prefix + a == prefix + b
    ensures a == b
  {
    assert a == (prefix + a)[|prefix|..] == (prefix + b)[|prefix|..] == b;
  }

  lemma LogGrows(log: seq<Row>, done: set<string>, d: string, tree: Tree, ex: Excluder, prefix: string)
    requires WellFormed(tree) && Logged(log, done, tree, ex, prefix) && d in tree && d !in done
    ensures Logged(log + RowsOf(prefix, ex, tree[d]), done + {d}, tree, ex, prefix)
  {
    var more := RowsOf(prefix, ex, tree[d]);
    ChildrenDistinct(tree, d);
    RowsDistinct(prefix, ex, tree[d]);
    forall row
      ensures row in more <==> exists e :: e in tree[d] && !ex(e) && row == Row(prefix + e.path, MetaOf(e))
    {
      RowsMembers(prefix, ex, tree[d], row);
    }
    forall i, j | 0 <= i < |log| && 0 <= j < |more| ensures log[i] != more[j] {
      assert log[i] in log && more[j] in more;
      var d0, e0 :| d0 in done && d0 in tree && e0 in tree[d0] && !ex(e0)
        && log[i] == Row(prefix + e0.path, MetaOf(e0));
      var e :| e in tree[d] && !ex(e) && more[j] == Row(prefix + e.path, MetaOf(e));
      if log[i].path == more[j].path {
        SamePath(prefix, e0.path, e.path);
        OneParent(tree, d0, e0, d, e);
      }
    }
    forall row
      ensures row in log + more <==>
        exists d', e :: d' in done + {d} && d' in tree && e in tree[d'] && !ex(e)
          && row == Row(prefix + e.path, MetaOf(e))
    {
      if row in more {
        var e :| e in tree[d] && !ex(e) && row == Row(prefix + e.path, MetaOf(e));
      }
    }
  }

  lemma WaitingAdvances(rest: seq<string>, d: string, done: set<string>, tree: Tree, ex: Excluder)
    requires WellFormed(tree) && Frontier(rest + [d], done, tree, ex)
    ensures d in tree && Waiting(rest + DirsOf(ex, tree[d]), done + {d}, tree, ex)
  {
    var stack, more := rest + [d], DirsOf(ex, tree[d]);
    assert d in stack && forall x :: x in rest ==> x in stack;
    ChildrenDistinct(tree, d);
    DirsDistinct(ex, tree[d]);
    forall x | x in more ensures x in tree && Reached(tree, ex, x) && x != d && x !in done && x !in rest {
      DirsMembers(ex, tree[d], x);
      var e :| e in tree[d] && !ex(e) && e.kind.Dir? && e.path == x;
      NewDirectory(tree, ex, d, e, stack, done);
    }
    var stack' := rest + more;
    forall i, j | 0 <= i < j < |stack'| ensures stack'[i] != stack'[j] {
      if i < |rest| <= j {
        assert stack'[j] in more && stack'[i] in rest;
      } else if j < |rest| {
        assert stack[i] != stack[j];
      } else {
        assert more[i - |rest|] != more[j - |rest|];
      }
    }
    forall x | x in stack' ensures x !in done + {d} {
      if x in rest {
        var i :| 0 <= i < |rest| && rest[i] == x;
        assert stack[i] != stack[|rest|];
      }
    }
  }

  lemma ClosedAdvances(rest: seq<string>, d: string, done: set<string>, tree: Tree, ex: Excluder)
    requires Closed(rest + [d], done, tree, ex) && d in tree
    ensures Closed(rest + DirsOf(ex, tree[d]), done + {d}, tree, ex)
  {
    forall p, e | p in done + {d} && p in tree && e in tree[p] && !ex(e) && e.kind.Dir?
      ensures e.path in done + {d} || e.path in rest + DirsOf(ex, tree[d])
    {
      if p == d {
        DirsMembers(ex, tree[d], e.path);
      } else {
        assert e.path in done || e.path in rest + [d];
      }
    }
  }

  lemma ParentedAdvances(rest: seq<string>, d: string, done: set<string>, tree: Tree, ex: Excluder)
    requires Parented(rest + [d], done, tree) && d in tree
    ensures Parented(rest + DirsOf(ex, tree[d]), done + {d}, tree)
  {
    var more := DirsOf(ex, tree[d]);
    forall x | x in rest + more || x in done + {d} ensures x == "" || ParentDone(x, done + {d}, tree) {
      if x in more {
        DirsMembers(ex, tree[d], x);
        var e :| e in tree[d] && !ex(e) && e.kind.Dir? && e.path == x;
      } else if x != "" {
        assert x in rest + [d] || x in done;
        assert ParentDone(x, done, tree);
        var p, e :| p in done && p in tree && e in tree[p] && e.path == x;
      }
    }
  }

  lemma FrontierAdvances(stack: seq<string>, done: set<string>, tree: Tree, ex: Excluder)
    requires WellFormed(tree) && Frontier(stack, done, tree, ex) && stack != []
    ensures var d := stack[|stack| - 1];
      d in tree && Frontier(stack[..|stack| - 1] + DirsOf(ex, tree[d]), done + {d}, tree, ex)
  {
    var d := stack[|stack| - 1];
    var rest := stack[..|stack| - 1];
    assert stack == rest + [d];
    WaitingAdvances(rest, d, done, tree, ex);
    ClosedAdvances(rest, d, done, tree, ex);
    ParentedAdvances(rest, d, done, tree, ex);
  }

  /** A child of the directory just popped was neither done nor waiting: its only parent is this one. */
  lemma NewDirectory(tree: Tree, ex: Excluder, d: string, e: Entry, stack: seq<string>, done: set<string>)
    requires WellFormed(tree) && Frontier(stack, done, tree, ex) && d in stack && e in tree[d] && !ex(e) && e.kind.Dir?
    ensures |e.path| > |d| && e.path in tree && Reached(tree, ex, e.path)
    ensures e.path !in done && e.path !in stack
  {
    var i :| 0 <= i < |tree[d]| && tree[d][i] == e;
    assert |e.path| > |d|;
    if e.path in done || e.path in stack {
      assert ParentDone(e.path, done, tree);
      var p, e' :| p in done && p in tree && e' in tree[p] && e'.path == e.path;
      OneParent(tree, d, e, p, e');
      assert false;
    }
  }

  // ---------------------------------------------------------------- a finished walk

  lemma {:induction false} ReachedIsDone(tree: Tree, ex: Excluder, done: set<string>, d: string)
    requires Closed([], done, tree, ex) && "" in done && Reached(tree, ex, d)
    ensures d in done
    decreases |d|
  {
    if d != "" {
      var p, e :| p in tree && |p| < |d| && e in tree[p] && e.kind.Dir? && !ex(e) && e.path == d
        && Reached(tree, ex, p);
      ReachedIsDone(tree, ex, done, p);
    }
  }

  /** Once the frontier is empty the log holds exactly what the walk can find. */
  lemma FinishedLog(log: seq<Row>, done: set<string>, tree: Tree, ex: Excluder, prefix: string, path: string,
                    meta: Meta)
    requires Logged(log, done, tree, ex, prefix) && Frontier([], done, tree, ex)
    ensures Finds(tree, ex, prefix, path, meta) <==> Row(path, meta) in log
  {
    if Finds(tree, ex, prefix, path, meta) {
      var d, e :| d in tree && Reached(tree, ex, d) && e in tree[d] && !ex(e) && path == prefix + e.path
        && meta == MetaOf(e);
      ReachedIsDone(tree, ex, done, d);
      assert Row(path, meta) == Row(prefix + e.path, MetaOf(e));
    }
    if Row(path, meta) in log {
      var d, e :| d in done && d in tree && e in tree[d] && !ex(e)
        && Row(path, meta) == Row(prefix + e.path, MetaOf(e));
    }
  }

  lemma {:induction false} LastOf(log: seq<Row>, path: string) returns (i: nat)
    requires exists row :: row in log && row.path == path
    ensures i < |log| && log[i].path == path && forall j :: i < j < |log| ==> log[j].path != path
  {
    i := |log| - 1;
    if log[i].path != path {
      var row :| row in log && row.path == path;
      assert log == log[..i] + [log[i]];
      assert row in log[..i];
      i := LastOf(log[..i], path);
    }
  }

  lemma FinishedWalk(log: seq<Row>, done: set<string>, tree: Tree, ex: Excluder, tenant: string, prefix: string,
                     rows0: Rows)
    requires Logged(log, done, tree, ex, prefix) && Frontier([], done, tree, ex)
    ensures Visits(Paths(log), tree, ex, prefix)
    ensures Synced(rows0, Upserted(rows0, tenant, log), tree, ex, tenant, prefix, false)
  {
    forall path ensures path in Paths(log) <==> FindsSome(tree, ex, prefix, path) {
      if path in Paths(log) {
        var row :| row in log && row.path == path;
        FinishedLog(log, done, tree, ex, prefix, path, row.meta);
      }
      if FindsSome(tree, ex, prefix, path) {
        var meta :| Finds(tree, ex, prefix, path, meta);
        FinishedLog(log, done, tree, ex, prefix, path, meta);
        assert Row(path, meta).path in Paths(log);
      }
    }
    forall k ensures SyncedAt(rows0, Upserted(rows0, tenant, log), tree, ex, tenant, prefix, false, k) {
      UpsertedAt(rows0, tenant, log, k);
      if k.0 == tenant && FindsSome(tree, ex, prefix, k.1) {
        assert k.1 in Paths(log);
        var i := LastOf(log, k.1);
        assert log[i] in log && k == (tenant, log[i].path);
        FinishedLog(log, done, tree, ex, prefix, k.1, log[i].meta);
      } else {
        assert forall e :: e in log ==> e.path in Paths(log);
      }
    }
  }

  /** The walk finds every row it logs. */
  lemma LoggedIsFound(log: seq<Row>, done: set<string>, tree: Tree, ex: Excluder, prefix: string, row: Row)
    requires Logged(log, done, tree, ex, prefix) && row in log && forall d :: d in done ==>
      d in tree && Reached(tree, ex, d)
    ensures Finds(tree, ex, prefix, row.path, row.meta)
  {
    var d, e :| d in done && d in tree && e in tree[d] && !ex(e) && row == Row(prefix + e.path, MetaOf(e));
  }

  /** Two rows of one path: a file and a directory of one name, which an unambiguous tree does not have. */
  lemma ClashIsFileAndDirectory(log: seq<Row>, done: set<string>, tree: Tree, ex: Excluder, prefix: string, a: Row,
                                b: Row)
    requires WellFormed(tree) && Logged(log, done, tree, ex, prefix) && a in log && b in log && a != b
      && a.path == b.path
    ensures a.meta.kind != b.meta.kind && !Unambiguous(tree)
  {
    var d, e :| d in done && d in tree && e in tree[d] && !ex(e) && a == Row(prefix + e.path, MetaOf(e));
    var d', e' :| d' in done && d' in tree && e' in tree[d'] && !ex(e') && b == Row(prefix + e'.path, MetaOf(e'));
    SamePath(prefix, e.path, e'.path);
    OneParent(tree, d, e, d', e');
  }

  /** A batch of the log that names a path twice. */
  lemma RefusedBatch(log: seq<Row>, done: set<string>, tree: Tree, ex: Excluder, prefix: string, before: seq<Row>,
                     batch: seq<Row>)
    requires WellFormed(tree) && Logged(log, done, tree, ex, prefix) && before + batch <= log && !DistinctPaths(batch)
    requires forall d :: d in done ==> d in tree && Reached(tree, ex, d)
    ensures Clashes(batch, tree, ex, prefix) && !Unambiguous(tree)
  {
    var i, j :| 0 <= i < j < |batch| && batch[i].path == batch[j].path;
    assert batch[i] == log[|before| + i] && batch[j] == log[|before| + j];
    assert log[|before| + i] != log[|before| + j];
    ClashIsFileAndDirectory(log, done, tree, ex, prefix, batch[i], batch[j]);
    LoggedIsFound(log, done, tree, ex, prefix, batch[i]);
    LoggedIsFound(log, done, tree, ex, prefix, batch[j]);
  }

  /** The batch holds a path that the tree lists both as a file and as a directory. */
  ghost predicate Clashes(batch: seq<Row>, tree: Tree, ex: Excluder, prefix: string) {
    exists i, j :: 0 <= i < j < |batch| && batch[i].path == batch[j].path && batch[i].meta.kind != batch[j].meta.kind
                   && Finds(tree, ex, prefix, batch[i].path, batch[i].meta)
                     && Finds(tree, ex, prefix, batch[j].path, batch[j].meta)
  }

  /** Purging what was not seen turns an upserted index into a synced one. */
  lemma PurgedIsSynced(before: Rows, upserted: Rows, tree: Tree, ex: Excluder, tenant: string, prefix: string,
                       seen: set<string>)
    requires Synced(before, upserted, tree, ex, tenant, prefix, false) && Visits(seen, tree, ex, prefix)
    ensures Synced(before, upserted - Stale(upserted, tenant, prefix, seen), tree, ex, tenant, prefix, true)
  {
    var after := upserted - Stale(upserted, tenant, prefix, seen);
    forall k ensures SyncedAt(before, after, tree, ex, tenant, prefix, true, k) {
      assert SyncedAt(before, upserted, tree, ex, tenant, prefix, false, k);
      ScopeIsPrefix(k, tenant, prefix);
    }
  }

  /**
   * Walk, upsert, weigh, purge. A scan fails exactly when the tree's rows, in the order of the walk and cut
   * into batches, name a path twice in one batch, which is then listed both as a file and as a directory; the
   * batches before stand, nothing is purged and no trip changes. Otherwise the upserts always stand, a path
   * listed as both ending as the later of the two, and the purge is withheld exactly when the fuse's verdict
   * on the real counts says so. On an unambiguous tree no scan fails, and neither the batch size nor the order
   * of the walk shows.
   */
  method Scan(tree: Tree, index: FileIndex, tenant: string, prefix: string, ex: Excluder, fuse: ScanFuse?,
              force: bool, batchSize: nat)
    returns (total: nat, ok: bool, ghost upserted: Rows, ghost seen: set<string>, ghost batches: seq<seq<Row>>,
             ghost last: seq<Row>)
    requires WellFormed(tree)
    modifies index, fuse
    ensures Clean(batches, batchSize) && |last| <= Full(batchSize)
    ensures ok <==> BatchesApart(WalkLog(tree, ex, prefix), Full(batchSize))
    ensures upserted == Upserted(old(index.rows), tenant, if ok then WalkLog(tree, ex, prefix) else Flat(batches))
    ensures !ok ==> Flat(batches) + last <= WalkLog(tree, ex, prefix) && !DistinctPaths(last)
    ensures !ok ==> Clashes(last, tree, ex, prefix) && !Unambiguous(tree)
    ensures !ok ==> index.rows == upserted && (fuse != null ==> fuse.trips == old(fuse.trips))
    ensures ok ==> Visits(seen, tree, ex, prefix) && seen == Paths(WalkLog(tree, ex, prefix)) && total == |seen|
                   && Synced(old(index.rows), upserted, tree, ex, tenant, prefix, false)
    ensures ok ==>
      var indexed, stale := |Scope(upserted, tenant, prefix)|, |Stale(upserted, tenant, prefix, seen)|;
      var refused := if fuse == null then None else Evaluate(fuse.config, indexed, stale, total, force);
      && index.rows == (if refused.Some? then upserted else upserted - Stale(upserted, tenant, prefix, seen))
      && Synced(old(index.rows), index.rows, tree, ex, tenant, prefix, refused.None?)
      && (fuse != null ==>
            var key := (tenant, if prefix == "" then "tenant" else prefix);
            fuse.trips == if refused.Some?
                          then old(fuse.trips)[key := Trip(key.0, key.1, indexed, stale, total, refused.value)]
                          else old(fuse.trips) - {key})
  {
    ghost var rows0 := index.rows;
    var visited;
    ghost var done;
    ok, visited, batches, last, done := Walk(tree, index, tenant, prefix, ex, batchSize);
    upserted, seen, total := index.rows, visited, |visited|;
    if !ok {
      return;
    }
    FinishedWalk(Flat(batches) + last, done, tree, ex, tenant, prefix, rows0);
    PurgedIsSynced(rows0, upserted, tree, ex, tenant, prefix, seen);
    WeighAndPurge(index, fuse, tenant, prefix, visited, force);
  }

  /** The depth-first walk: every entry found is noted and upserted, a batch at a time, until a batch is refused. */
  method Walk(tree: Tree, index: FileIndex, tenant: string, prefix: string, ex: Excluder, batchSize: nat)
    returns (ok: bool, visited: set<string>, ghost batches: seq<seq<Row>>, ghost last: seq<Row>,
             ghost done: set<string>)
    requires WellFormed(tree)
    modifies index
    ensures Clean(batches, batchSize) && |last| <= Full(batchSize)
    ensures ok <==> BatchesApart(WalkLog(tree, ex, prefix), Full(batchSize))
    ensures if ok then Flat(batches) + last == WalkLog(tree, ex, prefix)
            else Flat(batches) + last <= WalkLog(tree, ex, prefix) && !DistinctPaths(last)
    ensures index.rows == Upserted(old(index.rows), tenant, if ok then Flat(batches) + last else Flat(batches))
    ensures ok ==> visited == Paths(Flat(batches) + last)
                   && Logged(Flat(batches) + last, done, tree, ex, prefix) && Frontier([], done, tree, ex)
    ensures !ok ==> Clashes(last, tree, ex, prefix) && !Unambiguous(tree)
  {
    var batch: seq<Row>, stack: seq<string> := [], [""];
    ghost var rows0 := index.rows;
    ok, visited, done, batches := true, {}, {}, [];
    assert Reached(tree, ex, "");
    RootIsTheForest(tree, ex, prefix);
    while stack != []
      invariant ok && Frontier(stack, done, tree, ex)
      invariant Flat(batches) + batch + ForestLog(tree, ex, prefix, stack) == WalkLog(tree, ex, prefix)
      invariant Logged(Flat(batches) + batch, done, tree, ex, prefix)
      invariant visited == Paths(Flat(batches) + batch)
      invariant Clean(batches, batchSize) && |batch| < Full(batchSize)
      invariant index.rows == Upserted(rows0, tenant, Flat(batches))
      invariant done <= tree.Keys
      decreases tree.Keys - done
    {
      var directory := stack[|stack| - 1];
      WalkStep(tree, ex, prefix, stack, done, Flat(batches) + batch);
      ghost var log := Flat(batches) + batch + RowsOf(prefix, ex, tree[directory]);
      stack := stack[..|stack| - 1];
      ok, visited, batch, stack, batches :=
        VisitDirectory(index, tenant, prefix, ex, batchSize, tree[directory], visited, batch, stack, rows0, batches);
      done := done + {directory};
      if !ok {
        RefusedBatch(log, done, tree, ex, prefix, Flat(batches), batch);
        RefusedLog(batches, batch, log, WalkLog(tree, ex, prefix), batchSize);
        last := batch;
        return;
      }
    }
    last := batch;
    assert Flat(batches) + batch + [] == Flat(batches) + batch;
    LastBatchDecides(batches, last, batchSize);
    if batch != [] {
      ok := Flush(index, tenant, batch, rows0, Flat(batches));
      if !ok {
        RefusedBatch(Flat(batches) + batch, done, tree, ex, prefix, Flat(batches), batch);
      }
    } else {
      assert Flat(batches) + last == Flat(batches);
    }
  }

  /**
   * Popping one directory: the frontier advances, the log grows by its rows, and what is left to log shrinks by
   * them.
   */
  lemma WalkStep(tree: Tree, ex: Excluder, prefix: string, stack: seq<string>, done: set<string>, log: seq<Row>)
    requires WellFormed(tree) && Frontier(stack, done, tree, ex) && stack != []
    requires Logged(log, done, tree, ex, prefix)
    ensures var d, rest := stack[|stack| - 1], stack[..|stack| - 1];
      && d in tree && d !in done && Frontier(rest + DirsOf(ex, tree[d]), done + {d}, tree, ex)
      && var grown := log + RowsOf(prefix, ex, tree[d]);
         && Logged(grown, done + {d}, tree, ex, prefix)
         && Paths(grown) == Paths(log) + Paths(RowsOf(prefix, ex, tree[d]))
         && grown + ForestLog(tree, ex, prefix, rest + DirsOf(ex, tree[d])) == log + ForestLog(tree, ex, prefix, stack)
  {
    var d, rest := stack[|stack| - 1], stack[..|stack| - 1];
    FrontierAdvances(stack, done, tree, ex);
    assert d in stack;
    ForestPops(tree, ex, prefix, stack);
    Regroup(log, RowsOf(prefix, ex, tree[d]), ForestLog(tree, ex, prefix, rest + DirsOf(ex, tree[d])));
    LogGrows(log, done, d, tree, ex, prefix);
    PathsConcat(log, RowsOf(prefix, ex, tree[d]));
  }

  /** A refused batch of the log so far is one of the whole. */
  lemma RefusedLog(batches: seq<seq<Row>>, batch: seq<Row>, log: seq<Row>, whole: seq<Row>, batchSize: nat)
    requires Clean(batches, batchSize) && |batch| <= Full(batchSize) && !DistinctPaths(batch)
    requires Flat(batches) + batch <= log <= whole
    ensures !BatchesApart(whole, Full(batchSize))
  {
    LastBatchDecides(batches, batch, batchSize);
    if BatchesApart(whole, Full(batchSize)) {
      ApartPrefix(Flat(batches) + batch, whole, Full(batchSize));
      assert false;
    }
  }

  lemma PathsConcat(a: seq<Row>, b: seq<Row>)
    ensures Paths(a + b) == Paths(a) + Paths(b)
  {}

  /**
   * The fuse weighs the purge on the real counts; one that goes ahead deletes what was not seen and clears the
   * trip.
   */
  method WeighAndPurge(index: FileIndex, fuse: ScanFuse?, tenant: string, prefix: string, visited: set<string>,
                       force: bool)
    modifies index, fuse
    ensures
      var upserted := old(index.rows);
      var indexed, stale := |Scope(upserted, tenant, prefix)|, |Stale(upserted, tenant, prefix, visited)|;
      var refused := if fuse == null then None else Evaluate(fuse.config, indexed, stale, |visited|, force);
      && index.rows == (if refused.Some? then upserted else upserted - Stale(upserted, tenant, prefix, visited))
      && (fuse != null ==>
            var key := (tenant, NamespaceFor(prefix));
            fuse.trips == if refused.Some?
                          then old(fuse.trips)[key := Trip(key.0, key.1, indexed, stale, |visited|, refused.value)]
                          else old(fuse.trips) - {key})
  {
    if fuse != null {
      var indexed := index.CountRows(tenant, prefix);
      ScopeIsUnder(index.rows, tenant, prefix);
      var stale := index.CountStale(tenant, visited, prefix);
      var refused := Evaluate(fuse.config, indexed, stale, |visited|, force);
      if refused.Some? {
        fuse.RecordTrip(Trip(tenant, NamespaceFor(prefix), indexed, stale, |visited|, refused.value));
        return;
      }
    }
    var deleted := index.PurgeStale(tenant, visited, prefix);
    if fuse != null {
      fuse.Clear(tenant, NamespaceFor(prefix));
    }
  }
}
