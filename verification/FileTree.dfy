/** What a file store lists, what a walk over it finds, and in which order it writes that down. */
module FileTree {
  import opened Basics
  import opened Text
  import opened FileIndex

  // ---------------------------------------------------------------- the file store

  datatype Entry = Entry(path: string, name: string, size: int, mtime: int, kind: FileKind)

  /** What list_dir answers for each directory; "" is the root. */
  type Tree = map<string, seq<Entry>>

  type Excluder = Entry -> bool

  function Child(dir: string, name: string): string {
    if dir == "" then name else dir + "/" + name
  }

  /**
   * A name is listed at most once as a file and at most once as a directory. An object store that holds both
   * a key and keys under it lists the name as both.
   */
  ghost predicate WellFormed(tree: Tree) {
    && "" in tree
    && forall d, i :: d in tree && 0 <= i < |tree[d]| ==>
         var e := tree[d][i];
         && e.name != "" && '/' !in e.name && e.path == Child(d, e.name)
         && (e.kind.Dir? ==> e.path in tree)
         && forall j :: 0 <= j < i && tree[d][j].name == e.name ==> tree[d][j].kind != e.kind
  }

  /** No directory lists a name as both. */
  ghost predicate Unambiguous(tree: Tree) {
    forall d, i, j :: d in tree && 0 <= i < j < |tree[d]| ==> tree[d][i].name != tree[d][j].name
  }

  /** The directory is the root or an unexcluded child directory of a reached one. */
  ghost predicate Reached(tree: Tree, ex: Excluder, dir: string)
    decreases |dir|
  {
    || dir == ""
    || exists p, e ::
      p in tree && |p| < |dir| && e in tree[p] && e.kind.Dir? && !ex(e) && e.path == dir && Reached(tree, ex, p)
  }

  function MetaOf(e: Entry): Meta {
    Meta(e.name, e.size, e.mtime, e.kind)
  }

  /** The walk finds, under this index path, an entry with this metadata. */
  ghost predicate Finds(tree: Tree, ex: Excluder, prefix: string, path: string, meta: Meta) {
    exists d, e :: d in tree && Reached(tree, ex, d) && e in tree[d] && !ex(e) && path == prefix + e.path
      && meta == MetaOf(e)
  }

  lemma ChildInjective(d: string, n: string, d': string, n': string)
    requires n != "" && n' != "" && '/' !in n && '/' !in n' && Child(d, n) == Child(d', n')
    ensures d == d' && n == n'
  {
    if d != "" { RPartitionSuffix(d, n, '/'); }
    if d' != "" { RPartitionSuffix(d', n', '/'); }
    assert RPartition(Child(d, n), '/').1 <==> d != "";
    assert RPartition(Child(d', n'), '/').1 <==> d' != "";
  }

  // ---------------------------------------------------------------- one directory's share

  function RowsOf(prefix: string, ex: Excluder, children: seq<Entry>): seq<Row> {
    if children == [] then []
    else
      var front := RowsOf(prefix, ex, children[..|children| - 1]);
      var e := children[|children| - 1];
      if ex(e) then front else front + [Row(prefix + e.path, MetaOf(e))]
  }

  function DirsOf(ex: Excluder, children: seq<Entry>): seq<string> {
    if children == [] then []
    else
      var front := DirsOf(ex, children[..|children| - 1]);
      var e := children[|children| - 1];
      if ex(e) || !e.kind.Dir? then front else front + [e.path]
  }

  lemma {:induction false} RowsMembers(prefix: string, ex: Excluder, children: seq<Entry>, row: Row)
    ensures row in RowsOf(prefix, ex, children) <==>
      exists e :: e in children && !ex(e) && row == Row(prefix + e.path, MetaOf(e))
  {
    if children != [] {
      var n := |children| - 1;
      RowsMembers(prefix, ex, children[..n], row);
      assert children == children[..n] + [children[n]];
    }
  }

  lemma {:induction false} DirsMembers(ex: Excluder, children: seq<Entry>, dir: string)
    ensures dir in DirsOf(ex, children) <==> exists e :: e in children && !ex(e) && e.kind.Dir? && e.path == dir
  {
    if children != [] {
      var n := |children| - 1;
      DirsMembers(ex, children[..n], dir);
      assert children == children[..n] + [children[n]];
    }
  }

  /** Entries of one path are of different kinds. */
  ghost predicate DistinctEntries(children: seq<Entry>) {
    forall i, j :: 0 <= i < j < |children| && children[i].path == children[j].path ==>
      children[i].kind != children[j].kind
  }

  lemma {:induction false} RowsDistinct(prefix: string, ex: Excluder, children: seq<Entry>)
    requires DistinctEntries(children)
    ensures Distinct(RowsOf(prefix, ex, children))
  {
    if children != [] {
      var n := |children| - 1;
      RowsDistinct(prefix, ex, children[..n]);
      var front := RowsOf(prefix, ex, children[..n]);
      forall i | 0 <= i < |front| ensures front[i] != Row(prefix + children[n].path, MetaOf(children[n])) {
        RowsMembers(prefix, ex, children[..n], front[i]);
        var e :| e in children[..n] && front[i] == Row(prefix + e.path, MetaOf(e));
        assert (prefix + e.path)[|prefix|..] == e.path;
        assert (prefix + children[n].path)[|prefix|..] == children[n].path;
      }
    }
  }

  lemma {:induction false} DirsDistinct(ex: Excluder, children: seq<Entry>)
    requires DistinctEntries(children)
    ensures Distinct(DirsOf(ex, children))
  {
    if children != [] {
      var n := |children| - 1;
      DirsDistinct(ex, children[..n]);
      var front := DirsOf(ex, children[..n]);
      if children[n].kind.Dir? {
        forall i | 0 <= i < |front| ensures front[i] != children[n].path {
          DirsMembers(ex, children[..n], front[i]);
        }
      }
    }
  }

  // ---------------------------------------------------------------- the order of the walk

  /** The directories at least as deep, in letters, as one of these. */
  ghost function From(tree: Tree, dirs: seq<string>): set<string> {
    set k | k in tree && exists x :: x in dirs && |x| <= |k|
  }

  ghost function Below(tree: Tree, dir: string): set<string> {
    set k | k in tree && |dir| < |k|
  }

  lemma ChildrenAreBelow(tree: Tree, ex: Excluder, d: string)
    requires WellFormed(tree) && d in tree
    ensures forall x :: x in DirsOf(ex, tree[d]) ==> x in tree && |d| < |x|
  {
    forall x | x in DirsOf(ex, tree[d]) ensures x in tree && |d| < |x| {
      DirsMembers(ex, tree[d], x);
    }
  }

  /** The rows of a directory and of all that is below it, in the order the walk writes them: last directory first. */
  ghost function TreeLog(tree: Tree, ex: Excluder, prefix: string, d: string): seq<Row>
    requires WellFormed(tree) && d in tree
    decreases Below(tree, d), 1, 0
  {
    ChildrenAreBelow(tree, ex, d);
    RowsOf(prefix, ex, tree[d]) + ForestLog(tree, ex, prefix, DirsOf(ex, tree[d]))
  }

  ghost function ForestLog(tree: Tree, ex: Excluder, prefix: string, dirs: seq<string>): seq<Row>
    requires WellFormed(tree) && forall x :: x in dirs ==> x in tree
    decreases From(tree, dirs), 0, |dirs|
  {
    if dirs == [] then []
    else
      var n := |dirs| - 1;
      assert dirs[n] in dirs && dirs[n] in From(tree, dirs) && dirs[n] !in Below(tree, dirs[n]);
      TreeLog(tree, ex, prefix, dirs[n]) + ForestLog(tree, ex, prefix, dirs[..n])
  }

  lemma {:induction false} ForestLast(tree: Tree, ex: Excluder, prefix: string, dirs: seq<string>)
    requires WellFormed(tree) && dirs != [] && forall x :: x in dirs ==> x in tree
    ensures ForestLog(tree, ex, prefix, dirs)
            == TreeLog(tree, ex, prefix, dirs[|dirs| - 1]) + ForestLog(tree, ex, prefix, dirs[..|dirs| - 1])
  {}

  lemma {:induction false} ForestConcat(tree: Tree, ex: Excluder, prefix: string, a: seq<string>, b: seq<string>)
    requires WellFormed(tree) && forall x :: x in a || x in b ==> x in tree
    ensures ForestLog(tree, ex, prefix, a + b) == ForestLog(tree, ex, prefix, b) + ForestLog(tree, ex, prefix, a)
    decreases |b|
  {
    if b == [] {
      assert a + b == a;
    } else {
      var n := |b| - 1;
      assert (a + b)[..|a + b| - 1] == a + b[..n];
      ForestConcat(tree, ex, prefix, a, b[..n]);
      ForestLast(tree, ex, prefix, b);
      ForestLast(tree, ex, prefix, a + b);
      Regroup(TreeLog(tree, ex, prefix, b[n]), ForestLog(tree, ex, prefix, b[..n]), ForestLog(tree, ex, prefix, a));
    }
  }

  /** Popping a directory writes its rows and puts its directories in its place. */
  lemma ForestPops(tree: Tree, ex: Excluder, prefix: string, stack: seq<string>)
    requires WellFormed(tree) && stack != [] && forall x :: x in stack ==> x in tree
    ensures var rest, d := stack[..|stack| - 1], stack[|stack| - 1];
      && (forall x :: x in rest + DirsOf(ex, tree[d]) ==> x in tree)
      && ForestLog(tree, ex, prefix, stack)
         == RowsOf(prefix, ex, tree[d]) + ForestLog(tree, ex, prefix, rest + DirsOf(ex, tree[d]))
  {
    var rest, d := stack[..|stack| - 1], stack[|stack| - 1];
    ChildrenAreBelow(tree, ex, d);
    ForestConcat(tree, ex, prefix, rest, DirsOf(ex, tree[d]));
  }

  /** All the rows a walk from the root writes, in order. */
  ghost function WalkLog(tree: Tree, ex: Excluder, prefix: string): seq<Row>
    requires WellFormed(tree)
  {
    TreeLog(tree, ex, prefix, "")
  }

  lemma RootIsTheForest(tree: Tree, ex: Excluder, prefix: string)
    requires WellFormed(tree)
    ensures ForestLog(tree, ex, prefix, [""]) == WalkLog(tree, ex, prefix)
  {
    assert [""][..0] == [];
    assert ForestLog(tree, ex, prefix, []) == [];
  }

  // ---------------------------------------------------------------- batches of a log

  /** Cut into batches of this size, no batch names a path twice. */
  ghost predicate BatchesApart(log: seq<Row>, size: nat)
    requires size > 0
  {
    forall i, j :: 0 <= i < j < |log| && log[i].path == log[j].path ==> i / size != j / size
  }
}
