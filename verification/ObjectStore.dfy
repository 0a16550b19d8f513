/** The object-store backend: path normalisation, and moving or deleting a virtual directory key by key. */
module ObjectStore {
  import opened Basics
  import opened Text

  // ---------------------------------------------------------------- normalize_rel

  predicate Dropped(segment: string) {
    segment == "" || segment == "."
  }

  function Segments(pieces: seq<string>): seq<string> {
    if pieces == [] then []
    else
      var front := Segments(pieces[..|pieces| - 1]);
      var last := pieces[|pieces| - 1];
      if Dropped(last) then front else front + [last]
  }

  function Pieces(path: string): seq<string> {
    Split(Replace(path, '\\', "/"), '/')
  }

  /** None is the refusal of a path that climbs. */
  function Normalized(path: string): Option<string> {
    if ".." in Pieces(path) then None else Some(Join(Segments(Pieces(path)), '/'))
  }

  method NormalizeRel(path: string) returns (rel: Option<string>)
    ensures rel == Normalized(path)
  {
    var pieces := Pieces(path);
    var parts: seq<string> := [];
    for i := 0 to |pieces|
      invariant parts == Segments(pieces[..i])
      invariant ".." !in pieces[..i]
    {
      assert pieces[..i + 1][..i] == pieces[..i];
      if !Dropped(pieces[i]) {
        if pieces[i] == ".." {
          return None;
        }
        parts := parts + [pieces[i]];
      }
    }
    assert pieces[..|pieces|] == pieces;
    rel := Some(Join(parts, '/'));
  }

  lemma {:induction false} SegmentsMembers(pieces: seq<string>)
    ensures forall s :: s in Segments(pieces) <==> s in pieces && !Dropped(s)
  {
    if pieces != [] {
      var n := |pieces| - 1;
      SegmentsMembers(pieces[..n]);
      assert pieces == pieces[..n] + [pieces[n]];
    }
  }

  lemma {:induction false} SegmentsKeepAll(pieces: seq<string>)
    requires forall s :: s in pieces ==> !Dropped(s)
    ensures Segments(pieces) == pieces
  {
    if pieces != [] {
      var n := |pieces| - 1;
      assert pieces == pieces[..n] + [pieces[n]];
      SegmentsKeepAll(pieces[..n]);
    }
  }

  lemma {:induction false} ReplaceAbsent(s: string, c: char, with: string)
    requires c !in s
    ensures Replace(s, c, with) == s
  {
    if s != "" {
      ReplaceAbsent(s[1..], c, with);
      assert [s[0]] + s[1..] == s;
    }
  }

  lemma {:induction false} JoinWithout(pieces: seq<string>, c: char)
    requires (forall p :: p in pieces ==> c !in p) && c != '/'
    ensures c !in Join(pieces, '/')
  {
    if |pieces| > 1 { JoinWithout(pieces[1..], c); }
  }

  lemma {:induction false} PieceAlphabet(s: string, sep: char, c: char)
    requires c !in s
    ensures forall p :: p in Split(s, sep) ==> c !in p
  {
    if s != "" { PieceAlphabet(s[1..], sep, c); }
  }

  /**
   * A normalised path has only proper segments, so it cannot climb out, and normalising it again changes
   * nothing.
   */
  lemma NormalizedIsProper(path: string)
    requires Normalized(path).Some?
    ensures var rel := Normalized(path).value;
      && Normalized(rel) == Some(rel)
      && (rel != "" ==> forall s :: s in Split(rel, '/') ==> s != "" && s != "." && s != "..")
      && '\\' !in rel
  {
    var flat := Replace(path, '\\', "/");
    var parts := Segments(Pieces(path));
    var rel := Normalized(path).value;
    SegmentsMembers(Pieces(path));
    SplitPieces(flat, '/');
    ReplaceRemoves(path, '\\', '/');
    PieceAlphabet(flat, '/', '\\');
    JoinWithout(parts, '\\');
    ReplaceAbsent(rel, '\\', "/");
    if parts != [] {
      SplitOfJoin(parts, '/');
      SegmentsKeepAll(parts);
      if |parts| == 1 { assert rel == parts[0]; } else { assert '/' in rel; }
    } else {
      assert Pieces("") == [""];
      assert Segments([""]) == Segments([]) == [];
    }
  }

  /** A path of proper segments is left as it is. */
  lemma ProperIsFixed(parts: seq<string>)
    requires parts != []
    requires forall s :: s in parts ==> !Dropped(s) && s != ".." && '/' !in s && '\\' !in s
    ensures Normalized(Join(parts, '/')) == Some(Join(parts, '/'))
  {
    JoinWithout(parts, '\\');
    ReplaceAbsent(Join(parts, '/'), '\\', "/");
    SplitOfJoin(parts, '/');
    SegmentsKeepAll(parts);
  }

  // ---------------------------------------------------------------- the bucket

  type Objects = map<string, string>

  class Bucket {
    var objects: Objects
    ghost var history: seq<Objects>

    constructor (objects: Objects)
      ensures this.objects == objects && history == []
    {
      this.objects := objects;
      history := [];
    }

    method Copy(old_: string, new_: string)
      requires old_ in objects
      modifies this
      ensures objects == old(objects)[new_ := old(objects)[old_]] && history == old(history) + [objects]
    {
      objects := objects[new_ := objects[old_]];
      history := history + [objects];
    }

    method Delete(key: string)
      modifies this
      ensures objects == old(objects) - {key} && history == old(history) + [objects]
    {
      objects := objects - {key};
      history := history + [objects];
    }

    /** Keys starting with the prefix, in whatever order the store pages them. */
    method List(prefix: string) returns (keys: seq<string>)
      ensures Distinct(keys)
      ensures forall k :: k in keys <==> k in objects && prefix <= k
    {
      keys := [];
      var left := set k | k in objects && prefix <= k;
      while left != {}
        invariant Distinct(keys) && forall k :: k in keys ==> k !in left
        invariant forall k :: k in keys || k in left <==> k in objects && prefix <= k
        decreases left
      {
        var k :| k in left;
        keys := keys + [k];
        left := left - {k};
      }
    }
  }

  // ---------------------------------------------------------------- renaming

  /** The key itself, or a key under it as a directory. */
  predicate Under(src: string, k: string) {
    k == src || src + "/" <= k
  }

  function Dest(src: string, dst: string, k: string): string
    requires Under(src, k)
  {
    if k == src then dst else dst + k[|src|..]
  }

  lemma DestInjective(src: string, dst: string, a: string, b: string)
    requires Under(src, a) && Under(src, b) && Dest(src, dst, a) == Dest(src, dst, b)
    ensures a == b
  {
    assert a != src ==> a == src + a[|src|..] && Dest(src, dst, a)[|dst|..] == a[|src|..] && |a| > |src|;
    assert b != src ==> b == src + b[|src|..] && Dest(src, dst, b)[|dst|..] == b[|src|..] && |b| > |src|;
    assert dst[|dst|..] == "";
  }

  lemma DestIsUnder(src: string, dst: string, k: string)
    requires Under(src, k)
    ensures Under(dst, Dest(src, dst, k)) && Dest(dst, src, Dest(src, dst, k)) == k
  {
    if k != src {
      var rest := k[|src|..];
      assert k == src + rest && rest[0] == '/';
      assert dst + rest == dst + "/" + rest[1..];
      assert Dest(src, dst, k)[|dst|..] == rest;
    }
  }

  /** After is before with the keys in part renamed all at once, and nothing else changed. */
  ghost predicate IsRename(before: Objects, after: Objects, part: set<string>, src: string, dst: string) {
    && part <= before.Keys && (forall o :: o in part ==> Under(src, o))
    && (forall o :: o in part ==> Dest(src, dst, o) in after && after[Dest(src, dst, o)] == before[o])
    && (forall k :: k in before && k !in part ==> k in after && after[k] == before[k])
    && (forall k :: k in after ==> (k in before && k !in part) || exists o :: o in part && Dest(src, dst, o) == k)
  }

  function KeysUnder(objects: Objects, src: string): set<string> {
    set k | k in objects && Under(src, k)
  }

  /** Every object is still there, under its old key or its new one. */
  ghost predicate NothingLost(before: Objects, now: Objects, src: string, dst: string) {
    forall k :: k in before ==>
      (k in now && now[k] == before[k])
      || (Under(src, k) && Dest(src, dst, k) in now && now[Dest(src, dst, k)] == before[k])
  }

  predicate DestsFree(objects: Objects, src: string, dst: string) {
    forall k :: k in objects && Under(src, k) ==> Dest(src, dst, k) !in objects
  }

  lemma CopyThenDelete(before: Objects, now: Objects, part: set<string>, src: string, dst: string, k: string)
    requires IsRename(before, now, part, src, dst) && DestsFree(before, src, dst)
    requires k in before && Under(src, k) && k !in part
    ensures k in now && now[k] == before[k]
    ensures var copied := now[Dest(src, dst, k) := before[k]];
      && NothingLost(before, copied, src, dst)
      && IsRename(before, copied - {k}, part + {k}, src, dst)
      && NothingLost(before, copied - {k}, src, dst)
  {
    var copied := now[Dest(src, dst, k) := before[k]];
    forall o | o in part ensures Dest(src, dst, o) != Dest(src, dst, k) && Dest(src, dst, o) != k {
      if Dest(src, dst, o) == Dest(src, dst, k) { DestInjective(src, dst, o, k); }
    }
    assert Dest(src, dst, k) != k;
    forall x | x in copied - {k} ensures (x in before && x !in part + {k})
      || exists o :: o in part + {k} && Dest(src, dst, o) == x {
      if x != Dest(src, dst, k) {
        assert x in now;
        if o :| o in part && Dest(src, dst, o) == x { assert o in part + {k}; }
      } else {
        assert k in part + {k};
      }
    }
  }

  datatype MoveError = RootSource | RootTarget | Climbs | IntoItself | Missing | Occupied

  datatype EntryKind = File | Dir

  /** Every bucket state since the history was at n kept every object. */
  ghost predicate KeptThroughout(before: Objects, history: seq<Objects>, n: nat, src: string, dst: string) {
    forall i :: n <= i < |history| ==> NothingLost(before, history[i], src, dst)
  }

  /** S3 has no native move: copy, then drop the original. */
  method RenameOne(bucket: Bucket, k: string, src: string, dst: string, ghost before: Objects, ghost part: set<string>)
    requires IsRename(before, bucket.objects, part, src, dst) && DestsFree(before, src, dst)
    requires k in before && Under(src, k) && k !in part
    modifies bucket
    ensures IsRename(before, bucket.objects, part + {k}, src, dst)
    ensures |bucket.history| == |old(bucket.history)| + 2 && old(bucket.history) <= bucket.history
    ensures KeptThroughout(before, bucket.history, |old(bucket.history)|, src, dst)
  {
    CopyThenDelete(before, bucket.objects, part, src, dst, k);
    ghost var n := |bucket.history|;
    bucket.Copy(k, Dest(src, dst, k));
    ghost var copied := bucket.objects;
    bucket.Delete(k);
    KeptTwo(before, bucket.history, n, copied, bucket.objects, src, dst);
  }

  lemma KeptTwo(before: Objects, history: seq<Objects>, n: nat, a: Objects, b: Objects, src: string, dst: string)
    requires |history| == n + 2 && history[n] == a && history[n + 1] == b
    requires NothingLost(before, a, src, dst) && NothingLost(before, b, src, dst)
    ensures KeptThroughout(before, history, n, src, dst)
  {}

  /** The rename loop, one object at a time; the bucket never lacks an object along the way. */
  method RenameAll(bucket: Bucket, moves: seq<string>, src: string, dst: string)
    requires Distinct(moves) && forall k :: k in moves <==> k in KeysUnder(bucket.objects, src)
    requires DestsFree(bucket.objects, src, dst)
    modifies bucket
    ensures IsRename(old(bucket.objects), bucket.objects, KeysUnder(old(bucket.objects), src), src, dst)
    ensures old(bucket.history) <= bucket.history
    ensures KeptThroughout(old(bucket.objects), bucket.history, |old(bucket.history)|, src, dst)
  {
    ghost var before, start := bucket.objects, bucket.history;
    for i := 0 to |moves|
      invariant IsRename(before, bucket.objects, First(moves, i), src, dst)
      invariant start <= bucket.history
      invariant KeptThroughout(before, bucket.history, |start|, src, dst)
    {
      FirstStep(moves, i);
      assert moves[i] in KeysUnder(before, src);
      ghost var sofar := bucket.history;
      RenameOne(bucket, moves[i], src, dst, before, First(moves, i));
      KeptExtends(before, sofar, bucket.history, |start|, src, dst);
    }
    assert First(moves, |moves|) == KeysUnder(before, src) by { assert moves[..|moves|] == moves; }
  }

  ghost function First(moves: seq<string>, n: nat): set<string>
    requires n <= |moves|
  {
    set k | k in moves[..n]
  }

  lemma FirstStep(moves: seq<string>, i: nat)
    requires i < |moves| && Distinct(moves)
    ensures moves[i] !in First(moves, i) && First(moves, i + 1) == First(moves, i) + {moves[i]}
  {
    assert moves[..i + 1] == moves[..i] + [moves[i]];
  }

  lemma KeptExtends(before: Objects, sofar: seq<Objects>, history: seq<Objects>, n: nat, src: string, dst: string)
    requires n <= |sofar| && sofar <= history
    requires KeptThroughout(before, sofar, n, src, dst) && KeptThroughout(before, history, |sofar|, src, dst)
    ensures KeptThroughout(before, history, n, src, dst)
  {
    forall i | n <= i < |history| ensures NothingLost(before, history[i], src, dst) {
      if i < |sofar| { assert history[i] == sofar[i]; }
    }
  }

  /** Every key at or under the path: a raw prefix listing would also catch its siblings. */
  method CollectUnder(bucket: Bucket, key: string) returns (keys: seq<string>)
    ensures Distinct(keys) && forall k :: k in keys <==> k in KeysUnder(bucket.objects, key)
  {
    var listed := bucket.List(key);
    keys := [];
    for i := 0 to |listed|
      invariant keys == UnderOnly(listed[..i], key)
    {
      assert listed[..i + 1][..i] == listed[..i];
      if listed[i] == key || key + "/" <= listed[i] {
        keys := keys + [listed[i]];
      }
    }
    assert listed[..|listed|] == listed;
    UnderOnlyMembers(listed, key);
    UnderOnlyDistinct(listed, key);
    assert forall k :: Under(key, k) ==> key <= k;
  }

  method AllFree(bucket: Bucket, moves: seq<string>, src: string, dst: string) returns (free: bool)
    requires forall k :: k in moves <==> k in KeysUnder(bucket.objects, src)
    ensures free <==> DestsFree(bucket.objects, src, dst)
  {
    for i := 0 to |moves|
      invariant forall j :: 0 <= j < i ==> Under(src, moves[j]) && Dest(src, dst, moves[j]) !in bucket.objects
    {
      assert moves[i] in moves;
      if Dest(src, dst, moves[i]) in bucket.objects {
        return false;
      }
    }
    assert forall k :: k in bucket.objects && Under(src, k) ==> k in moves;
    return true;
  }

  /** Refusals, in the order they are checked. */
  function Refusal(objects: Objects, src: string, dst: string): Option<MoveError> {
    match (Normalized(src), Normalized(dst))
    case (None, _) => Some(Climbs)
    case (_, None) => Some(Climbs)
    case (Some(s), Some(d)) =>
      if s == "" then Some(RootSource)
      else if d == "" then Some(RootTarget)
      else if Under(s, d) then Some(IntoItself)
      else if KeysUnder(objects, s) == {} then Some(Missing)
      else if !DestsFree(objects, s, d) then Some(Occupied)
      else None
  }

  /**
   * Collect, check every destination free, then copy and delete key by key: in the end exactly the
   * simultaneous rename; refused, exactly the bucket as it was.
   */
  method Move(bucket: Bucket, src: string, dst: string) returns (r: Result<(string, EntryKind), MoveError>)
    modifies bucket
    ensures r.Err? <==> Refusal(old(bucket.objects), src, dst).Some?
    ensures r.Err? ==> Some(r.error) == Refusal(old(bucket.objects), src, dst)
                       && bucket.objects == old(bucket.objects) && bucket.history == old(bucket.history)
    ensures r.Ok? ==>
      var s, d := Normalized(src).value, Normalized(dst).value;
      && DestsFree(old(bucket.objects), s, d)
      && IsRename(old(bucket.objects), bucket.objects, KeysUnder(old(bucket.objects), s), s, d)
      && old(bucket.history) <= bucket.history
      && KeptThroughout(old(bucket.objects), bucket.history, |old(bucket.history)|, s, d)
      && r.value == (d, if KeysUnder(old(bucket.objects), s) == {s} then File else Dir)
  {
    var s := NormalizeRel(src);
    if s.None? { return Err(Climbs); }
    var d := NormalizeRel(dst);
    if d.None? { return Err(Climbs); }
    var srcKey, dstKey := s.value, d.value;
    if srcKey == "" { return Err(RootSource); }
    if dstKey == "" { return Err(RootTarget); }
    if srcKey == dstKey || srcKey + "/" <= dstKey { return Err(IntoItself); }
    var moves := CollectUnder(bucket, srcKey);
    ghost var all := KeysUnder(bucket.objects, srcKey);
    if moves == [] {
      assert all == {};
      return Err(Missing);
    }
    assert moves[0] in all;
    var free := AllFree(bucket, moves, srcKey, dstKey);
    if !free { return Err(Occupied); }
    var single := |moves| == 1 && moves[0] == srcKey;
    SingleFile(moves, all, srcKey);
    RenameAll(bucket, moves, srcKey, dstKey);
    r := Ok((dstKey, if single then File else Dir));
  }

  lemma SingleFile(moves: seq<string>, all: set<string>, key: string)
    requires Distinct(moves) && moves != [] && forall k :: k in moves <==> k in all
    ensures |moves| == 1 && moves[0] == key <==> all == {key}
  {
    assert moves[0] in all;
    if |moves| > 1 { assert moves[1] in all && moves[0] != moves[1]; }
  }

  function UnderOnly(keys: seq<string>, src: string): seq<string> {
    if keys == [] then []
    else
      var front := UnderOnly(keys[..|keys| - 1], src);
      if Under(src, keys[|keys| - 1]) then front + [keys[|keys| - 1]] else front
  }

  lemma {:induction false} UnderOnlyMembers(keys: seq<string>, src: string)
    ensures forall k :: k in UnderOnly(keys, src) <==> k in keys && Under(src, k)
  {
    if keys != [] {
      var n := |keys| - 1;
      UnderOnlyMembers(keys[..n], src);
      assert keys == keys[..n] + [keys[n]];
    }
  }

  lemma {:induction false} UnderOnlyDistinct(keys: seq<string>, src: string)
    requires Distinct(keys)
    ensures Distinct(UnderOnly(keys, src))
  {
    if keys != [] {
      var n := |keys| - 1;
      UnderOnlyDistinct(keys[..n], src);
      UnderOnlyMembers(keys[..n], src);
      assert keys[n] !in keys[..n];
      assert keys[n] !in UnderOnly(keys[..n], src);
    }
  }

  /** S3FileStore.delete: the object and everything under it go, one call at a time; nothing else does. */
  method DeleteTree(bucket: Bucket, path: string) returns (r: Option<bool>)
    modifies bucket
    ensures var key := Normalized(path);
      && (r.None? <==> key.None? || key.value == "")
      && (r.None? ==> bucket.objects == old(bucket.objects))
      && (r.Some? ==> bucket.objects == old(bucket.objects) - KeysUnder(old(bucket.objects), key.value)
                      && r.value == (KeysUnder(old(bucket.objects), key.value) != {}))
  {
    var rel := NormalizeRel(path);
    if rel.None? || rel.value == "" { return None; }
    var key := rel.value;
    ghost var before := bucket.objects;
    var keys := CollectUnder(bucket, key);
    assert forall k :: k in KeysUnder(before, key) <==> k in keys;
    if keys == [] {
      assert before - KeysUnder(before, key) == before;
      return Some(false);
    }
    assert keys[0] in KeysUnder(before, key);
    for i := 0 to |keys|
      invariant bucket.objects == before - set k | k in keys[..i]
    {
      assert keys[..i + 1] == keys[..i] + [keys[i]];
      bucket.Delete(keys[i]);
    }
    assert keys[..|keys|] == keys;
    assert KeysUnder(before, key) == set k | k in keys;
    r := Some(true);
  }

  // ---------------------------------------------------------------- what a move means

  /** A rename is determined by what it starts from: the order the keys are taken in does not show. */
  lemma RenameIsDetermined(before: Objects, a: Objects, b: Objects, src: string, dst: string)
    requires IsRename(before, a, KeysUnder(before, src), src, dst)
      && IsRename(before, b, KeysUnder(before, src), src, dst)
    requires DestsFree(before, src, dst)
    ensures a == b
  {
    forall k | k in a ensures k in b && a[k] == b[k] { RenamedValue(before, a, b, src, dst, k); }
    forall k | k in b ensures k in a { RenamedValue(before, b, a, src, dst, k); }
  }

  lemma RenamedValue(before: Objects, a: Objects, b: Objects, src: string, dst: string, k: string)
    requires IsRename(before, a, KeysUnder(before, src), src, dst)
      && IsRename(before, b, KeysUnder(before, src), src, dst)
    requires k in a
    ensures k in b && a[k] == b[k]
  {
    if !(k in before && k !in KeysUnder(before, src)) {
      var o :| o in KeysUnder(before, src) && Dest(src, dst, o) == k;
    }
  }

  /** Moving a tree and moving it back restores the bucket, when nothing lay under the target before. */
  lemma MoveBackRestores(before: Objects, moved: Objects, back: Objects, src: string, dst: string)
    requires IsRename(before, moved, KeysUnder(before, src), src, dst)
    requires IsRename(moved, back, KeysUnder(moved, dst), dst, src)
    requires !Under(src, dst) && forall k :: k in before ==> !Under(dst, k)
    ensures back == before
  {
    forall k | k in before ensures k in back && back[k] == before[k] {
      if Under(src, k) {
        DestIsUnder(src, dst, k);
        assert Dest(src, dst, k) in KeysUnder(moved, dst);
      } else {
        assert k in moved && k !in KeysUnder(moved, dst);
      }
    }
    forall k | k in back ensures k in before {
      if k in moved && k !in KeysUnder(moved, dst) {
        if !(k in before && k !in KeysUnder(before, src)) {
          var o :| o in KeysUnder(before, src) && Dest(src, dst, o) == k;
          DestIsUnder(src, dst, o);
          assert false;
        }
      } else {
        var m :| m in KeysUnder(moved, dst) && Dest(dst, src, m) == k;
        if m in before && m !in KeysUnder(before, src) {
          assert false;
        }
        var o :| o in KeysUnder(before, src) && Dest(src, dst, o) == m;
        DestIsUnder(src, dst, o);
      }
    }
  }

  // ---------------------------------------------------------------- said of the keys themselves

  /** Each key at or below src keeps what follows it, and goes nowhere else. */
  lemma DestOnKeys(src: string, dst: string, rest: string)
    ensures Under(src, src) && Dest(src, dst, src) == dst
    ensures Under(src, src + "/" + rest) && Dest(src, dst, src + "/" + rest) == dst + "/" + rest
  {
    var k := src + "/" + rest;
    assert k[|src|..] == "/" + rest && k != src;
    assert dst + ("/" + rest) == dst + "/" + rest;
  }

  /** A sibling whose name merely begins like the path is not under it. */
  lemma SiblingIsNotUnder(src: string, k: string)
    ensures Under(src, k) <==> k == src || (|k| > |src| && k[..|src|] == src && k[|src|] == '/')
  {
    if |k| > |src| && k[..|src|] == src && k[|src|] == '/' {
      assert k[..|src| + 1] == src + "/";
    }
  }

  /**
   * A move said key by key: what is at or below src turns up below dst as it was, and everything else stays as
   * it was.
   */
  lemma MovedKeyByKey(before: Objects, after: Objects, src: string, dst: string, rest: string, k: string)
    requires IsRename(before, after, KeysUnder(before, src), src, dst) && DestsFree(before, src, dst)
    ensures src in before ==> dst in after && after[dst] == before[src]
    ensures var old_, new_ := src + "/" + rest, dst + "/" + rest;
      old_ in before ==> new_ in after && after[new_] == before[old_]
    ensures k in before && k != src && !(src + "/" <= k) ==> k in after && after[k] == before[k]
    ensures k in before && (k == src || src + "/" <= k) && !(k == dst || dst + "/" <= k) ==> k !in after
  {
    DestOnKeys(src, dst, rest);
    forall o | o in KeysUnder(before, src) ensures Under(dst, Dest(src, dst, o)) {
      DestIsUnder(src, dst, o);
    }
  }

  /** Why a move is refused, in the order it is looked into. */
  lemma RefusalSaysWhy(objects: Objects, src: string, dst: string, s: string, d: string)
    requires Normalized(src) == Some(s) && Normalized(dst) == Some(d)
    ensures Refusal(objects, src, dst) == Some(IntoItself) <==> s != "" && d != "" && (d == s || s + "/" <= d)
    ensures Refusal(objects, src, dst) == Some(Missing) <==>
      s != "" && d != "" && d != s && !(s + "/" <= d) && forall k :: k in objects ==> k != s && !(s + "/" <= k)
    ensures Refusal(objects, src, dst) == Some(RootSource) <==> s == ""
    ensures Refusal(objects, src, dst) == Some(RootTarget) <==> s != "" && d == ""
  {
    if KeysUnder(objects, s) == {} {
      forall k | k in objects ensures !Under(s, k) { assert k !in KeysUnder(objects, s); }
    }
    if forall k :: k in objects ==> k != s && !(s + "/" <= k) {
      assert KeysUnder(objects, s) == {};
    }
  }

  lemma {:induction false} SegmentsConcat(a: seq<string>, b: seq<string>)
    ensures Segments(a + b) == Segments(a) + Segments(b)
  {
    if b == [] {
      assert a + b == a;
    } else {
      var n := |b| - 1;
      assert (a + b)[..|a + b| - 1] == a + b[..n];
      SegmentsConcat(a, b[..n]);
    }
  }

  /** An empty or dot segment is dropped wherever it stands, any other is kept in its place. */
  lemma SegmentsDropOnly(a: seq<string>, segment: string, b: seq<string>)
    ensures Segments(a + [segment] + b)
            == Segments(a) + (if segment == "" || segment == "." then [] else [segment]) + Segments(b)
  {
    SegmentsConcat(a + [segment], b);
    SegmentsConcat(a, [segment]);
    assert [segment][..0] == [];
  }

  /**
   * Written with slashes of either kind, a path normalises to its segments but the empty and the dot ones, or
   * not if one climbs.
   */
  lemma NormalizedSegments(pieces: seq<string>, path: string)
    requires pieces != [] && forall p :: p in pieces ==> '/' !in p && '\\' !in p
    requires Replace(path, '\\', "/") == Join(pieces, '/')
    ensures Normalized(path) == if ".." in pieces then None else Some(Join(Segments(pieces), '/'))
  {
    SplitOfJoin(pieces, '/');
  }
}
