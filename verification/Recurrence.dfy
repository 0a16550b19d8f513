/**
 * Splitting a recurring series in two. A rule is RRULE text; a pattern says where its occurrences
 * fall, and COUNT and UNTIL say where they stop (section 3.3.10 of RFC 5545).
 */
module Recurrence {
  import opened Basics
  import opened Text
  import opened Timestamps

  // ---------------------------------------------------------------- the ordered dict of rule parts

  /** A Python dict in insertion order: distinct keys. */
  type Parts = seq<(string, string)>

  ghost predicate Keyed(parts: Parts) {
    forall i, j :: 0 <= i < j < |parts| ==> parts[i].0 != parts[j].0
  }

  function Get(parts: Parts, key: string): Option<string> {
    if parts == [] then None
    else if parts[0].0 == key then Some(parts[0].1)
    else Get(parts[1..], key)
  }

  /** d[key] = value: in place when the key is there, appended otherwise. */
  function Set(parts: Parts, key: string, value: string): Parts {
    if parts == [] then [(key, value)]
    else if parts[0].0 == key then [(key, value)] + parts[1..]
    else [parts[0]] + Set(parts[1..], key, value)
  }

  /** d.pop(key, None). */
  function Pop(parts: Parts, key: string): Parts {
    if parts == [] then []
    else if parts[0].0 == key then Pop(parts[1..], key)
    else [parts[0]] + Pop(parts[1..], key)
  }

  lemma {:induction false} GetSet(parts: Parts, key: string, value: string, k: string)
    ensures Get(Set(parts, key, value), k) == if k == key then Some(value) else Get(parts, k)
  {
    if parts != [] && parts[0].0 != key {
      GetSet(parts[1..], key, value, k);
    }
  }

  lemma {:induction false} GetPop(parts: Parts, key: string, k: string)
    ensures Get(Pop(parts, key), k) == if k == key then None else Get(parts, k)
  {
    if parts != [] {
      GetPop(parts[1..], key, k);
    }
  }

  lemma {:induction false} PopThenSet(parts: Parts, key: string, value: string)
    ensures Pop(Set(parts, key, value), key) == Pop(parts, key)
  {
    if parts != [] && parts[0].0 != key {
      PopThenSet(parts[1..], key, value);
    }
  }

  lemma {:induction false} PopPop(parts: Parts, a: string, b: string)
    ensures Pop(Pop(parts, a), b) == Pop(Pop(parts, b), a)
  {
    if parts != [] {
      PopPop(parts[1..], a, b);
    }
  }

  lemma {:induction false} PopTwice(parts: Parts, a: string)
    ensures Pop(Pop(parts, a), a) == Pop(parts, a)
  {
    if parts != [] {
      PopTwice(parts[1..], a);
    }
  }

  // ---------------------------------------------------------------- rule text

  /** A key without separators and a value without ';', as partition and split leave them. */
  predicate Clean(part: (string, string)) {
    '=' !in part.0 && ';' !in part.0 && ';' !in part.1
  }

  ghost predicate CleanParts(parts: Parts) {
    Keyed(parts) && forall p :: p in parts ==> Clean(p)
  }

  function PartsOfPieces(pieces: seq<string>): Parts {
    if pieces == [] then []
    else
      var last := Partition(pieces[|pieces| - 1], '=');
      Set(PartsOfPieces(pieces[..|pieces| - 1]), last.0, last.2)
  }

  function PartsOf(text: string): Parts {
    PartsOfPieces(Split(text, ';'))
  }

  function Assignments(parts: Parts): (pieces: seq<string>)
    ensures |pieces| == |parts|
  {
    seq(|parts|, i requires 0 <= i < |parts| => Assignment(parts[i]))
  }

  function Assignment(part: (string, string)): string {
    part.0 + ['='] + part.1
  }

  function TextOf(parts: Parts): string {
    Join(Assignments(parts), ';')
  }

  lemma {:induction false} SetMembers(parts: Parts, key: string, value: string)
    requires Keyed(parts)
    ensures Keyed(Set(parts, key, value)) && |Set(parts, key, value)| >= 1
    ensures forall p :: p in Set(parts, key, value) ==> p in parts || p == (key, value)
    ensures forall p :: p in Set(parts, key, value) ==> p.0 == key || exists q :: q in parts && q.0 == p.0
  {
    if parts != [] && parts[0].0 != key {
      SetMembers(parts[1..], key, value);
      var s := Set(parts[1..], key, value);
      forall j | 0 <= j < |s| ensures s[j].0 != parts[0].0 {
        assert s[j] in s;
        if s[j].0 != key {
          var q :| q in parts[1..] && q.0 == s[j].0;
        }
      }
    }
  }

  lemma {:induction false} PopMembers(parts: Parts, key: string)
    requires Keyed(parts)
    ensures Keyed(Pop(parts, key))
    ensures forall p :: p in Pop(parts, key) ==> p in parts
  {
    if parts != [] {
      PopMembers(parts[1..], key);
      var s := Pop(parts[1..], key);
      assert forall j :: 0 <= j < |s| ==> s[j] in parts[1..];
    }
  }

  lemma {:induction false} PartitionKeeps(s: string, sep: char, other: char)
    requires other !in s
    ensures other !in Partition(s, sep).0 && other !in Partition(s, sep).2
  {
    if s != "" && s[0] != sep {
      PartitionKeeps(s[1..], sep, other);
    }
  }

  lemma {:induction false} PartsOfPiecesClean(pieces: seq<string>)
    requires forall p :: p in pieces ==> ';' !in p
    ensures CleanParts(PartsOfPieces(pieces))
    ensures pieces != [] ==> |PartsOfPieces(pieces)| >= 1
  {
    if pieces != [] {
      var front := pieces[..|pieces| - 1];
      PartsOfPiecesClean(front);
      var last := Partition(pieces[|pieces| - 1], '=');
      assert pieces[|pieces| - 1] in pieces;
      PartitionKeeps(pieces[|pieces| - 1], '=', ';');
      SetMembers(PartsOfPieces(front), last.0, last.2);
      forall p | p in PartsOfPieces(pieces) ensures Clean(p) {
        assert p in PartsOfPieces(front) || p == (last.0, last.2);
      }
    }
  }

  lemma PartsOfClean(text: string)
    ensures CleanParts(PartsOf(text)) && |PartsOf(text)| >= 1
  {
    SplitPieces(text, ';');
    PartsOfPiecesClean(Split(text, ';'));
  }

  lemma {:induction false} SetAppends(parts: Parts, key: string, value: string)
    requires forall p :: p in parts ==> p.0 != key
    ensures Set(parts, key, value) == parts + [(key, value)]
  {
    if parts != [] {
      assert forall p :: p in parts[1..] ==> p in parts;
      SetAppends(parts[1..], key, value);
      assert parts == [parts[0]] + parts[1..];
    }
  }

  lemma AssignmentReads(part: (string, string))
    requires Clean(part)
    ensures Partition(Assignment(part), '=') == (part.0, true, part.1)
  {
    PartitionPrefix(part.0, part.1, '=');
  }

  lemma {:induction false} PartsOfAssignments(parts: Parts)
    requires CleanParts(parts)
    ensures PartsOfPieces(Assignments(parts)) == parts
  {
    if parts != [] {
      var n := |parts| - 1;
      var front, last := parts[..n], parts[n];
      assert parts == front + [last] && Clean(last) && CleanParts(front);
      PartsOfAssignments(front);
      AssignmentReads(last);
      assert Assignments(parts) == Assignments(front) + [Assignment(last)];
      OnePieceMore(Assignments(front), last);
      SetAppends(front, last.0, last.1);
    }
  }

  lemma {:induction false} OnePieceMore(pieces: seq<string>, last: (string, string))
    requires Partition(Assignment(last), '=').0 == last.0 && Partition(Assignment(last), '=').2 == last.1
    ensures PartsOfPieces(pieces + [Assignment(last)]) == Set(PartsOfPieces(pieces), last.0, last.1)
  {
    assert (pieces + [Assignment(last)])[..|pieces|] == pieces;
  }

  /** Writing parts out and reading them back changes nothing. */
  lemma PartsRoundTrip(parts: Parts)
    requires CleanParts(parts) && |parts| >= 1
    ensures PartsOf(TextOf(parts)) == parts
  {
    forall p | p in Assignments(parts) ensures ';' !in p {
      var i :| 0 <= i < |parts| && p == Assignments(parts)[i];
      assert parts[i] in parts;
    }
    SplitOfJoin(Assignments(parts), ';');
    PartsOfAssignments(parts);
  }

  // ---------------------------------------------------------------- expansion

  /** Where the k-th occurrence falls, given the rule's other parts and the first occurrence's anchor. */
  type Pattern = (Parts, Instant, nat) -> Instant

  predicate Later(at: Pattern, r: Parts, s: Instant, j: nat, k: nat) {
    j < k ==> at(r, s, j) < at(r, s, k)
  }

  predicate Continues(at: Pattern, r: Parts, s: Instant, j: nat, k: nat) {
    at(r, at(r, s, j), k) == at(r, s, j + k)
  }

  /** Occurrences strictly increase, and restarting at the j-th one continues the same series. */
  ghost predicate Regular(at: Pattern) {
    && (forall r, s, j: nat, k: nat :: Later(at, r, s, j, k))
    && (forall r, s, j: nat, k: nat :: Continues(at, r, s, j, k))
  }

  function Shape(parts: Parts): Parts {
    Pop(Pop(parts, "COUNT"), "UNTIL")
  }

  function Until(text: string): Option<Instant> {
    if ParseStamp(text).Some? then ParseStamp(text) else ParseDay(text)
  }

  /** COUNT is a numeral and UNTIL a readable instant, where present. */
  predicate Readable(parts: Parts) {
    && (Get(parts, "COUNT").Some? ==> IsNumeral(Get(parts, "COUNT").value))
    && (Get(parts, "UNTIL").Some? ==> Until(Get(parts, "UNTIL").value).Some?)
  }

  function Limit(parts: Parts): Option<nat>
    requires Readable(parts)
  {
    match Get(parts, "COUNT")
    case None => None
    case Some(count) => Some(ParseDecimal(count))
  }

  function Deadline(parts: Parts): Option<Instant>
    requires Readable(parts)
  {
    match Get(parts, "UNTIL")
    case None => None
    case Some(until) => Until(until)
  }

  /** The k-th occurrence, falling at t, is within the rule's bounds. */
  predicate Within(parts: Parts, k: nat, t: Instant)
    requires Readable(parts)
  {
    && (Limit(parts).Some? ==> k < Limit(parts).value)
    && (Deadline(parts).Some? ==> t <= Deadline(parts).value)
  }

  ghost predicate OccursIn(at: Pattern, parts: Parts, start: Instant, t: Instant)
    requires Readable(parts)
  {
    exists k: nat :: t == at(Shape(parts), start, k) && Within(parts, k, t)
  }

  ghost predicate NoneBefore(at: Pattern, parts: Parts, start: Instant, split: Instant)
    requires Readable(parts)
  {
    forall t: Instant :: OccursIn(at, parts, start, t) ==> split <= t
  }

  /** The rule text, anchored at start, has an occurrence at t. */
  ghost predicate Occurs(at: Pattern, text: string, start: Instant, t: Instant)
    requires Readable(PartsOf(text))
  {
    OccursIn(at, PartsOf(text), start, t)
  }

  /** The k-th occurrence exists and precedes split. */
  predicate Precedes(at: Pattern, parts: Parts, start: Instant, split: Instant, k: nat)
    requires Readable(parts)
  {
    var t := at(Shape(parts), start, k);
    t < split && Within(parts, k, t)
  }

  /** The index of the first occurrence, from the k-th on, that does not precede split. */
  function Leading(at: Pattern, parts: Parts, start: Instant, split: Instant, k: nat): (n: nat)
    requires Regular(at) && Readable(parts)
    ensures n >= k && !Precedes(at, parts, start, split, n)
    ensures n > k ==> Precedes(at, parts, start, split, n - 1)
    decreases if split >= at(Shape(parts), start, k) then split - at(Shape(parts), start, k) else 0
  {
    if Precedes(at, parts, start, split, k) then
      assert Later(at, Shape(parts), start, k, k + 1);
      Leading(at, parts, start, split, k + 1)
    else k
  }

  /** sum(1 for occurrence in rule if occurrence < split). */
  function CountBefore(at: Pattern, parts: Parts, start: Instant, split: Instant): nat
    requires Regular(at) && Readable(parts)
  {
    Leading(at, parts, start, split, 0)
  }

  /** rule.before(split, inc=False). */
  function LastBefore(at: Pattern, parts: Parts, start: Instant, split: Instant): Option<Instant>
    requires Regular(at) && Readable(parts)
  {
    var n := CountBefore(at, parts, start, split);
    if n == 0 then None else Some(at(Shape(parts), start, n - 1))
  }

  // ---------------------------------------------------------------- the two halves of a split

  /** The head's parts: stop at the last occurrence before the split, whatever COUNT said. */
  function HeadParts(parts: Parts, last: Instant): Parts {
    Set(Pop(parts, "COUNT"), "UNTIL", Stamp(last))
  }

  predicate CountFits(parts: Parts, before: nat)
    requires Readable(parts)
  {
    Limit(parts).Some? ==> before <= Limit(parts).value
  }

  /** The tail's parts: COUNT renumbered, UNTIL left alone. */
  function TailParts(parts: Parts, before: nat): Parts
    requires Readable(parts)
    requires CountFits(parts, before)
  {
    match Limit(parts)
    case None => parts
    case Some(total) => Set(parts, "COUNT", Decimal(total - before))
  }

  method ReadParts(text: string) returns (parts: Parts)
    ensures parts == PartsOf(text)
  {
    parts := [];
    var pieces := Split(text, ';');
    for i := 0 to |pieces|
      invariant parts == PartsOfPieces(pieces[..i])
    {
      var p := Partition(pieces[i], '=');
      assert pieces[..i + 1][..i] == pieces[..i];
      parts := Set(parts, p.0, p.2);
    }
    assert pieces[..|pieces|] == pieces;
  }

  /** None exactly when nothing precedes the split; otherwise the text of the head. */
  method TruncateBefore(at: Pattern, text: string, start: Instant, split: Instant) returns (head: Option<string>)
    requires Regular(at) && Readable(PartsOf(text))
    ensures head.None? <==> NoneBefore(at, PartsOf(text), start, split)
    ensures head == match LastBefore(at, PartsOf(text), start, split)
                    case None => None
                    case Some(last) => Some(TextOf(HeadParts(PartsOf(text), last)))
  {
    var parts := ReadParts(text);
    NothingBefore(at, parts, start, split);
    var last := LastBefore(at, parts, start, split);
    if last.None? {
      return None;
    }
    parts := Pop(parts, "COUNT");
    parts := Set(parts, "UNTIL", Stamp(last.value));
    head := Some(TextOf(parts));
  }

  lemma CountBeforeFits(at: Pattern, parts: Parts, start: Instant, split: Instant)
    requires Regular(at) && Readable(parts)
    ensures CountFits(parts, CountBefore(at, parts, start, split))
  {}

  lemma TailPartsAre(parts: Parts, before: nat, limit: Option<nat>, count: string)
    requires Readable(parts) && CountFits(parts, before) && limit == Limit(parts) && count == "COUNT"
    ensures TailParts(parts, before) == if limit.Some? then Set(parts, count, Decimal(limit.value - before)) else parts
  {}

  method ContinueFrom(at: Pattern, text: string, start: Instant, split: Instant) returns (tail: string)
    requires Regular(at) && Readable(PartsOf(text))
    ensures CountFits(PartsOf(text), CountBefore(at, PartsOf(text), start, split))
    ensures tail == TextOf(TailParts(PartsOf(text), CountBefore(at, PartsOf(text), start, split)))
  {
    var parts := ReadParts(text);
    var before := CountBefore(at, parts, start, split);
    CountBeforeFits(at, parts, start, split);
    var limit := Limit(parts);
    TailPartsAre(parts, before, limit, "COUNT");
    if limit.Some? {
      parts := Set(parts, "COUNT", Decimal(limit.value - before));
    }
    tail := TextOf(parts);
  }

  // ---------------------------------------------------------------- what the split means

  /** Bounds only ever cut a suffix off: an earlier occurrence is within them too. */
  lemma WithinIsDownward(at: Pattern, parts: Parts, start: Instant, j: nat, k: nat)
    requires Regular(at) && Readable(parts) && j <= k
    requires Within(parts, k, at(Shape(parts), start, k))
    ensures Within(parts, j, at(Shape(parts), start, j))
  {
    assert Later(at, Shape(parts), start, j, k);
  }

  /** What precedes the split is exactly the first CountBefore occurrences. */
  lemma PrecedesIffLeading(at: Pattern, parts: Parts, start: Instant, split: Instant, k: nat)
    requires Regular(at) && Readable(parts)
    ensures Precedes(at, parts, start, split, k) <==> k < CountBefore(at, parts, start, split)
  {
    var n := CountBefore(at, parts, start, split);
    if k < n {
      assert Later(at, Shape(parts), start, k, n - 1);
      WithinIsDownward(at, parts, start, k, n - 1);
    } else if Precedes(at, parts, start, split, k) {
      assert Later(at, Shape(parts), start, n, k);
      WithinIsDownward(at, parts, start, n, k);
      assert false;
    }
  }

  lemma NothingBefore(at: Pattern, parts: Parts, start: Instant, split: Instant)
    requires Regular(at) && Readable(parts)
    ensures LastBefore(at, parts, start, split).None? <==> NoneBefore(at, parts, start, split)
  {
    var n := CountBefore(at, parts, start, split);
    if n == 0 {
      forall t | OccursIn(at, parts, start, t) ensures split <= t {
        var k: nat :| t == at(Shape(parts), start, k) && Within(parts, k, t);
        PrecedesIffLeading(at, parts, start, split, k);
      }
    } else {
      assert Precedes(at, parts, start, split, n - 1);
      assert OccursIn(at, parts, start, at(Shape(parts), start, n - 1));
    }
  }

  lemma HeadShape(parts: Parts, last: Instant)
    requires CleanParts(parts) && |parts| >= 1 && Readable(parts) && Printable(last)
    ensures var h := HeadParts(parts, last);
      && PartsOf(TextOf(h)) == h && Readable(h) && Shape(h) == Shape(parts)
      && Limit(h) == None && Deadline(h) == Some(last)
  {
    var popped := Pop(parts, "COUNT");
    var h := HeadParts(parts, last);
    PopMembers(parts, "COUNT");
    SetMembers(popped, "UNTIL", Stamp(last));
    StampAlphabet(last);
    StampRoundTrip(last);
    forall p | p in h ensures Clean(p) {
      assert p in popped || p == ("UNTIL", Stamp(last));
    }
    PartsRoundTrip(h);
    GetSet(popped, "UNTIL", Stamp(last), "UNTIL");
    GetSet(popped, "UNTIL", Stamp(last), "COUNT");
    GetPop(parts, "COUNT", "COUNT");
    PopPop(h, "COUNT", "UNTIL");
    PopThenSet(popped, "UNTIL", Stamp(last));
    PopPop(popped, "UNTIL", "COUNT");
    PopTwice(parts, "COUNT");
  }

  lemma TailShape(parts: Parts, before: nat)
    requires CleanParts(parts) && |parts| >= 1 && Readable(parts)
    requires CountFits(parts, before)
    ensures var h := TailParts(parts, before);
      && PartsOf(TextOf(h)) == h && Readable(h) && Shape(h) == Shape(parts)
      && Deadline(h) == Deadline(parts)
      && Limit(h) == match Limit(parts) case None => None case Some(total) => Some(total - before)
  {
    var h := TailParts(parts, before);
    if Limit(parts).Some? {
      var n := Limit(parts).value - before;
      SetMembers(parts, "COUNT", Decimal(n));
      forall p | p in h ensures Clean(p) {
        assert p in parts || p == ("COUNT", Decimal(n));
      }
      GetSet(parts, "COUNT", Decimal(n), "COUNT");
      GetSet(parts, "COUNT", Decimal(n), "UNTIL");
      DecimalRoundTrip(n);
      PopThenSet(parts, "COUNT", Decimal(n));
    }
    PartsRoundTrip(h);
  }

  /** Within the head's bounds are exactly the occurrences that precede the split. */
  lemma HeadWithin(at: Pattern, parts: Parts, head: Parts, start: Instant, split: Instant, k: nat)
    requires Regular(at) && Readable(parts) && Readable(head)
    requires LastBefore(at, parts, start, split).Some?
    requires Limit(head) == None && Deadline(head) == LastBefore(at, parts, start, split)
    ensures Within(head, k, at(Shape(parts), start, k)) <==> Precedes(at, parts, start, split, k)
  {
    var n := CountBefore(at, parts, start, split);
    assert Later(at, Shape(parts), start, n - 1, k) && Later(at, Shape(parts), start, k, n - 1);
    PrecedesIffLeading(at, parts, start, split, k);
  }

  /** A rule of the same shape bounded by the last occurrence before the split is the head. */
  lemma HeadOccurrences(at: Pattern, parts: Parts, head: Parts, start: Instant, split: Instant, t: Instant)
    requires Regular(at) && Readable(parts) && Readable(head) && Shape(head) == Shape(parts)
    requires LastBefore(at, parts, start, split).Some?
    requires Limit(head) == None && Deadline(head) == LastBefore(at, parts, start, split)
    ensures OccursIn(at, head, start, t) <==> OccursIn(at, parts, start, t) && t < split
  {
    forall k: nat ensures Within(head, k, at(Shape(parts), start, k)) <==> Precedes(at, parts, start, split, k) {
      HeadWithin(at, parts, head, start, split, k);
    }
  }

  /** The split, being an occurrence, is the one the count stops at. */
  lemma SplitIndex(at: Pattern, parts: Parts, start: Instant, split: Instant)
    requires Regular(at) && Readable(parts) && OccursIn(at, parts, start, split)
    ensures var n := CountBefore(at, parts, start, split);
      split == at(Shape(parts), start, n) && Within(parts, n, split)
  {
    var j: nat :| split == at(Shape(parts), start, j) && Within(parts, j, split);
    var n := CountBefore(at, parts, start, split);
    PrecedesIffLeading(at, parts, start, split, j);
    WithinIsDownward(at, parts, start, n, j);
    assert Later(at, Shape(parts), start, n, j);
    PrecedesIffLeading(at, parts, start, split, n);
  }

  /** The tail's i-th occurrence is the series' (j + i)-th, and within the one's bounds when within the other's. */
  lemma TailWithin(at: Pattern, parts: Parts, tail: Parts, start: Instant, j: nat, i: nat)
    requires Regular(at) && Readable(parts) && Readable(tail) && CountFits(parts, j)
    requires Deadline(tail) == Deadline(parts)
    requires Limit(tail) == match Limit(parts) case None => None case Some(total) => Some(total - j)
    ensures var r := Shape(parts); var t := at(r, at(r, start, j), i);
      t == at(r, start, j + i) && at(r, start, j) <= t && (Within(tail, i, t) <==> Within(parts, j + i, t))
  {
    assert Continues(at, Shape(parts), start, j, i);
    assert Later(at, Shape(parts), start, j, j + i);
  }

  /** A rule of the same shape, anchored at the j-th occurrence and j shorter, is the tail. */
  lemma TailOccurrences(at: Pattern, parts: Parts, tail: Parts, start: Instant, j: nat, t: Instant)
    requires Regular(at) && Readable(parts) && Readable(tail) && Shape(tail) == Shape(parts)
    requires Within(parts, j, at(Shape(parts), start, j)) && CountFits(parts, j)
    requires Deadline(tail) == Deadline(parts)
    requires Limit(tail) == match Limit(parts) case None => None case Some(total) => Some(total - j)
    ensures OccursIn(at, tail, at(Shape(parts), start, j), t)
            <==> OccursIn(at, parts, start, t) && at(Shape(parts), start, j) <= t
  {
    var r := Shape(parts);
    if OccursIn(at, tail, at(r, start, j), t) {
      var i: nat :| t == at(r, at(r, start, j), i) && Within(tail, i, t);
      TailWithin(at, parts, tail, start, j, i);
    }
    if OccursIn(at, parts, start, t) && at(r, start, j) <= t {
      var k: nat :| t == at(r, start, k) && Within(parts, k, t);
      assert Later(at, r, start, k, j);
      TailWithin(at, parts, tail, start, j, k - j);
    }
  }

  /**
   * Splitting at a non-first occurrence partitions the series: the head has exactly the occurrences
   * before the split, and the tail, anchored at the split, exactly those from it on. COUNT-bound,
   * UNTIL-bound and unbounded rules alike.
   */
  lemma SplitPartitions(at: Pattern, text: string, start: Instant, split: Instant)
    requires Regular(at) && Readable(PartsOf(text)) && Occurs(at, text, start, split)
    requires var last := LastBefore(at, PartsOf(text), start, split); last.Some? && Printable(last.value)
    ensures CountFits(PartsOf(text), CountBefore(at, PartsOf(text), start, split))
    ensures
      var head := TextOf(HeadParts(PartsOf(text), LastBefore(at, PartsOf(text), start, split).value));
      var tail := TextOf(TailParts(PartsOf(text), CountBefore(at, PartsOf(text), start, split)));
      && Readable(PartsOf(head)) && Readable(PartsOf(tail))
      && (forall t: Instant :: Occurs(at, head, start, t) <==> Occurs(at, text, start, t) && t < split)
      && (forall t: Instant :: Occurs(at, tail, split, t) <==> Occurs(at, text, start, t) && split <= t)
  {
    var parts := PartsOf(text);
    var n := CountBefore(at, parts, start, split);
    PartsOfClean(text);
    CountBeforeFits(at, parts, start, split);
    SplitIndex(at, parts, start, split);
    HeadShape(parts, LastBefore(at, parts, start, split).value);
    TailShape(parts, n);
    var head, tail := HeadParts(parts, LastBefore(at, parts, start, split).value), TailParts(parts, n);
    forall t: Instant
      ensures OccursIn(at, head, start, t) <==> OccursIn(at, parts, start, t) && t < split
      ensures OccursIn(at, tail, split, t) <==> OccursIn(at, parts, start, t) && split <= t
    {
      HeadOccurrences(at, parts, head, start, split, t);
      TailOccurrences(at, parts, tail, start, n, t);
    }
  }

  // ---------------------------------------------------------------- fixed-period rules

  /** The seconds between occurrences of a FREQ with a fixed period; None for MONTHLY and YEARLY. */
  function Period(parts: Parts): Option<nat> {
    match Get(parts, "FREQ")
    case Some("SECONDLY") => Some(1)
    case Some("MINUTELY") => Some(60)
    case Some("HOURLY") => Some(3600)
    case Some("DAILY") => Some(DAY)
    case Some("WEEKLY") => Some(7 * DAY)
    case _ => None
  }

  function Interval(parts: Parts): nat {
    match Get(parts, "INTERVAL")
    case Some(n) => if IsNumeral(n) && ParseDecimal(n) >= 1 then ParseDecimal(n) else 1
    case None => 1
  }

  /** Seconds between occurrences; a FREQ without a fixed period is given the same form with step 1. */
  function Step(parts: Parts): nat {
    (if Period(parts).Some? then Period(parts).value else 1) * Interval(parts)
  }

  /** FREQ and INTERVAL make an arithmetic progression. */
  function Progression(parts: Parts, start: Instant, k: nat): Instant {
    start + k * Step(parts)
  }

  lemma ProgressionIsRegular()
    ensures Regular(Progression)
    ensures forall r :: Step(r) >= 1
  {
    forall r: Parts ensures Step(r) >= 1 {
      Product(if Period(r).Some? then Period(r).value else 1, Interval(r));
    }
    forall r: Parts, s: Instant, j: nat, k: nat
      ensures Later(Progression, r, s, j, k) && Continues(Progression, r, s, j, k)
    {
      ProgressionSteps(s, j, k, if Period(r).Some? then Period(r).value else 1, Interval(r));
    }
  }

  lemma ProgressionSteps(s: nat, j: nat, k: nat, a: nat, b: nat)
    requires a >= 1 && b >= 1
    ensures s + j * (a * b) + k * (a * b) == s + (j + k) * (a * b)
    ensures j < k ==> s + j * (a * b) < s + k * (a * b)
  {
    var step := a * b;
    assert step >= 1 by { Product(a, b); }
    assert (j + k) * step == j * step + k * step;
    if j < k {
      assert k * step == j * step + (k - j) * step;
      Product(k - j, step);
    }
  }

  lemma Product(a: nat, b: nat)
    requires a >= 1 && b >= 1
    ensures a * b >= 1
  {}

  // ---------------------------------------------------------------- what the bounds and the periods mean

  /** COUNT is the number of occurrences from the start, UNTIL the last instant one may fall on. */
  lemma BoundsMean(at: Pattern, parts: Parts, start: Instant, k: nat)
    requires Regular(at) && Readable(parts)
    ensures OccursIn(at, parts, start, at(Shape(parts), start, k)) <==>
      && (Limit(parts).Some? ==> k < Limit(parts).value)
      && (Deadline(parts).Some? ==> at(Shape(parts), start, k) <= Deadline(parts).value)
  {
    var t := at(Shape(parts), start, k);
    if j: nat :| t == at(Shape(parts), start, j) && Within(parts, j, t) {
      assert Later(at, Shape(parts), start, j, k) && Later(at, Shape(parts), start, k, j);
    }
    if Within(parts, k, t) {
      assert t == at(Shape(parts), start, k);
    }
  }

  /** UNTIL may be a date alone, which stands for its midnight. */
  lemma UntilReadsBoth(t: Instant)
    requires Printable(t)
    ensures Until(Stamp(t)) == Some(t) && Until(Stamp(t)[..8]) == Some(t / DAY * DAY)
  {
    StampRoundTrip(t);
    StampSpells(t);
    DayReadsAsMidnight(t);
    assert |Stamp(t)[..8]| == 8;
  }

  /** The seconds of each frequency that has a fixed period, and of none other. */
  lemma PeriodsMean(parts: Parts, freq: string)
    requires Get(parts, "FREQ") == Some(freq)
    ensures Period(parts) ==
      if freq == "SECONDLY" then Some(1) else if freq == "MINUTELY" then Some(60)
      else if freq == "HOURLY" then Some(3600) else if freq == "DAILY" then Some(86400)
      else if freq == "WEEKLY" then Some(604800) else None
  {}

  /** The k-th occurrence of such a rule comes k intervals of its period after the start. */
  lemma ProgressionMeans(parts: Parts, start: Instant, k: nat, period: nat, interval: nat)
    requires Period(parts) == Some(period) && interval >= 1
    requires Get(parts, "INTERVAL") == Some(Decimal(interval)) || (Get(parts, "INTERVAL") == None && interval == 1)
    ensures Progression(parts, start, k) == start + k * (period * interval)
  {
    DecimalRoundTrip(interval);
  }
}
