/** Newline-delimited records re-assembled from an arbitrarily chunked byte stream. */
module NdJson {
  import opened Basics

  newtype byte = x: int | 0 <= x < 256

  type Bytes = seq<byte>

  const NEWLINE: byte := 10

  /** What bytes.strip() strips. */
  predicate IsSpace(b: byte) {
    b == 32 || 9 <= b <= 13
  }

  function LStrip(s: Bytes): Bytes {
    if s != [] && IsSpace(s[0]) then LStrip(s[1..]) else s
  }

  function RStrip(s: Bytes): Bytes {
    if s != [] && IsSpace(s[|s| - 1]) then RStrip(s[..|s| - 1]) else s
  }

  function Strip(s: Bytes): Bytes {
    RStrip(LStrip(s))
  }

  /** The line a segment yields, unless it is blank. */
  function Kept(segment: Bytes): seq<Bytes> {
    if Strip(segment) == [] then [] else [Strip(segment)]
  }

  /** The index of the first newline from i on, or the length. */
  function NewlineFrom(s: Bytes, i: nat): (at: nat)
    requires i <= |s|
    ensures i <= at <= |s| && (forall j :: i <= j < at ==> s[j] != NEWLINE) && (at < |s| ==> s[at] == NEWLINE)
    decreases |s| - i
  {
    if i == |s| || s[i] == NEWLINE then i else NewlineFrom(s, i + 1)
  }

  function FirstNewline(s: Bytes): (at: nat)
    ensures at <= |s| && (forall j :: 0 <= j < at ==> s[j] != NEWLINE) && (at < |s| ==> s[at] == NEWLINE)
  {
    NewlineFrom(s, 0)
  }

  /** The lines of the newline-terminated segments. */
  function Complete(s: Bytes): seq<Bytes> {
    var i := FirstNewline(s);
    if i == |s| then [] else Kept(s[..i]) + Complete(s[i + 1..])
  }

  /** What follows the last newline. */
  function Rest(s: Bytes): Bytes {
    var i := FirstNewline(s);
    if i == |s| then s else Rest(s[i + 1..])
  }

  /** The stripped, non-blank, newline-separated lines of a byte string. */
  function Lines(s: Bytes): seq<Bytes> {
    Complete(s) + Kept(Rest(s))
  }

  function Concat(chunks: seq<Bytes>): Bytes {
    if chunks == [] then [] else Concat(chunks[..|chunks| - 1]) + chunks[|chunks| - 1]
  }

  // ---------------------------------------------------------------- splitting is insensitive to cuts

  lemma FirstNewlineUnique(s: Bytes, i: nat)
    requires i < |s| && s[i] == NEWLINE && forall j :: 0 <= j < i ==> s[j] != NEWLINE
    ensures FirstNewline(s) == i
  {}

  lemma {:induction false} RestOfConcat(a: Bytes, b: Bytes)
    ensures Rest(a + b) == Rest(Rest(a) + b)
    decreases |a|
  {
    var i := FirstNewline(a);
    if i < |a| {
      FirstLineOfConcat(a, b, i);
      RestOfConcat(a[i + 1..], b);
    }
  }

  lemma {:induction false} CompleteOfConcat(a: Bytes, b: Bytes)
    ensures Complete(a + b) == Complete(a) + Complete(Rest(a) + b)
    decreases |a|
  {
    var i := FirstNewline(a);
    if i < |a| {
      FirstLineOfConcat(a, b, i);
      CompleteOfConcat(a[i + 1..], b);
    }
  }

  /** Reading a then b is reading a, then what a left over followed by b. */
  lemma CutAnywhere(a: Bytes, b: Bytes)
    ensures Complete(a + b) == Complete(a) + Complete(Rest(a) + b)
    ensures Rest(a + b) == Rest(Rest(a) + b)
  {
    CompleteOfConcat(a, b);
    RestOfConcat(a, b);
  }

  lemma FirstLineOfConcat(a: Bytes, b: Bytes, i: nat)
    requires i == FirstNewline(a) < |a|
    ensures Complete(a) == Kept(a[..i]) + Complete(a[i + 1..]) && Rest(a) == Rest(a[i + 1..])
    ensures Complete(a + b) == Kept(a[..i]) + Complete(a[i + 1..] + b) && Rest(a + b) == Rest(a[i + 1..] + b)
  {
    assert (a + b)[..i] == a[..i] && (a + b)[i + 1..] == a[i + 1..] + b;
    FirstLineOf(a + b, i, a[..i], a[i + 1..] + b);
    FirstLineOf(a, i, a[..i], a[i + 1..]);
  }

  lemma FirstLineOf(s: Bytes, i: nat, line: Bytes, others: Bytes)
    requires i < |s| && s[i] == NEWLINE && s[..i] == line && s[i + 1..] == others
    requires forall j :: 0 <= j < |line| ==> line[j] != NEWLINE
    ensures Complete(s) == Kept(line) + Complete(others) && Rest(s) == Rest(others)
  {
    forall j | 0 <= j < i ensures s[j] != NEWLINE { assert s[..i][j] == line[j]; }
    FirstNewlineUnique(s, i);
  }

  lemma {:induction false} RestHasNoNewline(s: Bytes)
    ensures NEWLINE !in Rest(s) && |Rest(s)| <= |s|
    decreases |s|
  {
    var i := FirstNewline(s);
    if i < |s| { RestHasNoNewline(s[i + 1..]); }
  }

  lemma NoNewline(s: Bytes)
    requires NEWLINE !in s
    ensures Complete(s) == [] && Rest(s) == s
  {}

  // ---------------------------------------------------------------- the reader

  /** After the i-th chunk, what is left without a newline fits the cap. */
  predicate FitsAfter(chunks: seq<Bytes>, i: nat, cap: nat)
    requires i <= |chunks|
  {
    |Rest(Concat(chunks[..i]))| <= cap
  }

  ghost predicate WithinCap(chunks: seq<Bytes>, cap: nat) {
    forall i: nat :: 0 < i <= |chunks| ==> FitsAfter(chunks, i, cap)
  }

  lemma WithinCapStep(chunks: seq<Bytes>, i: nat, cap: nat)
    requires i < |chunks| && WithinCap(chunks[..i], cap)
    ensures WithinCap(chunks[..i + 1], cap) <==> FitsAfter(chunks, i + 1, cap)
  {
    var more := chunks[..i + 1];
    forall j: nat | 0 < j <= i + 1 ensures FitsAfter(more, j, cap) <==> FitsAfter(chunks, j, cap) {
      assert more[..j] == chunks[..j];
    }
    forall j: nat | 0 < j <= i ensures FitsAfter(chunks, j, cap) {
      assert FitsAfter(chunks[..i], j, cap);
      assert chunks[..i][..j] == chunks[..j];
    }
    if WithinCap(more, cap) { assert FitsAfter(more, i + 1, cap); }
  }

  /** UTF-8 decoding of one line; None where it is refused. */
  type Decoder = Bytes -> Option<string>

  predicate Decodes(lines: seq<Bytes>, decode: Decoder) {
    forall line :: line in lines ==> decode(line).Some?
  }

  /** The texts of the lines before the first that does not decode. */
  function Texts(lines: seq<Bytes>, decode: Decoder): seq<string> {
    if lines == [] || decode(lines[0]).None? then [] else [decode(lines[0]).value] + Texts(lines[1..], decode)
  }

  lemma {:induction false} TextsOfConcat(a: seq<Bytes>, b: seq<Bytes>, decode: Decoder)
    ensures Texts(a + b, decode) == if Decodes(a, decode) then Texts(a, decode) + Texts(b, decode) else Texts(a, decode)
  {
    if a == [] {
      assert a + b == b;
    } else {
      assert a == [a[0]] + a[1..] && (a + b)[1..] == a[1..] + b;
      TextsOfConcat(a[1..], b, decode);
    }
  }

  lemma TextsOfOne(line: Bytes, decode: Decoder)
    ensures Texts([line], decode) == if decode(line).None? then [] else [decode(line).value]
  {
    assert [line][1..] == [];
  }

  /** The next line, decoded or not. */
  lemma TakeOne(all: seq<Bytes>, taken: seq<Bytes>, line: Bytes, rest: seq<Bytes>, decode: Decoder)
    requires all == taken + ([line] + rest) && Decodes(taken, decode)
    ensures match decode(line)
            case Some(text) => Decodes(taken + [line], decode)
              && Texts(taken + [line], decode) == Texts(taken, decode) + [text]
            case None => !Decodes(all, decode) && Texts(all, decode) == Texts(taken, decode)
  {
    TextsOfConcat(taken, [line], decode);
    TextsOfOne(line, decode);
    if decode(line).None? {
      assert line in all;
      TextsOfConcat(taken, [line] + rest, decode);
      TextsOfConcat([line], rest, decode);
      assert line in [line] && taken + [] == taken;
    }
  }

  /** The inner loop: every whole line out of the buffer, the remainder kept, up to a line that does not decode. */
  method TakeLines(start: Bytes, decode: Decoder) returns (texts: seq<string>, buffer: Bytes, ok: bool)
    ensures ok <==> Decodes(Complete(start), decode)
    ensures texts == Texts(Complete(start), decode) && (ok ==> buffer == Rest(start))
  {
    buffer, texts := start, [];
    ghost var taken: seq<Bytes> := [];
    while NEWLINE in buffer
      invariant Complete(start) == taken + Complete(buffer)
      invariant Rest(start) == Rest(buffer)
      invariant Decodes(taken, decode) && texts == Texts(taken, decode)
      decreases |buffer|
    {
      var at := FirstNewline(buffer);
      var line := Strip(buffer[..at]);
      FirstLine(taken, buffer);
      if line != [] {
        var text := decode(line);
        TakeOne(Complete(start), taken, line, Complete(buffer[at + 1..]), decode);
        if text.None? {
          return texts, buffer, false;
        }
        texts := texts + [text.value];
        taken := taken + [line];
      }
      buffer := buffer[at + 1..];
    }
    NoNewline(buffer);
    assert taken + [] == taken;
    ok := true;
  }

  lemma FirstLine(lines: seq<Bytes>, buffer: Bytes)
    requires NEWLINE in buffer
    ensures var at := FirstNewline(buffer); var line := Strip(buffer[..at]);
      && at < |buffer| && Rest(buffer) == Rest(buffer[at + 1..])
      && Complete(buffer) == (if line == [] then [] else [line]) + Complete(buffer[at + 1..])
      && lines + Complete(buffer) == (if line == [] then lines else lines + [line]) + Complete(buffer[at + 1..])
  {
    var at := FirstNewline(buffer);
    Regroup(lines, Kept(buffer[..at]), Complete(buffer[at + 1..]));
  }

  /** How reading a stream ends: at its end, at a remainder over the cap, or at a line that does not decode. */
  datatype Ending = Finished | TooLong | Undecodable

  /** Reading gets past the first k chunks. */
  ghost predicate Passes(chunks: seq<Bytes>, k: nat, cap: nat, decode: Decoder)
    requires k <= |chunks|
  {
    WithinCap(chunks[..k], cap) && Decodes(Complete(Concat(chunks[..k])), decode)
  }

  /** How many chunks were read in full, and what stopped the reader after them. */
  ghost predicate Stops(chunks: seq<Bytes>, k: nat, cap: nat, decode: Decoder, end: Ending)
    requires k <= |chunks| && (k == |chunks| ==> !end.TooLong?)
  {
    && Passes(chunks, k, cap, decode)
    && match end
       case Finished => k == |chunks| && Decodes(Lines(Concat(chunks)), decode)
       case TooLong => Decodes(Complete(Concat(chunks[..k + 1])), decode) && !FitsAfter(chunks, k + 1, cap)
       case Undecodable =>
         !Decodes(if k < |chunks| then Complete(Concat(chunks[..k + 1])) else Lines(Concat(chunks)), decode)
  }

  /** The texts yielded, how many chunks were read in full, and how reading ended. */
  method IterLines(chunks: seq<Bytes>, cap: nat, decode: Decoder)
    returns (texts: seq<string>, ghost k: nat, end: Ending)
    ensures end.Finished? <==> WithinCap(chunks, cap) && Decodes(Lines(Concat(chunks)), decode)
    ensures !end.TooLong? ==> texts == Texts(Lines(Concat(chunks)), decode)
    ensures k <= |chunks| && (end.TooLong? ==>
                              k < |chunks| && texts == Texts(Complete(Concat(chunks[..k + 1])), decode))
    ensures Stops(chunks, k, cap, decode, end)
  {
    var buffer: Bytes := [];
    texts, k := [], 0;
    for i := 0 to |chunks|
      invariant k == i && Passes(chunks, i, cap, decode)
      invariant buffer == Rest(Concat(chunks[..i])) && texts == Texts(Complete(Concat(chunks[..i])), decode)
    {
      ghost var before, now := Concat(chunks[..i]), Concat(chunks[..i + 1]);
      assert chunks[..i + 1][..i] == chunks[..i];
      CutAnywhere(before, chunks[i]);
      WithinCapStep(chunks, i, cap);
      TextsOfConcat(Complete(before), Complete(buffer + chunks[i]), decode);
      var more, ok;
      more, buffer, ok := TakeLines(buffer + chunks[i], decode);
      texts := texts + more;
      if !ok {
        StuckAt(chunks, i + 1, decode);
        return texts, k, Undecodable;
      }
      if |buffer| > cap {
        assert !WithinCap(chunks, cap);
        return texts, k, TooLong;
      }
      k := i + 1;
    }
    assert chunks[..|chunks|] == chunks;
    TextsOfConcat(Complete(Concat(chunks)), Kept(buffer), decode);
    var tail := Strip(buffer);
    TextsOfOne(tail, decode);
    end := Finished;
    if tail != [] {
      assert tail in Lines(Concat(chunks));
      match decode(tail) {
        case Some(text) => texts := texts + [text];
        case None => end := Undecodable;
      }
    }
  }

  /** A line that does not decode stops the reader there, whatever follows. */
  lemma StuckAt(chunks: seq<Bytes>, i: nat, decode: Decoder)
    requires i <= |chunks| && !Decodes(Complete(Concat(chunks[..i])), decode)
    ensures !Decodes(Lines(Concat(chunks)), decode)
    ensures Texts(Lines(Concat(chunks)), decode) == Texts(Complete(Concat(chunks[..i])), decode)
  {
    ConcatPrefix(chunks, i);
    StuckAfter(Concat(chunks[..i]), Concat(chunks), decode);
  }

  lemma StuckAfter(a: Bytes, s: Bytes, decode: Decoder)
    requires a <= s && !Decodes(Complete(a), decode)
    ensures !Decodes(Lines(s), decode) && Texts(Lines(s), decode) == Texts(Complete(a), decode)
  {
    var rest := LinesGoOn(a, s);
    StuckIn(Complete(a), rest, decode);
  }

  lemma StuckIn(a: seq<Bytes>, b: seq<Bytes>, decode: Decoder)
    requires !Decodes(a, decode)
    ensures !Decodes(a + b, decode) && Texts(a + b, decode) == Texts(a, decode)
  {
    TextsOfConcat(a, b, decode);
    var line :| line in a && decode(line).None?;
    assert line in a + b;
  }

  lemma LinesGoOn(a: Bytes, s: Bytes) returns (rest: seq<Bytes>)
    requires a <= s
    ensures Lines(s) == Complete(a) + rest
  {
    var b := s[|a|..];
    assert s == a + b;
    CutAnywhere(a, b);
    var more, last := Complete(Rest(a) + b), Kept(Rest(s));
    Regroup(Complete(a), more, last);
    rest := more + last;
  }

  // ---------------------------------------------------------------- when no chunking can fail

  /** No line, terminated or not, is longer than the cap. */
  ghost predicate ShortLines(s: Bytes, cap: nat)
    decreases |s|
  {
    var i := FirstNewline(s);
    i <= cap && (i < |s| ==> ShortLines(s[i + 1..], cap))
  }

  lemma {:induction false} ShortRests(s: Bytes, k: nat, cap: nat)
    requires ShortLines(s, cap) && k <= |s|
    ensures |Rest(s[..k])| <= cap
    decreases |s|
  {
    var i := FirstNewline(s);
    if k <= i {
      NoNewline(s[..k]);
    } else {
      var t := s[..k];
      assert t[..i] == s[..i] && t[i + 1..] == s[i + 1..][..k - i - 1];
      FirstNewlineUnique(t, i);
      ShortRests(s[i + 1..], k - i - 1, cap);
    }
  }

  lemma RestPastNewline(s: Bytes, j: nat)
    requires FirstNewline(s) < |s| && j <= |s| - FirstNewline(s) - 1
    ensures var i := FirstNewline(s); Rest(s[..i + 1 + j]) == Rest(s[i + 1..][..j])
  {
    var i := FirstNewline(s);
    var t := s[..i + 1 + j];
    assert t[..i] == s[..i] && t[i + 1..] == s[i + 1..][..j];
    FirstNewlineUnique(t, i);
  }

  lemma {:induction false} LongRest(s: Bytes, cap: nat) returns (k: nat)
    requires !ShortLines(s, cap)
    ensures k <= |s| && |Rest(s[..k])| > cap
    decreases |s|
  {
    var i := FirstNewline(s);
    if i > cap {
      k := i;
      NoNewline(s[..i]);
    } else {
      var j := LongRest(s[i + 1..], cap);
      k := i + 1 + j;
      RestPastNewline(s, j);
    }
  }

  lemma {:induction false} ConcatPrefix(chunks: seq<Bytes>, i: nat)
    requires i <= |chunks|
    ensures Concat(chunks[..i]) <= Concat(chunks)
    decreases |chunks| - i
  {
    if i == |chunks| {
      assert chunks[..i] == chunks;
    } else {
      assert chunks[..i + 1][..i] == chunks[..i];
      ConcatPrefix(chunks, i + 1);
    }
  }

  /** A stream whose lines fit the cap reads the same however it is cut into chunks. */
  lemma ShortLinesReadAlways(chunks: seq<Bytes>, cap: nat)
    requires ShortLines(Concat(chunks), cap)
    ensures WithinCap(chunks, cap)
  {
    var s := Concat(chunks);
    forall i: nat | 0 < i <= |chunks| ensures FitsAfter(chunks, i, cap) {
      ConcatPrefix(chunks, i);
      var k := |Concat(chunks[..i])|;
      assert Concat(chunks[..i]) == s[..k];
      ShortRests(s, k, cap);
    }
  }

  /** And only such a stream does: a longer line has a chunking that is refused. */
  lemma LongLineCanFail(s: Bytes, cap: nat) returns (chunks: seq<Bytes>)
    requires !ShortLines(s, cap)
    ensures Concat(chunks) == s && !WithinCap(chunks, cap)
  {
    var k := LongRest(s, cap);
    chunks := [s[..k], s[k..]];
    assert chunks[..1] == [s[..k]] && [s[..k]][..0] == [];
    assert Concat(chunks[..1]) == s[..k];
    assert !FitsAfter(chunks, 1, cap);
    assert s[..k] + s[k..] == s;
  }

  // ---------------------------------------------------------------- records

  /** A record's text: no newline, and nothing to strip at either end, as compact JSON has. */
  predicate CleanLine(line: Bytes) {
    line != [] && NEWLINE !in line && !IsSpace(line[0]) && !IsSpace(line[|line| - 1])
  }

  /** The stream _ndjson_line writes. */
  function Written(records: seq<Bytes>): Bytes {
    if records == [] then [] else records[0] + [NEWLINE] + Written(records[1..])
  }

  /** The stream starts with the first record and a newline, and goes on with the others. */
  lemma WrittenHead(records: seq<Bytes>)
    requires records != [] && CleanLine(records[0])
    ensures var r, s := records[0], Written(records);
      FirstNewline(s) == |r| < |s| && s[..|r|] == r && s[|r| + 1..] == Written(records[1..])
  {
    var r, s := records[0], Written(records);
    assert s[..|r|] == r && s[|r|] == NEWLINE && s[|r| + 1..] == Written(records[1..]);
    FirstNewlineUnique(s, |r|);
  }

  lemma CleanIsKept(r: Bytes)
    requires CleanLine(r)
    ensures Kept(r) == [r]
  {
    assert LStrip(r) == r && RStrip(r) == r;
  }

  lemma LinesAfterFirst(s: Bytes)
    requires FirstNewline(s) < |s|
    ensures var i := FirstNewline(s); Lines(s) == Kept(s[..i]) + Lines(s[i + 1..])
  {}

  lemma {:induction false} WrittenReadsBack(records: seq<Bytes>)
    requires forall r :: r in records ==> CleanLine(r)
    ensures Lines(Written(records)) == records
  {
    if records != [] {
      var r, s := records[0], Written(records);
      assert r in records && forall x :: x in records[1..] ==> x in records;
      WrittenHead(records);
      WrittenReadsBack(records[1..]);
      LinesAfterFirst(s);
      CleanIsKept(r);
    }
  }

  lemma {:induction false} WrittenIsShort(records: seq<Bytes>, cap: nat)
    requires forall r :: r in records ==> CleanLine(r) && |r| <= cap
    ensures ShortLines(Written(records), cap)
  {
    if records != [] {
      assert records[0] in records && forall x :: x in records[1..] ==> x in records;
      WrittenHead(records);
      WrittenIsShort(records[1..], cap);
    }
  }

  lemma {:induction false} TextsBack(texts: seq<string>, encode: string -> Bytes, decode: Decoder)
    requires forall t :: t in texts ==> decode(encode(t)) == Some(t)
    ensures Decodes(Encoded(texts, encode), decode) && Texts(Encoded(texts, encode), decode) == texts
  {
    if texts != [] {
      assert texts[0] in texts && forall t :: t in texts[1..] ==> t in texts;
      TextsBack(texts[1..], encode, decode);
    }
  }

  function Encoded(texts: seq<string>, encode: string -> Bytes): (records: seq<Bytes>)
    ensures |records| == |texts| && forall i :: 0 <= i < |texts| ==> records[i] == encode(texts[i])
  {
    if texts == [] then [] else [encode(texts[0])] + Encoded(texts[1..], encode)
  }

  /**
   * Records written as lines come back in order under every chunking, when each fits the cap and decodes to its
   * text.
   */
  lemma RecordsSurviveChunking(texts: seq<string>, chunks: seq<Bytes>, cap: nat, encode: string -> Bytes,
                               decode: Decoder)
    requires forall t :: t in texts ==> decode(encode(t)) == Some(t) && CleanLine(encode(t)) && |encode(t)| <= cap
    requires Concat(chunks) == Written(Encoded(texts, encode))
    ensures WithinCap(chunks, cap) && Decodes(Lines(Concat(chunks)), decode)
    ensures Texts(Lines(Concat(chunks)), decode) == texts
  {
    var records := Encoded(texts, encode);
    forall r | r in records ensures CleanLine(r) && |r| <= cap {
      var i :| 0 <= i < |records| && records[i] == r;
      assert texts[i] in texts;
    }
    WrittenReadsBack(records);
    WrittenIsShort(records, cap);
    ShortLinesReadAlways(chunks, cap);
    TextsBack(texts, encode, decode);
  }

  // ---------------------------------------------------------------- what stripping takes off

  /** Spaces, tabs, newlines, vertical tabs, form feeds and returns. */
  predicate AllBlank(s: Bytes) {
    forall b :: b in s ==> Blank(b)
  }

  predicate Blank(b: byte) {
    b == 32 || b == 9 || b == 10 || b == 11 || b == 12 || b == 13
  }

  lemma {:induction false} LStripTakes(s: Bytes) returns (front: Bytes)
    ensures s == front + LStrip(s) && AllBlank(front)
    ensures LStrip(s) != [] ==> !Blank(LStrip(s)[0])
  {
    front := [];
    if s != [] && IsSpace(s[0]) {
      var more := LStripTakes(s[1..]);
      front := [s[0]] + more;
    }
  }

  lemma {:induction false} RStripTakes(s: Bytes) returns (back: Bytes)
    ensures s == RStrip(s) + back && AllBlank(back)
    ensures RStrip(s) != [] ==> !Blank(RStrip(s)[|RStrip(s)| - 1])
  {
    back := [];
    if s != [] && IsSpace(s[|s| - 1]) {
      var n := |s| - 1;
      var more := RStripTakes(s[..n]);
      back := more + [s[n]];
      assert s == s[..n] + [s[n]];
    }
  }

  /** A line loses the blanks at its two ends, all of them and nothing else. */
  lemma StripTakesTheEnds(s: Bytes) returns (front: Bytes, back: Bytes)
    ensures s == front + Strip(s) + back && AllBlank(front) && AllBlank(back)
    ensures Strip(s) != [] ==> !Blank(Strip(s)[0]) && !Blank(Strip(s)[|Strip(s)| - 1])
  {
    front := LStripTakes(s);
    back := RStripTakes(LStrip(s));
    assert Strip(s) != [] ==> Strip(s)[0] == LStrip(s)[0];
    assert front + (Strip(s) + back) == front + Strip(s) + back;
  }
}
