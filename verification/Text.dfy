/** The string operations the Python sources lean on: split, join, partition, replace, decimal. */
module Text {
  // ---------------------------------------------------------------- split and join

  /** Python's s.split(sep) for a one-character separator: never empty, no piece holds sep. */
  function Split(s: string, sep: char): (pieces: seq<string>)
    ensures |pieces| >= 1
  {
    if s == "" then [""]
    else if s[0] == sep then [""] + Split(s[1..], sep)
    else
      var rest := Split(s[1..], sep);
      [[s[0]] + rest[0]] + rest[1..]
  }

  /** Python's sep.join(pieces). */
  function Join(pieces: seq<string>, sep: char): string {
    if |pieces| == 0 then ""
    else if |pieces| == 1 then pieces[0]
    else pieces[0] + [sep] + Join(pieces[1..], sep)
  }

  lemma {:induction false} SplitPieces(s: string, sep: char)
    ensures forall p :: p in Split(s, sep) ==> sep !in p
  {
    if s != "" {
      SplitPieces(s[1..], sep);
    }
  }

  lemma {:induction false} JoinOfSplit(s: string, sep: char)
    ensures Join(Split(s, sep), sep) == s
  {
    if s != "" {
      JoinOfSplit(s[1..], sep);
      var rest := Split(s[1..], sep);
      if s[0] != sep && |rest| > 1 {
        assert Split(s, sep)[1..] == rest[1..];
      } else if s[0] == sep {
        assert Split(s, sep)[1..] == rest;
      }
    }
  }

  lemma {:induction false} SplitPrefix(p: string, rest: string, sep: char)
    requires sep !in p
    ensures Split(p + [sep] + rest, sep) == [p] + Split(rest, sep)
  {
    if p == "" {
      assert p + [sep] + rest == [sep] + rest;
    } else {
      SplitPrefix(p[1..], rest, sep);
      assert (p + [sep] + rest)[1..] == p[1..] + [sep] + rest;
      assert [p[0]] + p[1..] == p;
    }
  }

  lemma {:induction false} SplitAtomic(p: string, sep: char)
    requires sep !in p
    ensures Split(p, sep) == [p]
  {
    if p != "" {
      SplitAtomic(p[1..], sep);
      assert [p[0]] + p[1..] == p;
    }
  }

  lemma {:induction false} SplitOfJoin(pieces: seq<string>, sep: char)
    requires |pieces| >= 1
    requires forall p :: p in pieces ==> sep !in p
    ensures Split(Join(pieces, sep), sep) == pieces
  {
    if |pieces| == 1 {
      SplitAtomic(pieces[0], sep);
    } else {
      SplitOfJoin(pieces[1..], sep);
      SplitPrefix(pieces[0], Join(pieces[1..], sep), sep);
      assert [pieces[0]] + pieces[1..] == pieces;
    }
  }

  // ---------------------------------------------------------------- partition

  /** Python's s.partition(sep): everything before the first sep, and everything after it. */
  function Partition(s: string, sep: char): (r: (string, bool, string))
    ensures sep !in r.0
    ensures r.1 <==> sep in s
    ensures s == if r.1 then r.0 + [sep] + r.2 else r.0
  {
    if s == "" then ("", false, "")
    else if s[0] == sep then ("", true, s[1..])
    else
      var r := Partition(s[1..], sep);
      ([s[0]] + r.0, r.1, r.2)
  }

  /** Python's s.rpartition(sep): split at the last sep. */
  function RPartition(s: string, sep: char): (r: (string, bool, string))
    ensures sep !in r.2
    ensures r.1 <==> sep in s
    ensures s == if r.1 then r.0 + [sep] + r.2 else r.2
  {
    if s == "" then ("", false, "")
    else
      var last := s[|s| - 1];
      if last == sep then (s[..|s| - 1], true, "")
      else
        var r := RPartition(s[..|s| - 1], sep);
        (r.0, r.1, r.2 + [last])
  }

  /** A text with no sep in it, up to a sep, is determined by the whole. */
  lemma NoLonger(a: string, x: string, b: string, y: string, sep: char)
    requires a + [sep] + x == b + [sep] + y && sep !in b
    ensures |b| <= |a|
  {
    var s := a + [sep] + x;
    assert s[|a|] == sep;
    assert forall i :: 0 <= i < |b| ==> s[i] == b[i] && b[i] != sep;
  }

  lemma PartitionPrefix(p: string, rest: string, sep: char)
    requires sep !in p
    ensures Partition(p + [sep] + rest, sep) == (p, true, rest)
  {
    var s := p + [sep] + rest;
    var r := Partition(s, sep);
    assert s[|p|] == sep && sep in s;
    NoLonger(p, rest, r.0, r.2, sep);
    NoLonger(r.0, r.2, p, rest, sep);
    assert r.0 == s[..|p|] == p && r.2 == s[|p| + 1..] == rest;
  }

  lemma {:induction false} RPartitionSuffix(head: string, tail: string, sep: char)
    requires sep !in tail
    ensures RPartition(head + [sep] + tail, sep) == (head, true, tail)
  {
    var s := head + [sep] + tail;
    if tail == "" {
      assert s[..|s| - 1] == head;
    } else {
      var t := tail[..|tail| - 1];
      assert s[..|s| - 1] == head + [sep] + t;
      RPartitionSuffix(head, t, sep);
      assert t + [tail[|tail| - 1]] == tail;
    }
  }

  // ---------------------------------------------------------------- replace

  /** Python's s.replace(c, with) for a one-character pattern. */
  function Replace(s: string, c: char, with: string): string {
    if s == "" then "" else (if s[0] == c then with else [s[0]]) + Replace(s[1..], c, with)
  }

  lemma {:induction false} ReplaceConcat(a: string, b: string, c: char, with: string)
    ensures Replace(a + b, c, with) == Replace(a, c, with) + Replace(b, c, with)
  {
    if a == "" {
      assert a + b == b;
    } else {
      var first := if a[0] == c then with else [a[0]];
      assert (a + b)[1..] == a[1..] + b && (a + b)[0] == a[0];
      ReplaceConcat(a[1..], b, c, with);
      assert first + (Replace(a[1..], c, with) + Replace(b, c, with)) ==
        (first + Replace(a[1..], c, with)) + Replace(b, c, with);
    }
  }

  // ---------------------------------------------------------------- decimal numerals

  function Digit(d: nat): char
    requires d < 10
  {
    '0' + d as char
  }

  predicate IsDigit(c: char) {
    '0' <= c <= '9'
  }

  function DigitValue(c: char): (d: nat)
    requires IsDigit(c)
    ensures d < 10 && Digit(d) == c
  {
    (c - '0') as nat
  }

  /** Python's str(n) for a natural number. */
  function Decimal(n: nat): (s: string)
    ensures s != "" && forall c :: c in s ==> IsDigit(c)
  {
    if n < 10 then [Digit(n)] else Decimal(n / 10) + [Digit(n % 10)]
  }

  predicate IsNumeral(s: string) {
    s != "" && forall c :: c in s ==> IsDigit(c)
  }

  /** Python's int(s) for a run of digits. */
  function ParseDecimal(s: string): nat
    requires forall c :: c in s ==> IsDigit(c)
  {
    if s == "" then 0 else 10 * ParseDecimal(s[..|s| - 1]) + DigitValue(s[|s| - 1])
  }

  lemma {:induction false} DecimalRoundTrip(n: nat)
    ensures ParseDecimal(Decimal(n)) == n
  {
    var s := Decimal(n);
    if n < 10 {
      assert s[..|s| - 1] == "";
    } else {
      DecimalRoundTrip(n / 10);
      assert s[..|s| - 1] == Decimal(n / 10);
    }
  }

  /** Zero-padded to a fixed width, as %04d and %02d print. */
  function Padded(n: nat, width: nat): (s: string)
    ensures |s| == width && forall c :: c in s ==> IsDigit(c)
  {
    if width == 0 then "" else Padded(n / 10, width - 1) + [Digit(n % 10)]
  }

  function Pow10(k: nat): (p: nat)
    ensures p >= 1
  {
    if k == 0 then 1 else 10 * Pow10(k - 1)
  }

  lemma {:induction false} PaddedRoundTrip(n: nat, width: nat)
    requires n < Pow10(width)
    ensures ParseDecimal(Padded(n, width)) == n
  {
    if width > 0 {
      var s := Padded(n, width);
      assert s[..|s| - 1] == Padded(n / 10, width - 1);
      PaddedRoundTrip(n / 10, width - 1);
    }
  }

  /** A numeral is read from the left, each digit worth ten of the next. */
  lemma NumeralsMean(s: string, c: char)
    requires (forall d :: d in s ==> IsDigit(d)) && IsDigit(c)
    ensures ParseDecimal("") == 0 && ParseDecimal(s + [c]) == 10 * ParseDecimal(s) + (c as int - '0' as int)
  {
    assert (s + [c])[..|s|] == s;
  }

  lemma {:induction false} ReplaceRemoves(s: string, c: char, d: char)
    requires c != d
    ensures c !in Replace(s, c, [d])
  {
    if s != "" { ReplaceRemoves(s[1..], c, d); }
  }

  /** Place by place, one character is put for the other. */
  lemma {:induction false} ReplaceAt(s: string, c: char, d: char, i: nat)
    requires i < |s|
    ensures |Replace(s, c, [d])| == |s| && Replace(s, c, [d])[i] == if s[i] == c then d else s[i]
  {
    if i > 0 {
      ReplaceAt(s[1..], c, d, i - 1);
    } else if |s| > 1 {
      ReplaceAt(s[1..], c, d, 0);
    }
  }
}
