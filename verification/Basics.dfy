/** Small datatypes shared by every component. */
module Basics {
  datatype Option<+T> = None | Some(value: T)

  datatype Result<+T, +E> = Ok(value: T) | Err(error: E)

  predicate Distinct<T(==)>(s: seq<T>) {
    forall i, j :: 0 <= i < j < |s| ==> s[i] != s[j]
  }

  /** How often x occurs in s. */
  function Count<T(==)>(s: seq<T>, x: T): nat {
    if s == [] then 0 else (if s[0] == x then 1 else 0) + Count(s[1..], x)
  }

  lemma {:induction false} CountConcat<T>(a: seq<T>, b: seq<T>, x: T)
    ensures Count(a + b, x) == Count(a, x) + Count(b, x)
  {
    if a == [] {
      assert a + b == b;
    } else {
      assert (a + b)[1..] == a[1..] + b;
      CountConcat(a[1..], b, x);
    }
  }

  lemma {:induction false} CountZeroIffAbsent<T>(s: seq<T>, x: T)
    ensures Count(s, x) == 0 <==> x !in s
  {
    if s != [] {
      CountZeroIffAbsent(s[1..], x);
      assert s == [s[0]] + s[1..];
    }
  }

  lemma {:induction false} DistinctCountsOnce<T>(s: seq<T>, x: T)
    requires Distinct(s)
    ensures Count(s, x) == if x in s then 1 else 0
  {
    if s != [] {
      DistinctCountsOnce(s[1..], x);
      assert s == [s[0]] + s[1..];
    }
  }

  lemma Regroup<T>(a: seq<T>, b: seq<T>, c: seq<T>)
    ensures (a + b) + c == a + (b + c)
  {}

  lemma ColonSplits(a: string, rest: string, b: string, rest': string)
    requires ':' !in a && ':' !in b && a + ":" + rest == b + ":" + rest'
    ensures a == b && rest == rest'
  {
    var s := a + ":" + rest;
    assert s[|a|] == ':' && s[|b|] == ':';
    assert forall i :: 0 <= i < |a| ==> s[i] == a[i] != ':';
    assert forall i :: 0 <= i < |b| ==> s[i] == b[i] != ':';
    assert |a| == |b| && a == s[..|a|] && b == s[..|b|];
    assert rest == s[|a| + 1..] && rest' == s[|b| + 1..];
  }

  // ---------------------------------------------------------------- quotients

  lemma DivUnique(n: int, k: nat, q: int, r: int)
    requires k > 0 && n == q * k + r && 0 <= r < k
    ensures n / k == q
  {
    assert (n / k - q) * k == r - n % k;
    ScaledAway(n / k - q, k);
  }

  lemma ScaledAway(d: int, k: int)
    requires k > 0
    ensures (d >= 1 ==> d * k >= k) && (d <= -1 ==> d * k <= -k)
  {
    if d >= 1 { assert (d - 1) * k >= 0; }
    if d <= -1 { assert (-d - 1) * k >= 0; }
  }
}
