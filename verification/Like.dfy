/** SQL LIKE with a backslash escape (section 8.5 of ISO/IEC 9075:1992), and the escaping of a literal prefix. */
module Like {
  import opened Text

  /** s LIKE pattern ESCAPE '\'. */
  predicate Matches(pattern: string, s: string)
    decreases |pattern|
  {
    if pattern == "" then s == ""
    else if pattern[0] == '\\' then
      |pattern| >= 2 && s != "" && s[0] == pattern[1] && Matches(pattern[2..], s[1..])
    else if pattern[0] == '%' then exists k :: 0 <= k <= |s| && Matches(pattern[1..], s[k..])
    else if pattern[0] == '_' then s != "" && Matches(pattern[1..], s[1..])
    else s != "" && s[0] == pattern[0] && Matches(pattern[1..], s[1..])
  }

  /** _like_prefix: the three chained replacements, the backslash first. */
  function LikePrefix(path: string): string {
    Replace(Replace(Replace(path, '\\', "\\\\"), '%', "\\%"), '_', "\\_")
  }

  function Escaped(c: char): string {
    if c == '\\' then "\\\\" else if c == '%' then "\\%" else if c == '_' then "\\_" else [c]
  }

  /** Chaining the replacements escapes each character once. */
  lemma LikePrefixHead(path: string)
    requires path != ""
    ensures LikePrefix(path) == Escaped(path[0]) + LikePrefix(path[1..])
  {
    var c := path[0];
    var a := if c == '\\' then "\\\\" else [c];
    var rest := Replace(path[1..], '\\', "\\\\");
    ReplaceConcat(a, rest, '%', "\\%");
    ReplaceConcat(Replace(a, '%', "\\%"), Replace(rest, '%', "\\%"), '_', "\\_");
    HeadEscape(c, a);
  }

  lemma HeadEscape(c: char, a: string)
    requires a == if c == '\\' then "\\\\" else [c]
    ensures Replace(Replace(a, '%', "\\%"), '_', "\\_") == Escaped(c)
  {
    ReplaceOne(c, '%', "\\%");
    ReplaceOne(c, '_', "\\_");
    if c == '\\' {
      ReplaceTwo('\\', '\\', '%', "\\%");
      ReplaceTwo('\\', '\\', '_', "\\_");
    } else if c == '%' {
      ReplaceTwo('\\', '%', '_', "\\_");
    }
  }

  lemma ReplaceOne(c: char, x: char, with: string)
    ensures Replace([c], x, with) == if c == x then with else [c]
  {
    assert [c][1..] == "";
    assert Replace("", x, with) == "";
  }

  lemma ReplaceTwo(a: char, b: char, x: char, with: string)
    requires a != x && b != x
    ensures Replace([a, b], x, with) == [a, b]
  {
    assert [a, b][1..] == [b];
    ReplaceOne(b, x, with);
  }

  /** An escaped character matches itself and nothing else. */
  lemma EscapedMatchesOne(c: char, rest: string, s: string)
    ensures Matches(Escaped(c) + rest, s) <==> s != "" && s[0] == c && Matches(rest, s[1..])
  {
    var e := Escaped(c);
    assert (e + rest)[|e|..] == rest;
  }

  lemma EscapedStep(p: string, q: string, s: string)
    requires p != ""
    ensures Matches(LikePrefix(p) + q, s) <==> s != "" && s[0] == p[0] && Matches(LikePrefix(p[1..]) + q, s[1..])
  {
    LikePrefixHead(p);
    EscapedMatchesHead(p[0], LikePrefix(p), LikePrefix(p[1..]), q, s);
  }

  lemma EscapedMatchesHead(c: char, pattern: string, rest: string, q: string, s: string)
    requires pattern == Escaped(c) + rest
    ensures Matches(pattern + q, s) <==> s != "" && s[0] == c && Matches(rest + q, s[1..])
  {
    assert pattern + q == Escaped(c) + (rest + q);
    EscapedMatchesOne(c, rest + q, s);
  }

  lemma PrefixStep(p: string, s: string)
    requires p != "" && s != ""
    ensures p <= s <==> p[0] == s[0] && p[1..] <= s[1..]
    ensures p <= s ==> s[1..][|p[1..]|..] == s[|p|..]
  {
    assert p == [p[0]] + p[1..] && s == [s[0]] + s[1..];
  }

  /**
   * The escaped text of p followed by any pattern q matches exactly the strings that start with p and go
   * on as q says, whatever characters p holds.
   */
  lemma {:induction false} EscapedThenPattern(p: string, q: string, s: string)
    ensures Matches(LikePrefix(p) + q, s) <==> p <= s && Matches(q, s[|p|..])
  {
    if p == "" {
      assert LikePrefix(p) + q == q && s[|p|..] == s;
    } else {
      EscapedStep(p, q, s);
      if s != "" {
        EscapedThenPattern(p[1..], q, s[1..]);
        PrefixStep(p, s);
      }
    }
  }

  lemma PercentMatchesAll(s: string)
    ensures Matches("%", s)
  {
    assert "%"[1..] == "";
    assert Matches("%"[1..], s[|s|..]);
  }

  /** An escaped prefix and a trailing percent match s exactly when p is a prefix of s. */
  lemma PrefixPatternIsPrefix(p: string, s: string)
    ensures Matches(LikePrefix(p) + "%", s) <==> p <= s
  {
    EscapedThenPattern(p, "%", s);
    if p <= s { PercentMatchesAll(s[|p|..]); }
  }

  /** The subtree pattern matches exactly the paths under p and a slash. */
  lemma SubtreePatternIsSubtree(p: string, s: string)
    ensures Matches(LikePrefix(p) + "/%", s) <==> p + "/" <= s
  {
    EscapedThenPattern(p, "/%", s);
    assert "/%"[1..] == "%";
    if p <= s && |s| > |p| {
      PercentMatchesAll(s[|p|..][1..]);
      assert s[|p|..][0] == s[|p|];
    }
  }
}
