/** In what order, and how often, a pass announces: said of the fields of its announcements. */
module NewsOrder {
  import opened Basics
  import opened Spine
  import opened Emission
  import PassNews
  import Announce

  // ---------------------------------------------------------------- what is announced keeps the groups' order

  /** The picks are places from i to size in increasing order. */
  ghost predicate Increasing(picks: seq<nat>, i: nat, size: nat) {
    && (forall a :: 0 <= a < |picks| ==> i <= picks[a] < size)
    && (forall a, b :: 0 <= a < b < |picks| ==> picks[a] < picks[b])
  }

  ghost predicate Picked(said: seq<Decision>, groups: seq<Decision>, picks: seq<nat>, i: nat) {
    && Increasing(picks, i, |groups|) && |said| == |picks|
    && forall a :: 0 <= a < |said| ==> said[a] == groups[picks[a]]
  }

  /** What is announced is picked from the groups in their order. */
  lemma {:induction false} EmitPicks(env: Env, groups: seq<Decision>, i: nat, n: nat, ledger: Option<Announce.Ledger>,
                                     out: Outcome)
    returns (picks: seq<nat>)
    requires out == Emit(env, groups, i, n, ledger)
    ensures Picked(out.announced, groups, picks, i)
    decreases |groups| - i
  {
    if i < |groups| && n < env.cap {
      var j := Judged(env, i, ledger, groups[i]);
      var sent := Sent(env, j.0, groups[i]);
      EmitOnce(env, groups, i, n, ledger);
      var rest := Emit(env, groups, i + 1, n + |sent|, j.2);
      var later := EmitPicks(env, groups, i + 1, n + |sent|, j.2, rest);
      picks := PickedCons(groups, i, sent, rest.announced, later);
      assert out.announced == sent + rest.announced;
    } else {
      picks := [];
    }
  }

  lemma PickedCons(groups: seq<Decision>, i: nat, sent: seq<Decision>, rest: seq<Decision>, later: seq<nat>)
    returns (picks: seq<nat>)
    requires i < |groups| && (sent == [] || sent == [groups[i]]) && Picked(rest, groups, later, i + 1)
    ensures Picked(sent + rest, groups, picks, i)
  {
    picks := if sent == [] then later else [i] + later;
  }

  lemma PassPicks(env: Env, ds: seq<Decision>, ledger: Option<Announce.Ledger>, said: seq<Decision>)
    returns (picks: seq<nat>)
    requires said == PassOutcome(env, ds, ledger).announced
    ensures Picked(said, Announce.Collapsed(ds), picks, 0)
  {
    picks := EmitPicks(env, Announce.Collapsed(ds), 0, 0, ledger, PassOutcome(env, ds, ledger));
  }

  // ---------------------------------------------------------------- one announcement a group

  /** The same series, or else the same event, and the same kind of change. */
  predicate SameNews(d: Decision, e: Decision) {
    && d.kind == e.kind
    && (if d.seriesId.Some? && d.seriesId.value != "" then d.seriesId.value else d.eventId)
       == (if e.seriesId.Some? && e.seriesId.value != "" then e.seriesId.value else e.eventId)
  }

  lemma {:induction false} FoldedKeepsKey(ds: seq<Decision>, k: Announce.Key)
    requires Announce.Group(ds, k) != []
    ensures Announce.KeyOf(Announce.Folded(Announce.Group(ds, k), k)) == k
  {
    Announce.GroupMembers(ds, k);
    assert Announce.Earliest(Announce.Group(ds, k)) in Announce.Group(ds, k);
  }

  function KeysOf(ds: seq<Decision>): (keys: seq<Announce.Key>)
    ensures |keys| == |ds| && forall i :: 0 <= i < |ds| ==> keys[i] == Announce.KeyOf(ds[i])
  {
    seq(|ds|, i requires 0 <= i < |ds| => Announce.KeyOf(ds[i]))
  }

  lemma {:induction false} FoldAllKeys(ds: seq<Decision>, keys: seq<Announce.Key>)
    requires forall k :: k in keys ==> Announce.Group(ds, k) != []
    ensures KeysOf(Announce.FoldAll(ds, keys)) == keys
  {
    if keys != [] {
      var n := |keys| - 1;
      assert keys[n] in keys;
      FoldAllKeys(ds, keys[..n]);
      FoldedKeepsKey(ds, keys[n]);
    }
  }

  lemma {:induction false} KeysSurviveInsert(sorted: seq<Decision>, d: Decision)
    ensures multiset(KeysOf(Announce.Insert(sorted, d))) == multiset(KeysOf(sorted)) + multiset{Announce.KeyOf(d)}
  {
    if sorted == [] || !Announce.Before(d, sorted[|sorted| - 1]) {
      assert KeysOf(sorted + [d]) == KeysOf(sorted) + [Announce.KeyOf(d)];
    } else {
      var front, last := sorted[..|sorted| - 1], sorted[|sorted| - 1];
      KeysSurviveInsert(front, d);
      assert sorted == front + [last];
      assert KeysOf(sorted) == KeysOf(front) + [Announce.KeyOf(last)];
      assert KeysOf(Announce.Insert(front, d) + [last]) == KeysOf(Announce.Insert(front, d)) + [Announce.KeyOf(last)];
    }
  }

  lemma {:induction false} KeysSurviveSort(ds: seq<Decision>)
    ensures multiset(KeysOf(Announce.Sort(ds))) == multiset(KeysOf(ds))
  {
    if ds != [] {
      var front, last := ds[..|ds| - 1], ds[|ds| - 1];
      KeysSurviveSort(front);
      KeysSurviveInsert(Announce.Sort(front), last);
      assert ds == front + [last];
      assert KeysOf(ds) == KeysOf(front) + [Announce.KeyOf(last)];
    }
  }

  lemma {:induction false} DistinctByMultiset(a: seq<Announce.Key>, b: seq<Announce.Key>)
    requires Distinct(a) && multiset(a) == multiset(b)
    ensures Distinct(b)
  {
    forall i, j | 0 <= i < j < |b| ensures b[i] != b[j] {
      TwoAtLeast(b, i, j);
      OneAtMost(a, b[i]);
    }
  }

  lemma TwoAtLeast(s: seq<Announce.Key>, i: nat, j: nat)
    requires i < j < |s|
    ensures s[i] == s[j] ==> multiset(s)[s[i]] >= 2
  {
    assert s == s[..j] + [s[j]] + s[j + 1..];
    assert s[..j][i] == s[i];
    assert s[i] in s[..j];
    assert multiset(s) == multiset(s[..j]) + multiset{s[j]} + multiset(s[j + 1..]);
  }

  lemma {:induction false} OneAtMost(s: seq<Announce.Key>, x: Announce.Key)
    requires Distinct(s)
    ensures multiset(s)[x] <= 1
  {
    if s != [] {
      var n := |s| - 1;
      assert s == s[..n] + [s[n]];
      OneAtMost(s[..n], x);
    }
  }

  /** A pass folds to one decision at most for each series, or lone event, and kind of change. */
  lemma FoldsToOneEach(ds: seq<Decision>)
    ensures var out := Announce.Collapsed(ds);
      forall i, j :: 0 <= i < j < |out| ==> !SameNews(out[i], out[j])
  {
    Announce.KeysHaveGroups(ds);
    var keys := Announce.Keys(ds);
    FoldAllKeys(ds, keys);
    var folded := Announce.FoldAll(ds, keys);
    KeysSurviveSort(folded);
    DistinctByMultiset(keys, KeysOf(Announce.Sort(folded)));
    var out := Announce.Collapsed(ds);
    forall i, j | 0 <= i < j < |out| ensures !SameNews(out[i], out[j]) {
      assert KeysOf(out)[i] != KeysOf(out)[j];
      SameNewsIsSameKey(out[i], out[j]);
    }
  }

  lemma SameNewsIsSameKey(d: Decision, e: Decision)
    ensures SameNews(d, e) <==> Announce.KeyOf(d) == Announce.KeyOf(e)
  {}

  /** So a pass announces each series, or lone event, and kind of change once at most, whatever ledger it has. */
  lemma AnnouncesOneEach(env: Env, ds: seq<Decision>, ledger: Option<Announce.Ledger>)
    ensures var said := PassOutcome(env, ds, ledger).announced;
      forall i, j :: 0 <= i < j < |said| ==> !SameNews(said[i], said[j])
  {
    var said := PassOutcome(env, ds, ledger).announced;
    FoldsToOneEach(ds);
    var picks := PassPicks(env, ds, ledger, said);
    PicksApart(said, Announce.Collapsed(ds), picks);
  }

  lemma PicksApart(said: seq<Decision>, groups: seq<Decision>, picks: seq<nat>)
    requires Picked(said, groups, picks, 0)
    requires forall i, j :: 0 <= i < j < |groups| ==> !SameNews(groups[i], groups[j])
    ensures forall i, j :: 0 <= i < j < |said| ==> !SameNews(said[i], said[j])
  {}

  // ---------------------------------------------------------------- earliest first

  /** The first id comes first in the order of its characters' codes: at the first difference, or as a prefix. */
  ghost predicate ComesBefore(a: string, b: string) {
    || (a <= b && a != b)
    || exists p :: 0 <= p < |a| && p < |b| && a[..p] == b[..p] && a[p] < b[p]
  }

  lemma {:induction false} StringLessIff(a: string, b: string)
    ensures Announce.StringLess(a, b) <==> ComesBefore(a, b)
  {
    if a != "" && b != "" && a[0] == b[0] {
      StringLessIff(a[1..], b[1..]);
      ComesBeforeTail(a, b);
    } else if a != "" && b != "" {
      ComesBeforeHead(a, b);
    }
  }

  lemma ComesBeforeHead(a: string, b: string)
    requires a != "" && b != "" && a[0] != b[0]
    ensures ComesBefore(a, b) <==> a[0] < b[0]
  {
    if a[0] < b[0] { assert a[..0] == b[..0]; }
    if p :| 0 <= p < |a| && p < |b| && a[..p] == b[..p] && a[p] < b[p] {
      assert p > 0 ==> a[..p][0] == b[..p][0];
    }
  }

  lemma ComesBeforeTail(a: string, b: string)
    requires a != "" && b != "" && a[0] == b[0]
    ensures ComesBefore(a, b) <==> ComesBefore(a[1..], b[1..])
  {
    var a', b' := a[1..], b[1..];
    assert a == [a[0]] + a' && b == [b[0]] + b';
    assert a <= b <==> a' <= b' by { PrefixTail(a, b); }
    if p :| 0 <= p < |a'| && p < |b'| && a'[..p] == b'[..p] && a'[p] < b'[p] {
      assert a[..p + 1] == [a[0]] + a'[..p] && b[..p + 1] == [b[0]] + b'[..p];
      assert a[p + 1] < b[p + 1];
    }
    if p :| 0 <= p < |a| && p < |b| && a[..p] == b[..p] && a[p] < b[p] {
      assert p > 0;
      assert a'[..p - 1] == a[..p][1..] && b'[..p - 1] == b[..p][1..];
      assert a'[p - 1] < b'[p - 1];
    }
  }

  lemma PrefixTail(a: string, b: string)
    requires a != "" && b != "" && a[0] == b[0]
    ensures a <= b <==> a[1..] <= b[1..]
  {
    if a[1..] <= b[1..] {
      assert forall i :: 0 < i < |a| ==> a[i] == a[1..][i - 1] == b[1..][i - 1] == b[i];
    }
  }

  /** Earlier start first, and of one start the id that comes first. */
  ghost predicate InOrder(d: Decision, e: Decision) {
    d.start <= e.start && (d.start == e.start ==> d.eventId == e.eventId || ComesBefore(d.eventId, e.eventId))
  }

  lemma {:induction false} StringLessTotal(a: string, b: string)
    ensures a == b || Announce.StringLess(a, b) || Announce.StringLess(b, a)
  {
    if a != "" && b != "" && a[0] == b[0] {
      StringLessTotal(a[1..], b[1..]);
      assert a == [a[0]] + a[1..] && b == [b[0]] + b[1..];
    }
  }

  lemma {:induction false} StringLessTransitive(a: string, b: string, c: string)
    requires Announce.StringLess(a, b) && Announce.StringLess(b, c)
    ensures Announce.StringLess(a, c)
  {
    if a != "" && a[0] == b[0] == c[0] {
      StringLessTransitive(a[1..], b[1..], c[1..]);
    }
  }

  lemma InOrderUnlessBefore(d: Decision, e: Decision)
    ensures InOrder(d, e) <==> !Announce.Before(e, d)
  {
    StringLessTotal(d.eventId, e.eventId);
    StringLessIff(d.eventId, e.eventId);
    if Announce.StringLess(e.eventId, d.eventId) {
      Announce.StringLessAsymmetric(e.eventId, d.eventId);
      StringLessIff(e.eventId, d.eventId);
    }
  }

  lemma InOrderTransitive(d: Decision, e: Decision, f: Decision)
    requires InOrder(d, e) && InOrder(e, f)
    ensures InOrder(d, f)
  {
    StringLessIff(d.eventId, e.eventId);
    StringLessIff(e.eventId, f.eventId);
    StringLessIff(d.eventId, f.eventId);
    if Announce.StringLess(d.eventId, e.eventId) && Announce.StringLess(e.eventId, f.eventId) {
      StringLessTransitive(d.eventId, e.eventId, f.eventId);
    }
  }

  lemma {:induction false} OrderedPairs(out: seq<Decision>, i: nat, j: nat)
    requires Announce.Ordered(out) && i < j < |out|
    ensures InOrder(out[i], out[j])
    decreases j - i
  {
    InOrderUnlessBefore(out[j - 1], out[j]);
    if i < j - 1 {
      OrderedPairs(out, i, j - 1);
      InOrderTransitive(out[i], out[j - 1], out[j]);
    }
  }

  lemma FoldsInOrder(ds: seq<Decision>)
    ensures var out := Announce.Collapsed(ds); forall i, j :: 0 <= i < j < |out| ==> InOrder(out[i], out[j])
  {
    Announce.CollapsedIsOrdered(ds);
    var out := Announce.Collapsed(ds);
    forall i, j | 0 <= i < j < |out| ensures InOrder(out[i], out[j]) {
      OrderedPairs(out, i, j);
    }
  }

  /** Whatever is suppressed or cut off, a pass announces in order of start, and of id where starts are equal. */
  lemma AnnouncesInOrder(env: Env, ds: seq<Decision>, ledger: Option<Announce.Ledger>)
    ensures var said := PassOutcome(env, ds, ledger).announced;
      forall i, j :: 0 <= i < j < |said| ==> InOrder(said[i], said[j])
  {
    var said := PassOutcome(env, ds, ledger).announced;
    FoldsInOrder(ds);
    var picks := PassPicks(env, ds, ledger, said);
    PicksInOrder(said, Announce.Collapsed(ds), picks);
  }

  lemma PicksInOrder(said: seq<Decision>, groups: seq<Decision>, picks: seq<nat>)
    requires Picked(said, groups, picks, 0)
    requires forall i, j :: 0 <= i < j < |groups| ==> InOrder(groups[i], groups[j])
    ensures forall i, j :: 0 <= i < j < |said| ==> InOrder(said[i], said[j])
  {}

  /** What the ceiling leaves out starts no earlier than anything announced. */
  lemma CeilingKeepsTheEarliest(env: Env, ds: seq<Decision>, ledger: Announce.Ledger, d: Decision, e: Decision)
    requires PassNews.AsClassified(ds) && PassNews.Steady(env, ledger)
    requires d in Announce.Collapsed(ds) && !PassNews.HeldBack(env, env.clock(0), ledger, d) && env.sends(d)
    requires d !in PassOutcome(env, ds, Some(ledger)).announced && e in PassOutcome(env, ds, Some(ledger)).announced
    ensures e.start <= d.start && |PassOutcome(env, ds, Some(ledger)).announced| == env.cap
  {
    var go := (x: Decision) => PassNews.Goes(env, ledger, x);
    var groups := Announce.Collapsed(ds);
    PassNews.AnnouncesTheFirst(env, ds, ledger);
    var all := PassNews.Going(groups, go);
    PassNews.GoingMembers(groups, go, d);
    FoldsInOrder(ds);
    assert groups[0..] == groups;
    var picks := GoingPicks(groups, 0, go);
    PicksInOrder(all, groups, picks);
    var said := PassNews.First(all, env.cap);
    assert said == all[..env.cap];
    var i :| 0 <= i < |said| && said[i] == e;
    var j :| 0 <= j < |all| && all[j] == d;
    assert j >= env.cap;
    assert InOrder(all[i], all[j]);
  }

  lemma {:induction false} GoingPicks(groups: seq<Decision>, i: nat, go: Decision -> bool) returns (picks: seq<nat>)
    requires i <= |groups|
    ensures Picked(PassNews.Going(groups[i..], go), groups, picks, i)
    decreases |groups| - i
  {
    picks := [];
    if i < |groups| {
      var later := GoingPicks(groups, i + 1, go);
      PassNews.GoingFrom(groups, i, go);
      picks := PickedCons(groups, i, if go(groups[i]) then [groups[i]]
                          else [], PassNews.Going(groups[i + 1..], go), later);
      assert [] + PassNews.Going(groups[i + 1..], go) == PassNews.Going(groups[i + 1..], go);
    }
  }
}
