/** Which of a pass's decisions are announced, said group by group. */
module PassNews {
  import opened Basics
  import opened Spine
  import opened Announce
  import opened Emission

  /** A live marker answers for the decision: its own, or, for a lone occurrence, its series'. */
  predicate HeldBack(env: Env, now: int, ledger: Ledger, d: Decision) {
    || Unexpired(ledger, (env.tenant, SelfWriteKey(d.kind, env.provider, d.eventId)), now)
    || (!d.collapsed && d.seriesId.Some?
        && Unexpired(ledger, (env.tenant, SelfWriteKey(d.kind, env.provider, d.seriesId.value)), now))
  }

  /** The marker is there and its expiry is still to come. */
  predicate Unexpired(ledger: Ledger, m: (string, string), now: int) {
    m in ledger && now < ledger[m]
  }

  predicate Goes(env: Env, ledger: Ledger, d: Decision) {
    !HeldBack(env, env.clock(0), ledger, d) && env.sends(d)
  }

  /** No marker runs out while the pass emits. */
  ghost predicate Steady(env: Env, ledger: Ledger) {
    forall i: nat :: SteadyAt(env, ledger, i)
  }

  /** At the i-th reading the same markers are live as at the first. */
  ghost predicate SteadyAt(env: Env, ledger: Ledger, i: nat) {
    forall m :: m in ledger ==> (env.clock(i) < ledger[m] <==> env.clock(0) < ledger[m])
  }

  /** What g consumes is no marker that d is judged by. */
  predicate Unaffected(g: Decision, d: Decision) {
    !g.collapsed && g.kind == d.kind ==> g.eventId != d.eventId && d.seriesId != Some(g.eventId)
  }

  ghost predicate Apart(groups: seq<Decision>) {
    forall i, j :: 0 <= i < j < |groups| ==> ApartAt(groups, i, j)
  }

  predicate ApartAt(groups: seq<Decision>, i: nat, j: nat)
    requires i < |groups| && j < |groups|
  {
    Unaffected(groups[i], groups[j])
  }

  predicate SameMarker(a: Ledger, b: Ledger, m: (string, string)) {
    (m in a <==> m in b) && (m in a ==> a[m] == b[m])
  }

  predicate SameFor(env: Env, a: Ledger, b: Ledger, d: Decision) {
    && SameMarker(a, b, MarkerOf(env.tenant, env.provider, d.eventId, d.kind))
    && (d.seriesId.Some? ==> SameMarker(a, b, MarkerOf(env.tenant, env.provider, d.seriesId.value, d.kind)))
  }

  lemma JudgedAsHeldBack(env: Env, i: nat, ledger: Ledger, original: Ledger, d: Decision)
    requires Steady(env, original) && SameFor(env, ledger, original, d)
    ensures Judged(env, i, Some(ledger), d).0 <==> HeldBack(env, env.clock(0), original, d)
  {
    assert SteadyAt(env, original, 2 * i) && SteadyAt(env, original, 2 * i + 1);
    if d.seriesId.Some? {
      SelfWriteKeyInjective(d.kind, d.eventId, d.kind, d.seriesId.value, env.provider);
    }
  }

  lemma JudgedLeavesOthers(env: Env, i: nat, ledger: Ledger, original: Ledger, g: Decision, d: Decision)
    requires Unaffected(g, d) && SameFor(env, ledger, original, d)
    ensures var j := Judged(env, i, Some(ledger), g); j.2.Some? && SameFor(env, j.2.value, original, d)
  {
    SelfWriteKeyInjective(g.kind, g.eventId, d.kind, d.eventId, env.provider);
    if d.seriesId.Some? {
      SelfWriteKeyInjective(g.kind, g.eventId, d.kind, d.seriesId.value, env.provider);
    }
  }

  ghost predicate SameForAll(env: Env, a: Ledger, b: Ledger, groups: seq<Decision>, i: nat) {
    forall j :: i <= j < |groups| ==> SameForAt(env, a, b, groups, j)
  }

  predicate SameForAt(env: Env, a: Ledger, b: Ledger, groups: seq<Decision>, i: nat)
    requires i < |groups|
  {
    SameFor(env, a, b, groups[i])
  }

  lemma LaterUnaffected(env: Env, groups: seq<Decision>, i: nat, ledger: Ledger, original: Ledger)
    requires Apart(groups) && i < |groups| && SameForAll(env, ledger, original, groups, i)
    ensures var j := Judged(env, i, Some(ledger), groups[i]);
      j.2.Some? && SameForAll(env, j.2.value, original, groups, i + 1)
  {
    assert SameForAt(env, ledger, original, groups, i);
    forall k | i < k < |groups|
      ensures SameForAt(env, Judged(env, i, Some(ledger), groups[i]).2.value, original, groups, k)
    {
      assert SameForAt(env, ledger, original, groups, k) && ApartAt(groups, i, k);
      JudgedLeavesOthers(env, i, ledger, original, groups[i], groups[k]);
    }
  }

  /** Those of a sequence that satisfy the test, in order. */
  function Going(groups: seq<Decision>, go: Decision -> bool): seq<Decision> {
    if groups == [] then [] else (if go(groups[0]) then [groups[0]] else []) + Going(groups[1..], go)
  }

  function First(s: seq<Decision>, n: int): seq<Decision> {
    if n <= 0 then [] else if |s| <= n then s else s[..n]
  }

  lemma {:induction false} GoingMembers(groups: seq<Decision>, go: Decision -> bool, d: Decision)
    ensures d in Going(groups, go) <==> d in groups && go(d)
    ensures |Going(groups, go)| <= |groups|
  {
    if groups != [] {
      GoingMembers(groups[1..], go, d);
      assert groups == [groups[0]] + groups[1..];
    }
  }

  /** The first of them, counted down as a pass does. */
  function Goers(groups: seq<Decision>, i: nat, room: int, go: Decision -> bool): seq<Decision>
    decreases |groups| - i
  {
    if i >= |groups| || room <= 0 then []
    else if go(groups[i]) then [groups[i]] + Goers(groups, i + 1, room - 1, go)
    else Goers(groups, i + 1, room, go)
  }

  lemma FirstOfMore(d: Decision, s: seq<Decision>, n: int)
    requires n > 0
    ensures First([d] + s, n) == [d] + First(s, n - 1)
  {}

  lemma {:induction false} GoersAreFirst(groups: seq<Decision>, i: nat, room: int, go: Decision -> bool)
    requires i <= |groups|
    ensures Goers(groups, i, room, go) == First(Going(groups[i..], go), room)
    decreases |groups| - i
  {
    if i == |groups| {
      assert groups[i..] == [];
    } else if room > 0 {
      GoingFrom(groups, i, go);
      var rest := Going(groups[i + 1..], go);
      if go(groups[i]) {
        GoersAreFirst(groups, i + 1, room - 1, go);
        FirstOfMore(groups[i], rest, room);
      } else {
        GoersAreFirst(groups, i + 1, room, go);
      }
    }
  }

  lemma {:induction false} GoingFrom(groups: seq<Decision>, i: nat, go: Decision -> bool)
    requires i < |groups|
    ensures Going(groups[i..], go) == if go(groups[i]) then [groups[i]] + Going(groups[i + 1..], go)
      else Going(groups[i + 1..], go)
  {
    assert groups[i..][1..] == groups[i + 1..];
    assert [] + Going(groups[i + 1..], go) == Going(groups[i + 1..], go);
  }

  function Said(env: Env, groups: seq<Decision>): Account {
    (i: nat, n: nat, ledger: Ledger) => Emit(env, groups, i, n, Some(ledger)).announced
  }

  /** One group and the rest: what is sent of it, and the ledger that leaves. */
  lemma {:induction false} EmitsFirst(env: Env, groups: seq<Decision>, i: nat, n: nat, ledger: Ledger, original: Ledger)
    returns (later: Ledger)
    requires Apart(groups) && Steady(env, original) && SameForAll(env, ledger, original, groups, i)
    requires i < |groups| && n < env.cap
    ensures SameForAll(env, later, original, groups, i + 1)
    ensures var sent := if Goes(env, original, groups[i]) then [groups[i]] else [];
      Said(env, groups)(i, n, ledger) == sent + Said(env, groups)(i + 1, n + |sent|, later)
  {
    LaterUnaffected(env, groups, i, ledger, original);
    assert SameForAt(env, ledger, original, groups, i);
    JudgedAsHeldBack(env, i, ledger, original, groups[i]);
    later := Judged(env, i, Some(ledger), groups[i]).2.value;
    EmitOnce(env, groups, i, n, Some(ledger));
  }

  /** What is announced from the i-th group on, with n announced before, over this ledger. */
  type Account = (nat, nat, Ledger) -> seq<Decision>

  /**
   * The account is the first group, if it goes, and then the account from the next one on, judged by the same
   * markers.
   */
  ghost predicate Advances(env: Env, groups: seq<Decision>, original: Ledger, go: Decision -> bool, said: Account,
                           i: nat, n: nat, ledger: Ledger)
    requires i < |groups|
  {
    var sent, next := if go(groups[i]) then [groups[i]] else [], i + 1;
    var m := n + |sent|;
    exists later :: SameForAll(env, later, original, groups, next) && said(i, n, ledger) == sent + said(next, m, later)
  }

  ghost predicate Stops(size: nat, cap: int, said: Account) {
    forall i: nat, n: nat, ledger :: i >= size || n >= cap ==> said(i, n, ledger) == []
  }

  ghost predicate AlwaysAdvances(env: Env, groups: seq<Decision>, original: Ledger, go: Decision -> bool,
                                 said: Account) {
    forall i: nat, n: nat, ledger {:trigger Advances(env, groups, original, go, said, i, n, ledger)} ::
      i < |groups| && n < env.cap && SameForAll(env, ledger, original, groups, i) ==>
        Advances(env, groups, original, go, said, i, n, ledger)
  }

  lemma {:induction false} AnnouncesGoers(env: Env, groups: seq<Decision>, original: Ledger, go: Decision -> bool,
                                          said: Account, i: nat, n: nat, ledger: Ledger)
    requires Stops(|groups|, env.cap, said) && AlwaysAdvances(env, groups, original, go, said)
    requires SameForAll(env, ledger, original, groups, i)
    ensures said(i, n, ledger) == Goers(groups, i, env.cap - n, go)
    decreases |groups| - i
  {
    if i < |groups| && n < env.cap {
      assert Advances(env, groups, original, go, said, i, n, ledger);
      var sent, next := if go(groups[i]) then [groups[i]] else [], i + 1;
      var m := n + |sent|;
      var later :| SameForAll(env, later, original, groups, next) && said(i, n, ledger) == sent + said(next, m, later);
      AnnouncesGoers(env, groups, original, go, said, next, m, later);
      GoersStep(groups, i, env.cap - n, go, sent, said(next, m, later), said(i, n, ledger));
    }
  }

  lemma {:induction false} GoersStep(groups: seq<Decision>, i: nat, room: int, go: Decision -> bool,
                                     sent: seq<Decision>, rest: seq<Decision>, all: seq<Decision>)
    requires i < |groups| && room > 0 && sent == (if go(groups[i]) then [groups[i]] else [])
    requires rest == Goers(groups, i + 1, room - |sent|, go) && all == sent + rest
    ensures all == Goers(groups, i, room, go)
  {
    assert [] + rest == rest;
  }

  // ---------------------------------------------------------------- folded groups are apart

  /** Decisions as a pass makes them: one an event, none folded yet, no series id reported as an occurrence. */
  ghost predicate AsClassified(ds: seq<Decision>) {
    && (forall i, j :: 0 <= i < j < |ds| ==> ds[i].eventId != ds[j].eventId)
    && (forall d :: d in ds ==> !d.collapsed)
    && (forall d, d' :: d in ds && d' in ds ==> d'.seriesId != Some(d.eventId) && d.seriesId != Some(""))
  }

  lemma {:induction false} GroupOfOne(ds: seq<Decision>, k: Key)
    requires AsClassified(ds)
    ensures forall i, j :: 0 <= i < j < |Group(ds, k)| ==> Group(ds, k)[i].eventId != Group(ds, k)[j].eventId
  {
    if ds != [] {
      var front, last := ds[..|ds| - 1], ds[|ds| - 1];
      assert ds == front + [last] && AsClassified(front);
      GroupOfOne(front, k);
      GroupMembers(front, k);
      assert forall d :: d in front ==> d.eventId != last.eventId;
    }
  }

  /** A folded decision is one of the pass's own, or the flagged one of a series that some of them belong to. */
  lemma FoldedIsOwnOrSeries(ds: seq<Decision>, k: Key)
    requires AsClassified(ds) && Group(ds, k) != []
    ensures var g := Folded(Group(ds, k), k);
      && KeyOf(g) == k
      && (g.collapsed ==> g.seriesId == Some(g.eventId) && exists d :: d in ds && d.seriesId == Some(g.eventId))
      && (!g.collapsed ==> g in ds)
  {
    var group := Group(ds, k);
    GroupMembers(ds, k);
    var first := Earliest(group);
    assert first in ds && KeyOf(first) == k;
    if |group| > 1 {
      GroupOfOne(ds, k);
      assert group[0] in group && group[1] in group;
      assert KeyOf(group[0]) == KeyOf(group[1]) == k;
      assert group[0].seriesId == Some(k.0);
    }
  }

  lemma FoldedAreApart(ds: seq<Decision>, k: Key, k': Key)
    requires AsClassified(ds) && Group(ds, k) != [] && Group(ds, k') != [] && k != k'
    ensures Unaffected(Folded(Group(ds, k), k), Folded(Group(ds, k'), k'))
  {
    FoldedIsOwnOrSeries(ds, k);
    FoldedIsOwnOrSeries(ds, k');
    var g, d := Folded(Group(ds, k), k), Folded(Group(ds, k'), k');
    if !g.collapsed && !d.collapsed {
      OneAnEvent(ds, g, d);
    }
  }

  lemma OneAnEvent(ds: seq<Decision>, a: Decision, b: Decision)
    requires AsClassified(ds) && a in ds && b in ds
    ensures a.eventId == b.eventId ==> a == b
  {
    var i :| 0 <= i < |ds| && ds[i] == a;
    var j :| 0 <= j < |ds| && ds[j] == b;
  }

  ghost predicate AllApart(s: seq<Decision>) {
    forall i, j :: 0 <= i < |s| && 0 <= j < |s| && i != j ==> Unaffected(s[i], s[j])
  }

  lemma {:induction false} FoldAllAt(ds: seq<Decision>, keys: seq<Key>, i: nat)
    requires (forall k :: k in keys ==> Group(ds, k) != []) && i < |keys|
    ensures |FoldAll(ds, keys)| == |keys| && Group(ds, keys[i]) != []
      && FoldAll(ds, keys)[i] == Folded(Group(ds, keys[i]), keys[i])
  {
    assert keys[i] in keys;
    var n := |keys| - 1;
    if n > 0 { FoldAllAt(ds, keys[..n], if i < n then i else 0); }
  }

  lemma FoldAllApart(ds: seq<Decision>)
    requires AsClassified(ds)
    ensures forall k :: k in Keys(ds) ==> Group(ds, k) != []
    ensures AllApart(FoldAll(ds, Keys(ds)))
  {
    KeysHaveGroups(ds);
    var keys := Keys(ds);
    var folded := FoldAll(ds, keys);
    if keys != [] { FoldAllAt(ds, keys, 0); }
    forall i, j | 0 <= i < |folded| && 0 <= j < |folded| && i != j ensures Unaffected(folded[i], folded[j]) {
      FoldAllAt(ds, keys, i);
      FoldAllAt(ds, keys, j);
      FoldedAreApart(ds, keys[i], keys[j]);
    }
  }

  lemma {:induction false} InsertApart(sorted: seq<Decision>, d: Decision)
    requires AllApart(sorted + [d])
    ensures AllApart(Insert(sorted, d))
  {
    if sorted != [] && Before(d, sorted[|sorted| - 1]) {
      var front, last := sorted[..|sorted| - 1], sorted[|sorted| - 1];
      assert sorted == front + [last];
      var all := sorted + [d];
      assert forall i :: 0 <= i < |front| ==> (front + [d])[i] == all[i];
      assert (front + [d])[|front|] == all[|all| - 1] && all[|front|] == last;
      InsertApart(front, d);
      InsertKeeps(front, d);
      forall x | x in Insert(front, d) ensures Unaffected(x, last) && Unaffected(last, x) {
        assert x in multiset(Insert(front, d));
        if x == d {
        } else {
          assert x in multiset(front);
          var i :| 0 <= i < |front| && front[i] == x;
          assert all[i] == x;
        }
      }
    }
  }

  lemma {:induction false} SortApart(ds: seq<Decision>)
    requires AllApart(ds)
    ensures AllApart(Sort(ds))
  {
    if ds != [] {
      var front, last := ds[..|ds| - 1], ds[|ds| - 1];
      assert AllApart(front);
      SortApart(front);
      SortKeeps(front);
      forall x | x in Sort(front) ensures Unaffected(x, last) && Unaffected(last, x) {
        assert x in multiset(Sort(front));
        assert x in multiset(front);
        var i :| 0 <= i < |front| && front[i] == x;
        assert ds[i] == x;
      }
      InsertApart(Sort(front), last);
    }
  }

  /** The folded decisions of a pass, none suppressed on another's account. */
  lemma CollapsedApart(ds: seq<Decision>)
    requires AsClassified(ds)
    ensures Apart(Collapsed(ds))
  {
    FoldAllApart(ds);
    SortApart(FoldAll(ds, Keys(ds)));
  }

  /**
   * Whatever its ceiling, a pass announces the first folded decisions, in their order, that no live marker
   * answers for and whose publish goes through: as many of them as the ceiling allows.
   */
  lemma AnnouncesTheFirst(env: Env, ds: seq<Decision>, ledger: Ledger)
    requires AsClassified(ds) && Steady(env, ledger)
    ensures PassOutcome(env, ds, Some(ledger)).announced
            == First(Going(Collapsed(ds), (d: Decision) => Goes(env, ledger, d)), env.cap)
  {
    CollapsedApart(ds);
    EmitsAll(env, Collapsed(ds), ledger, (d: Decision) => Goes(env, ledger, d));
  }

  lemma EmitsAll(env: Env, groups: seq<Decision>, ledger: Ledger, go: Decision -> bool)
    requires Apart(groups) && Steady(env, ledger) && forall d :: go(d) <==> Goes(env, ledger, d)
    ensures Said(env, groups)(0, 0, ledger) == First(Going(groups, go), env.cap)
  {
    EmissionAlwaysAdvances(env, groups, ledger, go);
    EmissionStops(env, groups);
    AccountOf(env, groups, ledger, go, Said(env, groups));
  }

  lemma {:induction false} AccountOf(env: Env, groups: seq<Decision>, ledger: Ledger, go: Decision -> bool,
                                     said: Account)
    requires Stops(|groups|, env.cap, said) && AlwaysAdvances(env, groups, ledger, go, said)
    ensures said(0, 0, ledger) == First(Going(groups, go), env.cap)
  {
    AnnouncesGoers(env, groups, ledger, go, said, 0, 0, ledger);
    assert groups[0..] == groups;
    GoersAreFirst(groups, 0, env.cap, go);
  }

  lemma {:induction false} EmissionStops(env: Env, groups: seq<Decision>)
    ensures Stops(|groups|, env.cap, Said(env, groups))
  {}

  lemma EmissionAlwaysAdvances(env: Env, groups: seq<Decision>, original: Ledger, go: Decision -> bool)
    requires Apart(groups) && Steady(env, original) && forall d :: go(d) <==> Goes(env, original, d)
    ensures AlwaysAdvances(env, groups, original, go, Said(env, groups))
  {
    forall i: nat, n: nat, ledger | i < |groups| && n < env.cap && SameForAll(env, ledger, original, groups, i)
      ensures Advances(env, groups, original, go, Said(env, groups), i, n, ledger)
    {
      EmissionAdvances(env, groups, original, go, i, n, ledger);
    }
  }

  lemma {:induction false} EmissionAdvances(env: Env, groups: seq<Decision>, original: Ledger, go: Decision -> bool,
                                            i: nat, n: nat, ledger: Ledger)
    requires Apart(groups) && Steady(env, original) && SameForAll(env, ledger, original, groups, i)
    requires i < |groups| && n < env.cap && (go(groups[i]) <==> Goes(env, original, groups[i]))
    ensures Advances(env, groups, original, go, Said(env, groups), i, n, ledger)
  {
    var later := EmitsFirst(env, groups, i, n, ledger, original);
    AdvancesTo(env, groups, original, go, Said(env, groups), i, n, ledger, later);
  }

  lemma AdvancesTo(env: Env, groups: seq<Decision>, original: Ledger, go: Decision -> bool, said: Account, i: nat,
                   n: nat, ledger: Ledger, later: Ledger)
    requires i < |groups| && SameForAll(env, later, original, groups, i + 1)
    requires var sent := if go(groups[i]) then [groups[i]]
      else []; said(i, n, ledger) == sent + said(i + 1, n + |sent|, later)
    ensures Advances(env, groups, original, go, said, i, n, ledger)
  {}

  /**
   * So a pass under its ceiling announces exactly the folded decisions that no live marker answers for and
   * whose publish goes through: no group's suppression depends on the others, or on their order.
   */
  lemma AnnouncedExactly(env: Env, ds: seq<Decision>, ledger: Ledger, d: Decision)
    requires AsClassified(ds) && Steady(env, ledger) && |Collapsed(ds)| <= env.cap
    ensures d in PassOutcome(env, ds, Some(ledger)).announced <==>
            d in Collapsed(ds) && !HeldBack(env, env.clock(0), ledger, d) && env.sends(d)
  {
    AnnouncesTheFirst(env, ds, ledger);
    GoingMembers(Collapsed(ds), (d: Decision) => Goes(env, ledger, d), d);
  }
}
