/**
 * What a reconcile pass announces: decisions are folded per (series, kind), checked against the
 * self-write ledger, and published up to a ceiling.
 */
module Announce {
  import opened Basics
  import opened Spine

  // ---------------------------------------------------------------- the self-write ledger

  /** Expiry instant by (tenant, marker key). */
  type Ledger = map<(string, string), int>

  class SelfWriteLedger {
    var markers: Ledger

    constructor ()
      ensures markers == map[]
    {
      markers := map[];
    }

    /** Fails, changing nothing, when a key is repeated: the table's key is unique. */
    method Record(tenant: string, keys: seq<string>, expiry: int) returns (ok: bool)
      modifies this
      ensures ok <==> Distinct(Wanted(keys))
      ensures markers == if ok then Recorded(old(markers), tenant, keys, expiry) else old(markers)
    {
      var pending := markers;
      ok := true;
      var wanted := Wanted(keys);
      for i := 0 to |wanted|
        invariant markers == old(markers)
        invariant ok <==> Distinct(wanted[..i])
        invariant ok ==> pending == Recorded'(markers, tenant, wanted[..i], expiry)
      {
        assert wanted[..i + 1][..i] == wanted[..i];
        DistinctSnoc(wanted, i);
        if wanted[i] in wanted[..i] {
          ok := false;
        } else if ok {
          pending := pending[(tenant, wanted[i]) := expiry];
        }
      }
      assert wanted[..|wanted|] == wanted;
      if ok {
        markers := pending;
      }
    }

    method Consume(tenant: string, key: string, now: int) returns (marked: bool)
      modifies this
      ensures marked <==> Marked(old(markers), tenant, key, now)
      ensures markers == old(markers) - {(tenant, key)}
    {
      if (tenant, key) !in markers {
        return false;
      }
      marked := markers[(tenant, key)] > now;
      markers := markers - {(tenant, key)};
    }

    method Peek(tenant: string, key: string, now: int) returns (marked: bool)
      ensures marked <==> Marked(markers, tenant, key, now)
    {
      marked := (tenant, key) in markers && markers[(tenant, key)] > now;
    }

    method Prune(tenant: string, now: int)
      modifies this
      ensures forall m :: m in markers <==> m in old(markers) && !(m.0 == tenant && old(markers)[m] <= now)
      ensures forall m :: m in markers ==> markers[m] == old(markers)[m]
    {
      markers := map m | m in markers && (m.0 != tenant || now < markers[m]) :: markers[m];
    }
  }

  predicate Marked(ledger: Ledger, tenant: string, key: string, now: int) {
    (tenant, key) in ledger && now < ledger[(tenant, key)]
  }

  /** The non-empty keys. */
  function Wanted(keys: seq<string>): seq<string> {
    if keys == [] then []
    else (if keys[0] == "" then [] else [keys[0]]) + Wanted(keys[1..])
  }

  function Recorded'(ledger: Ledger, tenant: string, wanted: seq<string>, expiry: int): Ledger {
    if wanted == [] then ledger
    else Recorded'(ledger, tenant, wanted[..|wanted| - 1], expiry)[(tenant, wanted[|wanted| - 1]) := expiry]
  }

  function Recorded(ledger: Ledger, tenant: string, keys: seq<string>, expiry: int): Ledger {
    Recorded'(ledger, tenant, Wanted(keys), expiry)
  }

  function Pruned(ledger: Ledger, tenant: string, now: int): Ledger {
    map m | m in ledger && (m.0 != tenant || now < ledger[m]) :: ledger[m]
  }

  lemma {:induction false} RecordedMarkers(ledger: Ledger, tenant: string, wanted: seq<string>, expiry: int,
                                           m: (string, string))
    ensures m in Recorded'(ledger, tenant, wanted, expiry) <==> m in ledger || (m.0 == tenant && m.1 in wanted)
    ensures m in Recorded'(ledger, tenant, wanted, expiry) ==>
      Recorded'(ledger, tenant, wanted, expiry)[m] ==
        if m.0 == tenant && m.1 in wanted then expiry else ledger[m]
  {
    if wanted != [] {
      var n := |wanted| - 1;
      RecordedMarkers(ledger, tenant, wanted[..n], expiry, m);
      assert wanted == wanted[..n] + [wanted[n]];
    }
  }

  // ---------------------------------------------------------------- folding a series' occurrences

  type Key = (string, Kind)

  function KeyOf(d: Decision): Key {
    (Or(d.seriesId, Some(d.eventId)).value, d.kind)
  }

  /** Group keys in the order their first member appears, as a dict keeps them. */
  function Keys(ds: seq<Decision>): seq<Key> {
    if ds == [] then []
    else
      var front := Keys(ds[..|ds| - 1]);
      var k := KeyOf(ds[|ds| - 1]);
      if k in front then front else front + [k]
  }

  function Group(ds: seq<Decision>, k: Key): seq<Decision> {
    if ds == [] then []
    else
      var front := Group(ds[..|ds| - 1], k);
      var last := ds[|ds| - 1];
      if KeyOf(last) == k then front + [last] else front
  }

  /** Python's min by start: the first of the earliest. */
  function Earliest(group: seq<Decision>): (d: Decision)
    requires group != []
    ensures d in group
    ensures forall g :: g in group ==> d.start <= g.start
  {
    if |group| == 1 then group[0]
    else
      var e := Earliest(group[..|group| - 1]);
      var last := group[|group| - 1];
      if last.start < e.start then last else e
  }

  function Folded(group: seq<Decision>, k: Key): Decision
    requires group != []
  {
    var first := Earliest(group);
    if |group| == 1 then first
    else first.(eventId := k.0, seriesId := Some(k.0),
                collapsed := exists d :: d in group && d.seriesId == Some(k.0))
  }

  lemma {:induction false} EarliestIsFirst(group: seq<Decision>) returns (j: nat)
    requires group != []
    ensures j < |group| && Earliest(group) == group[j]
    ensures forall i :: 0 <= i < j ==> group[j].start < group[i].start
  {
    j := 0;
    if |group| > 1 {
      var n := |group| - 1;
      var i := EarliestIsFirst(group[..n]);
      j := if group[n].start < group[i].start then n else i;
    }
  }

  /**
   * What folding a group makes of it: the first of its earliest members, as it is when it is alone, and
   * otherwise re-keyed onto the group and flagged exactly when some member belongs to the series of that key.
   */
  lemma FoldedMeans(group: seq<Decision>, k: Key) returns (j: nat)
    requires group != []
    ensures j < |group| && (forall i :: 0 <= i < |group| ==> group[j].start <= group[i].start)
    ensures forall i :: 0 <= i < j ==> group[j].start < group[i].start
    ensures Earliest(group) == group[j]
    ensures var d := Folded(group, k);
      if |group| == 1 then d == group[0]
      else d == group[j].(eventId := k.0, seriesId := Some(k.0), collapsed := d.collapsed)
           && (d.collapsed <==> exists i :: 0 <= i < |group| && group[i].seriesId == Some(k.0))
  {
    j := EarliestIsFirst(group);
    assert forall i :: 0 <= i < |group| ==> group[i] in group;
  }

  /** Lexicographic order on strings, by code point. */
  predicate StringLess(a: string, b: string) {
    b != "" && (a == "" || a[0] < b[0] || (a[0] == b[0] && StringLess(a[1..], b[1..])))
  }

  predicate Before(a: Decision, b: Decision) {
    a.start < b.start || (a.start == b.start && StringLess(a.eventId, b.eventId))
  }

  /** Stable insertion: past everything not after d. */
  function Insert(sorted: seq<Decision>, d: Decision): seq<Decision> {
    if sorted == [] || !Before(d, sorted[|sorted| - 1]) then sorted + [d]
    else Insert(sorted[..|sorted| - 1], d) + [sorted[|sorted| - 1]]
  }

  function Sort(ds: seq<Decision>): seq<Decision> {
    if ds == [] then [] else Insert(Sort(ds[..|ds| - 1]), ds[|ds| - 1])
  }

  function FoldAll(ds: seq<Decision>, keys: seq<Key>): seq<Decision>
    requires forall k :: k in keys ==> Group(ds, k) != []
  {
    if keys == [] then []
    else FoldAll(ds, keys[..|keys| - 1]) + [Folded(Group(ds, keys[|keys| - 1]), keys[|keys| - 1])]
  }

  function Collapsed(ds: seq<Decision>): seq<Decision> {
    KeysHaveGroups(ds);
    Sort(FoldAll(ds, Keys(ds)))
  }

  lemma {:induction false} KeysHaveGroups(ds: seq<Decision>)
    ensures forall k :: k in Keys(ds) <==> Group(ds, k) != []
    ensures Distinct(Keys(ds))
  {
    if ds != [] {
      KeysHaveGroups(ds[..|ds| - 1]);
    }
  }

  lemma {:induction false} GroupMembers(ds: seq<Decision>, k: Key)
    ensures forall d :: d in Group(ds, k) <==> d in ds && KeyOf(d) == k
  {
    if ds != [] {
      var n := |ds| - 1;
      GroupMembers(ds[..n], k);
      assert ds == ds[..n] + [ds[n]];
    }
  }

  /** One dict entry per group key, its members in order, and the keys in the order they were first met. */
  method GroupUp(ds: seq<Decision>) returns (order: seq<Key>, grouped: map<Key, seq<Decision>>)
    ensures order == Keys(ds) && grouped.Keys == set k | k in order
    ensures forall k :: k in grouped ==> grouped[k] == Group(ds, k)
  {
    order, grouped := [], map[];
    for i := 0 to |ds|
      invariant order == Keys(ds[..i])
      invariant forall k :: k in grouped <==> k in order
      invariant forall k :: k in grouped ==> grouped[k] == Group(ds[..i], k)
    {
      assert ds[..i + 1][..i] == ds[..i];
      KeysHaveGroups(ds[..i]);
      var k := KeyOf(ds[i]);
      if k !in grouped {
        grouped := grouped[k := []];
        order := order + [k];
      }
      grouped := grouped[k := grouped[k] + [ds[i]]];
    }
    assert ds[..|ds|] == ds;
  }

  method Fold(group: seq<Decision>, k: Key) returns (d: Decision)
    requires group != []
    ensures d == Folded(group, k)
  {
    d := Earliest(group);
    if |group| != 1 {
      var scoped := exists g :: g in group && g.seriesId == Some(k.0);
      d := d.(eventId := k.0, seriesId := Some(k.0), collapsed := scoped);
    }
  }

  lemma FoldAllSnoc(ds: seq<Decision>, keys: seq<Key>, i: nat)
    requires i < |keys| && forall k :: k in keys ==> Group(ds, k) != []
    ensures Group(ds, keys[i]) != []
    ensures FoldAll(ds, keys[..i + 1]) == FoldAll(ds, keys[..i]) + [Folded(Group(ds, keys[i]), keys[i])]
  {
    assert keys[i] in keys && keys[..i + 1][..i] == keys[..i];
  }

  method Collapse(ds: seq<Decision>) returns (out: seq<Decision>)
    ensures out == Collapsed(ds)
  {
    var order, grouped := GroupUp(ds);
    KeysHaveGroups(ds);
    var folded: seq<Decision> := [];
    for i := 0 to |order|
      invariant folded == FoldAll(ds, order[..i])
    {
      FoldAllSnoc(ds, order, i);
      var d := Fold(grouped[order[i]], order[i]);
      folded := folded + [d];
    }
    assert order[..|order|] == order;
    out := Sort(folded);
  }

  // ---------------------------------------------------------------- what folding keeps

  lemma {:induction false} InsertKeeps(sorted: seq<Decision>, d: Decision)
    ensures multiset(Insert(sorted, d)) == multiset(sorted) + multiset{d}
  {
    if sorted != [] && Before(d, sorted[|sorted| - 1]) {
      var n := |sorted| - 1;
      InsertKeeps(sorted[..n], d);
      assert sorted == sorted[..n] + [sorted[n]];
    }
  }

  ghost predicate Ordered(s: seq<Decision>) {
    forall i :: 0 <= i < |s| - 1 ==> !Before(s[i + 1], s[i])
  }

  lemma BeforeAsymmetric(a: Decision, b: Decision)
    requires Before(a, b)
    ensures !Before(b, a)
  {
    if a.start == b.start { StringLessAsymmetric(a.eventId, b.eventId); }
  }

  lemma {:induction false} StringLessAsymmetric(a: string, b: string)
    requires StringLess(a, b)
    ensures !StringLess(b, a)
  {
    if a != "" && a[0] == b[0] {
      StringLessAsymmetric(a[1..], b[1..]);
    }
  }

  lemma {:induction false} InsertOrdered(sorted: seq<Decision>, d: Decision)
    requires Ordered(sorted)
    ensures Ordered(Insert(sorted, d)) && |Insert(sorted, d)| == |sorted| + 1
    ensures var last := Insert(sorted, d)[|sorted|];
      last == d || (sorted != [] && last == sorted[|sorted| - 1])
  {
    if sorted != [] && Before(d, sorted[|sorted| - 1]) {
      var n := |sorted| - 1;
      InsertOrdered(sorted[..n], d);
      BeforeAsymmetric(d, sorted[n]);
      var r := Insert(sorted[..n], d);
      assert r[|r| - 1] == d || (n > 0 && r[|r| - 1] == sorted[n - 1]);
    }
  }

  lemma {:induction false} SortKeeps(ds: seq<Decision>)
    ensures multiset(Sort(ds)) == multiset(ds)
  {
    if ds != [] {
      var n := |ds| - 1;
      SortKeeps(ds[..n]);
      InsertKeeps(Sort(ds[..n]), ds[n]);
      assert Sort(ds) == Insert(Sort(ds[..n]), ds[n]);
      assert ds == ds[..n] + [ds[n]];
      assert multiset(ds) == multiset(ds[..n]) + multiset{ds[n]};
    }
  }

  lemma {:induction false} SortSorts(ds: seq<Decision>)
    ensures multiset(Sort(ds)) == multiset(ds) && Ordered(Sort(ds))
  {
    SortKeeps(ds);
    if ds != [] {
      SortSorts(ds[..|ds| - 1]);
      InsertOrdered(Sort(ds[..|ds| - 1]), ds[|ds| - 1]);
    }
  }

  lemma {:induction false} FoldAllMembers(ds: seq<Decision>, keys: seq<Key>, out: Decision)
    requires forall k :: k in keys ==> Group(ds, k) != []
    ensures out in FoldAll(ds, keys) <==> exists k :: k in keys && Folded(Group(ds, k), k) == out
  {
    if keys != [] {
      var n := |keys| - 1;
      FoldAllMembers(ds, keys[..n], out);
      assert keys == keys[..n] + [keys[n]];
      if k :| k in keys && Folded(Group(ds, k), k) == out {
        assert k in keys[..n] || k == keys[n];
      }
      if out in FoldAll(ds, keys) && out !in FoldAll(ds, keys[..n]) {
        assert keys[n] in keys && Folded(Group(ds, keys[n]), keys[n]) == out;
      }
    }
  }

  /** Group sizes add up: every decision is in exactly one group. */
  function GroupedCount(ds: seq<Decision>, keys: seq<Key>): nat {
    if keys == [] then 0 else GroupedCount(ds, keys[..|keys| - 1]) + |Group(ds, keys[|keys| - 1])|
  }

  lemma {:induction false} GroupedCountStep(ds: seq<Decision>, keys: seq<Key>)
    requires ds != [] && Distinct(keys)
    ensures GroupedCount(ds, keys) ==
      GroupedCount(ds[..|ds| - 1], keys) + if KeyOf(ds[|ds| - 1]) in keys then 1 else 0
  {
    if keys != [] {
      var n := |keys| - 1;
      GroupedCountStep(ds, keys[..n]);
      assert keys == keys[..n] + [keys[n]];
    }
  }

  lemma {:induction false} GroupedCountAppend(ds: seq<Decision>, keys: seq<Key>, k: Key)
    ensures GroupedCount(ds, keys + [k]) == GroupedCount(ds, keys) + |Group(ds, k)|
  {
    assert (keys + [k])[..|keys|] == keys;
  }

  lemma {:induction false} GroupsPartition(ds: seq<Decision>)
    ensures GroupedCount(ds, Keys(ds)) == |ds|
  {
    if ds != [] {
      var n := |ds| - 1;
      GroupsPartition(ds[..n]);
      KeysHaveGroups(ds[..n]);
      KeysHaveGroups(ds);
      GroupedCountStep(ds, Keys(ds));
      if KeyOf(ds[n]) !in Keys(ds[..n]) {
        GroupedCountAppend(ds[..n], Keys(ds[..n]), KeyOf(ds[n]));
      }
    }
  }

  /** A group key is one that some decision has. */
  lemma KeysAreMet(ds: seq<Decision>, k: Key)
    ensures k in Keys(ds) <==> exists d :: d in ds && KeyOf(d) == k
  {
    KeysHaveGroups(ds);
    GroupMembers(ds, k);
    if k in Keys(ds) {
      assert Group(ds, k)[0] in Group(ds, k);
    }
  }

  lemma SameMembers(a: seq<Decision>, b: seq<Decision>, x: Decision)
    requires multiset(a) == multiset(b)
    ensures x in a <==> x in b
    ensures |a| == |b|
  {
    assert x in a <==> x in multiset(a);
    assert x in b <==> x in multiset(b);
    assert |a| == |multiset(a)| && |b| == |multiset(b)|;
  }

  /** One result a group, in order of start and then id. */
  lemma CollapsedIsOrdered(ds: seq<Decision>)
    ensures |Collapsed(ds)| == |Keys(ds)| && Distinct(Keys(ds)) && Ordered(Collapsed(ds))
  {
    KeysHaveGroups(ds);
    var folded := FoldAll(ds, Keys(ds));
    FoldAllLength(ds, Keys(ds));
    SortSorts(folded);
    assert |Sort(folded)| == |multiset(Sort(folded))| == |multiset(folded)| == |folded|;
  }

  lemma {:induction false} FoldAllLength(ds: seq<Decision>, keys: seq<Key>)
    requires forall k :: k in keys ==> Group(ds, k) != []
    ensures |FoldAll(ds, keys)| == |keys|
  {
    if keys != [] { FoldAllLength(ds, keys[..|keys| - 1]); }
  }

  /**
   * Folding answers each group with one decision: a lone member unchanged, and otherwise the earliest
   * member re-keyed onto the group, flagged exactly when the group's key is one of its members' series.
   */
  lemma CollapseFoldsGroups(ds: seq<Decision>, out: Decision)
    ensures out in Collapsed(ds) <==> exists k :: k in Keys(ds) && Group(ds, k) != [] && Folded(Group(ds, k), k) == out
  {
    KeysHaveGroups(ds);
    var folded := FoldAll(ds, Keys(ds));
    FoldAllMembers(ds, Keys(ds), out);
    SortSorts(folded);
    SameMembers(Sort(folded), folded, out);
  }

  lemma DistinctSnoc(s: seq<string>, i: nat)
    requires i < |s|
    ensures Distinct(s[..i + 1]) <==> Distinct(s[..i]) && s[i] !in s[..i]
  {
    var front, more := s[..i], s[..i + 1];
    assert more == front + [s[i]];
    if Distinct(more) {
      forall a, b | 0 <= a < b < i ensures front[a] != front[b] {
        assert more[a] == front[a] && more[b] == front[b];
      }
      forall a | 0 <= a < i ensures front[a] != s[i] {
        assert more[a] == front[a] && more[i] == s[i];
      }
    }
  }

  /** The empty keys are left out of a recording, and no others. */
  lemma {:induction false} WantedMembers(keys: seq<string>, k: string)
    ensures k in Wanted(keys) <==> k in keys && k != ""
  {
    if keys != [] {
      WantedMembers(keys[1..], k);
      assert keys == [keys[0]] + keys[1..];
    }
  }
}
