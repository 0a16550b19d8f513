/**
 * A "this and following" edit whose new master starts somewhere else than the split, and one that a
 * crash stops between two of its commits.
 */
module FollowingEdit {
  import opened Basics
  import opened Timestamps
  import opened Recurrence
  import opened EventStore

  // ---------------------------------------------------------------- rules of a fixed period

  predicate PlainPart(name: string) {
    name == "FREQ" || name == "INTERVAL" || name == "WKST"
  }

  /** FREQ from SECONDLY to WEEKLY and, COUNT and UNTIL apart, no BY part. */
  predicate FixedShape(shape: Parts) {
    Period(shape).Some? && forall p :: p in shape ==> PlainPart(p.0)
  }

  predicate FixedPeriod(parts: Parts) {
    FixedShape(Shape(parts))
  }

  predicate IsStep(at: Pattern, shape: Parts, s: Instant, k: nat) {
    FixedShape(shape) ==> at(shape, s, k) == s + k * Step(shape)
  }

  /** The pattern takes rules of a fixed period in equal steps, and others as it will. */
  ghost predicate Arithmetic(at: Pattern) {
    forall shape, s, k: nat :: IsStep(at, shape, s, k)
  }

  lemma StepIsPositive(shape: Parts)
    ensures Step(shape) >= 1
  {
    Product(if Period(shape).Some? then Period(shape).value else 1, Interval(shape));
  }

  /** t is a whole number of steps from s on. */
  predicate OnGrid(s: Instant, t: Instant, step: nat)
    requires step >= 1
  {
    s <= t && (t - s) % step == 0
  }

  lemma Multiple(a: int, k: int, step: nat)
    requires step >= 1 && a == k * step
    ensures a % step == 0 && a / step == k
  {
    DivUnique(a, step, k, 0);
  }

  lemma {:induction false} QuotientTimes(a: int, step: nat)
    requires step >= 1 && a % step == 0
    ensures a == a / step * step
  {}

  /** An instant is an occurrence exactly when it is on the grid from the start, and within COUNT and UNTIL. */
  lemma ProgressionOccursIff(at: Pattern, parts: Parts, start: Instant, t: Instant)
    requires Arithmetic(at) && Readable(parts) && FixedPeriod(parts) && Step(Shape(parts)) >= 1
    ensures OccursIn(at, parts, start, t) <==>
      OnGrid(start, t, Step(Shape(parts))) && (t - start) / Step(Shape(parts)) >= 0
      && Within(parts, (t - start) / Step(Shape(parts)), t)
  {
    var step := Step(Shape(parts));
    if OccursIn(at, parts, start, t) {
      var k: nat :| t == at(Shape(parts), start, k) && Within(parts, k, t);
      assert IsStep(at, Shape(parts), start, k);
      Multiple(t - start, k, step);
    }
    if OnGrid(start, t, step) {
      QuotientTimes(t - start, step);
      var k := (t - start) / step;
      assert IsStep(at, Shape(parts), start, k);
      assert t == at(Shape(parts), start, k);
    }
  }

  /** On a grid from the split, a whole number of steps from another start means the start moved by whole steps. */
  lemma SameGrid(split: Instant, anchor: Instant, t: Instant, step: nat)
    requires step >= 1 && (t - split) % step == 0
    ensures (t - anchor) % step == 0 <==> (anchor - split) % step == 0
  {
    QuotientTimes(t - split, step);
    var n := (t - split) / step;
    if (t - anchor) % step == 0 {
      QuotientTimes(t - anchor, step);
      var m := (t - anchor) / step;
      assert anchor - split == (n - m) * step;
      Multiple(anchor - split, n - m, step);
    }
    if (anchor - split) % step == 0 {
      QuotientTimes(anchor - split, step);
      var m := (anchor - split) / step;
      assert t - anchor == (n - m) * step;
      Multiple(t - anchor, n - m, step);
    }
  }

  // ---------------------------------------------------------------- a new master that starts elsewhere

  /** An override of an occurrence after the split, which the edit moves to the new series. */
  predicate LaterOverride(row: Row, tenant: string, series: string, split: Instant) {
    ExceptionOf(row, tenant, series) && OriginalStart(row).Some? && split < OriginalStart(row).value
  }

  /**
   * What an editor can read off the edit and an override that replaces the occurrence at t: the new start is
   * a whole number of periods from the split, not after t, and, for COUNT, the occurrences left reach t.
   */
  predicate FitsOne(parts: Parts, before: nat, split: Instant, anchor: Instant, t: Instant)
    requires Readable(parts) && CountFits(parts, before) && FixedPeriod(parts) && Step(Shape(parts)) >= 1
  {
    && (anchor - split) % Step(Shape(parts)) == 0 && anchor <= t
    && (Limit(parts).Some? ==> (t - anchor) / Step(Shape(parts)) < Limit(parts).value - before)
  }

  /** The move fits every later override. */
  ghost predicate MoveFits(rows: seq<Row>, tenant: string, series: string, parts: Parts, before: nat, split: Instant,
                           anchor: Instant)
    requires Readable(parts) && CountFits(parts, before) && FixedPeriod(parts) && Step(Shape(parts)) >= 1
  {
    forall row :: row in rows && LaterOverride(row, tenant, series, split) ==>
      FitsOne(parts, before, split, anchor, OriginalStart(row).value)
  }

  /** The overrides the edit leaves on the new series are the later ones of the old, each with its original start. */
  lemma MovedOverrides(rows: seq<Row>, tenant: string, series: string, target: string, split: Instant, row: Row)
    returns (moved: Row)
    requires CanonicalOverrides(rows) && FreshSeries(rows, target) && series != target && Printable(split)
    requires row in rows && LaterOverride(row, tenant, series, split)
    ensures moved in AfterSplit(rows, tenant, series, target, split)
    ensures ExceptionOf(moved, tenant, target) && OriginalStart(moved) == OriginalStart(row)
  {
    var i :| 0 <= i < |rows| && rows[i] == row;
    moved := Repointed(rows, tenant, series, target, split)[i];
    RehomingMovesExactlyTheLater(rows, tenant, series, target, split, i);
    InstanceIdRoundTrip(series, split);
    assert moved in Repointed(rows, tenant, series, target, split);
    WithoutIdMembers(Repointed(rows, tenant, series, target, split), tenant, InstanceId(series, split), moved);
  }

  lemma OnOneGrid(at: Pattern, parts: Parts, start: Instant, split: Instant, t: Instant)
    requires Arithmetic(at) && Readable(parts) && FixedPeriod(parts) && Step(Shape(parts)) >= 1
    requires OccursIn(at, parts, start, split) && OccursIn(at, parts, start, t)
    ensures (t - split) % Step(Shape(parts)) == 0 && (Deadline(parts).Some? ==> t <= Deadline(parts).value)
  {
    var j: nat :| split == at(Shape(parts), start, j) && Within(parts, j, split);
    var k: nat :| t == at(Shape(parts), start, k) && Within(parts, k, t);
    assert IsStep(at, Shape(parts), start, j) && IsStep(at, Shape(parts), start, k);
    StepsApart(start, split, t, j, k, Step(Shape(parts)));
  }

  lemma StepsApart(start: int, split: int, t: int, j: nat, k: nat, step: nat)
    requires step >= 1 && split == start + j * step && t == start + k * step
    ensures (t - split) % step == 0
  {
    assert t - split == (k - j) * step;
    Multiple(t - split, k - j, step);
  }

  /** The continued rule: the same shape and UNTIL, COUNT lessened. */
  ghost predicate IsTail(parts: Parts, tail: Parts, before: nat)
    requires Readable(parts) && CountFits(parts, before)
  {
    && Readable(tail) && Shape(tail) == Shape(parts) && Deadline(tail) == Deadline(parts)
    && Limit(tail) == match Limit(parts) case None => None case Some(total) => Some(total - before)
  }

  /**
   * A later override sits on an occurrence of the continued rule, started at the anchor, exactly when the move
   * fits it.
   */
  lemma OneOverrideFits(at: Pattern, parts: Parts, tail: Parts, start: Instant, split: Instant, anchor: Instant,
                        before: nat, t: Instant)
    requires Arithmetic(at) && Readable(parts) && CountFits(parts, before) && FixedPeriod(parts)
      && Step(Shape(parts)) >= 1
    requires IsTail(parts, tail, before)
    requires OccursIn(at, parts, start, split) && OccursIn(at, parts, start, t)
    ensures OccursIn(at, tail, anchor, t) <==> FitsOne(parts, before, split, anchor, t)
  {
    OnOneGrid(at, parts, start, split, t);
    SameGrid(split, anchor, t, Step(Shape(parts)));
    TailFits(at, parts, tail, anchor, before, t);
  }

  lemma TailFits(at: Pattern, parts: Parts, tail: Parts, anchor: Instant, before: nat, t: Instant)
    requires Arithmetic(at) && Readable(parts) && FixedPeriod(parts) && Step(Shape(parts)) >= 1
    requires CountFits(parts, before) && IsTail(parts, tail, before)
    requires Deadline(parts).Some? ==> t <= Deadline(parts).value
    ensures OccursIn(at, tail, anchor, t) <==>
      && (t - anchor) % Step(Shape(parts)) == 0 && anchor <= t
      && (Limit(parts).Some? ==> (t - anchor) / Step(Shape(parts)) < Limit(parts).value - before)
  {
    ProgressionOccursIff(at, tail, anchor, t);
    if anchor <= t {
      NotNegative(t - anchor, Step(Shape(parts)));
      TailWithinIff(parts, tail, before, (t - anchor) / Step(Shape(parts)), t);
    }
  }

  lemma NotNegative(a: nat, step: nat)
    requires step >= 1
    ensures a / step >= 0
  {}

  lemma TailWithinIff(parts: Parts, tail: Parts, before: nat, k: nat, t: Instant)
    requires Readable(parts) && CountFits(parts, before) && IsTail(parts, tail, before)
    requires Deadline(parts).Some? ==> t <= Deadline(parts).value
    ensures Within(tail, k, t) <==> (Limit(parts).Some? ==> k < Limit(parts).value - before)
  {}

  /**
   * The anchor matters. When the edit names a start of its own, or the split occurrence had been moved, the
   * new master starts there, earlier or later than the split. For a rule of a fixed period, with COUNT,
   * UNTIL or neither, the overrides the edit moves then sit on occurrences of the new series if and only if
   * the move is by whole periods, passes no later override, and leaves COUNT enough occurrences to reach it.
   */
  lemma MovedSplitKeepsOverridesIff(at: Pattern, rows: seq<Row>, tenant: string, series: string, target: string,
                                    text: string, start: Instant, split: Instant, anchor: Instant)
    returns (before: nat, tail: string)
    requires Regular(at) && Arithmetic(at)
    requires Readable(PartsOf(text)) && FixedPeriod(PartsOf(text)) && Occurs(at, text, start, split)
    requires CanonicalOverrides(rows) && FreshSeries(rows, target) && series != target && Printable(split)
    requires Anchored(rows, tenant, series, at, text, start)
    ensures Step(Shape(PartsOf(text))) >= 1
    ensures before == CountBefore(at, PartsOf(text), start, split) && CountFits(PartsOf(text), before)
    ensures tail == TextOf(TailParts(PartsOf(text), before)) && Readable(PartsOf(tail))
    ensures Anchored(AfterSplit(rows, tenant, series, target, split), tenant, target, at, tail, anchor)
            <==> MoveFits(rows, tenant, series, PartsOf(text), before, split, anchor)
  {
    var parts := PartsOf(text);
    StepIsPositive(Shape(parts));
    PartsOfClean(text);
    CountBeforeFits(at, parts, start, split);
    before := CountBefore(at, parts, start, split);
    TailShape(parts, before);
    tail := TextOf(TailParts(parts, before));
    AnchoredIffMoveFits(at, rows, tenant, series, target, parts, before, start, split, anchor, tail);
  }

  lemma AnchoredIffMoveFits(at: Pattern, rows: seq<Row>, tenant: string, series: string, target: string, parts: Parts,
                            before: nat, start: Instant, split: Instant, anchor: Instant, tail: string)
    requires Arithmetic(at) && Readable(parts) && CountFits(parts, before) && FixedPeriod(parts)
      && Step(Shape(parts)) >= 1
    requires IsTail(parts, PartsOf(tail), before)
    requires OccursIn(at, parts, start, split)
    requires CanonicalOverrides(rows) && FreshSeries(rows, target) && series != target && Printable(split)
    requires OverridesOn(at, rows, tenant, series, parts, start)
    ensures Anchored(AfterSplit(rows, tenant, series, target, split), tenant, target, at, tail, anchor)
            <==> MoveFits(rows, tenant, series, parts, before, split, anchor)
  {
    var rows' := AfterSplit(rows, tenant, series, target, split);
    if Anchored(rows', tenant, target, at, tail, anchor) {
      forall row | row in rows && LaterOverride(row, tenant, series, split)
        ensures FitsOne(parts, before, split, anchor, OriginalStart(row).value)
      {
        var moved := MovedOverrides(rows, tenant, series, target, split, row);
        OneOverrideFits(at, parts, PartsOf(tail), start, split, anchor, before, OriginalStart(row).value);
      }
    }
    if MoveFits(rows, tenant, series, parts, before, split, anchor) {
      forall row | row in rows' && ExceptionOf(row, tenant, target)
        ensures OriginalStart(row).Some? && Occurs(at, tail, anchor, OriginalStart(row).value)
      {
        var was := OverrideAfterSplit(rows, tenant, series, target, split, row);
        assert LaterOverride(was, tenant, series, split);
        OneOverrideFits(at, parts, PartsOf(tail), start, split, anchor, before, OriginalStart(was).value);
      }
    }
  }

  /** Every override of the series replaces an occurrence of the rule with these parts. */
  ghost predicate OverridesOn(at: Pattern, rows: seq<Row>, tenant: string, series: string, parts: Parts, start: Instant)
    requires Readable(parts)
  {
    forall row :: row in rows && ExceptionOf(row, tenant, series) ==>
      OriginalStart(row).Some? && OccursIn(at, parts, start, OriginalStart(row).value)
  }

  /** The progression itself is such a pattern. */
  lemma ProgressionIsArithmetic()
    ensures Regular(Progression) && Arithmetic(Progression)
  {
    ProgressionIsRegular();
  }

  // ---------------------------------------------------------------- a failing edit

  const FIRST: Instant := 739000 * DAY

  /** The third day's occurrence, given another title. */
  function ThirdDay(tenant: string, series: string, first: Instant): Row {
    Row(tenant, InstanceId(series, first + 2 * DAY), first + 2 * DAY, first + 2 * DAY + 3600, None, Some(series),
        false, "renamed")
  }

  lemma OnePart(parts: Parts, name: string, value: string, key: string)
    requires parts == [(name, value)]
    ensures Get(parts, key) == if key == name then Some(value) else None
    ensures Pop(parts, key) == if key == name then [] else parts
  {
    assert parts[1..] == [];
  }

  /** A rule that repeats every day without end. */
  ghost predicate Daily(parts: Parts, name: string, value: string) {
    parts == [(name, value)] && name == "FREQ" && value == "DAILY"
  }

  lemma OnePartRule(parts: Parts, name: string, value: string, count: string, until: string)
    requires parts == [(name, value)] && Clean((name, value)) && name != count && name != until
    requires count == "COUNT" && until == "UNTIL"
    ensures CleanParts(parts) && Readable(parts) && Shape(parts) == parts && Limit(parts) == None
      && Deadline(parts) == None
    ensures PartsOf(TextOf(parts)) == parts
  {
    OnePart(parts, name, value, count);
    OnePart(parts, name, value, until);
    PartsRoundTrip(parts);
  }

  lemma DailyRule(parts: Parts, name: string, value: string)
    requires Daily(parts, name, value)
    ensures CleanParts(parts) && PartsOf(TextOf(parts)) == parts && Readable(parts)
    ensures Limit(parts) == None && Deadline(parts) == None && Shape(parts) == parts
  {
    assert |name| == 4;
    OnePartRule(parts, name, value, "COUNT", "UNTIL");
  }

  lemma DailyStep(parts: Parts, name: string, value: string, interval: string)
    requires Daily(parts, name, value) && interval == "INTERVAL"
    ensures Period(parts) == Some(DAY) && Interval(parts) == 1 && Step(parts) == DAY
    ensures forall p :: p in parts ==> PlainPart(p.0)
  {
    OnePart(parts, name, value, name);
    OnePart(parts, name, value, interval);
  }

  /** The second day is the split, and the renamed third day a later override of the series. */
  lemma DailyEdit(at: Pattern, parts: Parts, tenant: string, series: string, target: string, first: Instant)
    requires Arithmetic(at) && Readable(parts) && Limit(parts) == None && Deadline(parts) == None
    requires FixedPeriod(parts) && Step(Shape(parts)) == DAY
    requires series != target && 400000 * DAY <= first < 2000000 * DAY
    ensures OccursIn(at, parts, first, first + DAY) && OccursIn(at, parts, first, first + 2 * DAY)
    ensures Printable(first + DAY)
    ensures var row := ThirdDay(tenant, series, first);
      && LaterOverride(row, tenant, series, first + DAY) && OriginalStart(row) == Some(first + 2 * DAY)
      && CanonicalOverrides([row]) && FreshSeries([row], target)
  {
    PrintableDay(first + DAY);
    ThirdDayFits(tenant, series, target, first);
    DailyOccurrence(at, parts, first, 1);
    DailyOccurrence(at, parts, first, 2);
  }

  lemma DailyOccurrence(at: Pattern, parts: Parts, first: Instant, i: nat)
    requires Arithmetic(at) && Readable(parts) && Limit(parts) == None && Deadline(parts) == None
    requires FixedPeriod(parts) && Step(Shape(parts)) == DAY
    ensures OccursIn(at, parts, first, first + i * DAY)
  {
    assert IsStep(at, Shape(parts), first, i);
    assert first + i * DAY == at(Shape(parts), first, i) && Within(parts, i, first + i * DAY);
  }

  lemma ThirdDayFits(tenant: string, series: string, target: string, first: Instant)
    requires series != target && 400000 * DAY <= first < 2000000 * DAY
    ensures var row := ThirdDay(tenant, series, first);
      && LaterOverride(row, tenant, series, first + DAY) && OriginalStart(row) == Some(first + 2 * DAY)
      && CanonicalOverrides([row]) && FreshSeries([row], target)
  {
    PrintableDay(first + 2 * DAY);
    InstanceIdRoundTrip(series, first + 2 * DAY);
  }

  /** Any later override of a daily rule is orphaned by a move of less than a day. */
  lemma ShortMoveOrphans(at: Pattern, parts: Parts, tail: Parts, start: Instant, split: Instant, before: nat,
                         t: Instant, shift: nat)
    requires Arithmetic(at) && Readable(parts) && CountFits(parts, before) && IsTail(parts, tail, before)
    requires FixedPeriod(parts) && Step(Shape(parts)) == DAY && 0 < shift < DAY
    requires OccursIn(at, parts, start, split) && OccursIn(at, parts, start, t)
    ensures !OccursIn(at, tail, split + shift, t)
  {
    OneOverrideFits(at, parts, tail, start, split, split + shift, before, t);
  }

  /**
   * A daily series with its third day renamed, split on the second day and moved an hour later: the
   * renamed day is moved to the new series, and left on no occurrence of it.
   */
  lemma MovingByAnHourOrphans(at: Pattern, parts: Parts, tenant: string, series: string, target: string)
    returns (before: nat, orphan: Row)
    requires Regular(at) && Arithmetic(at) && Daily(parts, "FREQ", "DAILY") && series != target
    ensures PartsOf(TextOf(parts)) == parts && Readable(parts) && OccursIn(at, parts, FIRST, FIRST + 2 * DAY)
    ensures before == CountBefore(at, parts, FIRST, FIRST + DAY) && CountFits(parts, before)
    ensures orphan in AfterSplit([ThirdDay(tenant, series, FIRST)], tenant, series, target, FIRST + DAY)
    ensures ExceptionOf(orphan, tenant, target) && OriginalStart(orphan) == Some(FIRST + 2 * DAY)
    ensures var tail := TailParts(parts, before);
      PartsOf(TextOf(tail)) == tail && Readable(tail) && !OccursIn(at, tail, FIRST + DAY + 3600, FIRST + 2 * DAY)
  {
    DailyRule(parts, "FREQ", "DAILY");
    DailyStep(parts, "FREQ", "DAILY", "INTERVAL");
    DailyEdit(at, parts, tenant, series, target, FIRST);
    CountBeforeFits(at, parts, FIRST, FIRST + DAY);
    before := CountBefore(at, parts, FIRST, FIRST + DAY);
    TailShape(parts, before);
    ShortMoveOrphans(at, parts, TailParts(parts, before), FIRST, FIRST + DAY, before, FIRST + 2 * DAY, 3600);
    var row := ThirdDay(tenant, series, FIRST);
    assert row in [row];
    orphan := MovedOverrides([row], tenant, series, target, FIRST + DAY, row);
  }

  // ---------------------------------------------------------------- the edit's commits

  /** The edit as its commits see it: the text the old master is cut down to, and the new master's row. */
  datatype Edit = Edit(tenant: string, series: string, target: string, split: Instant, head: string, master: Row)

  predicate IsMaster(row: Row, tenant: string, id: string) {
    row.tenant == tenant && row.eventId == id
  }

  function Truncated(rows: seq<Row>, e: Edit): (r: seq<Row>)
    ensures |r| == |rows|
  {
    seq(|rows|, i requires 0 <= i < |rows| =>
      if IsMaster(rows[i], e.tenant, e.series) then rows[i].(recurrence := Some(e.head)) else rows[i])
  }

  /** The table after n of the edit's commits: truncate, create, re-home, drop the split occurrence's own override. */
  function After(rows: seq<Row>, e: Edit, n: nat): seq<Row> {
    if n == 0 then rows
    else if n == 1 then Truncated(rows, e)
    else if n == 2 then Truncated(rows, e) + [e.master]
    else if n == 3 then Repointed(Truncated(rows, e) + [e.master], e.tenant, e.series, e.target, e.split)
    else AfterSplit(Truncated(rows, e) + [e.master], e.tenant, e.series, e.target, e.split)
  }

  /** Some master of this id expands to an occurrence at t. */
  ghost predicate Expands(rows: seq<Row>, tenant: string, id: string, at: Pattern, t: Instant) {
    exists row :: row in rows && ExpandsRow(row, tenant, id, at, t)
  }

  ghost predicate ExpandsRow(row: Row, tenant: string, id: string, at: Pattern, t: Instant) {
    IsMaster(row, tenant, id) && row.recurrence.Some? && Readable(PartsOf(row.recurrence.value))
    && Occurs(at, row.recurrence.value, row.start, t)
  }

  /** One master, not itself an override, with this rule and start; the new id is a uuid, and nobody has it. */
  ghost predicate Editable(rows: seq<Row>, e: Edit, text: string, start: Instant) {
    && (exists row :: row in rows && IsMaster(row, e.tenant, e.series))
    && (forall row :: row in rows && IsMaster(row, e.tenant, e.series) ==>
          row.recurrence == Some(text) && row.start == start && row.series.None?)
    && (forall row :: row in rows ==> !IsMaster(row, e.tenant, e.target))
    && '_' !in e.target && '_' !in e.series && e.series != e.target
    && IsMaster(e.master, e.tenant, e.target) && e.master.series.None?
  }

  /** The edit splits this rule at this occurrence, and the new master starts at the split. */
  ghost predicate Splits(e: Edit, at: Pattern, text: string, start: Instant)
    requires Regular(at)
  {
    && Readable(PartsOf(text)) && Occurs(at, text, start, e.split)
    && var last := LastBefore(at, PartsOf(text), start, e.split);
       && last.Some? && Printable(last.value)
       && e.head == TextOf(HeadParts(PartsOf(text), last.value))
       && CountFits(PartsOf(text), CountBefore(at, PartsOf(text), start, e.split))
       && e.master.recurrence == Some(TextOf(TailParts(PartsOf(text), CountBefore(at, PartsOf(text), start, e.split))))
       && e.master.start == e.split
  }

  lemma IdsDiffer(e: Edit, id: string)
    requires '_' !in id
    ensures InstanceId(e.series, e.split) != id && forall t: Instant :: InstanceId(e.target, t) != id
  {
    forall t: Instant, s: string ensures InstanceId(s, t) != id {
      assert InstanceId(s, t)[|s|] == '_';
    }
  }

  /**
   * A master of either id is in the table exactly from the commit that writes it on, untouched by those that
   * follow.
   */
  lemma MastersAfter(rows: seq<Row>, e: Edit, text: string, start: Instant, n: nat, row: Row)
    requires Editable(rows, e, text, start) && 1 <= n <= 4
    requires IsMaster(row, e.tenant, e.series) || IsMaster(row, e.tenant, e.target)
    ensures row in After(rows, e, n) <==>
      if IsMaster(row, e.tenant, e.series) then row in Truncated(rows, e) else n >= 2 && row == e.master
  {
    IdsDiffer(e, e.series);
    IdsDiffer(e, e.target);
    var cut := Truncated(rows, e);
    var made := cut + [e.master];
    forall i | 0 <= i < |cut| ensures !IsMaster(cut[i], e.tenant, e.target) {
      assert rows[i] in rows;
    }
    if n >= 3 {
      var moved := Repointed(made, e.tenant, e.series, e.target, e.split);
      MastersStay(made, e, row);
      WithoutIdMembers(moved, e.tenant, InstanceId(e.series, e.split), row);
    }
  }

  /** Re-homing neither moves a master nor makes one. */
  lemma MastersStay(rows: seq<Row>, e: Edit, row: Row)
    requires '_' !in e.target && '_' !in e.series
    requires IsMaster(row, e.tenant, e.series) || IsMaster(row, e.tenant, e.target)
    requires forall x :: x in rows && (IsMaster(x, e.tenant, e.series) || IsMaster(x, e.tenant, e.target)) ==>
      x.series.None?
    ensures row in Repointed(rows, e.tenant, e.series, e.target, e.split) <==> row in rows
  {
    IdsDiffer(e, e.series);
    IdsDiffer(e, e.target);
    var moved := Repointed(rows, e.tenant, e.series, e.target, e.split);
    forall i | 0 <= i < |rows| && (moved[i] == row || rows[i] == row) ensures moved[i] == rows[i] {
      assert rows[i] in rows;
    }
    if row in rows {
      var i :| 0 <= i < |rows| && rows[i] == row;
      assert moved[i] == row;
    }
    if row in moved {
      var i :| 0 <= i < |moved| && moved[i] == row;
      assert rows[i] == row;
    }
  }

  /**
   * The old master expands to the head's occurrences once it is truncated, the new one to the tail's once it is
   * there.
   */
  lemma ExpandsAfter(rows: seq<Row>, e: Edit, at: Pattern, text: string, start: Instant, n: nat, t: Instant)
    requires Editable(rows, e, text, start) && 1 <= n <= 4 && e.master.recurrence.Some?
    requires Readable(PartsOf(e.head)) && Readable(PartsOf(e.master.recurrence.value))
    ensures Expands(After(rows, e, n), e.tenant, e.series, at, t) <==> Occurs(at, e.head, start, t)
    ensures Expands(After(rows, e, n), e.tenant, e.target, at, t) <==>
            n >= 2 && Occurs(at, e.master.recurrence.value, e.master.start, t)
  {
    var cut, now := Truncated(rows, e), After(rows, e, n);
    if row :| row in now && ExpandsRow(row, e.tenant, e.series, at, t) {
      MastersAfter(rows, e, text, start, n, row);
      var i :| 0 <= i < |cut| && cut[i] == row;
      assert rows[i] in rows;
    }
    if Occurs(at, e.head, start, t) {
      var row :| row in rows && IsMaster(row, e.tenant, e.series);
      var i :| 0 <= i < |rows| && rows[i] == row;
      assert cut[i] in cut;
      MastersAfter(rows, e, text, start, n, cut[i]);
      assert ExpandsRow(cut[i], e.tenant, e.series, at, t);
    }
    if row :| row in now && ExpandsRow(row, e.tenant, e.target, at, t) {
      MastersAfter(rows, e, text, start, n, row);
    }
    if n >= 2 && Occurs(at, e.master.recurrence.value, e.master.start, t) {
      MastersAfter(rows, e, text, start, n, e.master);
      assert ExpandsRow(e.master, e.tenant, e.target, at, t);
    }
  }

  /**
   * Stopped after any of its commits, the edit has lost no occurrence and made none, but for one gap: between
   * the truncation and the creation of the new master, every occurrence from the split on is gone.
   */
  lemma CrashLosesTheTailOnce(rows: seq<Row>, e: Edit, at: Pattern, text: string, start: Instant, n: nat, t: Instant)
    requires Regular(at) && Editable(rows, e, text, start) && Splits(e, at, text, start) && n <= 4
    ensures (Expands(After(rows, e, n), e.tenant, e.series, at, t)
             || Expands(After(rows, e, n), e.tenant, e.target, at, t))
            <==> Occurs(at, text, start, t) && (n == 1 ==> t < e.split)
  {
    SplitPartitions(at, text, start, e.split);
    if n == 0 {
      var row :| row in rows && IsMaster(row, e.tenant, e.series);
      assert Occurs(at, text, start, t) ==> ExpandsRow(row, e.tenant, e.series, at, t);
    } else {
      ExpandsAfter(rows, e, at, text, start, n, t);
    }
  }

  /** No override of the series at or after the split, or none at it. */
  ghost predicate NoneFrom(rows: seq<Row>, e: Edit, strictly: bool) {
    forall row :: row in rows && ExceptionOf(row, e.tenant, e.series) && OriginalStart(row).Some? ==>
      if strictly then OriginalStart(row).value != e.split else OriginalStart(row).value < e.split
  }

  /**
   * The overrides lag behind: until they are re-homed the truncated series is sound only if it had none from
   * the split on, and until the last commit only if it had none at the split.
   */
  lemma OverridesLagBehind(rows: seq<Row>, e: Edit, at: Pattern, text: string, start: Instant, n: nat)
    requires Regular(at) && Editable(rows, e, text, start) && Splits(e, at, text, start) && 1 <= n <= 3
    requires CanonicalOverrides(rows) && FreshSeries(rows, e.target)
      && Anchored(rows, e.tenant, e.series, at, text, start)
    ensures Readable(PartsOf(e.head))
    ensures Anchored(After(rows, e, n), e.tenant, e.series, at, e.head, start) <==> NoneFrom(rows, e, n == 3)
  {
    SplitPartitions(at, text, start, e.split);
    if Anchored(After(rows, e, n), e.tenant, e.series, at, e.head, start) {
      StrandedIfAny(rows, e, at, start, n);
    }
    if NoneFrom(rows, e, n == 3) {
      SoundIfNone(rows, e, at, text, start, n);
    }
  }

  lemma StrandedIfAny(rows: seq<Row>, e: Edit, at: Pattern, start: Instant, n: nat)
    requires 1 <= n <= 3 && Readable(PartsOf(e.head))
      && Anchored(After(rows, e, n), e.tenant, e.series, at, e.head, start)
    requires forall t: Instant :: Occurs(at, e.head, start, t) ==> t < e.split
    ensures NoneFrom(rows, e, n == 3)
  {
    forall row | row in rows && ExceptionOf(row, e.tenant, e.series) && OriginalStart(row).Some?
      ensures if n == 3 then OriginalStart(row).value != e.split else OriginalStart(row).value < e.split
    {
      var i: nat :| i < |rows| && rows[i] == row;
      OneOverrideStays(rows, e, n, i);
    }
  }

  lemma SoundIfNone(rows: seq<Row>, e: Edit, at: Pattern, text: string, start: Instant, n: nat)
    requires 1 <= n <= 3 && e.master.series.None? && e.series != e.target && NoneFrom(rows, e, n == 3)
    requires Readable(PartsOf(text)) && Readable(PartsOf(e.head)) && Anchored(rows, e.tenant, e.series, at, text, start)
    requires forall t: Instant :: Occurs(at, text, start, t) && t < e.split ==> Occurs(at, e.head, start, t)
    ensures Anchored(After(rows, e, n), e.tenant, e.series, at, e.head, start)
  {
    forall row | row in After(rows, e, n) && ExceptionOf(row, e.tenant, e.series)
      ensures OriginalStart(row).Some? && Occurs(at, e.head, start, OriginalStart(row).value)
    {
      var i: nat := WhereFrom(rows, e, n, row);
      assert rows[i] in rows;
    }
  }

  /** The row is an override still on the old series after n commits. */
  predicate Stays(row: Row, e: Edit, n: nat) {
    ExceptionOf(row, e.tenant, e.series) && (n == 3 && OriginalStart(row).Some? ==> OriginalStart(row).value <= e.split)
  }

  ghost predicate OverrideStays(rows: seq<Row>, e: Edit, n: nat, i: nat)
    requires i < |rows|
  {
    Stays(rows[i], e, n) ==>
      exists row :: row in After(rows, e, n) && ExceptionOf(row, e.tenant, e.series)
        && OriginalStart(row) == OriginalStart(rows[i])
  }

  lemma OneOverrideStays(rows: seq<Row>, e: Edit, n: nat, i: nat)
    requires i < |rows| && 1 <= n <= 3
    ensures OverrideStays(rows, e, n, i)
  {
    if Stays(rows[i], e, n) {
      var row := Truncated(rows, e)[i];
      assert ExceptionOf(row, e.tenant, e.series) && OriginalStart(row) == OriginalStart(rows[i]);
      var made := Truncated(rows, e) + [e.master];
      assert made[i] == row && made[i] in made;
      assert Repointed(made, e.tenant, e.series, e.target, e.split)[i] ==
        (if n == 3 then row else Rehomed(row, e.tenant, e.series, e.target, e.split));
      assert row in After(rows, e, n);
    }
  }

  lemma WhereFrom(rows: seq<Row>, e: Edit, n: nat, row: Row) returns (i: nat)
    requires 1 <= n <= 3 && row in After(rows, e, n) && ExceptionOf(row, e.tenant, e.series)
    requires e.master.series.None? && e.series != e.target
    ensures i < |rows| && Stays(rows[i], e, n) && OriginalStart(row) == OriginalStart(rows[i])
  {
    i :| i < |After(rows, e, n)| && After(rows, e, n)[i] == row;
    var made := Truncated(rows, e) + [e.master];
    if n == 3 {
      assert row == Rehomed(made[i], e.tenant, e.series, e.target, e.split);
      assert row == made[i];
    }
  }
}
