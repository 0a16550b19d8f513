/**
 * The local calendar table, and what a "this and following" edit does to it: the master is
 * truncated, a new master continues the series, and later overrides move to the new series.
 */
module EventStore {
  import opened Basics
  import opened Text
  import opened Timestamps
  import opened Recurrence

  // ---------------------------------------------------------------- instance ids

  function InstanceId(series: string, original: Instant): string {
    series + "_" + Stamp(original)
  }

  function ParseInstanceId(id: string): Option<(string, Instant)> {
    var p := RPartition(id, '_');
    if !p.1 || ParseStamp(p.2).None? then None else Some((p.0, ParseStamp(p.2).value))
  }

  /** An instance id reads back as its series and original start, whatever the series id holds. */
  lemma InstanceIdRoundTrip(series: string, original: Instant)
    requires Printable(original)
    ensures ParseInstanceId(InstanceId(series, original)) == Some((series, original))
  {
    StampAlphabet(original);
    StampRoundTrip(original);
    RPartitionSuffix(series, Stamp(original), '_');
  }

  // ---------------------------------------------------------------- rows

  /** One calendar_events row; body stands for the columns a split only carries along. */
  datatype Row = Row(tenant: string, eventId: string, start: Instant, end: Instant,
                     recurrence: Option<string>, series: Option<string>, excluded: bool, body: string)

  /** The unique constraint on (tenant, event_id). */
  ghost predicate UniqueIds(rows: seq<Row>) {
    forall i, j :: 0 <= i < j < |rows| ==> rows[i].tenant != rows[j].tenant || rows[i].eventId != rows[j].eventId
  }

  predicate ExceptionOf(row: Row, tenant: string, series: string) {
    row.tenant == tenant && row.series == Some(series)
  }

  /** The row's original start, when it is an override of the series with a well-formed id. */
  function OriginalStart(row: Row): Option<Instant> {
    match ParseInstanceId(row.eventId)
    case None => None
    case Some(p) => Some(p.1)
  }

  /** One row's fate under repoint_exceptions. */
  function Rehomed(row: Row, tenant: string, series: string, target: string, after: Instant): Row {
    if ExceptionOf(row, tenant, series) && OriginalStart(row).Some? && after < OriginalStart(row).value
    then row.(eventId := InstanceId(target, OriginalStart(row).value), series := Some(target))
    else row
  }

  function Repointed(rows: seq<Row>, tenant: string, series: string, target: string, after: Instant): (r: seq<Row>)
    ensures |r| == |rows|
  {
    seq(|rows|, i requires 0 <= i < |rows| => Rehomed(rows[i], tenant, series, target, after))
  }

  predicate Dropped(row: Row, tenant: string, series: string, from: Instant) {
    ExceptionOf(row, tenant, series) && OriginalStart(row).Some? && from <= OriginalStart(row).value
  }

  function WithoutFrom(rows: seq<Row>, tenant: string, series: string, from: Instant): seq<Row> {
    if rows == [] then []
    else
      var front := WithoutFrom(rows[..|rows| - 1], tenant, series, from);
      var last := rows[|rows| - 1];
      if Dropped(last, tenant, series, from) then front else front + [last]
  }

  function WithoutId(rows: seq<Row>, tenant: string, id: string): seq<Row> {
    if rows == [] then []
    else
      var front := WithoutId(rows[..|rows| - 1], tenant, id);
      var last := rows[|rows| - 1];
      if last.tenant == tenant && last.eventId == id then front else front + [last]
  }

  class LocalEventStore {
    var rows: seq<Row>

    constructor ()
      ensures rows == []
    {
      rows := [];
    }

    /** Commits all the re-homed rows, or none when two of them would share an id. */
    method RepointExceptions(tenant: string, series: string, target: string, after: Instant) returns (ok: bool)
      modifies this
      ensures ok <==> UniqueIds(Repointed(old(rows), tenant, series, target, after))
      ensures rows == if ok then Repointed(old(rows), tenant, series, target, after) else old(rows)
    {
      var pending := rows;
      for i := 0 to |rows|
        invariant rows == old(rows)
        invariant |pending| == |rows|
        invariant forall k :: 0 <= k < i ==> pending[k] == Rehomed(rows[k], tenant, series, target, after)
        invariant forall k :: i <= k < |rows| ==> pending[k] == rows[k]
      {
        var row := Repoint(pending[i], tenant, series, target, after);
        pending := pending[i := row];
      }
      assert pending == Repointed(rows, tenant, series, target, after);
      ok := IdsUnique(pending);
      if ok {
        rows := pending;
      }
    }

    method Repoint(row: Row, tenant: string, series: string, target: string, after: Instant) returns (r: Row)
      ensures r == Rehomed(row, tenant, series, target, after)
    {
      r := row;
      if ExceptionOf(row, tenant, series) {
        var parsed := ParseInstanceId(row.eventId);
        if parsed.Some? && after < parsed.value.1 {
          r := row.(eventId := InstanceId(target, parsed.value.1), series := Some(target));
        }
      }
    }

    method DeleteExceptionsOnOrAfter(tenant: string, series: string, from: Instant)
      modifies this
      ensures rows == WithoutFrom(old(rows), tenant, series, from)
    {
      var kept := [];
      for i := 0 to |rows|
        invariant rows == old(rows)
        invariant kept == WithoutFrom(rows[..i], tenant, series, from)
      {
        assert rows[..i + 1][..i] == rows[..i];
        if !Dropped(rows[i], tenant, series, from) {
          kept := kept + [rows[i]];
        }
      }
      assert rows[..|rows|] == rows;
      rows := kept;
    }

    method DeleteEvent(tenant: string, id: string)
      modifies this
      ensures rows == WithoutId(old(rows), tenant, id)
    {
      var kept := [];
      for i := 0 to |rows|
        invariant rows == old(rows)
        invariant kept == WithoutId(rows[..i], tenant, id)
      {
        assert rows[..i + 1][..i] == rows[..i];
        if !(rows[i].tenant == tenant && rows[i].eventId == id) {
          kept := kept + [rows[i]];
        }
      }
      assert rows[..|rows|] == rows;
      rows := kept;
    }
  }

  /** What the database's constraint answers. */
  method IdsUnique(rows: seq<Row>) returns (ok: bool)
    ensures ok <==> UniqueIds(rows)
  {
    for i := 0 to |rows|
      invariant forall a, b :: 0 <= a < b < i ==> rows[a].tenant != rows[b].tenant || rows[a].eventId != rows[b].eventId
    {
      for j := 0 to i
        invariant forall a :: 0 <= a < j ==> rows[a].tenant != rows[i].tenant || rows[a].eventId != rows[i].eventId
      {
        if rows[j].tenant == rows[i].tenant && rows[j].eventId == rows[i].eventId {
          return false;
        }
      }
    }
    return true;
  }

  // ---------------------------------------------------------------- re-homing

  /** No row's id belongs to the series yet: the new master's id is a fresh uuid. */
  ghost predicate FreshSeries(rows: seq<Row>, target: string) {
    forall row :: row in rows ==>
      row.series != Some(target)
        && (ParseInstanceId(row.eventId).None? || ParseInstanceId(row.eventId).value.0 != target)
  }

  /** Overrides carry the id instance_id gives them. */
  ghost predicate CanonicalOverrides(rows: seq<Row>) {
    forall row :: row in rows && row.series.Some? && OriginalStart(row).Some? ==>
      Printable(OriginalStart(row).value) && row.eventId == InstanceId(row.series.value, OriginalStart(row).value)
  }

  /** The moved overrides are exactly those strictly after the split; every other row is untouched. */
  lemma RehomingMovesExactlyTheLater(rows: seq<Row>, tenant: string, series: string, target: string, after: Instant,
                                     i: nat)
    requires i < |rows| && CanonicalOverrides(rows) && FreshSeries(rows, target)
    ensures var row, moved := rows[i], Repointed(rows, tenant, series, target, after)[i];
      && moved.(eventId := row.eventId, series := row.series) == row
      && OriginalStart(moved) == OriginalStart(row)
      && (ExceptionOf(moved, tenant, target) <==>
            ExceptionOf(row, tenant, series) && OriginalStart(row).Some? && after < OriginalStart(row).value)
      && (ExceptionOf(moved, tenant, target) ==>
            ParseInstanceId(moved.eventId) == Some((target, OriginalStart(row).value)))
      && (!ExceptionOf(moved, tenant, target) ==> moved == row)
  {
    var row := rows[i];
    assert row in rows;
    if ExceptionOf(row, tenant, series) && OriginalStart(row).Some? {
      InstanceIdRoundTrip(target, OriginalStart(row).value);
    }
  }

  /** With a fresh series id the commit always succeeds. */
  lemma RehomingKeepsIdsUnique(rows: seq<Row>, tenant: string, series: string, target: string, after: Instant)
    requires UniqueIds(rows) && CanonicalOverrides(rows) && FreshSeries(rows, target)
    ensures UniqueIds(Repointed(rows, tenant, series, target, after))
  {
    var r := Repointed(rows, tenant, series, target, after);
    forall i, j | 0 <= i < j < |r| ensures r[i].tenant != r[j].tenant || r[i].eventId != r[j].eventId {
      RehomingMovesExactlyTheLater(rows, tenant, series, target, after, i);
      RehomingMovesExactlyTheLater(rows, tenant, series, target, after, j);
      assert rows[i] in rows && rows[j] in rows;
    }
  }

  // ---------------------------------------------------------------- overrides follow their occurrences

  /** Every override of the series replaces an occurrence the rule really has. */
  ghost predicate Anchored(rows: seq<Row>, tenant: string, series: string, at: Pattern, text: string, start: Instant)
    requires Readable(PartsOf(text))
  {
    forall row :: row in rows && ExceptionOf(row, tenant, series) ==>
      OriginalStart(row).Some? && Occurs(at, text, start, OriginalStart(row).value)
  }

  lemma {:induction false} WithoutIdMembers(rows: seq<Row>, tenant: string, id: string, row: Row)
    ensures row in WithoutId(rows, tenant, id) <==> row in rows && !(row.tenant == tenant && row.eventId == id)
  {
    if rows != [] {
      var n := |rows| - 1;
      WithoutIdMembers(rows[..n], tenant, id, row);
      assert rows == rows[..n] + [rows[n]];
    }
  }

  lemma {:induction false} WithoutFromMembers(rows: seq<Row>, tenant: string, series: string, from: Instant, row: Row)
    ensures row in WithoutFrom(rows, tenant, series, from) <==> row in rows && !Dropped(row, tenant, series, from)
  {
    if rows != [] {
      var n := |rows| - 1;
      WithoutFromMembers(rows[..n], tenant, series, from, row);
      assert rows == rows[..n] + [rows[n]];
    }
  }

  /**
   * A "this and following" delete leaves, of the series' overrides, exactly those before the split, each on an
   * occurrence of the truncated rule; where no occurrence precedes the split, it is the whole series that goes.
   */
  lemma DeleteKeepsOverridesAnchored(rows: seq<Row>, tenant: string, series: string, at: Pattern, text: string,
                                     start: Instant, split: Instant)
    requires Regular(at) && Readable(PartsOf(text)) && Occurs(at, text, start, split)
    requires Anchored(rows, tenant, series, at, text, start)
    ensures forall row :: row in WithoutFrom(rows, tenant, series, split) && ExceptionOf(row, tenant, series) <==>
      row in rows && ExceptionOf(row, tenant, series) && OriginalStart(row).value < split
    ensures var last := LastBefore(at, PartsOf(text), start, split);
      && (last.Some? && Printable(last.value) ==>
            var head := TextOf(HeadParts(PartsOf(text), last.value));
            Readable(PartsOf(head)) && Anchored(WithoutFrom(rows, tenant, series, split), tenant, series, at, head,
                                                start))
      && (last.None? ==> forall t: Instant :: Occurs(at, text, start, t) ==> split <= t)
  {
    forall row ensures row in WithoutFrom(rows, tenant, series, split) <==>
      row in rows && !Dropped(row, tenant, series, split) {
      WithoutFromMembers(rows, tenant, series, split, row);
    }
    var last := LastBefore(at, PartsOf(text), start, split);
    if last.Some? && Printable(last.value) {
      SplitPartitions(at, text, start, split);
    }
    NothingBefore(at, PartsOf(text), start, split);
  }

  /** The overrides after a split edit: later ones re-homed, the split occurrence's own one folded away. */
  function AfterSplit(rows: seq<Row>, tenant: string, series: string, target: string, split: Instant): seq<Row> {
    WithoutId(Repointed(rows, tenant, series, target, split), tenant, InstanceId(series, split))
  }

  /**
   * A split edit leaves every override on an occurrence of the series it now belongs to: the head's
   * overrides on the truncated rule, the moved ones on the continued rule started at the split.
   */
  lemma SplitKeepsOverridesAnchored(rows: seq<Row>, tenant: string, series: string, target: string, at: Pattern,
                                    text: string, start: Instant, split: Instant)
    requires Regular(at) && Readable(PartsOf(text)) && Occurs(at, text, start, split)
    requires var last := LastBefore(at, PartsOf(text), start, split); last.Some? && Printable(last.value)
    requires CanonicalOverrides(rows) && FreshSeries(rows, target) && series != target
    requires Anchored(rows, tenant, series, at, text, start)
    ensures CountFits(PartsOf(text), CountBefore(at, PartsOf(text), start, split))
    ensures
      var head := TextOf(HeadParts(PartsOf(text), LastBefore(at, PartsOf(text), start, split).value));
      var tail := TextOf(TailParts(PartsOf(text), CountBefore(at, PartsOf(text), start, split)));
      var rows' := AfterSplit(rows, tenant, series, target, split);
      && Readable(PartsOf(head)) && Readable(PartsOf(tail))
      && Anchored(rows', tenant, series, at, head, start)
      && Anchored(rows', tenant, target, at, tail, split)
  {
    SplitPartitions(at, text, start, split);
    forall row | row in AfterSplit(rows, tenant, series, target, split)
      ensures ExceptionOf(row, tenant, series) ==>
        OriginalStart(row).Some? && OriginalStart(row).value < split
          && Occurs(at, text, start, OriginalStart(row).value)
      ensures ExceptionOf(row, tenant, target) ==>
        OriginalStart(row).Some? && split <= OriginalStart(row).value
          && Occurs(at, text, start, OriginalStart(row).value)
    {
      var was := OverrideAfterSplit(rows, tenant, series, target, split, row);
    }
  }

  /**
   * An override of either half was one of the series, with the same original start, on that half's side of the
   * split.
   */
  lemma OverrideAfterSplit(rows: seq<Row>, tenant: string, series: string, target: string, split: Instant, row: Row)
    returns (was: Row)
    requires CanonicalOverrides(rows) && FreshSeries(rows, target) && series != target
    requires row in AfterSplit(rows, tenant, series, target, split)
    ensures was in rows && OriginalStart(was) == OriginalStart(row)
    ensures ExceptionOf(row, tenant, series) ==>
      ExceptionOf(was, tenant, series) && (OriginalStart(row).Some? ==> OriginalStart(row).value < split)
    ensures ExceptionOf(row, tenant, target) ==>
      ExceptionOf(was, tenant, series) && OriginalStart(row).Some? && split < OriginalStart(row).value
  {
    var moved := Repointed(rows, tenant, series, target, split);
    WithoutIdMembers(moved, tenant, InstanceId(series, split), row);
    var i :| 0 <= i < |moved| && moved[i] == row;
    was := rows[i];
    assert was in rows;
    RehomingMovesExactlyTheLater(rows, tenant, series, target, split, i);
    if ExceptionOf(row, tenant, series) {
      assert row == was;
      assert OriginalStart(row).Some? && OriginalStart(row).value == split ==> row.eventId == InstanceId(series, split);
    }
  }

  /** The overrides a split edit drops are exactly those of the split occurrence itself. */
  lemma SplitDropsOnlyTheSplitOverride(rows: seq<Row>, tenant: string, series: string, target: string, split: Instant,
                                       i: nat)
    requires i < |rows| && CanonicalOverrides(rows) && FreshSeries(rows, target) && series != target
    requires Printable(split)
    ensures Rehomed(rows[i], tenant, series, target, split) in AfterSplit(rows, tenant, series, target, split)
            <==> !(rows[i].tenant == tenant && rows[i].eventId == InstanceId(series, split))
  {
    var moved := Repointed(rows, tenant, series, target, split);
    assert moved[i] in moved && rows[i] in rows;
    InstanceIdRoundTrip(series, split);
    RehomingMovesExactlyTheLater(rows, tenant, series, target, split, i);
    WithoutIdMembers(moved, tenant, InstanceId(series, split), moved[i]);
  }

  /** Rows of another tenant, of another series, or of none are no business of an edit or a delete of this one. */
  lemma OthersAreUntouched(row: Row, tenant: string, series: string, target: string, at: Instant)
    requires row.tenant != tenant || row.series != Some(series)
    ensures Rehomed(row, tenant, series, target, at) == row && !Dropped(row, tenant, series, at)
  {}

  /** And of the series' own overrides each is judged by the start its id spells. */
  lemma OwnAreJudgedByStart(row: Row, tenant: string, series: string, target: string, original: Instant, at: Instant)
    requires row.tenant == tenant && row.series == Some(series) && Printable(original)
    requires row.eventId == series + "_" + Stamp(original)
    ensures Dropped(row, tenant, series, at) <==> at <= original
    ensures Rehomed(row, tenant, series, target, at) ==
      if at < original then row.(eventId := target + "_" + Stamp(original), series := Some(target)) else row
  {
    InstanceIdRoundTrip(series, original);
  }
}
