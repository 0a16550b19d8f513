/** Importing is idempotent on what export spells, and an export imported elsewhere exports the same. */
module PortabilityProofs {
  import opened Basics
  import opened PortableColumns
  import opened CalendarPortability

  /** Every column the record carries is in export's own spelling, once its null is filled. */
  ghost predicate SpelledRecord(site: Site, t: PortableTable, data: Data) {
    forall n :: n in data && n in t.columns ==> Spelled(site.spelling, t.columns[n], Filled(t, data)[n])
  }

  // ---------------------------------------------------------------- one record, twice

  lemma EncodedIsSpelled(sp: Spelling, c: Column, row: Value, v: Value)
    requires ValidColumn(c) && Fits(c, row) && Same(EncodeValue(sp, c, Defaulted(c, row)), v)
    ensures Spelled(sp, c, v)
  {}

  /** A landed row matches the record it came from exactly when that was in export's spelling. */
  lemma LandedMatchesIffSpelled(site: Site, t: PortableTable, data: Data, existing: Option<Data>, row: Data)
    requires Faithful(site.spelling) && ValidTable(t) && RowOk(t, row)
    requires Decode(site.spelling, t, Filled(t, data)).Some?
    requires Landed(site, t, Decode(site.spelling, t, Filled(t, data)).value, existing) == Some(row)
    ensures Matches(site, t, data, row) <==> SpelledRecord(site, t, data)
  {
    var filled := Filled(t, data);
    var values := Decode(site.spelling, t, filled).value;
    forall n | n in data && n in t.columns
      ensures Same(Encode(site.spelling, t, row)[n], filled[n]) <==> Spelled(site.spelling, t.columns[n], filled[n])
    {
      var c := t.columns[n];
      assert values[n] == DecodeValue(site.spelling, c, filled[n]).value;
      assert Cell(site, c, n, values, existing) == Stored(site.dialect, c, values[n]);
      assert row[n] == Stored(site.dialect, c, values[n]).value;
      assert ValidColumn(c);
      ReadsBackIffSpelled(site.spelling, site.dialect, c, filled[n]);
      assert Defaulted(c, row[n]) == row[n];
    }
  }

  lemma MatchingIsSpelled(site: Site, t: PortableTable, data: Data, row: Data)
    requires ValidTable(t) && RowOk(t, row) && Matches(site, t, data, row)
    ensures SpelledRecord(site, t, data)
  {
    forall n | n in data && n in t.columns ensures Spelled(site.spelling, t.columns[n], Filled(t, data)[n]) {
      assert ValidColumn(t.columns[n]) && Fits(t.columns[n], row[n]);
      assert Same(Encode(site.spelling, t, row)[n], Filled(t, data)[n]);
      EncodedIsSpelled(site.spelling, t.columns[n], row[n], Filled(t, data)[n]);
    }
  }

  /** The record would be skipped now: of no known kind, unfillable, or already there. */
  ghost predicate Settled(site: Site, rows: Rows, tenant: string, r: Record)
    requires ValidSite(site) && RowsOk(site, rows)
  {
    r.kind in site.specs ==> Judge(site, rows, tenant, r).Some? && Judge(site, rows, tenant, r).value.outcome.Skipped?
  }

  /**
   * A record just applied is skipped when applied again if and only if it was in export's spelling, or is
   * one that is always skipped. A date written with another offset, say, is reported updated every time.
   */
  lemma ReapplyIffSpelled(site: Site, tenant: string, p: Progress, r: Record)
    requires ValidSite(site) && RowsOk(site, p.rows) && Step(site, tenant, false, p, r).Some?
    ensures RowsOk(site, Step(site, tenant, false, p, r).value.rows)
    ensures Settled(site, Step(site, tenant, false, p, r).value.rows, tenant, r) <==>
            (r.kind !in site.specs || Unfilled(site.specs[r.kind], r.data) != {}
             || SpelledRecord(site, site.specs[r.kind], r.data))
  {
    StepKeepsOk(site, tenant, false, p, r);
    if r.kind in site.specs && Unfilled(site.specs[r.kind], r.data) == {} {
      var v := Judge(site, p.rows, tenant, r).value;
      if v.outcome.Skipped? {
        MatchingIsSpelled(site, site.specs[r.kind], r.data, Existing(p.rows, tenant, v.slot).value);
      } else {
        var row := Landed(site, site.specs[r.kind], v.values, Existing(p.rows, tenant, v.slot)).value;
        WrittenRowIsOk(site, tenant, p.rows, r, v, row);
        PutKeepsOk(site, p.rows, Address(tenant, v.slot.value), row);
        WrittenSettlesIffSpelled(site, tenant, p.rows, r, v, row);
      }
    }
  }

  lemma WrittenSettlesIffSpelled(site: Site, tenant: string, rows: Rows, r: Record, v: Verdict, row: Data)
    requires ValidSite(site) && RowsOk(site, rows) && r.kind in site.specs && Unfilled(site.specs[r.kind], r.data) == {}
    requires Judge(site, rows, tenant, r) == Some(v) && v.slot.Some?
    requires Landed(site, site.specs[r.kind], v.values, Existing(rows, tenant, v.slot)) == Some(row)
    requires RowOk(site.specs[r.kind], row) && RowsOk(site, rows[Address(tenant, v.slot.value) := row])
    ensures Settled(site, rows[Address(tenant, v.slot.value) := row], tenant, r) <==>
            SpelledRecord(site, site.specs[r.kind], r.data)
  {
    LandedMatchesIffSpelled(site, site.specs[r.kind], r.data, Existing(rows, tenant, v.slot), row);
  }

  /** The record carries, in one of its datetime columns, a date with no offset or one other than UTC's. */
  ghost predicate OffUtc(site: Site, t: PortableTable, data: Data) {
    exists n :: n in data && n in t.columns && t.columns[n].kind.DateTime? && data[n].Str?
                && site.spelling.fromIso(data[n].text).Some?
                  && site.spelling.fromIso(data[n].text).value.offset != Some(0)
  }

  lemma OffUtcIsUnspelled(site: Site, t: PortableTable, data: Data)
    requires Faithful(site.spelling) && OffUtc(site, t, data)
    ensures !SpelledRecord(site, t, data)
  {
    var sp := site.spelling;
    var n :| n in data && n in t.columns && t.columns[n].kind.DateTime? && data[n].Str?
             && sp.fromIso(data[n].text).Some? && sp.fromIso(data[n].text).value.offset != Some(0);
    assert Filled(t, data)[n] == data[n];
    assert forall i :: sp.fromIso(sp.iso(i)) == Some(Moment(i, Some(0)));
  }

  lemma OffUtcNeverMatches(site: Site, t: PortableTable, data: Data, row: Data)
    requires Faithful(site.spelling) && ValidTable(t) && RowOk(t, row) && OffUtc(site, t, data)
    ensures !Matches(site, t, data, row)
  {
    OffUtcIsUnspelled(site, t, data);
    if Matches(site, t, data, row) {
      MatchingIsSpelled(site, t, data, row);
    }
  }

  /** Once applied and not skipped, a record's own row is there. */
  lemma AppliedIsFound(site: Site, tenant: string, p: Progress, r: Record, v: Verdict)
    requires ValidSite(site) && RowsOk(site, p.rows) && Step(site, tenant, false, p, r).Some?
    requires r.kind in site.specs && Judge(site, p.rows, tenant, r) == Some(v) && !v.outcome.Skipped?
    ensures v.slot.Some? && Address(tenant, v.slot.value) in Step(site, tenant, false, p, r).value.rows
    ensures v.slot.value.kind == r.kind
  {}

  /**
   * Over other rows a record's values and slot are the same; it is an update where its row is there and does
   * not match.
   */
  lemma UnmatchedIsUpdated(site: Site, tenant: string, rows: Rows, rows': Rows, r: Record, v: Verdict)
    requires ValidSite(site) && RowsOk(site, rows) && RowsOk(site, rows') && r.kind in site.specs
    requires Unfilled(site.specs[r.kind], r.data) == {} && Judge(site, rows, tenant, r) == Some(v)
    requires v.slot.Some? && Address(tenant, v.slot.value) in rows'
    requires !Matches(site, site.specs[r.kind], r.data, rows'[Address(tenant, v.slot.value)])
    ensures Judge(site, rows', tenant, r).Some? && Judge(site, rows', tenant, r).value.outcome.Updated?
  {}

  lemma OffUtcIsNotSkipped(site: Site, tenant: string, rows: Rows, r: Record, v: Verdict)
    requires ValidSite(site) && RowsOk(site, rows) && r.kind in site.specs && OffUtc(site, site.specs[r.kind], r.data)
    requires Unfilled(site.specs[r.kind], r.data) == {} && Judge(site, rows, tenant, r) == Some(v)
    ensures !v.outcome.Skipped?
  {
    var found := Existing(rows, tenant, v.slot);
    if found.Some? {
      OffUtcNeverMatches(site, site.specs[r.kind], r.data, found.value);
    }
  }

  /**
   * A fillable record with such a date is an update each time it is applied again: whatever the rows were
   * before it was last applied, its own row is there and never matches.
   */
  lemma OffUtcUpdatesEveryTime(site: Site, tenant: string, p: Progress, r: Record)
    requires ValidSite(site) && RowsOk(site, p.rows) && Step(site, tenant, false, p, r).Some?
    requires r.kind in site.specs && Unfilled(site.specs[r.kind], r.data) == {}
    requires OffUtc(site, site.specs[r.kind], r.data)
    ensures var rows := Step(site, tenant, false, p, r).value.rows;
      && RowsOk(site, rows)
      && Judge(site, rows, tenant, r).Some? && Judge(site, rows, tenant, r).value.outcome.Updated?
  {
    StepKeepsOk(site, tenant, false, p, r);
    var v := Judge(site, p.rows, tenant, r).value;
    OffUtcIsNotSkipped(site, tenant, p.rows, r, v);
    AppliedIsFound(site, tenant, p, r, v);
    OffUtcIsUpdatedOn(site, tenant, p.rows, Step(site, tenant, false, p, r).value.rows, r, v);
  }

  lemma OffUtcIsUpdatedOn(site: Site, tenant: string, rows: Rows, rows': Rows, r: Record, v: Verdict)
    requires ValidSite(site) && RowsOk(site, rows) && RowsOk(site, rows') && r.kind in site.specs
    requires Unfilled(site.specs[r.kind], r.data) == {} && Judge(site, rows, tenant, r) == Some(v)
    requires v.slot.Some? && Address(tenant, v.slot.value) in rows' && OffUtc(site, site.specs[r.kind], r.data)
    requires v.slot.value.kind == r.kind
    ensures Judge(site, rows', tenant, r).Some? && Judge(site, rows', tenant, r).value.outcome.Updated?
  {
    OffUtcNeverMatches(site, site.specs[r.kind], r.data, rows'[Address(tenant, v.slot.value)]);
    UnmatchedIsUpdated(site, tenant, rows, rows', r, v);
  }

  // ---------------------------------------------------------------- a stream, twice

  ghost predicate SettlesOnApply(site: Site, r: Record) {
    r.kind in site.specs ==>
      Unfilled(site.specs[r.kind], r.data) != {} || SpelledRecord(site, site.specs[r.kind], r.data)
  }

  lemma SettledStays(site: Site, tenant: string, p: Progress, r: Record, later: Record)
    requires ValidSite(site) && RowsOk(site, p.rows) && Step(site, tenant, false, p, later).Some?
    requires RecordSlot(site, r).Some? ==> RecordSlot(site, r) != RecordSlot(site, later)
    ensures RowsOk(site, Step(site, tenant, false, p, later).value.rows)
    ensures Settled(site, Step(site, tenant, false, p, later).value.rows, tenant, r) <==>
      Settled(site, p.rows, tenant, r)
  {
    StepKeepsOk(site, tenant, false, p, later);
    if r.kind in site.specs {
      var rows := Step(site, tenant, false, p, later).value.rows;
      if RecordSlot(site, r).Some? {
        StepTouchesItsSlot(site, tenant, false, p, later, Address(tenant, RecordSlot(site, r).value));
      }
      SameVerdict(site, tenant, p.rows, rows, r);
    }
  }

  /** After a stream with distinct slots, a record of it is settled exactly when it is one that settles. */
  lemma {:induction false} SettledAfter(site: Site, tenant: string, p: Progress, records: seq<Record>)
    requires ValidSite(site) && RowsOk(site, p.rows) && DistinctSlots(site, records)
    requires Steps(site, tenant, false, p, records).Some?
    ensures forall r :: r in records ==>
      (Settled(site, Steps(site, tenant, false, p, records).value.rows, tenant, r) <==> SettlesOnApply(site, r))
  {
    if records != [] {
      var n := |records| - 1;
      var front, last := records[..n], records[n];
      SettledAfter(site, tenant, p, front);
      var q := Steps(site, tenant, false, p, front).value;
      assert Steps(site, tenant, false, p, records) == Step(site, tenant, false, q, last);
      forall r | r in records
        ensures Settled(site, Steps(site, tenant, false, p, records).value.rows, tenant, r) <==> SettlesOnApply(site, r)
      {
        var i :| 0 <= i < |records| && records[i] == r;
        assert i < n ==> r == front[i] && r in front;
        SettledAfterLast(site, tenant, q, front, last, r);
      }
    }
  }

  /** The last record settles as its spelling says, and leaves the others as they are. */
  lemma SettledAfterLast(site: Site, tenant: string, q: Progress, front: seq<Record>, last: Record, r: Record)
    requires ValidSite(site) && RowsOk(site, q.rows) && Step(site, tenant, false, q, last).Some?
    requires r in front ==> (Settled(site, q.rows, tenant, r) <==> SettlesOnApply(site, r))
    requires r in front ==> (RecordSlot(site, r).Some? ==> RecordSlot(site, r) != RecordSlot(site, last))
    requires r in front || r == last
    ensures RowsOk(site, Step(site, tenant, false, q, last).value.rows)
    ensures Settled(site, Step(site, tenant, false, q, last).value.rows, tenant, r) <==> SettlesOnApply(site, r)
  {
    StepKeepsOk(site, tenant, false, q, last);
    if r in front {
      SettledStays(site, tenant, q, r, last);
    } else {
      ReapplyIffSpelled(site, tenant, q, last);
    }
  }

  function Tally(records: seq<Record>, outcome: Outcome, report: Report): Report {
    if records == [] then report
    else Recorded(Tally(records[..|records| - 1], outcome, report), records[|records| - 1].kind, outcome)
  }

  lemma {:induction false} SettledStreamIsSkipped(site: Site, tenant: string, p: Progress, records: seq<Record>)
    requires ValidSite(site) && RowsOk(site, p.rows)
    requires forall r :: r in records ==> Settled(site, p.rows, tenant, r)
    ensures Steps(site, tenant, false, p, records).Some?
    ensures var q := Steps(site, tenant, false, p, records).value;
      q.rows == p.rows && q.report.counts == Tally(records, Skipped, p.report).counts
  {
    if records != [] {
      var n := |records| - 1;
      SettledStreamIsSkipped(site, tenant, p, records[..n]);
      SettledIsSkipped(site, tenant, Steps(site, tenant, false, p, records[..n]).value, records[n]);
    }
  }

  lemma SettledIsSkipped(site: Site, tenant: string, p: Progress, r: Record)
    requires ValidSite(site) && RowsOk(site, p.rows) && Settled(site, p.rows, tenant, r)
    ensures var q := Step(site, tenant, false, p, r);
      q.Some? && q.value.rows == p.rows && q.value.report.counts == Recorded(p.report, r.kind, Skipped).counts
  {}

  // ---------------------------------------------------------------- and when it does not

  function MovedOf(report: Report, kind: string): nat {
    if kind in report.counts then report.counts[kind].created + report.counts[kind].updated else 0
  }

  /** A step never takes a creation or an update back, and adds none only for a record that was settled. */
  lemma StepMoves(site: Site, tenant: string, p: Progress, r: Record, k: string)
    requires ValidSite(site) && RowsOk(site, p.rows) && Step(site, tenant, false, p, r).Some?
    ensures var q := Step(site, tenant, false, p, r).value;
      && MovedOf(q.report, k) >= MovedOf(p.report, k)
      && (MovedOf(q.report, r.kind) == MovedOf(p.report, r.kind) ==>
          q.rows == p.rows && Settled(site, p.rows, tenant, r))
  {
    if r.kind in site.specs {
      var v := Judge(site, p.rows, tenant, r).value;
      CountsOnly(site.specs[r.kind], r, Recorded(p.report, r.kind, v.outcome));
    }
  }

  lemma CountsOnly(t: PortableTable, r: Record, report: Report)
    ensures Complaints(t, r, report).counts == report.counts
  {}

  lemma {:induction false} OnlySkips(site: Site, tenant: string, p: Progress, records: seq<Record>)
    requires ValidSite(site) && RowsOk(site, p.rows) && Steps(site, tenant, false, p, records).Some?
    requires forall k :: MovedOf(Steps(site, tenant, false, p, records).value.report, k) <= MovedOf(p.report, k)
    ensures Steps(site, tenant, false, p, records).value.rows == p.rows
    ensures forall r :: r in records ==> Settled(site, p.rows, tenant, r)
    ensures forall k :: MovedOf(Steps(site, tenant, false, p, records).value.report, k) == MovedOf(p.report, k)
  {
    NothingTakenBack(site, tenant, p, records);
    if records != [] {
      var front, last := records[..|records| - 1], records[|records| - 1];
      var q := Steps(site, tenant, false, p, front).value;
      NothingTakenBack(site, tenant, p, front);
      forall k ensures MovedOf(q.report, k) <= MovedOf(p.report, k) {
        StepMoves(site, tenant, q, last, k);
      }
      OnlySkips(site, tenant, p, front);
      StepMoves(site, tenant, q, last, last.kind);
      assert records == front + [last];
    }
  }

  lemma {:induction false} NothingTakenBack(site: Site, tenant: string, p: Progress, records: seq<Record>)
    requires ValidSite(site) && RowsOk(site, p.rows) && Steps(site, tenant, false, p, records).Some?
    ensures forall k :: MovedOf(Steps(site, tenant, false, p, records).value.report, k) >= MovedOf(p.report, k)
  {
    if records != [] {
      var front, last := records[..|records| - 1], records[|records| - 1];
      NothingTakenBack(site, tenant, p, front);
      forall k ensures MovedOf(Steps(site, tenant, false, p, records).value.report, k) >= MovedOf(p.report, k) {
        StepMoves(site, tenant, Steps(site, tenant, false, p, front).value, last, k);
      }
    }
  }

  lemma {:induction false} TallyOfSkips(records: seq<Record>, report: Report, k: string)
    ensures MovedOf(Tally(records, Skipped, report), k) == MovedOf(report, k)
  {
    if records != [] { TallyOfSkips(records[..|records| - 1], report, k); }
  }

  /**
   * Applied a second time, a stream whose records name different rows reports every record skipped, and then
   * changes no row, if and only if each of its records is in export's spelling or always skipped.
   */
  lemma SecondApplySkipsIff(site: Site, tenant: string, p: Progress, records: seq<Record>, report: Report)
    requires ValidSite(site) && RowsOk(site, p.rows) && DistinctSlots(site, records)
    requires Steps(site, tenant, false, p, records).Some?
    ensures var rows := Steps(site, tenant, false, p, records).value.rows;
      var again := Steps(site, tenant, false, Progress(rows, report), records);
      && (again.Some? && again.value.report.counts == Tally(records, Skipped, report).counts
          <==> forall r :: r in records ==> SettlesOnApply(site, r))
      && (again.Some? && again.value.report.counts == Tally(records, Skipped, report).counts ==>
          again.value.rows == rows)
  {
    SettledAfter(site, tenant, p, records);
    var start := Progress(Steps(site, tenant, false, p, records).value.rows, report);
    var again := Steps(site, tenant, false, start, records);
    if forall r :: r in records ==> SettlesOnApply(site, r) {
      SettledStreamIsSkipped(site, tenant, start, records);
    }
    if again.Some? && again.value.report.counts == Tally(records, Skipped, report).counts {
      forall k ensures MovedOf(again.value.report, k) <= MovedOf(report, k) {
        TallyOfSkips(records, report, k);
      }
      OnlySkips(site, tenant, start, records);
    }
  }

  // ---------------------------------------------------------------- there and back

  /** Every null in a NOT NULL column has a default to fill it. */
  ghost predicate Fillable(t: PortableTable, row: Data) {
    forall n :: n in t.columns && n in row && row[n].Null? ==> t.columns[n].nullable || t.columns[n].default.Some?
  }

  lemma EncodedRoundTrip(site: Site, t: PortableTable, row: Data)
    requires Faithful(site.spelling) && ValidTable(t) && RowOk(t, row) && Fillable(t, row)
    ensures var data := Encode(site.spelling, t, row);
      && Filled(t, data) == data && Unfilled(t, data) == {} && SpelledRecord(site, t, data)
      && var values := Decode(site.spelling, t, data);
         values.Some? && KeyOf(t, values.value) == KeyOf(t, row)
         && var landed := Landed(site, t, values.value, None);
            landed.Some? && RowOk(t, landed.value) && Encode(site.spelling, t, landed.value) == data
  {
    var sp, data := site.spelling, Encode(site.spelling, t, row);
    forall n | n in t.columns
      ensures FilledField(t, data, n) == data[n] && (data[n].Null? ==> t.columns[n].nullable)
        && Spelled(sp, t.columns[n], data[n])
      ensures var back := DecodeValue(sp, t.columns[n], data[n]);
        back.Some? && var again := Stored(site.dialect, t.columns[n], back.value);
                      again.Some? && Fits(t.columns[n], again.value)
                      && EncodeValue(sp, t.columns[n], Defaulted(t.columns[n], again.value)) == data[n]
    {
      assert ValidColumn(t.columns[n]) && Fits(t.columns[n], row[n]);
      ValueRoundTrip(sp, site.dialect, t.columns[n], row[n]);
    }
    assert Filled(t, data) == data;
    var values := Decode(sp, t, data).value;
    forall k | 0 <= k < |t.key| ensures t.key[k] in values && values[t.key[k]] == row[t.key[k]] {
      assert t.columns[t.key[k]] == Column(Plain, false, None, None);
    }
    assert KeyOf(t, values).value.key == KeyOf(t, row).value.key;
    forall n | n in t.columns ensures Cell(site, t.columns[n], n, values, None) ==
      Stored(site.dialect, t.columns[n], values[n]) {
      assert n in values;
    }
    var landed := Landed(site, t, values, None).value;
    LandedIsOk(site, t, values, None, landed);
    assert Encode(sp, t, landed) == data;
  }

  /** An exported record, imported where its slot is free, creates a row that exports as the same record. */
  lemma ExportedRecordLands(home: Site, site: Site, slot: Slot, row: Data, tenant: string, p: Progress)
    requires ValidSite(home) && ValidSite(site) && site == home.(dialect := site.dialect) && RowsOk(site, p.rows)
    requires slot.kind in home.specs && RowOk(home.specs[slot.kind], row)
      && KeyOf(home.specs[slot.kind], row) == Some(slot)
    requires Fillable(home.specs[slot.kind], row) && Address(tenant, slot) !in p.rows
    ensures var r := RecordOf(home, slot, row); var q := Step(site, tenant, false, p, r);
      && RecordSlot(site, r) == Some(slot) && SettlesOnApply(site, r)
      && q.Some? && q.value.report == Recorded(p.report, r.kind, Created)
      && q.value.rows.Keys == p.rows.Keys + {Address(tenant, slot)}
      && var landed := q.value.rows[Address(tenant, slot)];
         RowOk(site.specs[slot.kind], landed) && RecordOf(site, slot, landed) == r
  {
    var t := site.specs[slot.kind];
    EncodedRoundTrip(site, t, row);
    var r := RecordOf(home, slot, row);
    assert r.data == Encode(site.spelling, t, row);
    assert r.data.Keys - t.columns.Keys == {};
  }

  ghost predicate Filed(order: seq<Slot>, rows: Rows, tenant: string) {
    forall s :: s in order ==> Address(tenant, s) in rows
  }

  /** Record by record, the stream names the slots in order, and each record settles once applied. */
  ghost predicate Spread(site: Site, records: seq<Record>, order: seq<Slot>)
    requires ValidSite(site)
  {
    && |records| == |order|
    && forall i :: 0 <= i < |order| ==>
      RecordSlot(site, records[i]) == Some(order[i]) && SettlesOnApply(site, records[i])
  }

  ghost predicate Added(rows: Rows, after: Rows, tenant: string, order: seq<Slot>) {
    forall a :: a in after <==> a in rows || (a.tenant == tenant && a.slot in order)
  }

  lemma AddedOne(rows: Rows, some: Rows, after: Rows, tenant: string, order: seq<Slot>, last: Slot)
    requires Added(rows, some, tenant, order) && after.Keys == some.Keys + {Address(tenant, last)}
    ensures Added(rows, after, tenant, order + [last])
  {}

  lemma SpreadOne(site: Site, records: seq<Record>, order: seq<Slot>, r: Record, last: Slot)
    requires ValidSite(site) && Spread(site, records, order) && RecordSlot(site, r) == Some(last)
      && SettlesOnApply(site, r)
    ensures Spread(site, records + [r], order + [last])
  {}

  lemma TallySnoc(records: seq<Record>, outcome: Outcome, report: Report, r: Record)
    ensures Tally(records + [r], outcome, report) == Recorded(Tally(records, outcome, report), r.kind, outcome)
  {
    assert (records + [r])[..|records + [r]| - 1] == records;
  }

  /** What a stream has done on reaching q: each record landed in its own free slot, and exports as it came. */
  ghost predicate LandedAll(site: Site, tenant: string, p: Progress, q: Progress, records: seq<Record>,
                            order: seq<Slot>)
    requires ValidSite(site) && RowsOk(site, q.rows)
  {
    && Spread(site, records, order)
    && q.report == Tally(records, Created, p.report)
    && Added(p.rows, q.rows, tenant, order) && Filed(order, q.rows, tenant)
    && Exported(site, q.rows, tenant, order) == records
  }

  ghost predicate Landing(site: Site, tenant: string, p: Progress, records: seq<Record>, order: seq<Slot>)
    requires ValidSite(site) && RowsOk(site, p.rows)
  {
    var q := Steps(site, tenant, false, p, records);
    q.Some? && LandedAll(site, tenant, p, q.value, records, order)
  }

  lemma StepsSnoc(site: Site, tenant: string, p: Progress, records: seq<Record>, q: Progress, r: Record, q': Progress)
    requires ValidSite(site) && RowsOk(site, p.rows) && Steps(site, tenant, false, p, records) == Some(q)
    requires Step(site, tenant, false, q, r) == Some(q')
    ensures Steps(site, tenant, false, p, records + [r]) == Some(q')
  {
    assert (records + [r])[..|records + [r]| - 1] == records;
  }

  lemma ExportedSnoc(site: Site, rows: Rows, tenant: string, order: seq<Slot>, last: Slot)
    requires ValidSite(site) && RowsOk(site, rows) && Filed(order + [last], rows, tenant)
    ensures Filed(order, rows, tenant) && Address(tenant, last) in rows
    ensures Exported(site, rows, tenant, order + [last])
            == Exported(site, rows, tenant, order) + [RecordOf(site, last, rows[Address(tenant, last)])]
  {
    assert (order + [last])[..|order + [last]| - 1] == order;
    assert last in order + [last] && forall s :: s in order ==> s in order + [last];
  }

  ghost predicate Agree(order: seq<Slot>, rows: Rows, rows': Rows, tenant: string)
    requires Filed(order, rows, tenant)
  {
    forall s :: s in order ==> Address(tenant, s) in rows' && rows'[Address(tenant, s)] == rows[Address(tenant, s)]
  }

  lemma {:induction false} SameExport(site: Site, rows: Rows, rows': Rows, tenant: string, order: seq<Slot>)
    requires ValidSite(site) && RowsOk(site, rows) && RowsOk(site, rows')
    requires Filed(order, rows, tenant) && Agree(order, rows, rows', tenant)
    ensures Filed(order, rows', tenant)
    ensures Exported(site, rows', tenant, order) == Exported(site, rows, tenant, order)
  {
    if order != [] {
      SameExport(site, rows, rows', tenant, order[..|order| - 1]);
    }
  }

  lemma OthersAgree(site: Site, tenant: string, order: seq<Slot>, q: Progress, r: Record, q': Progress)
    requires ValidSite(site) && RowsOk(site, q.rows) && Step(site, tenant, false, q, r) == Some(q')
    requires Filed(order, q.rows, tenant) && forall s :: s in order ==> RecordSlot(site, r) != Some(s)
    ensures Agree(order, q.rows, q'.rows, tenant)
  {
    forall s | s in order ensures Address(tenant, s) in q'.rows
      && q'.rows[Address(tenant, s)] == q.rows[Address(tenant, s)] {
      StepTouchesItsSlot(site, tenant, false, q, r, Address(tenant, s));
    }
  }

  /** Rows that agree on the earlier slots and hold the last export as the rest extended by the last record. */
  lemma ImportedSnoc(site: Site, tenant: string, order: seq<Slot>, last: Slot, rows: Rows, rows': Rows)
    requires ValidSite(site) && RowsOk(site, rows) && RowsOk(site, rows')
    requires Filed(order, rows, tenant) && Agree(order, rows, rows', tenant) && Address(tenant, last) in rows'
    ensures Filed(order + [last], rows', tenant)
    ensures Exported(site, rows', tenant, order + [last])
            == Exported(site, rows, tenant, order) + [RecordOf(site, last, rows'[Address(tenant, last)])]
  {
    SameExport(site, rows, rows', tenant, order);
    assert Filed(order + [last], rows', tenant);
    ExportedSnoc(site, rows', tenant, order, last);
  }

  lemma ExtendLanding(home: Site, row: Data, site: Site, tenant: string, p: Progress, records: seq<Record>,
                      order: seq<Slot>, last: Slot)
    requires ValidSite(home) && ValidSite(site) && site == home.(dialect := site.dialect) && RowsOk(site, p.rows)
    requires last.kind in home.specs && RowOk(home.specs[last.kind], row)
      && KeyOf(home.specs[last.kind], row) == Some(last)
    requires Fillable(home.specs[last.kind], row) && Address(tenant, last) !in p.rows
    requires last !in order && Landing(site, tenant, p, records, order)
    ensures Landing(site, tenant, p, records + [RecordOf(home, last, row)], order + [last])
  {
    var r := RecordOf(home, last, row);
    var q := Steps(site, tenant, false, p, records).value;
    assert Address(tenant, last) !in q.rows;
    ExportedRecordLands(home, site, last, row, tenant, q);
    var q' := Step(site, tenant, false, q, r).value;
    StepKeepsOk(site, tenant, false, q, r);
    assert forall s :: s in order ==> RecordSlot(site, r) != Some(s);
    OthersAgree(site, tenant, order, q, r, q');
    LandingSnoc(site, tenant, p, records, order, last, q, r, q');
    StepsSnoc(site, tenant, p, records, q, r, q');
  }

  lemma LandingSnoc(site: Site, tenant: string, p: Progress, records: seq<Record>, order: seq<Slot>, last: Slot,
                    q: Progress, r: Record, q': Progress)
    requires ValidSite(site) && RowsOk(site, q.rows) && RowsOk(site, q'.rows)
    requires LandedAll(site, tenant, p, q, records, order) && Agree(order, q.rows, q'.rows, tenant)
    requires RecordSlot(site, r) == Some(last) && SettlesOnApply(site, r)
      && q'.report == Recorded(q.report, r.kind, Created)
    requires q'.rows.Keys == q.rows.Keys + {Address(tenant, last)}
    requires RecordOf(site, last, q'.rows[Address(tenant, last)]) == r
    ensures LandedAll(site, tenant, p, q', records + [r], order + [last])
  {
    SpreadOne(site, records, order, r, last);
    TallySnoc(records, Created, p.report, r);
    AddedOne(p.rows, q.rows, q'.rows, tenant, order, last);
    ImportedSnoc(site, tenant, order, last, q.rows, q'.rows);
  }

  lemma FiledRow(home: Site, rows: Rows, source: string, s: Slot)
    requires ValidSite(home) && RowsOk(home, rows) && Address(source, s) in rows
    ensures s.kind in home.specs && RowOk(home.specs[s.kind], rows[Address(source, s)])
    ensures KeyOf(home.specs[s.kind], rows[Address(source, s)]) == Some(s)
  {
    assert Address(source, s).slot == s;
  }

  lemma {:induction false} StreamLands(home: Site, rows: Rows, source: string, order: seq<Slot>, site: Site,
                                       tenant: string, p: Progress)
    requires ValidSite(home) && RowsOk(home, rows) && ValidSite(site) && site == home.(dialect := site.dialect)
    requires RowsOk(site, p.rows) && Distinct(order) && Filed(order, rows, source)
    requires forall s :: s in order ==>
      Fillable(home.specs[s.kind], rows[Address(source, s)]) && Address(tenant, s) !in p.rows
    ensures Landing(site, tenant, p, Exported(home, rows, source, order), order)
  {
    if order != [] {
      var front, last := order[..|order| - 1], order[|order| - 1];
      assert order == front + [last] && last !in front && last in order;
      assert forall s :: s in front ==> s in order;
      FiledRow(home, rows, source, last);
      assert Distinct(front) && Filed(front, rows, source);
      StreamLands(home, rows, source, front, site, tenant, p);
      ExportedSnoc(home, rows, source, front, last);
      ExtendLanding(home, rows[Address(source, last)], site, tenant, p, Exported(home, rows, source, front), front,
                    last);
    }
  }

  /**
   * Export a tenant, import the stream into an installation of either dialect where the target tenant has
   * no row, and export again: the same stream, every record reported created and none complained of. A
   * second import reports every record skipped and changes nothing.
   */
  lemma ExportImportExport(home: Site, rows: Rows, source: string, order: seq<Slot>, site: Site, held: Rows,
                           tenant: string)
    requires ValidSite(home) && RowsOk(home, rows) && ValidSite(site) && site == home.(dialect := site.dialect)
    requires RowsOk(site, held) && Lists(order, rows, source)
    requires forall s :: s in order ==> Fillable(home.specs[s.kind], rows[Address(source, s)])
    requires forall a :: a in held ==> a.tenant != tenant
    ensures var stream := Exported(home, rows, source, order);
      var q := Steps(site, tenant, false, Progress(held, EMPTY_REPORT), stream);
      && q.Some? && q.value.report == Tally(stream, Created, EMPTY_REPORT)
      && Lists(order, q.value.rows, tenant) && Exported(site, q.value.rows, tenant, order) == stream
      && var again := Steps(site, tenant, false, Progress(q.value.rows, EMPTY_REPORT), stream);
         again.Some? && again.value.rows == q.value.rows
         && again.value.report.counts == Tally(stream, Skipped, EMPTY_REPORT).counts
  {
    var stream := Exported(home, rows, source, order);
    var p := Progress(held, EMPTY_REPORT);
    StreamLands(home, rows, source, order, site, tenant, p);
    var q := Steps(site, tenant, false, p, stream).value;
    assert DistinctSlots(site, stream);
    SecondApplySkipsIff(site, tenant, p, stream, EMPTY_REPORT);
  }

  /**
   * Distinct slots are needed for a dry run to report as the import does: a record sent twice into a free
   * slot is created and then skipped by the import, and created twice by the dry run, which wrote nothing.
   */
  lemma {:induction false} RepeatedSlotMisreports(site: Site, tenant: string, rows: Rows, r: Record)
    requires ValidSite(site) && RowsOk(site, rows) && r.kind in site.specs && SettlesOnApply(site, r)
    requires Judge(site, rows, tenant, r).Some? && Judge(site, rows, tenant, r).value.outcome.Created?
    requires Step(site, tenant, false, Progress(rows, EMPTY_REPORT), r).Some?
    ensures var p := Progress(rows, EMPTY_REPORT);
      var full, trial := Steps(site, tenant, false, p, [r, r]), Steps(site, tenant, true, p, [r, r]);
      && full.Some? && r.kind in full.value.report.counts && full.value.report.counts[r.kind] == Counts(1, 0, 1)
      && trial.Some? && r.kind in trial.value.report.counts && trial.value.report.counts[r.kind] == Counts(2, 0, 0)
  {
    var p := Progress(rows, EMPTY_REPORT);
    RepeatedInFull(site, tenant, p, r);
    RepeatedInTrial(site, tenant, p, r);
  }

  lemma RepeatedInFull(site: Site, tenant: string, p: Progress, r: Record)
    requires ValidSite(site) && RowsOk(site, p.rows) && r.kind in site.specs && SettlesOnApply(site, r)
    requires Judge(site, p.rows, tenant, r).Some? && Judge(site, p.rows, tenant, r).value.outcome.Created?
    requires Step(site, tenant, false, p, r).Some? && p.report == EMPTY_REPORT
    ensures var full := Steps(site, tenant, false, p, [r, r]);
      full.Some? && r.kind in full.value.report.counts && full.value.report.counts[r.kind] == Counts(1, 0, 1)
  {
    ReapplyIffSpelled(site, tenant, p, r);
    SettledIsSkipped(site, tenant, Step(site, tenant, false, p, r).value, r);
    StepsOfTwo(site, tenant, false, p, r);
  }

  lemma RepeatedInTrial(site: Site, tenant: string, p: Progress, r: Record)
    requires ValidSite(site) && RowsOk(site, p.rows) && r.kind in site.specs
    requires Judge(site, p.rows, tenant, r).Some? && Judge(site, p.rows, tenant, r).value.outcome.Created?
    requires p.report == EMPTY_REPORT
    ensures var trial := Steps(site, tenant, true, p, [r, r]);
      trial.Some? && r.kind in trial.value.report.counts && trial.value.report.counts[r.kind] == Counts(2, 0, 0)
  {
    StepsOfTwo(site, tenant, true, p, r);
  }

  lemma StepsOfTwo(site: Site, tenant: string, dryRun: bool, p: Progress, r: Record)
    requires ValidSite(site) && RowsOk(site, p.rows) && Step(site, tenant, dryRun, p, r).Some?
    ensures RowsOk(site, Step(site, tenant, dryRun, p, r).value.rows)
    ensures Steps(site, tenant, dryRun, p, [r, r]) ==
      Step(site, tenant, dryRun, Step(site, tenant, dryRun, p, r).value, r)
  {
    StepKeepsOk(site, tenant, dryRun, p, r);
    assert [r, r][..1] == [r] && [r][..0] == [];
    assert Steps(site, tenant, dryRun, p, [r]) == Step(site, tenant, dryRun, p, r);
  }

  // ---------------------------------------------------------------- column by column

  /**
   * A row exported and imported elsewhere means the same in every one of its columns: the same instant, the same
   * bytes, the same truth, the same value; a null stays one, or becomes its column's default where it may not.
   */
  lemma LandedMeansTheSame(site: Site, t: PortableTable, row: Data, n: string)
    requires Faithful(site.spelling) && ValidTable(t) && RowOk(t, row) && Fillable(t, row) && n in t.columns
    ensures Decode(site.spelling, t, Encode(site.spelling, t, row)).Some?
    ensures Landed(site, t, Decode(site.spelling, t, Encode(site.spelling, t, row)).value, None).Some?
    ensures var landed := Landed(site, t, Decode(site.spelling, t, Encode(site.spelling, t, row)).value, None).value;
      && n in landed
      && (!row[n].Null? ==> Means(t.columns[n], row[n], landed[n]))
      && (row[n].Null? && t.columns[n].nullable ==> landed[n].Null?)
      && (row[n].Null? && !t.columns[n].nullable ==>
            t.columns[n].default.Some? && Means(t.columns[n], t.columns[n].default.value, landed[n]))
  {
    EncodedRoundTrip(site, t, row);
    var sp, c := site.spelling, t.columns[n];
    assert ValidColumn(c) && Fits(c, row[n]);
    ValueRoundTrip(sp, site.dialect, c, row[n]);
    var data := Encode(sp, t, row);
    var values := Decode(sp, t, data).value;
    assert values[n] == DecodeValue(sp, c, data[n]).value;
    var landed := Landed(site, t, values, None).value;
    assert Cell(site, c, n, values, None) == Stored(site.dialect, c, values[n]);
    assert landed[n] == Stored(site.dialect, c, values[n]).value;
  }

  /** A record exported for a row carries each of its columns and no other, under the row's kind. */
  lemma ExportedCarriesColumns(site: Site, slot: Slot, row: Data)
    requires ValidSite(site) && slot.kind in site.specs && RowOk(site.specs[slot.kind], row)
    ensures var r := RecordOf(site, slot, row);
      r.kind == slot.kind && r.data.Keys == site.specs[slot.kind].columns.Keys
      && r.data == Encode(site.spelling, site.specs[slot.kind], row)
  {}

  /** The i-th record of an export is the i-th listed row's own. */
  lemma {:induction false} ExportedAt(site: Site, rows: Rows, tenant: string, order: seq<Slot>, i: nat)
    requires ValidSite(site) && RowsOk(site, rows) && Filed(order, rows, tenant) && i < |order|
    ensures |Exported(site, rows, tenant, order)| == |order|
    ensures Address(tenant, order[i]) in rows && order[i].kind in site.specs
    ensures RowOk(site.specs[order[i].kind], rows[Address(tenant, order[i])])
    ensures Exported(site, rows, tenant, order)[i] == RecordOf(site, order[i], rows[Address(tenant, order[i])])
  {
    var n := |order| - 1;
    assert order[i] in order;
    FiledRow(site, rows, tenant, order[i]);
    if i < n {
      var front := order[..n];
      assert forall s :: s in front ==> s in order;
      assert Filed(front, rows, tenant) && front[i] == order[i];
      ExportedAt(site, rows, tenant, front, i);
      assert Exported(site, rows, tenant, order)[..n] == Exported(site, rows, tenant, front);
    }
  }
}
