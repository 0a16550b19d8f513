/**
 * The calendar's export and import: every travelling row of a tenant out as a record, and a stream of
 * records in as additive upserts, in one transaction.
 */
module CalendarPortability {
  import opened Basics
  import opened PortableColumns

  datatype Record = Record(kind: string, id: string, data: Data)

  /** A row's identity across installations, and with its tenant its unique key in the table. */
  datatype Slot = Slot(kind: string, key: seq<Value>)

  datatype Address = Address(tenant: string, slot: Slot)

  type Rows = map<Address, Data>

  datatype Site = Site(spelling: Spelling, dialect: Dialect, specs: map<string, PortableTable>)

  datatype Outcome = Created | Updated | Skipped

  datatype Counts = Counts(created: nat, updated: nat, skipped: nat)

  datatype Warning = UnknownKind(kind: string) | UnknownFields(kind: string, names: set<string>)
                   | NoValueFor(kind: string, names: set<string>)

  datatype Report = Report(counts: map<string, Counts>, warnings: seq<Warning>)

  datatype Progress = Progress(rows: Rows, report: Report)

  const EMPTY_REPORT := Report(map[], [])

  ghost predicate ValidSite(site: Site) {
    && Faithful(site.spelling)
    && forall k :: k in site.specs ==> ValidTable(site.specs[k]) && site.specs[k].kind == k
  }

  function KeyOf(t: PortableTable, values: Data): Option<Slot> {
    if forall k :: 0 <= k < |t.key| ==> t.key[k] in values
    then Some(Slot(t.kind, seq(|t.key|, k requires 0 <= k < |t.key| => values[t.key[k]])))
    else None
  }

  /** Every stored row is of a travelling table, typed by its columns, and filed under its own key. */
  ghost predicate RowsOk(site: Site, rows: Rows) {
    forall a :: a in rows ==> a.slot.kind in site.specs && RowOk(site.specs[a.slot.kind], rows[a])
                              && KeyOf(site.specs[a.slot.kind], rows[a]) == Some(a.slot)
  }

  // ---------------------------------------------------------------- the report

  function Recorded(report: Report, kind: string, outcome: Outcome): Report {
    var before := if kind in report.counts then report.counts[kind] else Counts(0, 0, 0);
    var after := match outcome
                 case Created => before.(created := before.created + 1)
                 case Updated => before.(updated := before.updated + 1)
                 case Skipped => before.(skipped := before.skipped + 1);
    report.(counts := report.counts[kind := after])
  }

  function Warned(report: Report, w: Warning): Report {
    if w in report.warnings then report else report.(warnings := report.warnings + [w])
  }

  // ---------------------------------------------------------------- one record

  /** What a column holds after a write of these values over a row, or into a new one; None if it is refused. */
  function Cell(site: Site, c: Column, n: string, values: Data, existing: Option<Data>): Option<Value> {
    if n in values then Stored(site.dialect, c, values[n])
    else if existing.Some? && n in existing.value then Some(existing.value[n])
    else if c.default.Some? then Stored(site.dialect, c, c.default.value)
    else if c.generated.Some? then c.generated
    else if c.nullable then Some(Null)
    else None
  }

  function Landed(site: Site, t: PortableTable, values: Data, existing: Option<Data>): Option<Data> {
    if forall n :: n in t.columns ==> Cell(site, t.columns[n], n, values, existing).Some?
    then Some(map n | n in t.columns :: Cell(site, t.columns[n], n, values, existing).value)
    else None
  }

  /** Every column the record carries already encodes to the record's own, normalised, value. */
  predicate Matches(site: Site, t: PortableTable, data: Data, row: Data)
    requires ValidTable(t) && RowOk(t, row)
  {
    forall n :: n in data && n in t.columns ==> Same(Encode(site.spelling, t, row)[n], Filled(t, data)[n])
  }

  datatype Verdict = Verdict(outcome: Outcome, slot: Option<Slot>, values: Data)

  function Existing(rows: Rows, tenant: string, slot: Option<Slot>): (r: Option<Data>)
    ensures r.Some? ==>
      slot.Some? && Address(tenant, slot.value) in rows && r.value == rows[Address(tenant, slot.value)]
  {
    if slot.Some? && Address(tenant, slot.value) in rows then Some(rows[Address(tenant, slot.value)]) else None
  }

  /** The outcome of one record of a known kind, before anything is written; None where decoding raises. */
  function Judge(site: Site, rows: Rows, tenant: string, r: Record): Option<Verdict>
    requires ValidSite(site) && RowsOk(site, rows) && r.kind in site.specs
  {
    var t := site.specs[r.kind];
    match Decode(site.spelling, t, Filled(t, r.data))
    case None => None
    case Some(values) =>
      var slot := KeyOf(t, values);
      if Unfilled(t, r.data) != {} then Some(Verdict(Skipped, slot, values))
      else match Existing(rows, tenant, slot)
        case None => Some(Verdict(Created, slot, values))
        case Some(row) => Some(Verdict(if Matches(site, t, r.data, row) then Skipped else Updated, slot, values))
  }

  /** The rows after the verdict is carried out; None where the database refuses the row. */
  function Written(site: Site, rows: Rows, tenant: string, r: Record, v: Verdict, dryRun: bool): Option<Rows>
    requires r.kind in site.specs
  {
    if dryRun || v.outcome.Skipped? then Some(rows)
    else match Landed(site, site.specs[r.kind], v.values, Existing(rows, tenant, v.slot))
      case None => None
      case Some(row) => if v.slot.None? then None else Some(rows[Address(tenant, v.slot.value) := row])
  }

  function Complaints(t: PortableTable, r: Record, report: Report): Report {
    var unknown := r.data.Keys - t.columns.Keys;
    var noted := if unknown != {} then Warned(report, UnknownFields(r.kind, unknown)) else report;
    if Unfilled(t, r.data) != {} then Warned(noted, NoValueFor(r.kind, Unfilled(t, r.data))) else noted
  }

  function Step(site: Site, tenant: string, dryRun: bool, p: Progress, r: Record): Option<Progress>
    requires ValidSite(site) && RowsOk(site, p.rows)
  {
    if r.kind !in site.specs then
      Some(p.(report := Warned(Recorded(p.report, r.kind, Skipped), UnknownKind(r.kind))))
    else match Judge(site, p.rows, tenant, r)
      case None => None
      case Some(v) =>
        match Written(site, p.rows, tenant, r, v, dryRun)
        case None => None
        case Some(rows) =>
          Some(Progress(rows, Complaints(site.specs[r.kind], r, Recorded(p.report, r.kind, v.outcome))))
  }

  lemma LandedIsOk(site: Site, t: PortableTable, values: Data, existing: Option<Data>, row: Data)
    requires ValidTable(t) && (existing.Some? ==> RowOk(t, existing.value))
      && Landed(site, t, values, existing) == Some(row)
    requires KeyOf(t, values).Some?
    ensures RowOk(t, row) && KeyOf(t, row) == KeyOf(t, values)
  {
    forall n | n in row ensures Fits(t.columns[n], row[n]) {
      assert ValidColumn(t.columns[n]);
    }
    forall k | 0 <= k < |t.key| ensures t.key[k] in row && row[t.key[k]] == values[t.key[k]] && !row[t.key[k]].Null? {
      assert t.columns[t.key[k]] == Column(Plain, false, None, None);
    }
    assert KeyOf(t, row).Some? && KeyOf(t, row).value.key == KeyOf(t, values).value.key;
  }

  /** A row written by a judged record is typed, and filed under the slot the record named. */
  lemma WrittenRowIsOk(site: Site, tenant: string, rows: Rows, r: Record, v: Verdict, row: Data)
    requires ValidSite(site) && RowsOk(site, rows) && r.kind in site.specs && Judge(site, rows, tenant, r) == Some(v)
    requires v.slot.Some? && Landed(site, site.specs[r.kind], v.values, Existing(rows, tenant, v.slot)) == Some(row)
    ensures v.slot.value.kind == r.kind && RowOk(site.specs[r.kind], row) && KeyOf(site.specs[r.kind], row) == v.slot
  {
    var t, existing := site.specs[r.kind], Existing(rows, tenant, v.slot);
    assert v.slot == KeyOf(t, v.values) && v.slot.value.kind == t.kind == r.kind;
    LandedIsOk(site, t, v.values, existing, row);
  }

  lemma PutKeepsOk(site: Site, rows: Rows, a: Address, row: Data)
    requires RowsOk(site, rows) && a.slot.kind in site.specs
    requires RowOk(site.specs[a.slot.kind], row) && KeyOf(site.specs[a.slot.kind], row) == Some(a.slot)
    ensures RowsOk(site, rows[a := row])
  {}

  lemma StepKeepsOk(site: Site, tenant: string, dryRun: bool, p: Progress, r: Record)
    requires ValidSite(site) && RowsOk(site, p.rows) && Step(site, tenant, dryRun, p, r).Some?
    ensures RowsOk(site, Step(site, tenant, dryRun, p, r).value.rows)
  {
    if r.kind in site.specs {
      var v := Judge(site, p.rows, tenant, r).value;
      if !dryRun && !v.outcome.Skipped? {
        var row := Landed(site, site.specs[r.kind], v.values, Existing(p.rows, tenant, v.slot)).value;
        WrittenRowIsOk(site, tenant, p.rows, r, v, row);
        PutKeepsOk(site, p.rows, Address(tenant, v.slot.value), row);
      }
    }
  }

  /** The whole stream, in order; None if some record raises, and then nothing lands. */
  function Steps(site: Site, tenant: string, dryRun: bool, p: Progress, records: seq<Record>): (r: Option<Progress>)
    requires ValidSite(site) && RowsOk(site, p.rows)
    ensures r.Some? ==> RowsOk(site, r.value.rows)
  {
    if records == [] then Some(p)
    else
      var front := Steps(site, tenant, dryRun, p, records[..|records| - 1]);
      if front.None? then None
      else
        var last := records[|records| - 1];
        var next := Step(site, tenant, dryRun, front.value, last);
        if next.None? then None else (StepKeepsOk(site, tenant, dryRun, front.value, last); next)
  }

  /** The slot a record is matched on: the key among its decoded values. */
  function RecordSlot(site: Site, r: Record): Option<Slot> {
    if r.kind !in site.specs then None
    else match Decode(site.spelling, site.specs[r.kind], Filled(site.specs[r.kind], r.data))
      case None => None
      case Some(values) => KeyOf(site.specs[r.kind], values)
  }

  predicate DistinctSlots(site: Site, records: seq<Record>) {
    forall i, j :: 0 <= i < j < |records| && RecordSlot(site, records[i]).Some? ==>
                     RecordSlot(site, records[i]) != RecordSlot(site, records[j])
  }

  // ---------------------------------------------------------------- what an import may touch

  /** One step leaves every row alone but the one its record names, and adds no other. */
  lemma StepTouchesItsSlot(site: Site, tenant: string, dryRun: bool, p: Progress, r: Record, a: Address)
    requires ValidSite(site) && RowsOk(site, p.rows) && Step(site, tenant, dryRun, p, r).Some?
    ensures var rows := Step(site, tenant, dryRun, p, r).value.rows;
      && (a in p.rows ==> a in rows)
      && (dryRun || a.tenant != tenant || RecordSlot(site, r) != Some(a.slot) ==>
            (a in rows <==> a in p.rows) && (a in rows ==> rows[a] == p.rows[a]))
  {}

  /** The row has the record's columns as the database stores them, and the old row's others. */
  ghost predicate Merged(site: Site, t: PortableTable, data: Data, values: Data, existing: Option<Data>, row: Data) {
    && row.Keys == t.columns.Keys
    && forall n :: n in row ==>
         if n in data then n in values && Stored(site.dialect, t.columns[n], values[n]) == Some(row[n])
         else if existing.Some? && n in existing.value then row[n] == existing.value[n]
         else Invented(site, t.columns[n], row[n])
  }

  /**
   * What a column of a new row holds that the record does not carry: its default, what the insert supplies, or
   * null.
   */
  ghost predicate Invented(site: Site, c: Column, v: Value) {
    && (c.default.Some? ==> Stored(site.dialect, c, c.default.value) == Some(v))
    && (c.default.None? && c.generated.Some? ==> v == c.generated.value)
    && (c.default.None? && c.generated.None? ==> v.Null? && c.nullable)
  }

  /**
   * What the outcome reported for a record says of the rows: created, a row where there was none; updated,
   * the same rows with the record's columns written over the old row and its other columns kept; skipped,
   * nothing.
   */
  lemma OutcomeTellsEffect(site: Site, tenant: string, p: Progress, r: Record)
    requires ValidSite(site) && RowsOk(site, p.rows) && r.kind in site.specs && Step(site, tenant, false, p, r).Some?
    ensures var v := Judge(site, p.rows, tenant, r); var rows := Step(site, tenant, false, p, r).value.rows;
      && v.Some? && (v.value.outcome.Skipped? ==> rows == p.rows)
      && (!v.value.outcome.Skipped? ==>
            && v.value.slot == RecordSlot(site, r) && v.value.slot.Some?
            && var a := Address(tenant, v.value.slot.value);
               && rows.Keys == p.rows.Keys + {a} && (v.value.outcome.Created? <==> a !in p.rows)
               && Merged(site, site.specs[r.kind], r.data, v.value.values, Existing(p.rows, tenant, v.value.slot),
                         rows[a]))
  {
    var v := Judge(site, p.rows, tenant, r).value;
    var rows := Step(site, tenant, false, p, r).value.rows;
    JudgedOutcome(site, p.rows, tenant, r, v);
    assert Written(site, p.rows, tenant, r, v, false) == Some(rows);
    if !v.outcome.Skipped? {
      WrittenIsMerged(site, p.rows, tenant, r, v, rows);
    }
  }

  lemma JudgedOutcome(site: Site, rows: Rows, tenant: string, r: Record, v: Verdict)
    requires ValidSite(site) && RowsOk(site, rows) && r.kind in site.specs && Judge(site, rows, tenant, r) == Some(v)
    ensures v.slot == RecordSlot(site, r)
    ensures Decode(site.spelling, site.specs[r.kind], Filled(site.specs[r.kind], r.data)) == Some(v.values)
    ensures !v.outcome.Skipped? ==> (v.outcome.Created? <==> Existing(rows, tenant, v.slot).None?)
  {}

  lemma WrittenIsMerged(site: Site, rows: Rows, tenant: string, r: Record, v: Verdict, after: Rows)
    requires r.kind in site.specs && !v.outcome.Skipped? && Written(site, rows, tenant, r, v, false) == Some(after)
    requires Decode(site.spelling, site.specs[r.kind], Filled(site.specs[r.kind], r.data)) == Some(v.values)
    ensures v.slot.Some? && after.Keys == rows.Keys + {Address(tenant, v.slot.value)}
    ensures Merged(site, site.specs[r.kind], r.data, v.values, Existing(rows, tenant, v.slot),
                   after[Address(tenant, v.slot.value)])
  {
    var existing := Existing(rows, tenant, v.slot);
    LandedIsMerged(site, site.specs[r.kind], r.data, v.values, existing,
                   Landed(site, site.specs[r.kind], v.values, existing).value);
  }

  lemma LandedIsMerged(site: Site, t: PortableTable, data: Data, values: Data, existing: Option<Data>, row: Data)
    requires Decode(site.spelling, t, Filled(t, data)) == Some(values) && Landed(site, t, values, existing) == Some(row)
    ensures Merged(site, t, data, values, existing, row)
  {
    forall n | n in row ensures Cell(site, t.columns[n], n, values, existing) == Some(row[n]) {}
    assert forall n :: n in t.columns ==> (n in values <==> n in data);
  }

  ghost predicate Names(site: Site, records: seq<Record>, slot: Slot) {
    exists i :: 0 <= i < |records| && RecordSlot(site, records[i]) == Some(slot)
  }

  /**
   * An import deletes nothing, and changes or adds only rows of its own tenant that some record names;
   * a dry run changes nothing at all.
   */
  lemma {:induction false} ImportIsAdditive(site: Site, tenant: string, dryRun: bool, p: Progress,
                                            records: seq<Record>, a: Address)
    requires ValidSite(site) && RowsOk(site, p.rows) && Steps(site, tenant, dryRun, p, records).Some?
    ensures var rows := Steps(site, tenant, dryRun, p, records).value.rows;
      && (a in p.rows ==> a in rows)
      && (dryRun || a.tenant != tenant || !Names(site, records, a.slot) ==>
            (a in rows <==> a in p.rows) && (a in rows ==> rows[a] == p.rows[a]))
  {
    if records != [] {
      var n := |records| - 1;
      ImportIsAdditive(site, tenant, dryRun, p, records[..n], a);
      StepTouchesItsSlot(site, tenant, dryRun, Steps(site, tenant, dryRun, p, records[..n]).value, records[n], a);
      assert Names(site, records[..n], a.slot) ==> Names(site, records, a.slot);
      assert RecordSlot(site, records[n]) == Some(a.slot) ==> Names(site, records, a.slot);
    }
  }

  // ---------------------------------------------------------------- the dry run

  lemma SameVerdict(site: Site, tenant: string, rows: Rows, rows': Rows, r: Record)
    requires ValidSite(site) && RowsOk(site, rows) && RowsOk(site, rows') && r.kind in site.specs
    requires Existing(rows, tenant, RecordSlot(site, r)) == Existing(rows', tenant, RecordSlot(site, r))
    ensures Judge(site, rows, tenant, r) == Judge(site, rows', tenant, r)
  {}

  lemma UnnamedIsUntouched(site: Site, tenant: string, dryRun: bool, p: Progress, records: seq<Record>)
    requires ValidSite(site) && RowsOk(site, p.rows) && records != []
    requires DistinctSlots(site, records) && Steps(site, tenant, dryRun, p, records[..|records| - 1]).Some?
    ensures var slot := RecordSlot(site, records[|records| - 1]);
      Existing(Steps(site, tenant, dryRun, p, records[..|records| - 1]).value.rows, tenant, slot) ==
        Existing(p.rows, tenant, slot)
  {
    var n := |records| - 1;
    var slot := RecordSlot(site, records[n]);
    if slot.Some? {
      assert !Names(site, records[..n], slot.value);
      ImportIsAdditive(site, tenant, dryRun, p, records[..n], Address(tenant, slot.value));
    }
  }

  /** From rows that agree on the record's slot, a dry run of it reports what the real step reports. */
  lemma StepDryRun(site: Site, tenant: string, p: Progress, rows: Rows, r: Record)
    requires ValidSite(site) && RowsOk(site, p.rows) && RowsOk(site, rows) && Step(site, tenant, false, p, r).Some?
    requires Existing(p.rows, tenant, RecordSlot(site, r)) == Existing(rows, tenant, RecordSlot(site, r))
    ensures Step(site, tenant, true, Progress(rows, p.report), r)
            == Some(Progress(rows, Step(site, tenant, false, p, r).value.report))
  {
    if r.kind in site.specs {
      SameVerdict(site, tenant, p.rows, rows, r);
    }
  }

  /** When no two records name one slot, a dry run of an import that succeeds reports just what the import reports. */
  lemma {:induction false} DryRunAgrees(site: Site, tenant: string, p: Progress, records: seq<Record>)
    requires ValidSite(site) && RowsOk(site, p.rows) && DistinctSlots(site, records)
    requires Steps(site, tenant, false, p, records).Some?
    ensures Steps(site, tenant, true, p, records) ==
      Some(Progress(p.rows, Steps(site, tenant, false, p, records).value.report))
  {
    if records != [] {
      var n := |records| - 1;
      var front, last := records[..n], records[n];
      DryRunAgrees(site, tenant, p, front);
      UnnamedIsUntouched(site, tenant, false, p, records);
      StepDryRun(site, tenant, Steps(site, tenant, false, p, front).value, p.rows, last);
    }
  }

  // ---------------------------------------------------------------- export

  /** The tenant's rows, each once: what the query orders by table and key. */
  ghost predicate Lists(order: seq<Slot>, rows: Rows, tenant: string) {
    Distinct(order) && forall s :: s in order <==> Address(tenant, s) in rows
  }

  function RecordOf(site: Site, slot: Slot, row: Data): Record
    requires slot.kind in site.specs && ValidTable(site.specs[slot.kind]) && RowOk(site.specs[slot.kind], row)
  {
    var t := site.specs[slot.kind];
    var data := Encode(site.spelling, t, row);
    Record(t.kind, Identity(site.spelling, t, data), data)
  }

  function Exported(site: Site, rows: Rows, tenant: string, order: seq<Slot>): (records: seq<Record>)
    requires ValidSite(site) && RowsOk(site, rows) && forall s :: s in order ==> Address(tenant, s) in rows
    ensures |records| == |order|
  {
    if order == [] then []
    else
      var last := order[|order| - 1];
      Exported(site, rows, tenant, order[..|order| - 1]) + [RecordOf(site, last, rows[Address(tenant, last)])]
  }

  // ---------------------------------------------------------------- the store

  class CalendarPortability {
    const site: Site
    var rows: Rows

    ghost predicate Valid()
      reads this
    {
      ValidSite(site) && RowsOk(site, rows)
    }

    constructor (site: Site)
      requires ValidSite(site)
      ensures Valid() && this.site == site && rows == map[]
    {
      this.site, rows := site, map[];
    }

    /** The tenant's rows in the order the query lists them. */
    method Export(tenant: string, order: seq<Slot>) returns (records: seq<Record>)
      requires Valid() && Lists(order, rows, tenant)
      ensures records == Exported(site, rows, tenant, order)
    {
      records := [];
      for i := 0 to |order|
        invariant forall s :: s in order[..i] ==> Address(tenant, s) in rows
        invariant records == Exported(site, rows, tenant, order[..i])
      {
        assert order[i] in order;
        var r := ExportRow(order[i], rows[Address(tenant, order[i])]);
        records := records + [r];
        assert order[..i + 1][..i] == order[..i];
      }
      assert order[..|order|] == order;
    }

    method ExportRow(slot: Slot, row: Data) returns (r: Record)
      requires ValidSite(site) && slot.kind in site.specs && RowOk(site.specs[slot.kind], row)
      ensures r == RecordOf(site, slot, row)
    {
      var t := site.specs[slot.kind];
      var data := map n | n in t.columns :: EncodeValue(site.spelling, t.columns[n], Defaulted(t.columns[n], row[n]));
      r := Record(t.kind, Identity(site.spelling, t, data), data);
    }

    /** One transaction for the whole stream: None, with nothing changed, when some record raises. */
    method Import(tenant: string, records: seq<Record>, dryRun: bool) returns (report: Option<Report>)
      requires Valid()
      modifies this
      ensures Valid()
      ensures var result := Steps(site, tenant, dryRun, Progress(old(rows), EMPTY_REPORT), records);
        match result
        case None => report.None? && rows == old(rows)
        case Some(p) => report == Some(p.report) && rows == p.rows
    {
      var p := Progress(rows, EMPTY_REPORT);
      for i := 0 to |records|
        invariant RowsOk(site, p.rows) && rows == old(rows)
        invariant Steps(site, tenant, dryRun, Progress(old(rows), EMPTY_REPORT), records[..i]) == Some(p)
      {
        assert records[..i + 1][..i] == records[..i];
        var r := records[i];
        if r.kind !in site.specs {
          p := p.(report := Warned(Recorded(p.report, r.kind, Skipped), UnknownKind(r.kind)));
        } else {
          var done, outcome, after := Upsert(p.rows, tenant, r, dryRun);
          if !done {
            StepsFailFast(site, tenant, dryRun, Progress(rows, EMPTY_REPORT), records, i + 1);
            return None;
          }
          StepKeepsOk(site, tenant, dryRun, p, r);
          p := Progress(after, Complaints(site.specs[r.kind], r, Recorded(p.report, r.kind, outcome)));
        }
      }
      assert records[..|records|] == records;
      rows := p.rows;
      report := Some(p.report);
    }

    /** One record against the rows as they stand inside the transaction; done is false when it raises. */
    method Upsert(held: Rows, tenant: string, r: Record, dryRun: bool)
      returns (done: bool, outcome: Outcome, after: Rows)
      requires ValidSite(site) && RowsOk(site, held) && r.kind in site.specs
      ensures var v := Judge(site, held, tenant, r);
        var written := if v.None? then None else Written(site, held, tenant, r, v.value, dryRun);
        (done <==> written.Some?) && (done ==> outcome == v.value.outcome && after == written.value)
    {
      outcome, after := Skipped, held;
      var decided := Decide(held, tenant, r);
      if decided.None? {
        return false, outcome, after;
      }
      var v := decided.value;
      outcome := v.outcome;
      if outcome.Skipped? || dryRun {
        return true, outcome, after;
      }
      var landed := Landed(site, site.specs[r.kind], v.values, Existing(held, tenant, v.slot));
      if landed.None? || v.slot.None? {
        return false, outcome, after;
      }
      done, after := true, held[Address(tenant, v.slot.value) := landed.value];
    }

    /** Normalise, decode, look up by the natural key, and compare the columns the record carries. */
    method Decide(held: Rows, tenant: string, r: Record) returns (v: Option<Verdict>)
      requires ValidSite(site) && RowsOk(site, held) && r.kind in site.specs
      ensures v == Judge(site, held, tenant, r)
    {
      var t := site.specs[r.kind];
      var data, undefaultable := Normalize(t, r.data);
      var decoded := Decode(site.spelling, t, data);
      if decoded.None? {
        return None;
      }
      var values := decoded.value;
      var slot := KeyOf(t, values);
      if undefaultable != {} {
        return Some(Verdict(Skipped, slot, values));
      }
      if slot.None? || Address(tenant, slot.value) !in held {
        return Some(Verdict(Created, slot, values));
      }
      var encoded := Encode(site.spelling, t, held[Address(tenant, slot.value)]);
      var same := forall n :: n in data && n in t.columns ==> Same(encoded[n], data[n]);
      v := Some(Verdict(if same then Skipped else Updated, slot, values));
    }
  }

  lemma {:induction false} StepsFailFast(site: Site, tenant: string, dryRun: bool, p: Progress, records: seq<Record>,
                                         k: nat)
    requires ValidSite(site) && RowsOk(site, p.rows) && k <= |records|
    requires Steps(site, tenant, dryRun, p, records[..k]).None?
    ensures Steps(site, tenant, dryRun, p, records).None?
  {
    if k < |records| {
      assert records[..|records| - 1][..k] == records[..k];
      StepsFailFast(site, tenant, dryRun, p, records[..|records| - 1], k);
    } else {
      assert records[..k] == records;
    }
  }

  /** What a record adds to the report: one to the count of its outcome, and a warning for each of its own troubles. */
  lemma StepReports(site: Site, tenant: string, dryRun: bool, p: Progress, r: Record, w: Warning)
    requires ValidSite(site) && RowsOk(site, p.rows) && Step(site, tenant, dryRun, p, r).Some?
    ensures var report := Step(site, tenant, dryRun, p, r).value.report;
      w in report.warnings <==>
        || w in p.report.warnings
        || (r.kind !in site.specs && w == UnknownKind(r.kind))
        || (r.kind in site.specs && r.data.Keys - site.specs[r.kind].columns.Keys != {}
            && w == UnknownFields(r.kind, r.data.Keys - site.specs[r.kind].columns.Keys))
        || (r.kind in site.specs && Unfilled(site.specs[r.kind], r.data) != {}
            && w == NoValueFor(r.kind, Unfilled(site.specs[r.kind], r.data)))
  {}
}
