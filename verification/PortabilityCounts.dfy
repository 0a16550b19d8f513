/** What a dry run reports against what the import does, when records of one stream name one row more than once. */
module PortabilityCounts {
  import opened Basics
  import opened PortableColumns
  import opened CalendarPortability
  import opened PortabilityProofs

  // ---------------------------------------------------------------- counting creations

  function CreatedOf(report: Report, kind: string): nat {
    if kind in report.counts then report.counts[kind].created else 0
  }

  function TotalOf(report: Report, kind: string): nat {
    if kind in report.counts
    then report.counts[kind].created + report.counts[kind].updated + report.counts[kind].skipped
    else 0
  }

  /** A fillable record of a known kind whose slot the tenant has no row for. */
  predicate NamesFreeSlot(site: Site, rows: Rows, tenant: string, r: Record) {
    && r.kind in site.specs && Unfilled(site.specs[r.kind], r.data) == {}
    && RecordSlot(site, r).Some? && Address(tenant, RecordSlot(site, r).value) !in rows
  }

  function FreeNamings(site: Site, rows: Rows, tenant: string, records: seq<Record>, kind: string): nat {
    if records == [] then 0
    else
      var front, last := records[..|records| - 1], records[|records| - 1];
      FreeNamings(site, rows, tenant, front, kind)
      + if last.kind == kind && NamesFreeSlot(site, rows, tenant, last) then 1 else 0
  }

  ghost predicate Claimed(site: Site, rows: Rows, tenant: string, records: seq<Record>, slot: Slot) {
    exists i :: 0 <= i < |records| && NamesFreeSlot(site, rows, tenant, records[i])
      && RecordSlot(site, records[i]) == Some(slot)
  }

  /** The free slots of the kind that the stream names, each once. */
  ghost function FreeSlots(site: Site, rows: Rows, tenant: string, records: seq<Record>, kind: string): nat {
    if records == [] then 0
    else
      var front, last := records[..|records| - 1], records[|records| - 1];
      FreeSlots(site, rows, tenant, front, kind)
      + if last.kind == kind && NamesFreeSlot(site, rows, tenant, last)
           && !Claimed(site, rows, tenant, front, RecordSlot(site, last).value) then 1 else 0
  }

  /** No two fillable records of the kind name one slot the tenant has no row for. */
  ghost predicate NoFreeSlotTwice(site: Site, rows: Rows, tenant: string, records: seq<Record>, kind: string) {
    forall i, j :: 0 <= i < j < |records| && records[i].kind == records[j].kind == kind
                   && NamesFreeSlot(site, rows, tenant, records[i]) && NamesFreeSlot(site, rows, tenant, records[j]) ==>
                     RecordSlot(site, records[i]) != RecordSlot(site, records[j])
  }

  lemma SlotKind(site: Site, r: Record)
    requires ValidSite(site) && RecordSlot(site, r).Some?
    ensures RecordSlot(site, r).value.kind == r.kind
  {}

  lemma NoneTwiceStep(site: Site, rows: Rows, tenant: string, front: seq<Record>, last: Record, kind: string)
    requires ValidSite(site)
    ensures NoFreeSlotTwice(site, rows, tenant, front + [last], kind) <==>
      && NoFreeSlotTwice(site, rows, tenant, front, kind)
      && (last.kind == kind && NamesFreeSlot(site, rows, tenant, last) ==>
            !Claimed(site, rows, tenant, front, RecordSlot(site, last).value))
  {
    var all := front + [last];
    assert forall i :: 0 <= i < |front| ==> all[i] == front[i];
    if last.kind == kind && NamesFreeSlot(site, rows, tenant, last) {
      SlotKind(site, last);
      if Claimed(site, rows, tenant, front, RecordSlot(site, last).value) {
        var i :| 0 <= i < |front| && NamesFreeSlot(site, rows, tenant, front[i])
          && RecordSlot(site, front[i]) == RecordSlot(site, last);
        SlotKind(site, front[i]);
        assert all[i] == front[i] && all[|front|] == last;
      }
    }
  }

  /** As many free slots as namings of them exactly when none is named twice. */
  lemma {:induction false} SlotsAgainstNamings(site: Site, rows: Rows, tenant: string, records: seq<Record>,
                                               kind: string)
    requires ValidSite(site)
    ensures FreeSlots(site, rows, tenant, records, kind) <= FreeNamings(site, rows, tenant, records, kind)
    ensures FreeSlots(site, rows, tenant, records, kind) == FreeNamings(site, rows, tenant, records, kind)
            <==> NoFreeSlotTwice(site, rows, tenant, records, kind)
  {
    if records != [] {
      var front, last := records[..|records| - 1], records[|records| - 1];
      SlotsAgainstNamings(site, rows, tenant, front, kind);
      assert records == front + [last];
      NoneTwiceStep(site, rows, tenant, front, last, kind);
    }
  }

  // ---------------------------------------------------------------- the two runs

  lemma RecordedCreated(report: Report, kind: string, outcome: Outcome, k: string)
    ensures CreatedOf(Recorded(report, kind, outcome), k) ==
      CreatedOf(report, k) + if k == kind && outcome.Created? then 1 else 0
    ensures TotalOf(Recorded(report, kind, outcome), k) == TotalOf(report, k) + if k == kind then 1 else 0
  {}

  lemma JudgedCreated(site: Site, rows: Rows, tenant: string, r: Record, v: Verdict)
    requires ValidSite(site) && RowsOk(site, rows) && r.kind in site.specs && Judge(site, rows, tenant, r) == Some(v)
    ensures v.slot == RecordSlot(site, r)
    ensures v.outcome.Created? <==>
      Unfilled(site.specs[r.kind], r.data) == {} && Existing(rows, tenant, RecordSlot(site, r)).None?
  {}

  /** A fillable record of a known kind that lands, or matches, has its whole natural key. */
  lemma LandedHasSlot(site: Site, tenant: string, p: Progress, r: Record)
    requires ValidSite(site) && RowsOk(site, p.rows) && Step(site, tenant, false, p, r).Some?
    requires r.kind in site.specs && Unfilled(site.specs[r.kind], r.data) == {}
    ensures RecordSlot(site, r).Some?
  {
    JudgedCreated(site, p.rows, tenant, r, Judge(site, p.rows, tenant, r).value);
  }

  /** A step's effect on the counts, known the outcome. */
  lemma StepCounts(site: Site, tenant: string, dryRun: bool, p: Progress, r: Record, k: string)
    requires ValidSite(site) && RowsOk(site, p.rows) && Step(site, tenant, dryRun, p, r).Some?
    requires r.kind in site.specs && Unfilled(site.specs[r.kind], r.data) == {} ==> RecordSlot(site, r).Some?
    ensures var q := Step(site, tenant, dryRun, p, r).value;
      && CreatedOf(q.report, k) ==
        CreatedOf(p.report, k) + (if r.kind == k && NamesFreeSlot(site, p.rows, tenant, r) then 1 else 0)
      && TotalOf(q.report, k) == TotalOf(p.report, k) + (if r.kind == k then 1 else 0)
  {
    if r.kind in site.specs {
      var v := Judge(site, p.rows, tenant, r).value;
      JudgedCreated(site, p.rows, tenant, r, v);
      RecordedCreated(p.report, r.kind, v.outcome, k);
      CountsOnly(site.specs[r.kind], r, Recorded(p.report, r.kind, v.outcome));
    } else {
      RecordedCreated(p.report, r.kind, Skipped, k);
    }
  }

  /** One real step: created exactly when the record names a slot that is free by then. */
  lemma StepCreates(site: Site, tenant: string, p: Progress, r: Record, k: string)
    requires ValidSite(site) && RowsOk(site, p.rows) && Step(site, tenant, false, p, r).Some?
    ensures var q := Step(site, tenant, false, p, r).value;
      && CreatedOf(q.report, k) ==
        CreatedOf(p.report, k) + (if r.kind == k && NamesFreeSlot(site, p.rows, tenant, r) then 1 else 0)
      && TotalOf(q.report, k) == TotalOf(p.report, k) + (if r.kind == k then 1 else 0)
  {
    if r.kind in site.specs && Unfilled(site.specs[r.kind], r.data) == {} {
      LandedHasSlot(site, tenant, p, r);
    }
    StepCounts(site, tenant, false, p, r, k);
  }

  lemma StepFills(site: Site, tenant: string, p: Progress, r: Record, slot: Slot)
    requires ValidSite(site) && RowsOk(site, p.rows) && Step(site, tenant, false, p, r).Some?
    ensures Address(tenant, slot) in Step(site, tenant, false, p, r).value.rows <==>
      Address(tenant, slot) in p.rows || (NamesFreeSlot(site, p.rows, tenant, r) && RecordSlot(site, r) == Some(slot))
  {}

  /**
   * Where the real step succeeds, so does a dry one, from whatever rows: created exactly when the slot is free
   * in them.
   */
  lemma DryStepCreates(site: Site, tenant: string, p: Progress, done: Progress, r: Record, k: string)
    requires ValidSite(site) && RowsOk(site, p.rows) && RowsOk(site, done.rows)
      && Step(site, tenant, false, done, r).Some?
    ensures Step(site, tenant, true, p, r).Some?
    ensures var q := Step(site, tenant, true, p, r).value;
      && q.rows == p.rows
      && CreatedOf(q.report, k) ==
        CreatedOf(p.report, k) + (if r.kind == k && NamesFreeSlot(site, p.rows, tenant, r) then 1 else 0)
      && TotalOf(q.report, k) == TotalOf(p.report, k) + (if r.kind == k then 1 else 0)
  {
    DryStepSucceeds(site, tenant, p, done, r);
    if r.kind in site.specs && Unfilled(site.specs[r.kind], r.data) == {} {
      LandedHasSlot(site, tenant, done, r);
    }
    StepCounts(site, tenant, true, p, r, k);
  }

  lemma DryStepSucceeds(site: Site, tenant: string, p: Progress, done: Progress, r: Record)
    requires ValidSite(site) && RowsOk(site, p.rows) && RowsOk(site, done.rows)
      && Step(site, tenant, false, done, r).Some?
    ensures Step(site, tenant, true, p, r).Some? && Step(site, tenant, true, p, r).value.rows == p.rows
  {}

  /** The import creates one row for each free slot named; afterwards exactly those are no longer free. */
  lemma {:induction false} RealCreates(site: Site, tenant: string, p: Progress, records: seq<Record>, k: string)
    requires ValidSite(site) && RowsOk(site, p.rows) && Steps(site, tenant, false, p, records).Some?
    ensures var q := Steps(site, tenant, false, p, records).value;
      && CreatedOf(q.report, k) == CreatedOf(p.report, k) + FreeSlots(site, p.rows, tenant, records, k)
      && TotalOf(q.report, k) == TotalOf(p.report, k) + CountKind(records, k)
      && forall slot :: Address(tenant, slot) in q.rows <==>
           Address(tenant, slot) in p.rows || Claimed(site, p.rows, tenant, records, slot)
  {
    if records != [] {
      var front, last := records[..|records| - 1], records[|records| - 1];
      RealCreates(site, tenant, p, front, k);
      var q := Steps(site, tenant, false, p, front).value;
      StepCreates(site, tenant, q, last, k);
      FreeByThen(site, tenant, p.rows, q.rows, front, last);
      forall slot ensures Address(tenant, slot) in Step(site, tenant, false, q, last).value.rows <==>
                          Address(tenant, slot) in p.rows || Claimed(site, p.rows, tenant, records, slot)
      {
        StepFills(site, tenant, q, last, slot);
        ClaimedStep(site, p.rows, tenant, front, last, slot);
        assert records == front + [last];
      }
    }
  }

  function CountKind(records: seq<Record>, kind: string): nat {
    if records == [] then 0
    else CountKind(records[..|records| - 1], kind) + if records[|records| - 1].kind == kind then 1 else 0
  }

  lemma ClaimedStep(site: Site, rows: Rows, tenant: string, front: seq<Record>, last: Record, slot: Slot)
    ensures Claimed(site, rows, tenant, front + [last], slot) <==>
      Claimed(site, rows, tenant, front, slot)
        || (NamesFreeSlot(site, rows, tenant, last) && RecordSlot(site, last) == Some(slot))
  {
    var all := front + [last];
    assert forall i :: 0 <= i < |front| ==> all[i] == front[i];
    assert all[|front|] == last;
  }

  /** A slot is free by then exactly when it was free at first and no earlier record claimed it. */
  lemma FreeByThen(site: Site, tenant: string, rows: Rows, now: Rows, front: seq<Record>, last: Record)
    requires forall slot :: Address(tenant, slot) in now <==>
      Address(tenant, slot) in rows || Claimed(site, rows, tenant, front, slot)
    ensures NamesFreeSlot(site, now, tenant, last) <==>
      NamesFreeSlot(site, rows, tenant, last) && !Claimed(site, rows, tenant, front, RecordSlot(site, last).value)
  {}

  /** The dry run reports one creation for each naming of a free slot. */
  lemma {:induction false} DryCreates(site: Site, tenant: string, p: Progress, records: seq<Record>, k: string)
    requires ValidSite(site) && RowsOk(site, p.rows) && Steps(site, tenant, false, p, records).Some?
    ensures Steps(site, tenant, true, p, records).Some?
    ensures var q := Steps(site, tenant, true, p, records).value;
      && q.rows == p.rows && CreatedOf(q.report, k) ==
        CreatedOf(p.report, k) + FreeNamings(site, p.rows, tenant, records, k)
      && TotalOf(q.report, k) == TotalOf(p.report, k) + CountKind(records, k)
  {
    if records != [] {
      var front, last := records[..|records| - 1], records[|records| - 1];
      DryCreates(site, tenant, p, front, k);
      RealCreates(site, tenant, p, front, k);
      DryStepCreates(site, tenant, Steps(site, tenant, true, p, front).value,
                     Steps(site, tenant, false, p, front).value, last, k);
    }
  }

  /**
   * For every stream whose import succeeds the dry run succeeds too, and reports as many records of each
   * kind. It reports as many created if and only if no two fillable records of the kind name one slot the
   * tenant has no row for; otherwise it reports more.
   */
  lemma DryRunCreatesIff(site: Site, tenant: string, p: Progress, records: seq<Record>, k: string)
    requires ValidSite(site) && RowsOk(site, p.rows) && Steps(site, tenant, false, p, records).Some?
    ensures Steps(site, tenant, true, p, records).Some?
    ensures var done, dry := Steps(site, tenant, false, p, records).value.report,
      Steps(site, tenant, true, p, records).value.report;
      && TotalOf(done, k) == TotalOf(dry, k) && CreatedOf(done, k) <= CreatedOf(dry, k)
      && (CreatedOf(done, k) == CreatedOf(dry, k) <==> NoFreeSlotTwice(site, p.rows, tenant, records, k))
  {
    RealCreates(site, tenant, p, records, k);
    DryCreates(site, tenant, p, records, k);
    SlotsAgainstNamings(site, p.rows, tenant, records, k);
  }

  // ---------------------------------------------------------------- a row the tenant has, named twice

  function UpdatedOf(report: Report, kind: string): nat {
    if kind in report.counts then report.counts[kind].updated else 0
  }

  ghost predicate FindsRow(site: Site, rows: Rows, tenant: string, r: Record, a: Address) {
    && r.kind in site.specs && Unfilled(site.specs[r.kind], r.data) == {}
    && RecordSlot(site, r).Some? && a == Address(tenant, RecordSlot(site, r).value) && a in rows
  }

  /** A record that finds a row is skipped when it matches it and an update otherwise; nothing is created. */
  lemma FoundStep(site: Site, tenant: string, dryRun: bool, p: Progress, r: Record, a: Address)
    requires ValidSite(site) && RowsOk(site, p.rows) && FindsRow(site, p.rows, tenant, r, a)
    requires Step(site, tenant, dryRun, p, r).Some? && a.slot.kind == r.kind
    ensures var q := Step(site, tenant, dryRun, p, r).value;
      && UpdatedOf(q.report, r.kind) ==
           UpdatedOf(p.report, r.kind) + (if Matches(site, site.specs[r.kind], r.data, p.rows[a]) then 0 else 1)
      && CreatedOf(q.report, r.kind) == CreatedOf(p.report, r.kind) && a in q.rows
  {
    var v := Judge(site, p.rows, tenant, r).value;
    CountsOnly(site.specs[r.kind], r, Recorded(p.report, r.kind, v.outcome));
  }

  lemma StepsOfPair(site: Site, tenant: string, dryRun: bool, p: Progress, first: Record, second: Record)
    requires ValidSite(site) && RowsOk(site, p.rows) && Step(site, tenant, dryRun, p, first).Some?
    ensures RowsOk(site, Step(site, tenant, dryRun, p, first).value.rows)
    ensures Steps(site, tenant, dryRun, p, [first, second]) ==
      Step(site, tenant, dryRun, Step(site, tenant, dryRun, p, first).value, second)
  {
    StepKeepsOk(site, tenant, dryRun, p, first);
    assert [first, second][..1] == [first] && [first][..0] == [];
    assert Steps(site, tenant, dryRun, p, [first]) == Step(site, tenant, dryRun, p, first);
  }

  /**
   * Two records for a row the tenant has: neither run creates, and the updates reported differ by what the
   * second matches. One that matches the row as the first leaves it, but not as it was, is an update in the
   * dry run only; one that matches the row as it was, but not as it is left, is an update in the import only.
   */
  lemma OccupiedSlotNamedTwice(site: Site, tenant: string, p: Progress, first: Record, second: Record, a: Address)
    requires ValidSite(site) && RowsOk(site, p.rows) && first.kind == second.kind == a.slot.kind
    requires FindsRow(site, p.rows, tenant, first, a) && FindsRow(site, p.rows, tenant, second, a)
    requires Step(site, tenant, false, p, first).Some? && Steps(site, tenant, false, p, [first, second]).Some?
    ensures a in Step(site, tenant, false, p, first).value.rows
      && RowsOk(site, Step(site, tenant, false, p, first).value.rows)
    ensures Steps(site, tenant, true, p, [first, second]).Some?
    ensures var t, kind := site.specs[second.kind], second.kind;
      var left := Step(site, tenant, false, p, first).value.rows[a];
      var done, dry := Steps(site, tenant, false, p, [first, second]).value.report,
        Steps(site, tenant, true, p, [first, second]).value.report;
      && CreatedOf(done, kind) == CreatedOf(dry, kind) == CreatedOf(p.report, kind)
      && UpdatedOf(done, kind) + (if Matches(site, t, second.data, left) then 1 else 0)
         == UpdatedOf(dry, kind) + (if Matches(site, t, second.data, p.rows[a]) then 1 else 0)
  {
    StepsOfPair(site, tenant, false, p, first, second);
    FoundStep(site, tenant, false, p, first, a);
    var q := Step(site, tenant, false, p, first).value;
    FoundStep(site, tenant, false, q, second, a);
    DryStepSucceeds(site, tenant, p, p, first);
    FoundStep(site, tenant, true, p, first, a);
    var d := Step(site, tenant, true, p, first).value;
    DryStepSucceeds(site, tenant, d, q, second);
    FoundStep(site, tenant, true, d, second, a);
    StepsOfPair(site, tenant, true, p, first, second);
  }
}
