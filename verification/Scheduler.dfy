/**
 * The lead-time scheduler: periodic ticks sample the calendar, durable markers make each announcement
 * happen once, and the spacing of the ticks decides what is never missed.
 */
module Scheduler {
  import opened Basics

  // ---------------------------------------------------------------- events and what a listing shows

  /** How the local provider lists an event: a plain one by overlap, an occurrence of a series by its start. */
  datatype Listing = ByOverlap | ByStart

  datatype Event = Event(provider: string, id: string, start: int, end: int, listing: Listing)

  /** Whether list_events shows the event for the half-open window. */
  predicate Listed(e: Event, from: int, until: int) {
    match e.listing
    case ByOverlap => e.start < until && from < e.end
    case ByStart => from <= e.start < until
  }

  function MarkerKey(e: Event): string {
    e.provider + ":" + e.id
  }

  datatype Marker = StartingSoon | Ended

  /** (tenant, event key, marker), the table's unique key. */
  type Claim = (string, string, Marker)

  // ---------------------------------------------------------------- one tick

  datatype Tick = Tick(now: int, lead: int, lookback: int)

  predicate SoonDue(e: Event, t: Tick) {
    Listed(e, t.now - t.lookback, t.now + t.lead) && t.now <= e.start <= t.now + t.lead
  }

  predicate EndedDue(e: Event, t: Tick) {
    Listed(e, t.now - t.lookback, t.now + t.lead) && e.end <= t.now
  }

  function DueClaims(tenant: string, e: Event, t: Tick): seq<Claim> {
    When(SoonDue(e, t), (tenant, MarkerKey(e), StartingSoon)) + When(EndedDue(e, t), (tenant, MarkerKey(e), Ended))
  }

  function When(due: bool, c: Claim): seq<Claim> {
    if due then [c] else []
  }

  /** Everything a tick tries to claim, in the order it tries. */
  function Wanted(tenant: string, events: seq<Event>, t: Tick): seq<Claim> {
    if events == [] then [] else Wanted(tenant, events[..|events| - 1], t) + DueClaims(tenant, events[|events| - 1], t)
  }

  /** The claims that win, in order: the first attempt at each marker not yet in the table. */
  function Won(taken: set<Claim>, wanted: seq<Claim>): seq<Claim> {
    if wanted == [] then []
    else
      var front := Won(taken, wanted[..|wanted| - 1]);
      var last := wanted[|wanted| - 1];
      if last in taken || last in front then front else front + [last]
  }

  class FiredMarkerStore {
    var claims: set<Claim>

    constructor ()
      ensures claims == {}
    {
      claims := {};
    }

    /** The insert decides: true exactly for the attempt that finds the marker free. */
    method TryClaim(claim: Claim) returns (won: bool)
      modifies this
      ensures won <==> claim !in old(claims)
      ensures claims == old(claims) + {claim}
    {
      won := claim !in claims;
      claims := claims + {claim};
    }
  }

  class LeadTimeScheduler {
    const tenant: string
    const markers: FiredMarkerStore
    var fired: seq<Claim>

    constructor (tenant: string, markers: FiredMarkerStore)
      ensures this.tenant == tenant && this.markers == markers && fired == []
    {
      this.tenant, this.markers := tenant, markers;
      fired := [];
    }

    /** Claim first, then emit; a lost claim or a lost emission is not retried. */
    method FireOnce(e: Event, marker: Marker)
      modifies this, markers
      ensures var claim := (tenant, MarkerKey(e), marker);
        && markers.claims == old(markers.claims) + {claim}
        && fired == if claim in old(markers.claims) then old(fired) else old(fired) + [claim]
    {
      var claim := (tenant, MarkerKey(e), marker);
      var won := markers.TryClaim(claim);
      if won {
        fired := fired + [claim];
      }
    }

    /** One listed event: starting soon, ended, both or neither. */
    method TickEvent(e: Event, t: Tick)
      modifies this, markers
      ensures var soon, ended := (tenant, MarkerKey(e), StartingSoon), (tenant, MarkerKey(e), Ended);
        && markers.claims == old(markers.claims) + Claimed(When(SoonDue(e, t), soon))
          + Claimed(When(EndedDue(e, t), ended))
        && fired == old(fired) + When(SoonDue(e, t) && soon !in old(markers.claims), soon)
                               + When(EndedDue(e, t) && ended !in old(markers.claims), ended)
    {
      if Listed(e, t.now - t.lookback, t.now + t.lead) {
        if t.now <= e.start && e.start <= t.now + t.lead {
          FireOnce(e, StartingSoon);
        }
        if e.end <= t.now {
          FireOnce(e, Ended);
        }
      }
    }

    method RunTick(events: seq<Event>, t: Tick)
      modifies this, markers
      ensures markers.claims == old(markers.claims) + Claimed(Wanted(tenant, events, t))
      ensures fired == old(fired) + Won(old(markers.claims), Wanted(tenant, events, t))
    {
      ghost var taken, before := markers.claims, fired;
      for i := 0 to |events|
        invariant markers.claims == taken + Claimed(Wanted(tenant, events[..i], t))
        invariant fired == before + Won(taken, Wanted(tenant, events[..i], t))
      {
        ghost var claims, sofar := markers.claims, fired;
        TickEvent(events[i], t);
        TickStep(tenant, events, t, i, taken, before, claims, sofar, markers.claims, fired);
      }
      assert events[..|events|] == events;
    }
  }

  function Claimed(wanted: seq<Claim>): set<Claim> {
    set c | c in wanted
  }

  lemma WantedSnoc(tenant: string, events: seq<Event>, t: Tick, i: nat)
    requires i < |events|
    ensures Wanted(tenant, events[..i + 1], t) == Wanted(tenant, events[..i], t) + DueClaims(tenant, events[i], t)
  {
    assert events[..i + 1][..i] == events[..i];
  }

  lemma {:induction false} WonMembers(taken: set<Claim>, wanted: seq<Claim>)
    ensures forall c :: c in Won(taken, wanted) <==> c in wanted && c !in taken
    ensures Distinct(Won(taken, wanted))
  {
    if wanted != [] {
      var n := |wanted| - 1;
      WonMembers(taken, wanted[..n]);
      assert wanted == wanted[..n] + [wanted[n]];
    }
  }

  lemma WonAppend(taken: set<Claim>, wanted: seq<Claim>, c: Claim)
    ensures Won(taken, wanted + [c]) ==
      if c in taken || c in wanted then Won(taken, wanted) else Won(taken, wanted) + [c]
  {
    assert (wanted + [c])[..|wanted|] == wanted;
    WonMembers(taken, wanted);
  }

  /** Claiming one event's due markers one after the other is claiming them as part of the list. */
  lemma WonStep(claims: set<Claim>, taken: set<Claim>, wanted: seq<Claim>, tenant: string, e: Event, t: Tick)
    requires claims == taken + Claimed(wanted)
    ensures var soon, ended := (tenant, MarkerKey(e), StartingSoon), (tenant, MarkerKey(e), Ended);
      var all := wanted + DueClaims(tenant, e, t);
      && taken + Claimed(all) == claims + Claimed(When(SoonDue(e, t), soon)) + Claimed(When(EndedDue(e, t), ended))
      && Won(taken, all) == Won(taken, wanted) + When(SoonDue(e, t) && soon !in claims, soon)
                                               + When(EndedDue(e, t) && ended !in claims, ended)
  {
    var soon, ended := (tenant, MarkerKey(e), StartingSoon), (tenant, MarkerKey(e), Ended);
    var first := wanted + When(SoonDue(e, t), soon);
    WonOne(claims, taken, wanted, SoonDue(e, t), soon);
    WonOne(claims + Claimed(When(SoonDue(e, t), soon)), taken, first, EndedDue(e, t), ended);
    assert wanted + DueClaims(tenant, e, t) == first + When(EndedDue(e, t), ended);
  }

  /** What one listed event adds keeps the table and the announcements in step with the list so far. */
  lemma TickStep(tenant: string, events: seq<Event>, t: Tick, i: nat, taken: set<Claim>, before: seq<Claim>,
                 claims: set<Claim>, sofar: seq<Claim>, claims': set<Claim>, sofar': seq<Claim>)
    requires i < |events|
    requires claims == taken + Claimed(Wanted(tenant, events[..i], t))
    requires sofar == before + Won(taken, Wanted(tenant, events[..i], t))
    requires var e := events[i]; var soon, ended := (tenant, MarkerKey(e), StartingSoon), (tenant, MarkerKey(e), Ended);
      && claims' == claims + Claimed(When(SoonDue(e, t), soon)) + Claimed(When(EndedDue(e, t), ended))
      && sofar' == sofar + When(SoonDue(e, t) && soon !in claims, soon)
          + When(EndedDue(e, t) && ended !in claims, ended)
    ensures claims' == taken + Claimed(Wanted(tenant, events[..i + 1], t))
    ensures sofar' == before + Won(taken, Wanted(tenant, events[..i + 1], t))
  {
    var wanted, e := Wanted(tenant, events[..i], t), events[i];
    var soon, ended := (tenant, MarkerKey(e), StartingSoon), (tenant, MarkerKey(e), Ended);
    WantedSnoc(tenant, events, t, i);
    WonStep(claims, taken, wanted, tenant, e, t);
    var won, first := Won(taken, wanted), When(SoonDue(e, t) && soon !in claims, soon);
    Regroup(before, won, first);
    Regroup(before, won + first, When(EndedDue(e, t) && ended !in claims, ended));
  }

  lemma WonOne(claims: set<Claim>, taken: set<Claim>, wanted: seq<Claim>, due: bool, c: Claim)
    requires claims == taken + Claimed(wanted)
    ensures taken + Claimed(wanted + When(due, c)) == claims + Claimed(When(due, c))
    ensures Won(taken, wanted + When(due, c)) == Won(taken, wanted) + When(due && c !in claims, c)
  {
    if due {
      WonAppend(taken, wanted, c);
    } else {
      assert wanted + [] == wanted;
    }
  }

  // ---------------------------------------------------------------- runs of ticks

  /** A tick, and the calendar as it stands when the tick lists it. */
  datatype Sample = Sample(tick: Tick, events: seq<Event>)

  function WantedBy(tenant: string, sample: Sample): seq<Claim> {
    Wanted(tenant, sample.events, sample.tick)
  }

  /** What a series of ticks fires, the calendar changing as it will, restarts included: the table is all that stays. */
  function Fired(tenant: string, samples: seq<Sample>, taken: set<Claim>): seq<Claim> {
    if samples == [] then []
    else
      var wanted := WantedBy(tenant, samples[0]);
      Won(taken, wanted) + Fired(tenant, samples[1..], taken + Claimed(wanted))
  }

  lemma OneMore(front: seq<Event>, last: Event, p: Event -> bool)
    ensures (exists e :: e in front + [last] && p(e)) <==> p(last) || exists e :: e in front && p(e)
  {
    assert last in front + [last];
    if e :| e in front && p(e) {
      assert e in front + [last];
    }
  }

  lemma {:induction false} WantedMembers(tenant: string, events: seq<Event>, t: Tick, c: Claim)
    ensures c in Wanted(tenant, events, t) <==> exists e :: e in events && c in DueClaims(tenant, e, t)
  {
    if events != [] {
      var front, last := events[..|events| - 1], events[|events| - 1];
      WantedMembers(tenant, front, t, c);
      assert events == front + [last];
      assert c in Wanted(tenant, events, t) <==> c in Wanted(tenant, front, t) || c in DueClaims(tenant, last, t);
      OneMore(front, last, e => c in DueClaims(tenant, e, t));
    }
  }

  lemma {:induction false} FiredMembers(tenant: string, samples: seq<Sample>, taken: set<Claim>, c: Claim)
    ensures c in Fired(tenant, samples, taken) <==> c !in taken && exists x :: x in samples && c in WantedBy(tenant, x)
  {
    if samples != [] {
      var wanted := WantedBy(tenant, samples[0]);
      WonMembers(taken, wanted);
      assert samples == [samples[0]] + samples[1..];
      FiredMembers(tenant, samples[1..], taken + Claimed(wanted), c);
      if x :| x in samples && c in WantedBy(tenant, x) {
        assert x == samples[0] || x in samples[1..];
      }
    }
  }

  lemma {:induction false} FiredDistinct(tenant: string, samples: seq<Sample>, taken: set<Claim>)
    ensures Distinct(Fired(tenant, samples, taken))
  {
    if samples != [] {
      var wanted := WantedBy(tenant, samples[0]);
      var now, later := Won(taken, wanted), Fired(tenant, samples[1..], taken + Claimed(wanted));
      WonMembers(taken, wanted);
      FiredDistinct(tenant, samples[1..], taken + Claimed(wanted));
      forall i, j | 0 <= i < |now| && 0 <= j < |later| ensures now[i] != later[j] {
        assert now[i] in now;
        FiredMembers(tenant, samples[1..], taken + Claimed(wanted), later[j]);
      }
    }
  }

  /**
   * Over any ticks and restarts, however the calendar changes between them: no marker fires twice, and
   * exactly the markers some tick wanted, and nobody had taken, fire.
   */
  lemma FiresOnce(tenant: string, samples: seq<Sample>, taken: set<Claim>, c: Claim)
    ensures Distinct(Fired(tenant, samples, taken))
    ensures c in Fired(tenant, samples, taken) <==> c !in taken && exists x :: x in samples && c in WantedBy(tenant, x)
  {
    FiredMembers(tenant, samples, taken, c);
    FiredDistinct(tenant, samples, taken);
  }

  /** Ticks in order, each within its lead of the next. */
  ghost predicate SoonSpacing(samples: seq<Sample>) {
    forall i :: 0 <= i < |samples| - 1 ==>
      samples[i].tick.now <= samples[i + 1].tick.now <= samples[i].tick.now + samples[i].tick.lead
  }

  /** Ticks in order, each looking back at least to the one before. */
  ghost predicate EndedSpacing(samples: seq<Sample>) {
    forall i :: 0 <= i < |samples| - 1 ==>
      samples[i].tick.now <= samples[i + 1].tick.now <= samples[i].tick.now + samples[i + 1].tick.lookback
  }

  /** The event stands in the calendar, unchanged, at every tick; the others may come, go and change. */
  ghost predicate Stationary(samples: seq<Sample>, e: Event) {
    forall x :: x in samples ==> e in x.events
  }

  lemma {:induction false} LastTickBy(samples: seq<Sample>, s: int) returns (x: Sample)
    requires samples != [] && SoonSpacing(samples) && samples[0].tick.now <= s <= samples[|samples| - 1].tick.now
    requires forall x :: x in samples ==> x.tick.lead > 0
    ensures x in samples && x.tick.now <= s < x.tick.now + x.tick.lead
  {
    var n := |samples| - 1;
    assert samples[n] in samples;
    if samples[n].tick.now <= s {
      x := samples[n];
    } else {
      var front := samples[..n];
      assert forall i :: 0 <= i < |front| ==> front[i] == samples[i];
      if s <= front[n - 1].tick.now {
        x := LastTickBy(front, s);
      } else {
        assert samples[n].tick.now <= samples[n - 1].tick.now + samples[n - 1].tick.lead;
        x := samples[n - 1];
      }
    }
  }

  /** The due window of a starting event is half-open: the tick exactly a lead before is one too early. */
  lemma SoonDueIff(e: Event, t: Tick)
    requires t.lead > 0 && t.lookback > 0 && e.start <= e.end
    ensures SoonDue(e, t) <==> t.now <= e.start < t.now + t.lead
  {}

  /** Every stationary event starting between the first and last tick is announced as starting soon, once. */
  lemma StartingSoonCovered(tenant: string, samples: seq<Sample>, taken: set<Claim>, e: Event)
    requires Stationary(samples, e) && e.start <= e.end && samples != [] && SoonSpacing(samples)
    requires forall x :: x in samples ==> x.tick.lead > 0 && x.tick.lookback > 0
    requires samples[0].tick.now <= e.start <= samples[|samples| - 1].tick.now
    ensures var c := (tenant, MarkerKey(e), StartingSoon);
      Count(Fired(tenant, samples, taken), c) == if c in taken then 0 else 1
  {
    var c := (tenant, MarkerKey(e), StartingSoon);
    var x := LastTickBy(samples, e.start);
    SoonDueIff(e, x.tick);
    assert c in DueClaims(tenant, e, x.tick);
    WantedMembers(tenant, x.events, x.tick, c);
    FiresOnce(tenant, samples, taken, c);
    DistinctCountsOnce(Fired(tenant, samples, taken), c);
  }

  lemma {:induction false} FirstTickFrom(samples: seq<Sample>, s: int) returns (x: Sample)
    requires samples != [] && EndedSpacing(samples) && samples[0].tick.now < s <= samples[|samples| - 1].tick.now
    ensures x in samples && s <= x.tick.now < s + x.tick.lookback
  {
    var n := |samples| - 1;
    var front := samples[..n];
    assert forall i :: 0 <= i < |front| ==> front[i] == samples[i];
    if s <= front[n - 1].tick.now {
      x := FirstTickFrom(front, s);
    } else {
      assert samples[n].tick.now <= samples[n - 1].tick.now + samples[n].tick.lookback;
      x := samples[n];
    }
  }

  /** When a tick sees an ended event: within the lookback of its end, or, for an occurrence, of its start. */
  lemma EndedDueIff(e: Event, t: Tick)
    requires t.lead > 0 && e.start <= e.end
    ensures EndedDue(e, t) <==>
      e.end <= t.now && (if e.listing.ByOverlap? then t.now < e.end + t.lookback else t.now <= e.start + t.lookback)
  {}

  /** Every stationary plain event ending between the first and last tick is announced as ended, once. */
  lemma EndedCovered(tenant: string, samples: seq<Sample>, taken: set<Claim>, e: Event)
    requires Stationary(samples, e) && e.start <= e.end && e.listing.ByOverlap? && samples != []
      && EndedSpacing(samples)
    requires forall x :: x in samples ==> x.tick.lead > 0
    requires samples[0].tick.now < e.end <= samples[|samples| - 1].tick.now
    ensures var c := (tenant, MarkerKey(e), Ended);
      Count(Fired(tenant, samples, taken), c) == if c in taken then 0 else 1
  {
    var c := (tenant, MarkerKey(e), Ended);
    var x := FirstTickFrom(samples, e.end);
    EndedDueIff(e, x.tick);
    assert c in DueClaims(tenant, e, x.tick);
    WantedMembers(tenant, x.events, x.tick, c);
    FiresOnce(tenant, samples, taken, c);
    DistinctCountsOnce(Fired(tenant, samples, taken), c);
  }

  /** Only this event, as it stands, ever bears its marker; it need not be there at every tick. */
  ghost predicate SoleBearer(samples: seq<Sample>, e: Event) {
    forall x, e' :: x in samples && e' in x.events && MarkerKey(e') == MarkerKey(e) ==> e' == e
  }

  /**
   * An occurrence of a recurring series is another matter: it is announced as ended exactly when some
   * tick that lists a calendar with it falls between its end and a lookback after its start. One that
   * lasts longer than the lookback is never announced, however close the ticks.
   */
  lemma OccurrenceEndedIff(tenant: string, samples: seq<Sample>, e: Event)
    requires SoleBearer(samples, e) && e.start <= e.end && e.listing.ByStart?
    requires forall x :: x in samples ==> x.tick.lead > 0
    ensures (tenant, MarkerKey(e), Ended) in Fired(tenant, samples, {}) <==>
      exists x :: x in samples && e in x.events && e.end <= x.tick.now <= e.start + x.tick.lookback
    ensures (forall x :: x in samples ==> e.end - e.start > x.tick.lookback) ==>
      (tenant, MarkerKey(e), Ended) !in Fired(tenant, samples, {})
  {
    var c := (tenant, MarkerKey(e), Ended);
    FiresOnce(tenant, samples, {}, c);
    forall x | x in samples
      ensures c in WantedBy(tenant, x) <==> e in x.events && e.end <= x.tick.now <= e.start + x.tick.lookback
    {
      EndedWantedIff(tenant, x, e);
    }
  }

  lemma EndedWantedIff(tenant: string, x: Sample, e: Event)
    requires (forall e' :: e' in x.events && MarkerKey(e') == MarkerKey(e) ==> e' == e)
    requires e.start <= e.end && e.listing.ByStart? && x.tick.lead > 0
    ensures (tenant, MarkerKey(e), Ended) in WantedBy(tenant, x) <==>
            e in x.events && e.end <= x.tick.now <= e.start + x.tick.lookback
  {
    var c := (tenant, MarkerKey(e), Ended);
    WantedMembers(tenant, x.events, x.tick, c);
    EndedDueIff(e, x.tick);
    forall e' | e' in x.events ensures c in DueClaims(tenant, e', x.tick) <==> e' == e && EndedDue(e, x.tick) {
      if c in DueClaims(tenant, e', x.tick) { assert MarkerKey(e') == MarkerKey(e); }
    }
  }

  /** Ticks in order, no two further apart than gap. */
  ghost predicate Within(samples: seq<Sample>, gap: int) {
    forall i :: 0 <= i < |samples| - 1 ==> samples[i].tick.now <= samples[i + 1].tick.now <= samples[i].tick.now + gap
  }

  lemma {:induction false} FirstTickWithin(samples: seq<Sample>, gap: int, s: int) returns (x: Sample)
    requires samples != [] && Within(samples, gap) && samples[0].tick.now < s <= samples[|samples| - 1].tick.now
    ensures x in samples && s <= x.tick.now < s + gap
  {
    var n := |samples| - 1;
    var front := samples[..n];
    assert forall i :: 0 <= i < |front| ==> front[i] == samples[i];
    if s <= front[n - 1].tick.now {
      x := FirstTickWithin(front, gap, s);
    } else {
      assert samples[n].tick.now <= samples[n - 1].tick.now + gap;
      x := samples[n];
    }
  }

  /** A stationary occurrence that leaves the lookback room for a gap between ticks is announced as ended, once. */
  lemma ShortOccurrenceCovered(tenant: string, samples: seq<Sample>, taken: set<Claim>, e: Event, gap: int,
                               lookback: int)
    requires Stationary(samples, e) && e.start <= e.end && e.listing.ByStart? && samples != []
    requires Within(samples, gap) && (e.end - e.start) + gap <= lookback + 1
    requires forall x :: x in samples ==> x.tick.lead > 0 && x.tick.lookback == lookback
    requires samples[0].tick.now < e.end <= samples[|samples| - 1].tick.now
    ensures var c := (tenant, MarkerKey(e), Ended);
      Count(Fired(tenant, samples, taken), c) == if c in taken then 0 else 1
  {
    var c := (tenant, MarkerKey(e), Ended);
    var x := FirstTickWithin(samples, gap, e.end);
    EndedDueIff(e, x.tick);
    assert c in DueClaims(tenant, e, x.tick);
    WantedMembers(tenant, x.events, x.tick, c);
    FiresOnce(tenant, samples, taken, c);
    DistinctCountsOnce(Fired(tenant, samples, taken), c);
  }

  /** And one that leaves less is missed by some ticks as close as that. */
  lemma LongerCanBeMissed(tenant: string, e: Event, gap: int, lead: int, lookback: int) returns (samples: seq<Sample>)
    requires e.start <= e.end && e.listing.ByStart? && gap > 0 && lead > 0 && (e.end - e.start) + gap > lookback + 1
    ensures Stationary(samples, e) && Within(samples, gap) && samples != []
    ensures forall x :: x in samples ==> x.tick.lead == lead && x.tick.lookback == lookback
    ensures samples[0].tick.now < e.end <= samples[|samples| - 1].tick.now
    ensures (tenant, MarkerKey(e), Ended) !in Fired(tenant, samples, {})
  {
    var before, after := Sample(Tick(e.end - 1, lead, lookback), [e]),
      Sample(Tick(e.end - 1 + gap, lead, lookback), [e]);
    samples := [before, after];
    assert forall x :: x in samples ==> x.events == [e];
    OccurrenceEndedIff(tenant, samples, e);
  }

  /** The default lookback of an hour, ticks however close, and a two-hour occurrence: never announced. */
  lemma LongOccurrenceNeverEnds(tenant: string, samples: seq<Sample>, e: Event)
    requires e == Event("local", "series_20260710T090000Z", 9 * 3600, 11 * 3600, ByStart) && SoleBearer(samples, e)
    requires forall x :: x in samples ==> x.tick.lead == 15 * 60 && x.tick.lookback == 60 * 60
    ensures (tenant, MarkerKey(e), Ended) !in Fired(tenant, samples, {})
  {
    OccurrenceEndedIff(tenant, samples, e);
  }
}
