/** What the scheduler promises of events rather than of markers. */
module Reminders {
  import opened Basics
  import opened Scheduler

  /** Keys of providers whose names hold no colon are equal only for one provider and one id. */
  lemma MarkerKeyNamesEvent(e: Event, e': Event)
    requires ':' !in e.provider && ':' !in e'.provider
    ensures MarkerKey(e) == MarkerKey(e') <==> e.provider == e'.provider && e.id == e'.id
  {
    if MarkerKey(e) == MarkerKey(e') {
      ColonSplits(e.provider, e.id, e'.provider, e'.id);
    }
  }

  /** Events that differ in provider or id, of providers without a colon in their names. */
  ghost predicate Different(es: seq<Event>) {
    && (forall i :: 0 <= i < |es| ==> ':' !in es[i].provider)
    && (forall i, j :: 0 <= i < j < |es| ==> es[i].provider != es[j].provider || es[i].id != es[j].id)
  }

  function ClaimsFor(tenant: string, es: seq<Event>, marker: Marker): (claims: seq<Claim>)
    ensures |claims| == |es| && forall i :: 0 <= i < |es| ==> claims[i] == (tenant, MarkerKey(es[i]), marker)
  {
    seq(|es|, i requires 0 <= i < |es| => (tenant, MarkerKey(es[i]), marker))
  }

  lemma DifferentClaims(tenant: string, es: seq<Event>, marker: Marker)
    requires Different(es)
    ensures Distinct(ClaimsFor(tenant, es, marker))
  {
    forall i, j | 0 <= i < j < |es| ensures MarkerKey(es[i]) != MarkerKey(es[j]) {
      MarkerKeyNamesEvent(es[i], es[j]);
    }
  }

  /** One announcement for each of the events: different ones, each made once, in the tenant's name and of this kind. */
  ghost predicate OneEach(fired: seq<Claim>, claims: seq<Claim>, tenant: string, n: nat, marker: Marker) {
    && |claims| == n && Distinct(claims)
    && forall i :: 0 <= i < n ==> claims[i].0 == tenant && claims[i].2 == marker && Count(fired, claims[i]) == 1
  }

  /**
   * With ticks no further apart than the lead and no marker taken, any n different events that stand still and start
   * between the first and the last tick are announced as starting soon by n different claims, each made once.
   */
  lemma EveryStartIsAnnounced(tenant: string, samples: seq<Sample>, es: seq<Event>) returns (claims: seq<Claim>)
    requires Different(es) && samples != [] && SoonSpacing(samples)
    requires forall x :: x in samples ==> x.tick.lead > 0 && x.tick.lookback > 0
    requires forall e :: e in es ==> Stationary(samples, e) && e.start <= e.end
    requires forall e :: e in es ==> samples[0].tick.now <= e.start <= samples[|samples| - 1].tick.now
    ensures OneEach(Fired(tenant, samples, {}), claims, tenant, |es|, StartingSoon)
  {
    claims := ClaimsFor(tenant, es, StartingSoon);
    DifferentClaims(tenant, es, StartingSoon);
    forall i | 0 <= i < |es| ensures Count(Fired(tenant, samples, {}), claims[i]) == 1 {
      StartingSoonCovered(tenant, samples, {}, es[i]);
    }
  }

  /** With ticks no further apart than the lookback, the same of plain events that end between them. */
  lemma EveryEndIsAnnounced(tenant: string, samples: seq<Sample>, es: seq<Event>) returns (claims: seq<Claim>)
    requires Different(es) && samples != [] && EndedSpacing(samples)
    requires forall x :: x in samples ==> x.tick.lead > 0
    requires forall e :: e in es ==> Stationary(samples, e) && e.start <= e.end && e.listing.ByOverlap?
    requires forall e :: e in es ==> samples[0].tick.now < e.end <= samples[|samples| - 1].tick.now
    ensures OneEach(Fired(tenant, samples, {}), claims, tenant, |es|, Ended)
  {
    claims := ClaimsFor(tenant, es, Ended);
    DifferentClaims(tenant, es, Ended);
    forall i | 0 <= i < |es| ensures Count(Fired(tenant, samples, {}), claims[i]) == 1 {
      EndedCovered(tenant, samples, {}, es[i]);
    }
  }

  /** And of occurrences short enough for the lookback and the gap between ticks. */
  lemma EveryShortOccurrenceEnds(tenant: string, samples: seq<Sample>, es: seq<Event>, gap: int, lookback: int)
    returns (claims: seq<Claim>)
    requires Different(es) && samples != [] && Scheduler.Within(samples, gap)
    requires forall x :: x in samples ==> x.tick.lead > 0 && x.tick.lookback == lookback
    requires forall e :: e in es ==>
      Stationary(samples, e) && e.start <= e.end && e.listing.ByStart? && (e.end - e.start) + gap <= lookback + 1
    requires forall e :: e in es ==> samples[0].tick.now < e.end <= samples[|samples| - 1].tick.now
    ensures OneEach(Fired(tenant, samples, {}), claims, tenant, |es|, Ended)
  {
    claims := ClaimsFor(tenant, es, Ended);
    DifferentClaims(tenant, es, Ended);
    forall i | 0 <= i < |es| ensures Count(Fired(tenant, samples, {}), claims[i]) == 1 {
      ShortOccurrenceCovered(tenant, samples, {}, es[i], gap, lookback);
    }
  }

  /** Nothing is announced for an event that no tick has due: every claim that fires is some listed event's own. */
  lemma EveryClaimIsAnEvents(tenant: string, samples: seq<Sample>, taken: set<Claim>, c: Claim)
    returns (x: Sample, e: Event)
    requires c in Fired(tenant, samples, taken)
    ensures x in samples && e in x.events && c.0 == tenant && c.1 == e.provider + ":" + e.id
    ensures c.2 == StartingSoon ==> x.tick.now <= e.start <= x.tick.now + x.tick.lead
    ensures c.2 == Ended ==> e.end <= x.tick.now
  {
    FiresOnce(tenant, samples, taken, c);
    x :| x in samples && c in WantedBy(tenant, x);
    WantedMembers(tenant, x.events, x.tick, c);
    e :| e in x.events && c in DueClaims(tenant, e, x.tick);
    DueClaimIs(tenant, e, x.tick, c);
  }

  lemma DueClaimIs(tenant: string, e: Event, t: Tick, c: Claim)
    requires c in DueClaims(tenant, e, t)
    ensures c.0 == tenant && c.1 == e.provider + ":" + e.id
    ensures c.2 == StartingSoon ==> t.now <= e.start <= t.now + t.lead
    ensures c.2 == Ended ==> e.end <= t.now
  {}
}
