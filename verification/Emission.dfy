/**
 * Emitting a pass's folded decisions: self-write suppression, the ceiling, and what both guarantee over many
 * passes.
 */
module Emission {
  import opened Basics
  import opened Spine
  import opened Announce

  /**
   * What surrounds one pass: whose ledger rows, the clock at each ledger call, which publishes go through, the
   * ceiling.
   */
  datatype Env = Env(tenant: string, provider: string, clock: nat -> int, sends: Decision -> bool, cap: int)

  /** Why a decision was, or was not, held back. */
  datatype Verdict = Fresh | Consumed(key: string) | Peeked(key: string)

  /**
   * The i-th decision of a pass against the ledger: its first ledger call reads the clock at 2i, its second at
   * 2i + 1.
   */
  function Judge(env: Env, i: nat, ledger: Ledger, d: Decision): (Verdict, Ledger) {
    var key := SelfWriteKey(d.kind, env.provider, d.eventId);
    if d.collapsed then
      (if Marked(ledger, env.tenant, key, env.clock(2 * i)) then Peeked(key) else Fresh, ledger)
    else
      var rest := ledger - {(env.tenant, key)};
      if Marked(ledger, env.tenant, key, env.clock(2 * i)) then (Consumed(key), rest)
      else if d.seriesId.None? || d.seriesId.value == d.eventId then (Fresh, rest)
      else
        var series := SelfWriteKey(d.kind, env.provider, d.seriesId.value);
        (if Marked(rest, env.tenant, series, env.clock(2 * i + 1)) then Peeked(series) else Fresh, rest)
  }

  datatype Outcome = Outcome(ledger: Option<Ledger>, announced: seq<Decision>, consumed: seq<string>)

  /** Whether d is held back, the markers used up, and the ledger afterwards; no ledger holds nothing back. */
  function Judged(env: Env, i: nat, ledger: Option<Ledger>, d: Decision): (bool, seq<string>, Option<Ledger>) {
    match ledger
    case None => (false, [], None)
    case Some(markers) =>
      var v := Judge(env, i, markers, d);
      (!v.0.Fresh?, if v.0.Consumed? then [v.0.key] else [], Some(v.1))
  }

  function Sent(env: Env, held: bool, d: Decision): seq<Decision> {
    if !held && env.sends(d) then [d] else []
  }

  /** Emission from the i-th group on, with n already announced. */
  function Emit(env: Env, groups: seq<Decision>, i: nat, n: nat, ledger: Option<Ledger>): Outcome
    decreases |groups| - i
  {
    if i >= |groups| || n >= env.cap then Outcome(ledger, [], [])
    else
      var j := Judged(env, i, ledger, groups[i]);
      var sent := Sent(env, j.0, groups[i]);
      Prepend(sent, j.1, Emit(env, groups, i + 1, n + |sent|, j.2))
  }

  function Prepend(announced: seq<Decision>, consumed: seq<string>, rest: Outcome): Outcome {
    Outcome(rest.ledger, announced + rest.announced, consumed + rest.consumed)
  }

  lemma {:induction false} EmitOnce(env: Env, groups: seq<Decision>, i: nat, n: nat, ledger: Option<Ledger>)
    requires i < |groups| && n < env.cap
    ensures var j := Judged(env, i, ledger, groups[i]); var sent := Sent(env, j.0, groups[i]);
      Emit(env, groups, i, n, ledger) == Prepend(sent, j.1, Emit(env, groups, i + 1, n + |sent|, j.2))
  {}

  lemma PrependTwice(a: seq<Decision>, b: seq<Decision>, c: seq<string>, d: seq<string>, rest: Outcome)
    ensures Prepend(a, c, Prepend(b, d, rest)) == Prepend(a + b, c + d, rest)
  {
    assert a + (b + rest.announced) == (a + b) + rest.announced;
    assert c + (d + rest.consumed) == (c + d) + rest.consumed;
  }

  /** A whole pass: fold, then emit. */
  function PassOutcome(env: Env, ds: seq<Decision>, ledger: Option<Ledger>): Outcome {
    Emit(env, Collapsed(ds), 0, 0, ledger)
  }

  // ---------------------------------------------------------------- the emitter

  class Emitter {
    const tenant: string
    const provider: string
    const cap: int
    const ledger: SelfWriteLedger?
    var announced: seq<Decision>

    constructor (tenant: string, provider: string, cap: int, ledger: SelfWriteLedger?)
      ensures this.tenant == tenant && this.provider == provider && this.cap == cap && this.ledger == ledger
      ensures announced == []
    {
      this.tenant, this.provider, this.cap, this.ledger := tenant, provider, cap, ledger;
      announced := [];
    }

    function Markers(): Option<Ledger>
      reads this, ledger
    {
      if ledger == null then None else Some(ledger.markers)
    }

    /** The two readings are the clock at the first and at the second ledger call. */
    method Suppressed(d: Decision, now: int, later: int, ghost env: Env, ghost i: nat)
      returns (held: bool, ghost consumed: seq<string>)
      requires env.tenant == tenant && env.provider == provider
      requires now == env.clock(2 * i) && later == env.clock(2 * i + 1)
      modifies ledger
      ensures (held, consumed, Markers()) == Judged(env, i, old(Markers()), d)
    {
      consumed := [];
      if ledger == null {
        return false, [];
      }
      var key := SelfWriteKey(d.kind, provider, d.eventId);
      if d.collapsed {
        held := ledger.Peek(tenant, key, now);
        return;
      }
      held := ledger.Consume(tenant, key, now);
      if held {
        consumed := [key];
        return;
      }
      if d.seriesId.None? || d.seriesId.value == d.eventId {
        return;
      }
      held := ledger.Peek(tenant, SelfWriteKey(d.kind, provider, d.seriesId.value), later);
    }

    /** One group: held back, published, or lost to the bus. */
    method EmitOne(d: Decision, now: int, later: int, sends: Decision -> bool, ghost env: Env, ghost i: nat)
      returns (sent: bool, ghost consumed: seq<string>, ghost more: seq<Decision>)
      requires env.tenant == tenant && env.provider == provider && env.sends == sends
      requires now == env.clock(2 * i) && later == env.clock(2 * i + 1)
      modifies this, ledger
      ensures var j := Judged(env, i, old(Markers()), d);
        && consumed == j.1 && Markers() == j.2 && more == Sent(env, j.0, d)
        && announced == old(announced) + more && |more| == if sent then 1 else 0
    {
      var held;
      held, consumed := Suppressed(d, now, later, env, i);
      sent := !held && sends(d);
      more := [];
      if sent {
        announced, more := announced + [d], [d];
      }
    }

    /** Announces what one pass's decisions amount to; the ghost result lists the markers used up. */
    method EmitAll(ds: seq<Decision>, clock: nat -> int, sends: Decision -> bool)
      returns (emitted: nat, ghost consumed: seq<string>)
      modifies this, ledger
      ensures
        var out := PassOutcome(Env(tenant, provider, clock, sends, cap), ds, old(Markers()));
        && Markers() == out.ledger && announced == old(announced) + out.announced
        && emitted == |out.announced| && consumed == out.consumed
    {
      var groups := Collapse(ds);
      emitted, consumed := EmitGroups(groups, clock, sends, Env(tenant, provider, clock, sends, cap));
    }

    method EmitGroups(groups: seq<Decision>, clock: nat -> int, sends: Decision -> bool, ghost env: Env)
      returns (emitted: nat, ghost consumed: seq<string>)
      requires env == Env(tenant, provider, clock, sends, cap)
      modifies this, ledger
      ensures
        var out := Emit(env, groups, 0, 0, old(Markers()));
        && Markers() == out.ledger && announced == old(announced) + out.announced
        && emitted == |out.announced| && consumed == out.consumed
    {
      emitted, consumed := 0, [];
      ghost var whole := Emit(env, groups, 0, 0, Markers());
      ghost var sent: seq<Decision> := [];
      var i := 0;
      while i < |groups| && emitted < cap
        invariant i <= |groups| && emitted == |sent|
        invariant announced == old(announced) + sent
        invariant whole == Prepend(sent, consumed, Emit(env, groups, i, |sent|, Markers()))
      {
        ghost var before := Markers();
        ghost var used, more;
        var went;
        went, used, more := EmitOne(groups[i], clock(2 * i), clock(2 * i + 1), sends, env, i);
        EmitUnfolds(env, groups, i, sent, consumed, before);
        Regroup(old(announced), sent, more);
        sent := sent + more;
        consumed := consumed + used;
        if went {
          emitted := emitted + 1;
        }
        i := i + 1;
      }
    }
  }

  lemma EmitUnfolds(env: Env, groups: seq<Decision>, i: nat, sent: seq<Decision>, used: seq<string>,
                    ledger: Option<Ledger>)
    requires i < |groups| && |sent| < env.cap
    ensures var j := Judged(env, i, ledger, groups[i]); var more := Sent(env, j.0, groups[i]);
      Prepend(sent, used, Emit(env, groups, i, |sent|, ledger))
      == Prepend(sent + more, used + j.1, Emit(env, groups, i + 1, |sent + more|, j.2))
  {
    var j := Judged(env, i, ledger, groups[i]);
    var more := Sent(env, j.0, groups[i]);
    assert |sent + more| == |sent| + |more|;
    var rest := Emit(env, groups, i + 1, |sent| + |more|, j.2);
    assert Emit(env, groups, i, |sent|, ledger) == Prepend(more, j.1, rest);
    PrependTwice(sent, more, used, j.1, rest);
  }

  // ---------------------------------------------------------------- a series-wide marker

  /** d is about the series s itself or one of its occurrences. */
  predicate About(d: Decision, s: string, k: Kind) {
    d.kind == k && (d.eventId == s || d.seriesId == Some(s))
  }

  /** Decisions as a pass classifies them, none of them naming the series id as an occurrence. */
  predicate Occurrences(ds: seq<Decision>, s: string) {
    s != "" && forall d :: d in ds ==> !d.collapsed && d.eventId != s
  }

  lemma FoldedShape(ds: seq<Decision>, s: string, out: Decision)
    requires Occurrences(ds, s) && out in Collapsed(ds)
    ensures WellFolded(out, s)
  {
    CollapseFoldsGroups(ds, out);
    var k :| k in Keys(ds) && Group(ds, k) != [] && Folded(Group(ds, k), k) == out;
    GroupMembers(ds, k);
    var first := Earliest(Group(ds, k));
    assert first in ds && KeyOf(first) == k;
  }

  function MarkerOf(tenant: string, provider: string, s: string, k: Kind): (string, string) {
    (tenant, SelfWriteKey(k, provider, s))
  }

  /** A folded decision's id is the series' exactly when it was re-keyed and flagged. */
  predicate WellFolded(g: Decision, s: string) {
    && (g.eventId == s ==> g.collapsed)
    && (g.seriesId == Some(s) && g.eventId != s ==> !g.collapsed)
  }

  predicate Silent(announced: seq<Decision>, s: string, k: Kind) {
    forall d :: d in announced ==> !About(d, s, k)
  }

  lemma SilentConcat(a: seq<Decision>, b: seq<Decision>, s: string, k: Kind)
    requires Silent(a, s, k) && Silent(b, s, k)
    ensures Silent(a + b, s, k)
  {}

  lemma JudgeKeepsMarker(env: Env, i: nat, ledger: Ledger, d: Decision, s: string, k: Kind, until: int)
    requires WellFolded(d, s) && env.clock(2 * i) < until && env.clock(2 * i + 1) < until
    requires var m := MarkerOf(env.tenant, env.provider, s, k); m in ledger && until <= ledger[m]
    ensures var m := MarkerOf(env.tenant, env.provider, s, k); var j := Judged(env, i, Some(ledger), d);
      && j.2.Some? && m in j.2.value && j.2.value[m] == ledger[m] && Silent(Sent(env, j.0, d), s, k)
  {
    SelfWriteKeyInjective(d.kind, d.eventId, k, s, env.provider);
  }

  lemma {:induction false} EmitKeepsMarker(env: Env, groups: seq<Decision>, i: nat, n: nat, ledger: Ledger, s: string,
                                           k: Kind, until: int, m: (string, string))
    requires forall g :: g in groups ==> WellFolded(g, s)
    requires forall j: nat :: env.clock(j) < until
    requires m == MarkerOf(env.tenant, env.provider, s, k) && m in ledger && until <= ledger[m]
    ensures var out := Emit(env, groups, i, n, Some(ledger));
      out.ledger.Some? && m in out.ledger.value && out.ledger.value[m] == ledger[m] && Silent(out.announced, s, k)
    decreases |groups| - i
  {
    if i < |groups| && n < env.cap {
      assert groups[i] in groups;
      JudgeKeepsMarker(env, i, ledger, groups[i], s, k, until);
      var j := Judged(env, i, Some(ledger), groups[i]);
      var sent := Sent(env, j.0, groups[i]);
      var next, later := n + |sent|, j.2.value;
      EmitKeepsMarker(env, groups, i + 1, next, later, s, k, until, m);
      var rest := Emit(env, groups, i + 1, next, Some(later));
      SilentConcat(sent, rest.announced, s, k);
      EmitOnce(env, groups, i, n, Some(ledger));
      assert Emit(env, groups, i, n, Some(ledger)) == Prepend(sent, j.1, rest);
    }
  }

  /** One step of the ledger's life: a pass, a write recorded elsewhere, a prune. */
  datatype Step = PassStep(env: Env, ds: seq<Decision>)
                | RecordStep(tenant: string, keys: seq<string>, expiry: int)
                | PruneStep(tenant: string, now: int)

  function After(step: Step, ledger: Ledger): Outcome {
    match step
    case PassStep(env, ds) => PassOutcome(env, ds, Some(ledger))
    case RecordStep(tenant, keys, expiry) =>
      Outcome(Some(if Distinct(Wanted(keys)) then Recorded(ledger, tenant, keys, expiry) else ledger), [], [])
    case PruneStep(tenant, now) => Outcome(Some(Pruned(ledger, tenant, now)), [], [])
  }

  lemma {:induction false} EmitKeepsLedger(env: Env, groups: seq<Decision>, i: nat, n: nat, ledger: Ledger)
    ensures Emit(env, groups, i, n, Some(ledger)).ledger.Some?
    decreases |groups| - i
  {
    if i < |groups| && n < env.cap {
      var j := Judged(env, i, Some(ledger), groups[i]);
      EmitKeepsLedger(env, groups, i + 1, n + |Sent(env, j.0, groups[i])|, j.2.value);
    }
  }

  function LedgerAfter(step: Step, ledger: Ledger): Ledger {
    AfterKeepsLedger(step, ledger);
    After(step, ledger).ledger.value
  }

  /** The ledger, shared by every tenant and provider, after a run of steps. */
  function LedgerAfterAll(steps: seq<Step>, ledger: Ledger): Ledger {
    if steps == [] then ledger else LedgerAfterAll(steps[1..], LedgerAfter(steps[0], ledger))
  }

  predicate IsPassOf(step: Step, tenant: string, provider: string) {
    step.PassStep? && step.env.tenant == tenant && step.env.provider == provider
  }

  /** What the run's passes over one tenant's calendars at one provider announce. */
  function Heard(steps: seq<Step>, ledger: Ledger, tenant: string, provider: string): seq<Decision> {
    if steps == [] then []
    else (if IsPassOf(steps[0], tenant, provider) then After(steps[0], ledger).announced else [])
         + Heard(steps[1..], LedgerAfter(steps[0], ledger), tenant, provider)
  }

  lemma AfterKeepsLedger(step: Step, ledger: Ledger)
    ensures After(step, ledger).ledger.Some?
  {
    if step.PassStep? { EmitKeepsLedger(step.env, Collapsed(step.ds), 0, 0, ledger); }
  }

  /**
   * The step leaves the marker unexpired: a pass of the marker's tenant and provider runs before the expiry and never
   * reports the series id as an occurrence, no write shortens the expiry, and no prune comes after it. Passes of other
   * tenants and providers are free.
   */
  ghost predicate BeforeExpiry(step: Step, tenant: string, provider: string, s: string, k: Kind, until: int) {
    match step
    case PassStep(env, ds) =>
      if IsPassOf(step, tenant, provider) then Occurrences(ds, s) && forall j: nat :: env.clock(j) < until
      else ':' !in env.provider
    case RecordStep(t, keys, expiry) => t == tenant && SelfWriteKey(k, provider, s) in Wanted(keys) ==> until <= expiry
    case PruneStep(t, now) => t == tenant ==> now < until
  }

  lemma JudgeLeavesForeign(env: Env, i: nat, ledger: Ledger, d: Decision, m: (string, string))
    requires m in ledger && (env.tenant != m.0 || SelfWriteKey(d.kind, env.provider, d.eventId) != m.1)
    ensures var j := Judged(env, i, Some(ledger), d); j.2.Some? && m in j.2.value && j.2.value[m] == ledger[m]
  {}

  /** A pass of another tenant or provider never meets the marker. */
  lemma {:induction false} EmitLeavesForeign(env: Env, groups: seq<Decision>, i: nat, n: nat, ledger: Ledger,
                                             m: (string, string))
    requires m in ledger && (env.tenant != m.0 || forall k, id :: SelfWriteKey(k, env.provider, id) != m.1)
    ensures var out := Emit(env, groups, i, n, Some(ledger));
      out.ledger.Some? && m in out.ledger.value && out.ledger.value[m] == ledger[m]
    decreases |groups| - i
  {
    if i < |groups| && n < env.cap {
      var j := Judged(env, i, Some(ledger), groups[i]);
      JudgeLeavesForeign(env, i, ledger, groups[i], m);
      EmitLeavesForeign(env, groups, i + 1, n + |Sent(env, j.0, groups[i])|, j.2.value, m);
    }
  }

  /** One step, for one marker. */
  lemma StepKeepsMarker(step: Step, ledger: Ledger, tenant: string, provider: string, s: string, k: Kind, until: int)
    requires var m := MarkerOf(tenant, provider, s, k); m in ledger && until <= ledger[m]
    requires ':' !in provider && BeforeExpiry(step, tenant, provider, s, k, until)
    ensures var m := MarkerOf(tenant, provider, s, k); var later := LedgerAfter(step, ledger);
      m in later && until <= later[m]
    ensures IsPassOf(step, tenant, provider) ==> Silent(After(step, ledger).announced, s, k)
  {
    AfterKeepsLedger(step, ledger);
    var m := MarkerOf(tenant, provider, s, k);
    match step {
      case PassStep(env, ds) =>
        if IsPassOf(step, tenant, provider) {
          forall g | g in Collapsed(ds) ensures WellFolded(g, s) {
            FoldedShape(ds, s, g);
          }
          EmitKeepsMarker(env, Collapsed(ds), 0, 0, ledger, s, k, until, m);
        } else {
          if env.tenant == tenant {
            forall k', id ensures SelfWriteKey(k', env.provider, id) != m.1 {
              SelfWriteKeyNamesProvider(k', env.provider, id, k, provider, s);
            }
          }
          EmitLeavesForeign(env, Collapsed(ds), 0, 0, ledger, m);
        }
      case RecordStep(t, keys, expiry) => RecordedMarkers(ledger, t, Wanted(keys), expiry, m);
      case PruneStep(_, _) =>
    }
  }

  /**
   * Until it expires, a series-wide marker silences its kind of change to every occurrence of the series in that
   * provider's calendars, however the occurrences are spread over deltas and passes and whatever passes of other
   * tenants and providers come between, and is itself still there after.
   */
  lemma {:induction false} SeriesMarkerSilencesSeries(steps: seq<Step>, ledger: Ledger, tenant: string,
                                                      provider: string, s: string, k: Kind, until: int)
    requires var m := MarkerOf(tenant, provider, s, k); m in ledger && until <= ledger[m]
    requires ':' !in provider
    requires forall step :: step in steps ==> BeforeExpiry(step, tenant, provider, s, k, until)
    ensures Silent(Heard(steps, ledger, tenant, provider), s, k)
    ensures var m := MarkerOf(tenant, provider, s, k); var later := LedgerAfterAll(steps, ledger);
      m in later && until <= later[m]
  {
    if steps != [] {
      var step := steps[0];
      assert step in steps && forall st :: st in steps[1..] ==> st in steps;
      StepKeepsMarker(step, ledger, tenant, provider, s, k, until);
      SeriesMarkerSilencesSeries(steps[1..], LedgerAfter(step, ledger), tenant, provider, s, k, until);
    }
  }

  // ---------------------------------------------------------------- an exact marker

  function Present(ledger: Ledger, m: (string, string)): nat {
    if m in ledger then 1 else 0
  }

  function UsedBy(step: Step, ledger: Ledger, tenant: string): seq<string> {
    if step.PassStep? && step.env.tenant == tenant then After(step, ledger).consumed else []
  }

  function Records(step: Step, tenant: string, key: string): nat {
    if step.RecordStep? && step.tenant == tenant && key in Wanted(step.keys) then 1 else 0
  }

  /** How often the steps re-record the key. */
  function Recordings(steps: seq<Step>, tenant: string, key: string): nat {
    if steps == [] then 0
    else Records(steps[0], tenant, key) + Recordings(steps[1..], tenant, key)
  }

  lemma JudgeConsumesOnce(env: Env, i: nat, ledger: Ledger, d: Decision, key: string)
    ensures var j := Judged(env, i, Some(ledger), d); var m := (env.tenant, key);
      j.2.Some? && Count(j.1, key) + Present(j.2.value, m) <= Present(ledger, m)
  {}

  lemma {:induction false} EmitConsumesOnce(env: Env, groups: seq<Decision>, i: nat, n: nat, ledger: Ledger,
                                            key: string)
    ensures var out := Emit(env, groups, i, n, Some(ledger));
      out.ledger.Some? && Count(out.consumed, key) + Present(out.ledger.value, (env.tenant, key))
        <= Present(ledger, (env.tenant, key))
    decreases |groups| - i
  {
    if i < |groups| && n < env.cap {
      var j := Judged(env, i, Some(ledger), groups[i]);
      JudgeConsumesOnce(env, i, ledger, groups[i], key);
      var next := n + |Sent(env, j.0, groups[i])|;
      EmitConsumesOnce(env, groups, i + 1, next, j.2.value, key);
      CountConcat(j.1, Emit(env, groups, i + 1, next, j.2).consumed, key);
    }
  }

  /** The markers the run's passes over one tenant use up. */
  function Used(steps: seq<Step>, ledger: Ledger, tenant: string): seq<string> {
    if steps == [] then []
    else UsedBy(steps[0], ledger, tenant) + Used(steps[1..], LedgerAfter(steps[0], ledger), tenant)
  }

  /** One step: what it uses up of a marker was there or is recorded by it. */
  lemma StepConsumesOnce(step: Step, ledger: Ledger, tenant: string, key: string)
    ensures Count(UsedBy(step, ledger, tenant), key) + Present(LedgerAfter(step, ledger), (tenant, key))
      <= Present(ledger, (tenant, key)) + Records(step, tenant, key)
  {
    AfterKeepsLedger(step, ledger);
    match step {
      case PassStep(env, ds) =>
        EmitConsumesOnce(env, Collapsed(ds), 0, 0, ledger, key);
        EmitAddsNoMarker(env, Collapsed(ds), 0, 0, ledger, (tenant, key));
      case RecordStep(t, keys, expiry) => RecordedMarkers(ledger, t, Wanted(keys), expiry, (tenant, key));
      case PruneStep(_, _) =>
    }
  }

  lemma {:induction false} EmitAddsNoMarker(env: Env, groups: seq<Decision>, i: nat, n: nat, ledger: Ledger,
                                            m: (string, string))
    ensures var out := Emit(env, groups, i, n, Some(ledger));
      out.ledger.Some? && (m in out.ledger.value ==> m in ledger)
    decreases |groups| - i
  {
    if i < |groups| && n < env.cap {
      var j := Judged(env, i, Some(ledger), groups[i]);
      EmitAddsNoMarker(env, groups, i + 1, n + |Sent(env, j.0, groups[i])|, j.2.value, m);
    }
  }

  /**
   * Over any run, whoever else shares the ledger, an exact marker holds back at most one decision each time it
   * is recorded.
   */
  lemma {:induction false} ExactMarkerHoldsBackOnce(steps: seq<Step>, ledger: Ledger, tenant: string, key: string)
    ensures Count(Used(steps, ledger, tenant), key) <= Present(ledger, (tenant, key)) + Recordings(steps, tenant, key)
  {
    if steps != [] {
      var later := LedgerAfter(steps[0], ledger);
      StepConsumesOnce(steps[0], ledger, tenant, key);
      ExactMarkerHoldsBackOnce(steps[1..], later, tenant, key);
      CountConcat(UsedBy(steps[0], ledger, tenant), Used(steps[1..], later, tenant), key);
    }
  }

  /** A pass never announces more than its ceiling, and only decisions it folded. */
  lemma {:induction false} EmitWithinCap(env: Env, groups: seq<Decision>, i: nat, n: nat, ledger: Option<Ledger>)
    ensures var out := Emit(env, groups, i, n, ledger);
      && (n <= env.cap ==> n + |out.announced| <= env.cap)
      && (forall d :: d in out.announced ==> d in groups)
    decreases |groups| - i
  {
    if i < |groups| && n < env.cap {
      var j := Judged(env, i, ledger, groups[i]);
      EmitWithinCap(env, groups, i + 1, n + |Sent(env, j.0, groups[i])|, j.2);
    }
  }
}
