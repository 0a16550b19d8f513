/** What a pass leaves of the self-write markers. */
module MarkersUsed {
  import opened Basics
  import opened Spine
  import opened Emission
  import Announce

  /** The decision is one event's own, so that the marker of its kind and id is used up by looking. */
  predicate UsesUp(env: Env, g: Decision, m: (string, string)) {
    !g.collapsed && m == (env.tenant, SelfWriteKey(g.kind, env.provider, g.eventId))
  }

  lemma JudgedUses(env: Env, i: nat, ledger: Announce.Ledger, g: Decision, m: (string, string))
    ensures var j := Judged(env, i, Some(ledger), g);
      && j.2.Some? && (m in j.2.value <==> m in ledger && !UsesUp(env, g, m))
      && (m in j.2.value ==> j.2.value[m] == ledger[m])
  {}

  lemma {:induction false} EmitUses(env: Env, groups: seq<Decision>, i: nat, n: nat, ledger: Announce.Ledger,
                                    m: (string, string), out: Outcome)
    requires i <= |groups| && n + |groups| - i <= env.cap && out == Emit(env, groups, i, n, Some(ledger))
    ensures out.ledger.Some?
    ensures m in out.ledger.value <==> m in ledger && forall g :: i <= g < |groups| ==> !UsesUp(env, groups[g], m)
    ensures m in out.ledger.value ==> out.ledger.value[m] == ledger[m]
    decreases |groups| - i
  {
    if i < |groups| {
      var j := Judged(env, i, Some(ledger), groups[i]);
      var sent := Sent(env, j.0, groups[i]);
      JudgedUses(env, i, ledger, groups[i], m);
      EmitOnce(env, groups, i, n, Some(ledger));
      var rest := Emit(env, groups, i + 1, n + |sent|, j.2);
      EmitUses(env, groups, i + 1, n + |sent|, j.2.value, m, rest);
    }
  }

  /**
   * A pass with room for every group takes from the ledger exactly the markers of the lone decisions it judged, live
   * or not, and leaves every other marker, of a series above all, as it was. So the next change to such an event,
   * unless it is recorded anew, is announced.
   */
  lemma PassUsesUp(env: Env, ds: seq<Decision>, ledger: Announce.Ledger, m: (string, string))
    requires |Announce.Collapsed(ds)| <= env.cap
    ensures var after := PassOutcome(env, ds, Some(ledger)).ledger;
      && after.Some?
      && (m in after.value <==> m in ledger && !exists g :: g in Announce.Collapsed(ds) && UsesUp(env, g, m))
      && (m in after.value ==> after.value[m] == ledger[m])
  {
    var groups := Announce.Collapsed(ds);
    EmitUses(env, groups, 0, 0, ledger, m, PassOutcome(env, ds, Some(ledger)));
    if g :| g in groups && UsesUp(env, g, m) {
      var k :| 0 <= k < |groups| && groups[k] == g;
    }
  }
}
