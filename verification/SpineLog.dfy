/** Which of the calendar's announcements the durable log takes: it tells them apart by dedup key alone. */
module SpineLog {
  import opened Basics
  import opened Spine
  import Envelope
  import Intake

  // ---------------------------------------------------------------- dedup keys

  /** What follows the provider in a dedup key: the id, and for an update the change hash. */
  function Tail(d: Decision): string {
    if d.kind.Updated? && d.payload.Payload? then d.eventId + ":" + d.payload.changeHash else d.eventId
  }

  function DedupKey(provider: string, d: Decision): string {
    provider + ":" + Tail(d)
  }

  /** An update carries its event's hash, as classification makes it; ids are free of the separator. */
  predicate Keyable(d: Decision) {
    ':' !in d.eventId && (d.kind.Updated? ==> d.payload.Payload?)
  }

  /**
   * The same announcement as far as the log can tell: one update of one content, or a creation or cancellation
   * of one event.
   */
  predicate SameToTheLog(a: Decision, b: Decision)
    requires Keyable(a) && Keyable(b)
  {
    && a.eventId == b.eventId && (a.kind.Updated? <==> b.kind.Updated?)
    && (a.kind.Updated? ==> a.payload.changeHash == b.payload.changeHash)
  }

  lemma TailsMeet(a: Decision, b: Decision)
    requires Keyable(a) && Keyable(b)
    ensures Tail(a) == Tail(b) <==> SameToTheLog(a, b)
  {
    HeadOf(a);
    HeadOf(b);
    if Tail(a) == Tail(b) {
      assert forall i :: 0 <= i < |a.eventId| ==> Tail(a)[i] == a.eventId[i] != ':';
      assert forall i :: 0 <= i < |b.eventId| ==> Tail(b)[i] == b.eventId[i] != ':';
      assert a.kind.Updated? ==> Tail(a)[|a.eventId|] == ':';
      assert b.kind.Updated? ==> Tail(b)[|b.eventId|] == ':';
      assert |a.eventId| == |b.eventId|;
    }
  }

  lemma HeadOf(d: Decision)
    requires Keyable(d)
    ensures d.eventId <= Tail(d)
    ensures if d.kind.Updated? then Tail(d) == d.eventId + ":" + d.payload.changeHash else Tail(d) == d.eventId
    ensures d.kind.Updated? ==> Tail(d)[|d.eventId| + 1..] == d.payload.changeHash
  {}

  /** For one provider, two announcements share a key exactly when they are the same to the log. */
  lemma DedupKeysMeet(provider: string, a: Decision, b: Decision)
    requires Keyable(a) && Keyable(b)
    ensures DedupKey(provider, a) == DedupKey(provider, b) <==> SameToTheLog(a, b)
  {
    var p := provider + ":";
    assert DedupKey(provider, a)[|p|..] == Tail(a) && DedupKey(provider, b)[|p|..] == Tail(b);
    TailsMeet(a, b);
  }

  // ---------------------------------------------------------------- the log

  /** The envelope the reconciler publishes for a decision. */
  predicate Announces(f: Envelope.Fields, tenant: string, provider: string, d: Decision) {
    f.tenant == tenant && f.moduleName == "calendar" && f.eventType == KindName(d.kind)
      && f.dedupKey == DedupKey(provider, d)
  }

  /** The log after a series of deliveries. */
  function Logged(rows: seq<Envelope.Fields>, events: seq<Envelope.Fields>): seq<Envelope.Fields> {
    if events == [] then rows else Intake.Appended(Logged(rows, events[..|events| - 1]), events[|events| - 1])
  }

  lemma {:induction false} LoggedKeys(rows: seq<Envelope.Fields>, events: seq<Envelope.Fields>, k: Envelope.Key)
    ensures Intake.HasKey(Logged(rows, events), k) <==>
      Intake.HasKey(rows, k) || exists i :: 0 <= i < |events| && Envelope.KeyOf(events[i]) == k
  {
    if events != [] {
      var n := |events| - 1;
      var front, last := events[..n], events[n];
      LoggedKeys(rows, front, k);
      var before := Logged(rows, front);
      assert Intake.HasKey(Intake.Appended(before, last), k) <==>
        Intake.HasKey(before, k) || Envelope.KeyOf(last) == k by {
        AppendedKeys(before, last, k);
      }
      if i :| 0 <= i < |events| && Envelope.KeyOf(events[i]) == k {
        assert i == n || front[i] == events[i];
      }
      if i :| 0 <= i < |front| && Envelope.KeyOf(front[i]) == k {
        assert events[i] == front[i];
      }
    }
  }

  lemma AppendedKeys(rows: seq<Envelope.Fields>, f: Envelope.Fields, k: Envelope.Key)
    ensures Intake.HasKey(Intake.Appended(rows, f), k) <==> Intake.HasKey(rows, k) || Envelope.KeyOf(f) == k
  {
    var after := Intake.Appended(rows, f);
    if !Intake.HasKey(rows, Envelope.KeyOf(f)) {
      assert after[|rows|] == f;
      if r :| 0 <= r < |rows| && Envelope.KeyOf(rows[r]) == k {
        assert after[r] == rows[r];
      }
    }
  }

  /** The delivery adds its row. */
  ghost predicate Reaches(rows: seq<Envelope.Fields>, events: seq<Envelope.Fields>, i: nat)
    requires i < |events|
  {
    Logged(rows, events[..i + 1]) == Logged(rows, events[..i]) + [events[i]]
  }

  /**
   * What the log is sent: this provider's announcements for one tenant, and among them any other events, such
   * as those of other tenants and modules, whose keys are not among theirs.
   */
  ghost predicate Announcing(events: seq<Envelope.Fields>, tenant: string, provider: string,
                             said: seq<Option<Decision>>) {
    && |events| == |said|
    && (forall i :: 0 <= i < |said| && said[i].Some? ==>
          Keyable(said[i].value) && Announces(events[i], tenant, provider, said[i].value))
    && (forall i, j :: 0 <= i < |said| && 0 <= j < |said| && said[i].None? && said[j].Some? ==>
          Envelope.KeyOf(events[i]) != Envelope.KeyOf(events[j]))
  }

  /** The j-th event is an announcement the log cannot tell from d. */
  predicate Repeats(said: seq<Option<Decision>>, j: nat, d: Decision)
    requires j < |said| && Keyable(d) && (said[j].Some? ==> Keyable(said[j].value))
  {
    said[j].Some? && SameToTheLog(said[j].value, d)
  }

  /** A key is among those announced before i exactly when one of them is the same to the log as the i-th. */
  lemma KeyBefore(events: seq<Envelope.Fields>, tenant: string, provider: string, said: seq<Option<Decision>>, i: nat)
    requires Announcing(events, tenant, provider, said) && i < |said| && said[i].Some?
    ensures (exists j :: 0 <= j < i && Envelope.KeyOf(events[j]) == Envelope.KeyOf(events[i])) <==>
      exists j :: 0 <= j < i && Repeats(said, j, said[i].value)
  {
    forall j | 0 <= j < i ensures Envelope.KeyOf(events[j]) == Envelope.KeyOf(events[i]) <==>
      Repeats(said, j, said[i].value) {
      if said[j].Some? {
        DedupKeysMeet(provider, said[j].value, said[i].value);
      }
    }
  }

  lemma ReachesWhenNew(rows: seq<Envelope.Fields>, events: seq<Envelope.Fields>, i: nat)
    requires i < |events|
    ensures Reaches(rows, events, i) <==> !Intake.HasKey(Logged(rows, events[..i]), Envelope.KeyOf(events[i]))
  {
    assert events[..i + 1][..i] == events[..i];
    var before := Logged(rows, events[..i]);
    assert |before + [events[i]]| != |before|;
  }

  /**
   * An announcement of a provider's event reaches the log exactly when its key is not on file at the start
   * and nothing announced before it is the same to the log.
   */
  lemma ReachesIff(rows: seq<Envelope.Fields>, events: seq<Envelope.Fields>, tenant: string, provider: string,
                   said: seq<Option<Decision>>, i: nat)
    requires Announcing(events, tenant, provider, said) && i < |said| && said[i].Some?
    ensures Reaches(rows, events, i) <==>
      && !Intake.HasKey(rows, (tenant, "calendar", DedupKey(provider, said[i].value)))
      && forall j :: 0 <= j < i ==> !Repeats(said, j, said[i].value)
  {
    var front, key := events[..i], Envelope.KeyOf(events[i]);
    ReachesWhenNew(rows, events, i);
    LoggedKeys(rows, front, key);
    KeyBefore(events, tenant, provider, said, i);
    assert (exists j :: 0 <= j < |front| && Envelope.KeyOf(front[j]) == key) <==>
      exists j :: 0 <= j < i && Envelope.KeyOf(events[j]) == key by {
      assert forall j :: 0 <= j < i ==> front[j] == events[j];
    }
  }

  /**
   * So an event's cancellation never reaches a log that still holds its creation, nor its creation one that
   * holds its cancellation.
   */
  lemma CancellationOfCreatedIsDropped(rows: seq<Envelope.Fields>, events: seq<Envelope.Fields>, tenant: string,
                                       provider: string, said: seq<Option<Decision>>, i: nat, j: nat)
    requires Announcing(events, tenant, provider, said) && i < j < |said| && said[i].Some? && said[j].Some?
    requires var a, b := said[i].value, said[j].value;
      a.eventId == b.eventId && ((a.kind.Created? && b.kind.Cancelled?) || (a.kind.Cancelled? && b.kind.Created?))
    ensures !Reaches(rows, events, j)
  {
    ReachesIff(rows, events, tenant, provider, said, j);
    assert Repeats(said, i, said[j].value);
  }

  /** And an update back to a content already announced as an update is dropped too. */
  lemma UpdateBackIsDropped(rows: seq<Envelope.Fields>, events: seq<Envelope.Fields>, tenant: string,
                            provider: string, said: seq<Option<Decision>>, i: nat, j: nat)
    requires Announcing(events, tenant, provider, said) && i < j < |said| && said[i].Some? && said[j].Some?
    requires var a, b := said[i].value, said[j].value;
      a.eventId == b.eventId && a.kind.Updated? && b.kind.Updated? && a.payload.changeHash == b.payload.changeHash
    ensures !Reaches(rows, events, j)
  {
    ReachesIff(rows, events, tenant, provider, said, j);
    assert Repeats(said, i, said[j].value);
  }
}
