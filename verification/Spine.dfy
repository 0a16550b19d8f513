/** The calendar's change vocabulary: events, provider changes, cached observations, announcements. */
module Spine {
  import opened Basics

  datatype Kind = Created | Updated | Cancelled

  datatype Event = Event(title: string, start: int, end: int, description: Option<string>,
                         location: Option<string>, allDay: bool, recurringEventId: Option<string>)

  /** The fields the change hash covers. */
  datatype Fingerprint = Fingerprint(title: string, start: int, end: int, description: Option<string>,
                                     location: Option<string>, allDay: bool)

  /** The digest of a fingerprint; nothing is assumed of it. */
  type Hasher = Fingerprint -> string

  function ChangeHash(h: Hasher, e: Event): string {
    h(Fingerprint(e.title, e.start, e.end, e.description, e.location, e.allDay))
  }

  ghost predicate Injective(h: Hasher) {
    forall a, b :: h(a) == h(b) ==> a == b
  }

  /**
   * As far as the digest is collision-free, the hash moves exactly when a tracked field does; the series is not
   * one.
   */
  lemma HashMovesIff(h: Hasher, a: Event, b: Event)
    requires Injective(h)
    ensures ChangeHash(h, a) == ChangeHash(h, b) <==> a == b.(recurringEventId := a.recurringEventId)
  {
    var f, g := Fingerprint(a.title, a.start, a.end, a.description, a.location, a.allDay),
                Fingerprint(b.title, b.start, b.end, b.description, b.location, b.allDay);
    assert h(f) == h(g) <==> f == g;
  }

  datatype EventChange = EventChange(eventId: string, cancelled: bool, event: Option<Event>, seriesId: Option<string>) {
    predicate Live() {
      !cancelled && event.Some?
    }
  }

  datatype Page = Page(changes: seq<EventChange>, nextCursor: Option<string>)

  datatype SyncedEvent = SyncedEvent(eventId: string, seriesId: Option<string>, title: string, start: int, end: int,
                                     allDay: bool, changeHash: string)

  datatype Payload = Payload(title: string, start: int, end: int, allDay: bool, changeHash: string,
                             timeChanged: Option<bool>)
                   | CancelPayload(title: string)

  datatype Decision = Decision(kind: Kind, eventId: string, seriesId: Option<string>, title: string,
                               payload: Payload, start: int, collapsed: bool)

  /** Python's "a or b" on optional strings. */
  function Or(a: Option<string>, b: Option<string>): Option<string> {
    if a.Some? && a.value != "" then a else b
  }

  function Clip(s: string, n: nat): string {
    if |s| <= n then s else s[..n]
  }

  // ---------------------------------------------------------------- ledger keys

  function KindName(k: Kind): string {
    match k
    case Created => "calendar.event_created"
    case Updated => "calendar.event_updated"
    case Cancelled => "calendar.event_cancelled"
  }

  function SelfWriteKey(k: Kind, provider: string, id: string): string {
    KindName(k) + "|" + provider + ":" + id
  }

  /** A kind's name with the bar after it is a prefix code. */
  lemma KindNamePrefix(k: Kind, rest: string, k': Kind, rest': string)
    ensures KindName(k) + "|" + rest == KindName(k') + "|" + rest' ==> k == k' && rest == rest'
  {
    var n, n' := KindName(k), KindName(k');
    var a, b := n + "|" + rest, n' + "|" + rest';
    if a == b {
      assert a[15] == n[15] && b[15] == n'[15];
      assert a[16] == n[16] && b[16] == n'[16];
      assert k == k';
      assert rest == a[|n| + 1..] == b[|n| + 1..] == rest';
    }
  }

  lemma SelfWriteKeyParts(k: Kind, provider: string, id: string)
    ensures SelfWriteKey(k, provider, id) == KindName(k) + "|" + (provider + ":" + id)
  {}

  /** For one provider, a ledger key names one kind of change to one id. */
  lemma SelfWriteKeyInjective(k: Kind, id: string, k': Kind, id': string, provider: string)
    ensures SelfWriteKey(k, provider, id) == SelfWriteKey(k', provider, id') <==> k == k' && id == id'
  {
    SelfWriteKeyParts(k, provider, id);
    SelfWriteKeyParts(k', provider, id');
    KindNamePrefix(k, provider + ":" + id, k', provider + ":" + id');
    var p := provider + ":";
    assert (p + id)[|p|..] == id && (p + id')[|p|..] == id';
  }

  /** Keys of providers whose names hold no colon tell the providers apart. */
  lemma SelfWriteKeyNamesProvider(k: Kind, provider: string, id: string, k': Kind, provider': string, id': string)
    requires ':' !in provider && ':' !in provider'
    ensures SelfWriteKey(k, provider, id) == SelfWriteKey(k', provider', id') ==> provider == provider'
  {
    SelfWriteKeyParts(k, provider, id);
    SelfWriteKeyParts(k', provider', id');
    KindNamePrefix(k, provider + ":" + id, k', provider' + ":" + id');
    if SelfWriteKey(k, provider, id) == SelfWriteKey(k', provider', id') {
      ColonSplits(provider, id, provider', id');
    }
  }
}
