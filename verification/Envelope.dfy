/** The event envelope: what a producer may publish, and what the intake accepts off the wire. */
module Envelope {
  import opened Basics
  import opened Text

  // ---------------------------------------------------------------- tenants and subjects

  predicate LowerAlnum(c: char) {
    'a' <= c <= 'z' || '0' <= c <= '9'
  }

  predicate IsTenantId(s: string) {
    && 1 <= |s| <= 63
    && LowerAlnum(s[0]) && LowerAlnum(s[|s| - 1])
    && forall c :: c in s ==> LowerAlnum(c) || c == '-'
  }

  predicate IsToken(s: string) {
    s != "" && LowerAlnum(s[0]) && forall c :: c in s ==> LowerAlnum(c) || c == '_' || c == '-'
  }

  predicate IsEventType(s: string) {
    |Split(s, '.')| >= 2 && forall t :: t in Split(s, '.') ==> IsToken(t)
  }

  function ScopeSubject(base: string, tenant: string): string {
    tenant + "." + base
  }

  function EventSubject(eventType: string): string {
    "events." + eventType
  }

  /** subject.split(".", 1)[0]. */
  function SubjectTenant(subject: string): string {
    Partition(subject, '.').0
  }

  /** The subject is the tenant, or begins with it and a dot. */
  predicate Under(subject: string, tenant: string) {
    subject == tenant || tenant + "." <= subject
  }

  lemma SubjectNamesTenant(subject: string, tenant: string)
    requires '.' !in tenant
    ensures SubjectTenant(subject) == tenant <==> Under(subject, tenant)
  {
    if tenant + "." <= subject {
      var rest := subject[|tenant| + 1..];
      assert subject == tenant + ['.'] + rest;
      PartitionPrefix(tenant, rest, '.');
    }
    if SubjectTenant(subject) == tenant && Partition(subject, '.').1 {
      assert subject == tenant + ['.'] + Partition(subject, '.').2;
    }
    if subject == tenant {
      assert '.' !in subject;
    }
  }

  // ---------------------------------------------------------------- envelopes

  /** A payload, by what the validators look at; jsonSize is None when it cannot be serialised. */
  datatype Payload = Payload(secretKeys: set<string>, jsonSize: Option<nat>, body: string)

  datatype Fields = Fields(schemaVersion: int, tenant: string, moduleName: string, eventType: string,
                           occurredAt: int, zoned: bool, dedupKey: string, entity: Option<string>,
                           payload: Payload, causation: Option<string>)

  const MAX_PAYLOAD_BYTES: nat := 4096

  predicate Valid(f: Fields) {
    && IsTenantId(f.tenant)
    && |f.moduleName| <= 64 && IsToken(f.moduleName)
    && |f.eventType| <= 128 && IsEventType(f.eventType)
    && f.zoned
    && 1 <= |f.dedupKey| <= 255
    && f.moduleName + "." <= f.eventType
    && f.payload.secretKeys == {}
    && f.payload.jsonSize.Some? && f.payload.jsonSize.value <= MAX_PAYLOAD_BYTES
  }

  /** The uniqueness key of the log. */
  type Key = (string, string, string)

  function KeyOf(f: Fields): Key {
    (f.tenant, f.moduleName, f.dedupKey)
  }

  // ---------------------------------------------------------------- the wire

  datatype Wire = NotJson | Json(fields: Fields)

  datatype Message = Message(subject: string, data: Wire)

  /** The validated envelope a message carries, if it carries one. */
  function Parse(m: Message): Option<Fields> {
    if m.data.Json? && Valid(m.data.fields) then Some(m.data.fields) else None
  }

  /** Parsed, and published under the tenant it claims. */
  predicate Acceptable(m: Message) {
    Parse(m).Some? && SubjectTenant(m.subject) == Parse(m).value.tenant
  }

  function MessageKey(m: Message): Key
    requires Acceptable(m)
  {
    KeyOf(Parse(m).value)
  }

  /** The message carries a valid envelope and its subject begins with that envelope's tenant. */
  predicate Own(m: Message) {
    m.data.Json? && Valid(m.data.fields) && Under(m.subject, m.data.fields.tenant)
  }

  lemma AcceptableIffOwn(m: Message)
    ensures Acceptable(m) <==> Own(m)
    ensures Own(m) ==> Parse(m) == Some(m.data.fields)
  {
    if m.data.Json? && Valid(m.data.fields) {
      assert '.' !in m.data.fields.tenant;
      SubjectNamesTenant(m.subject, m.data.fields.tenant);
    }
  }

  // ---------------------------------------------------------------- what a valid envelope looks like

  /** Dotted lower-case tokens, letter by letter: each begins with a letter or a digit. */
  predicate Dotted(s: string) {
    s != "" && ('a' <= s[0] <= 'z' || '0' <= s[0] <= '9') && forall i :: 0 <= i < |s| ==> DottedAt(s, i)
  }

  predicate DottedAt(s: string, i: nat)
    requires i < |s|
  {
    if s[i] == '.' then i + 1 < |s| && ('a' <= s[i + 1] <= 'z' || '0' <= s[i + 1] <= '9')
    else 'a' <= s[i] <= 'z' || '0' <= s[i] <= '9' || s[i] == '_' || s[i] == '-'
  }

  lemma {:induction false} TokensIffDotted(s: string)
    ensures (forall t :: t in Split(s, '.') ==> IsToken(t)) <==> Dotted(s)
    ensures |Split(s, '.')| >= 2 <==> '.' in s
    decreases |s|
  {
    var r := Partition(s, '.');
    if r.1 {
      SplitPrefix(r.0, r.2, '.');
      TokensIffDotted(r.2);
      TokenThenDotted(s, r.0, r.2);
      var rest := Split(r.2, '.');
      assert Split(s, '.') == [r.0] + rest;
      assert (forall t :: t in Split(s, '.') ==> IsToken(t)) <==>
        IsToken(r.0) && (forall t :: t in rest ==> IsToken(t)) by {
        assert r.0 in [r.0] + rest && forall t :: t in rest ==> t in [r.0] + rest;
      }
    } else {
      SplitAtomic(s, '.');
      AtomIsDotted(s);
      assert s in [s];
    }
  }

  lemma TokenThenDotted(s: string, head: string, rest: string)
    requires s == head + ['.'] + rest && '.' !in head
    ensures Dotted(s) <==> IsToken(head) && Dotted(rest)
  {
    var n := |head|;
    assert s[n] == '.';
    forall i | 0 <= i < n ensures s[i] == head[i] && (DottedAt(s, i) <==> LowerAlnum(head[i]) || head[i] in "_-") {
      assert head[i] in head;
    }
    forall i | n < i < |s| ensures s[i] == rest[i - n - 1] && (DottedAt(s, i) <==> DottedAt(rest, i - n - 1)) {}
    assert DottedAt(s, n) <==> rest != "" && LowerAlnum(rest[0]);
    if Dotted(s) {
      assert DottedAt(s, n) && s[0] != '.';
      assert forall i :: 0 <= i < n ==> DottedAt(s, i);
      forall c | c in head ensures LowerAlnum(c) || c == '_' || c == '-' {
        var i :| 0 <= i < n && head[i] == c;
      }
      forall i | 0 <= i < |rest| ensures DottedAt(rest, i) {
        assert DottedAt(s, n + 1 + i);
      }
    }
    if IsToken(head) && Dotted(rest) {
      forall i | 0 <= i < |s| ensures DottedAt(s, i) {
        if i < n { assert head[i] in head; } else if i > n { assert DottedAt(rest, i - n - 1); }
      }
    }
  }

  lemma AtomIsDotted(s: string)
    requires '.' !in s
    ensures Dotted(s) <==> IsToken(s)
  {
    assert forall i :: 0 <= i < |s| ==> s[i] in s;
    if Dotted(s) {
      forall c | c in s ensures LowerAlnum(c) || c == '_' || c == '-' {
        var i :| 0 <= i < |s| && s[i] == c;
        assert DottedAt(s, i);
      }
    }
  }

  /**
   * An envelope is valid exactly when its tenant is one to 63 lower-case letters, digits and inner hyphens, its type
   * is two or more dotted tokens of which the first is its module, within their lengths, its time carries a zone,
   * its dedup key has one to 255 characters, and its payload carries no secret and fits 4096 bytes of JSON.
   */
  lemma ValidIff(f: Fields)
    ensures Valid(f) <==>
      && 1 <= |f.tenant| <= 63 && f.tenant[0] != '-' && f.tenant[|f.tenant| - 1] != '-'
      && (forall i :: 0 <= i < |f.tenant| ==>
          'a' <= f.tenant[i] <= 'z' || '0' <= f.tenant[i] <= '9' || f.tenant[i] == '-')
      && |f.moduleName| <= 64 && |f.eventType| <= 128 && '.' !in f.moduleName
      && Dotted(f.eventType) && f.moduleName + "." <= f.eventType
      && f.zoned && 1 <= |f.dedupKey| <= 255
      && f.payload.secretKeys == {} && f.payload.jsonSize.Some? && f.payload.jsonSize.value <= 4096
  {
    TokensIffDotted(f.eventType);
    if IsToken(f.moduleName) {
      assert '.' !in f.moduleName;
    }
    if '.' !in f.moduleName && f.moduleName + "." <= f.eventType {
      var rest := f.eventType[|f.moduleName| + 1..];
      assert f.eventType == f.moduleName + ['.'] + rest;
      TokenThenDotted(f.eventType, f.moduleName, rest);
      assert '.' in f.eventType;
    }
    assert forall i :: 0 <= i < |f.tenant| ==> f.tenant[i] in f.tenant;
  }

  /** emit_event: what goes out on the bus, or nothing when a validator refuses. */
  function EmitEvent(f: Fields): Option<Message> {
    if Valid(f) then Some(Message(ScopeSubject(EventSubject(f.eventType), f.tenant), Json(f))) else None
  }

  /** Whatever emit_event publishes, the intake accepts, under the emitter's own key. */
  lemma EmittedIsAcceptable(f: Fields)
    requires EmitEvent(f).Some?
    ensures Acceptable(EmitEvent(f).value) && MessageKey(EmitEvent(f).value) == KeyOf(f)
  {
    assert '.' !in f.tenant;
    PartitionPrefix(f.tenant, EventSubject(f.eventType), '.');
    assert ScopeSubject(EventSubject(f.eventType), f.tenant) == f.tenant + ['.'] + EventSubject(f.eventType);
  }

  /** No event type has a place for a wildcard, and the module is its first token. */
  lemma TypeNamesItsModule(f: Fields)
    requires Valid(f)
    ensures Partition(f.eventType, '.').0 == f.moduleName
    ensures forall c :: c in f.eventType ==> c != '*' && c != '>'
  {
    var rest := f.eventType[|f.moduleName| + 1..];
    assert f.eventType == f.moduleName + ['.'] + rest;
    PartitionPrefix(f.moduleName, rest, '.');
    JoinOfSplit(f.eventType, '.');
    JoinAlphabet(Split(f.eventType, '.'));
  }

  lemma {:induction false} JoinAlphabet(tokens: seq<string>)
    requires forall t :: t in tokens ==> IsToken(t)
    ensures forall c :: c in Join(tokens, '.') ==> LowerAlnum(c) || c == '_' || c == '-' || c == '.'
  {
    if |tokens| > 1 {
      JoinAlphabet(tokens[1..]);
    }
    if tokens != [] { assert tokens[0] in tokens; }
  }

  /** What goes out is the envelope itself, on the subject of its tenant, the spine and its type. */
  lemma EmittedOnItsSubject(f: Fields)
    requires EmitEvent(f).Some?
    ensures EmitEvent(f).value.subject == f.tenant + ".events." + f.eventType && EmitEvent(f).value.data == Json(f)
    ensures f.tenant + ".events." + f.moduleName + "." <= EmitEvent(f).value.subject
  {
    var s := EmitEvent(f).value.subject;
    assert "." + ("events." + f.eventType) == ".events." + f.eventType;
    assert s == f.tenant + (".events." + f.eventType);
    assert f.eventType == f.moduleName + "." + f.eventType[|f.moduleName| + 1..];
  }
}
