/**
 * A table read and written over its own column metadata: every travelling column encoded into a JSON
 * value on the way out, and normalised, decoded and stored on the way in, whichever of the two database
 * dialects is at either end.
 */
module PortableColumns {
  import opened Basics
  import Text

  /** A datetime: its wall clock in seconds, and its offset from UTC if it carries one. */
  datatype Moment = Moment(local: int, offset: Option<int>)

  /** What a column or a JSON field can hold. */
  datatype Value = Null | Flag(on: bool) | Number(n: int) | Str(text: string) | Blob(bytes: seq<bv8>) | When(at: Moment)

  type Data = map<string, Value>

  datatype Kind = Plain | Boolean | DateTime | LargeBinary

  /**
   * default is the model's own scalar default; generated is what the insert itself supplies, such as a server
   * default.
   */
  datatype Column = Column(kind: Kind, nullable: bool, default: Option<Value>, generated: Option<Value>)

  /**
   * The travelling columns by name, tenant and surrogate id left out; key names the natural key, none for a
   * singleton.
   */
  datatype PortableTable = PortableTable(kind: string, columns: map<string, Column>, key: seq<string>)

  datatype Dialect = Sqlite | Postgres

  /** The library spellings: ISO text of an instant in UTC, base64, and str. */
  datatype Spelling = Spelling(iso: int -> string, fromIso: string -> Option<Moment>,
                               b64: seq<bv8> -> string, unb64: string -> Option<seq<bv8>>, show: Value -> string)

  ghost predicate Faithful(sp: Spelling) {
    && (forall i :: sp.fromIso(sp.iso(i)) == Some(Moment(i, Some(0))))
    && (forall b :: sp.unb64(sp.b64(b)) == Some(b))
  }

  /** A naive datetime is read as UTC, an aware one converted to it. */
  function Instant(m: Moment): int {
    match m.offset
    case None => m.local
    case Some(offset) => m.local - offset
  }

  function Truthy(v: Value): bool {
    match v
    case Null => false
    case Flag(on) => on
    case Number(n) => n != 0
    case Str(s) => s != ""
    case Blob(b) => b != []
    case When(_) => true
  }

  /** What the database hands back from a column: its type, with SQLite's 0 and 1 for a boolean. */
  predicate Fits(c: Column, v: Value) {
    v.Null? || match c.kind
               case Plain => v.Flag? || v.Number? || v.Str?
               case Boolean => v.Flag? || v == Number(0) || v == Number(1)
               case DateTime => v.When?
               case LargeBinary => v.Blob?
  }

  /** A scalar default is a JSON value of its own column, so one on a datetime or binary column is ruled out. */
  predicate ValidColumn(c: Column) {
    && (c.default.Some? ==>
          c.default.value.Flag? || (c.kind.Plain? && (c.default.value.Number? || c.default.value.Str?)))
    && (c.default.Some? ==> c.kind.Plain? || c.kind.Boolean?)
    && (c.generated.Some? ==> !c.generated.value.Null? && Fits(c, c.generated.value))
  }

  predicate ValidTable(t: PortableTable) {
    && (forall n :: n in t.columns ==> ValidColumn(t.columns[n]))
    && (forall k :: 0 <= k < |t.key| ==>
        t.key[k] in t.columns && t.columns[t.key[k]] == Column(Plain, false, None, None))
  }

  // ---------------------------------------------------------------- one value

  function Defaulted(c: Column, v: Value): Value {
    if !v.Null? || c.nullable || c.default.None? then v else c.default.value
  }

  function EncodeValue(sp: Spelling, c: Column, v: Value): Value
    requires Fits(c, v)
  {
    if v.Null? then Null
    else match c.kind
      case DateTime => Str(sp.iso(Instant(v.at)))
      case LargeBinary => Str(sp.b64(v.bytes))
      case Boolean => Flag(Truthy(v))
      case Plain => v
  }

  /** None where the library raises: a malformed date or malformed base64. */
  function DecodeValue(sp: Spelling, c: Column, v: Value): Option<Value> {
    if v.Null? then Some(Null)
    else match c.kind
      case DateTime =>
        if !v.Str? then Some(v)
        else (match sp.fromIso(v.text) case None => None case Some(m) => Some(When(m)))
      case LargeBinary =>
        (match sp.unb64(if v.Str? then v.text else sp.show(v)) case None => None case Some(b) => Some(Blob(b)))
      case Boolean => Some(Flag(Truthy(v)))
      case Plain => Some(v)
  }

  /**
   * What reads back after a write: SQLite drops a datetime's offset and stores booleans as 0 and 1.
   * None where the database refuses the value, a null in a NOT NULL column among them.
   */
  function Stored(dialect: Dialect, c: Column, v: Value): (r: Option<Value>)
    ensures r.Some? ==> Fits(c, r.value) && (r.value.Null? <==> v.Null?) && (r.value.Null? ==> c.nullable)
  {
    if v.Null? then (if c.nullable then Some(Null) else None)
    else match c.kind
      case DateTime =>
        if !v.When? then None
        else Some(When(if dialect.Sqlite? then Moment(v.at.local, None) else Moment(Instant(v.at), Some(0))))
      case LargeBinary => if v.Blob? then Some(v) else None
      case Boolean =>
        if !v.Flag? then None else if dialect.Postgres? then Some(v) else Some(Number(if v.on then 1 else 0))
      case Plain => if v.Blob? || v.When? then None else Some(v)
  }

  /** Python's ==, under which a bool equals the int it counts as. */
  predicate Same(a: Value, b: Value) {
    a == b || (a.Flag? && b == Number(if a.on then 1 else 0)) || (b.Flag? && a == Number(if b.on then 1 else 0))
  }

  /** A value in the spelling that export uses for its column. */
  ghost predicate Spelled(sp: Spelling, c: Column, v: Value) {
    v.Null? || match c.kind
               case DateTime => v.Str? && exists i :: v.text == sp.iso(i)
               case LargeBinary => v.Str? && exists b :: v.text == sp.b64(b)
               case Boolean => v.Flag? || v == Number(0) || v == Number(1)
               case Plain => true
  }

  /** The same instant, the same bytes, the same truth value, or the same plain value. */
  predicate Means(c: Column, v: Value, w: Value) {
    match c.kind
    case DateTime => v.When? && w.When? && Instant(v.at) == Instant(w.at)
    case Boolean => Truthy(v) == Truthy(w)
    case LargeBinary => v == w
    case Plain => v == w
  }

  /**
   * A stored value, exported, decoded and stored again in either dialect, keeps its meaning and exports as
   * the same value: provided a null in a NOT NULL column has a default to fill it. A null is kept exactly
   * where the column is nullable, and otherwise becomes the default.
   */
  lemma ValueRoundTrip(sp: Spelling, dialect: Dialect, c: Column, v: Value)
    requires Faithful(sp) && ValidColumn(c) && Fits(c, v)
    requires v.Null? ==> c.nullable || c.default.Some?
    ensures var out := EncodeValue(sp, c, Defaulted(c, v));
      && Spelled(sp, c, out) && Defaulted(c, out) == out && (out.Null? ==> c.nullable)
      && var back := DecodeValue(sp, c, out);
         back.Some? && var again := Stored(dialect, c, back.value);
                       && again.Some? && EncodeValue(sp, c, Defaulted(c, again.value)) == out
                       && (again.value.Null? <==> v.Null? && c.nullable)
                       && (!again.value.Null? ==> Means(c, if v.Null? then c.default.value else v, again.value))
  {
    var d := Defaulted(c, v);
    var out := EncodeValue(sp, c, d);
    if !d.Null? && c.kind.DateTime? {
      assert sp.fromIso(sp.iso(Instant(d.at))) == Some(Moment(Instant(d.at), Some(0)));
    }
    if !d.Null? && c.kind.LargeBinary? {
      assert sp.unb64(sp.b64(d.bytes)) == Some(d.bytes);
    }
  }

  /** Stored once, a JSON value reads back as the same value exactly when it was in export's own spelling. */
  lemma ReadsBackIffSpelled(sp: Spelling, dialect: Dialect, c: Column, v: Value)
    requires Faithful(sp) && ValidColumn(c)
    requires DecodeValue(sp, c, v).Some? && Stored(dialect, c, DecodeValue(sp, c, v).value).Some?
    ensures var kept := Stored(dialect, c, DecodeValue(sp, c, v).value).value;
      Same(EncodeValue(sp, c, kept), v) <==> Spelled(sp, c, v)
  {
    if v.Str? && c.kind.DateTime? && Spelled(sp, c, v) {
      var i :| v.text == sp.iso(i);
      assert sp.fromIso(sp.iso(i)) == Some(Moment(i, Some(0)));
    }
    if v.Str? && c.kind.LargeBinary? && Spelled(sp, c, v) {
      var b :| v.text == sp.b64(b);
      assert sp.unb64(sp.b64(b)) == Some(b);
    }
  }

  // ---------------------------------------------------------------- one row

  predicate RowOk(t: PortableTable, row: Data) {
    && row.Keys == t.columns.Keys
    && (forall n :: n in row ==> Fits(t.columns[n], row[n]))
    && (forall k :: 0 <= k < |t.key| ==> t.key[k] in row && !row[t.key[k]].Null?)
  }

  function Encode(sp: Spelling, t: PortableTable, row: Data): Data
    requires ValidTable(t) && RowOk(t, row)
  {
    map n | n in t.columns :: EncodeValue(sp, t.columns[n], Defaulted(t.columns[n], row[n]))
  }

  /** The natural key's values joined, or the kind for a singleton. */
  function Identity(sp: Spelling, t: PortableTable, data: Data): string {
    if t.key == [] then t.kind
    else Text.Join(seq(|t.key|, k requires 0 <= k < |t.key| =>
                           sp.show(if t.key[k] in data then data[t.key[k]] else Null)), '|')
  }

  function FilledField(t: PortableTable, data: Data, n: string): Value
    requires n in data
  {
    if n in t.columns then Defaulted(t.columns[n], data[n]) else data[n]
  }

  function Filled(t: PortableTable, data: Data): Data {
    map n | n in data :: FilledField(t, data, n)
  }

  function Unfilled(t: PortableTable, data: Data): set<string> {
    set n | n in data && n in t.columns && FilledField(t, data, n).Null? && !t.columns[n].nullable
  }

  /** Unknown fields are dropped; None if any known one is malformed. */
  function Decode(sp: Spelling, t: PortableTable, data: Data): Option<Data> {
    if forall n :: n in data && n in t.columns ==> DecodeValue(sp, t.columns[n], data[n]).Some?
    then Some(map n | n in data && n in t.columns :: DecodeValue(sp, t.columns[n], data[n]).value)
    else None
  }

  method FillField(t: PortableTable, n: string, v: Value) returns (filled: Value, unfillable: bool)
    ensures filled == FilledField(t, map[n := v], n)
    ensures unfillable <==> n in Unfilled(t, map[n := v])
  {
    if n !in t.columns {
      return v, false;
    }
    var c := t.columns[n];
    filled := if !v.Null? || c.nullable || c.default.None? then v else c.default.value;
    unfillable := filled.Null? && !c.nullable;
  }

  /** Every fillable null filled, and the names of the NOT NULL columns still carrying one. */
  method Normalize(t: PortableTable, data: Data) returns (normalized: Data, undefaultable: set<string>)
    ensures normalized == Filled(t, data)
    ensures undefaultable == Unfilled(t, data)
  {
    normalized, undefaultable := map[], {};
    var names := data.Keys;
    while names != {}
      invariant names <= data.Keys && normalized.Keys == data.Keys - names && undefaultable <= data.Keys - names
      invariant forall n :: n in normalized ==> normalized[n] == Filled(t, data)[n]
      invariant forall n :: n in data && n !in names ==> (n in undefaultable <==> n in Unfilled(t, data))
      decreases |names|
    {
      var n :| n in names;
      var filled, unfillable := FillField(t, n, data[n]);
      normalized := normalized[n := filled];
      undefaultable := if unfillable then undefaultable + {n} else undefaultable;
      names := names - {n};
    }
  }

  // ---------------------------------------------------------------- what the values mean

  /** A later offset puts the same wall clock earlier; none at all is UTC. */
  lemma InstantsMean(local: int, offset: int)
    ensures Instant(Moment(local, None)) == Instant(Moment(local, Some(0))) == local
    ensures Instant(Moment(local + offset, Some(offset))) == local
  {}

  lemma FalseValues(v: Value)
    ensures !Truthy(v) <==> v in {Null, Flag(false), Number(0), Str(""), Blob([])}
  {}

  /**
   * A datetime keeps its instant in the database, except that SQLite keeps the wall clock alone: one with an
   * offset other than UTC's is another instant once it is stored there.
   */
  lemma StoredInstantIff(dialect: Dialect, c: Column, at: Moment)
    requires c.kind.DateTime?
    ensures Stored(dialect, c, When(at)).Some? && Stored(dialect, c, When(at)).value.When?
    ensures var kept := Stored(dialect, c, When(at)).value.at;
      && (Instant(kept) == Instant(at) <==> dialect.Postgres? || at.offset.None? || at.offset == Some(0))
      && (dialect.Sqlite? ==> kept.local == at.local)
  {}

  /** A record is named by its table's kind, or by its one key's value, or by all of them with a bar between. */
  lemma IdentitiesMean(sp: Spelling, t: PortableTable, data: Data)
    ensures t.key == [] ==> Identity(sp, t, data) == t.kind
    ensures |t.key| == 1 && t.key[0] in data ==> Identity(sp, t, data) == sp.show(data[t.key[0]])
    ensures |t.key| == 2 && t.key[0] in data && t.key[1] in data ==>
      Identity(sp, t, data) == sp.show(data[t.key[0]]) + "|" + sp.show(data[t.key[1]])
  {
    var shown := seq(|t.key|, k requires 0 <= k < |t.key| =>
                       sp.show(if t.key[k] in data then data[t.key[k]] else Null));
    if |t.key| == 1 {
      assert shown == [shown[0]];
    }
    if |t.key| == 2 {
      assert shown[1..] == [shown[1]];
      assert Text.Join(shown, '|') == shown[0] + ['|'] + Text.Join([shown[1]], '|');
    }
  }
}
