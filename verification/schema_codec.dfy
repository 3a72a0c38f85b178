/** The ISO 20022 attribute codec: JSON to ASN.1 trees and back, driven by a
    schema. Every failure of the source is an encode or decode error with a
    message; here it is None. */
module SchemaCodec {
  import opened Wrappers
  import opened Json

  datatype Asn1 =
    | Ctx(tag: nat, contains: Asn1)
    | Seq(items: seq<Asn1>)
    | Text(text: string)
    | OidLeaf(dotted: string)
    | Octets(bytes: Bytes)
    | DateLeaf(instant: int)

  datatype Schema =
    | Optional(inner: Schema)
    | Context(tag: nat, inner: Schema)
    | Choice(alternatives: seq<Schema>)
    | SequenceOf(inner: Schema)
    | Struct(fields: seq<Field>)
    | Utf8
    | Oid
    | OctetString
    | Date

  datatype Field = Field(name: string, schema: Schema)

  // Date text is read and printed by the chrono library. Without it neither
  // direction is available, and both functions are None everywhere.
  datatype Calendar = Calendar(parse: string -> Option<int>, render: int -> Option<string>)
  {
    /** Every date that can be read can be printed, and a printed date reads back
        as one that prints the same; printing may drop precision. */
    ghost predicate Lawful() {
      forall text :: parse(text).Some? ==>
        && render(parse(text).value).Some?
        && var printed := render(parse(text).value).value;
           parse(printed).Some? && render(parse(printed).value) == Some(printed)
    }
  }

  // ---- OID names and byte buffers -------------------------------------------

  const OID_NAME_TABLE: seq<(string, string)> := [
    ("sha256", "2.16.840.1.101.3.4.2.1"),
    ("sha3-256", "2.16.840.1.101.3.4.2.8"),
    ("sha3-256WithEcDSA", "2.16.840.1.101.3.4.3.10"),
    ("sha256WithEcDSA", "1.2.840.10045.4.3.2"),
    ("ecdsa", "1.2.840.10045.2.1"),
    ("ed25519", "1.3.101.112"),
    ("secp256k1", "1.3.132.0.10"),
    ("secp256r1", "1.2.840.10045.3.1.7"),
    ("account", "2.23.42.2.7.11"),
    ("serialNumber", "2.5.4.5"),
    ("member", "2.5.4.31"),
    ("commonName", "2.5.4.3"),
    ("hash", "1.3.6.1.4.1.8301.3.2.2.1.1"),
    ("hashData", "2.16.840.1.101.3.3.1.3")
  ]

  function NameOf(table: seq<(string, string)>, dotted: string): string {
    if table == [] then dotted
    else if table[0].1 == dotted then table[0].0
    else NameOf(table[1..], dotted)
  }

  function DottedOf(table: seq<(string, string)>, name: string): string {
    if table == [] then name
    else if table[0].0 == name then table[0].1
    else DottedOf(table[1..], name)
  }

  function OidToName(dotted: string): string { NameOf(OID_NAME_TABLE, dotted) }

  function OidFromName(name: string): string { DottedOf(OID_NAME_TABLE, name) }

  function BufferJson(bytes: Bytes): Value {
    Object(map["type" := Str("Buffer"),
               "data" := Array(seq(|bytes|, i requires 0 <= i < |bytes| => Num(Integer(bytes[i] as int))))])
  }

  function ByteEntries(data: seq<Value>): Option<Bytes> {
    if data == [] then Some([])
    else
      match AsU64(data[0])
      case None => None
      case Some(n) =>
        if n > 255 then None
        else Prepend([n as byte], ByteEntries(data[1..]))
  }

  function BytesFromBufferJson(v: Value): Option<Bytes> {
    match Get(v, "data")
    case Some(Array(data)) => ByteEntries(data)
    case _ => None
  }

  // ---- Encode ---------------------------------------------------------------

  function Encode(v: Value, s: Schema, cal: Calendar): Option<Asn1>
    decreases s, 0
  {
    match s
    case Optional(inner) => Encode(v, inner, cal)
    case Context(tag, inner) =>
      (match Encode(v, inner, cal) case None => None case Some(contains) => Some(Ctx(tag, contains)))
    case Choice(alternatives) => EncodeChoice(v, alternatives, cal)
    case SequenceOf(inner) =>
      if !v.Array? then None
      else (match EncodeItems(v.items, inner, cal) case None => None case Some(items) => Some(Seq(items)))
    case Struct(fields) =>
      if !v.Object? then None
      else (match EncodeFields(v.members, fields, cal) case None => None case Some(items) => Some(Seq(items)))
    case Utf8 => if v.Str? then Some(Text(v.s)) else None
    case Oid => if v.Str? then Some(OidLeaf(OidFromName(v.s))) else None
    case OctetString => (match BytesFromBufferJson(v) case None => None case Some(bytes) => Some(Octets(bytes)))
    case Date =>
      if !v.Str? then None
      else (match cal.parse(v.s) case None => None case Some(t) => Some(DateLeaf(t)))
  }

  function EncodeChoice(v: Value, alternatives: seq<Schema>, cal: Calendar): Option<Asn1>
    decreases alternatives, 0
  {
    if alternatives == [] then None
    else
      var first := Encode(v, alternatives[0], cal);
      if first.Some? then first else EncodeChoice(v, alternatives[1..], cal)
  }

  function EncodeItems(vs: seq<Value>, inner: Schema, cal: Calendar): Option<seq<Asn1>>
    decreases inner, 1, |vs|
  {
    if vs == [] then Some([])
    else
      match Encode(vs[0], inner, cal)
      case None => None
      case Some(item) => Prepend([item], EncodeItems(vs[1..], inner, cal))
  }

  // An explicit null counts as absent.
  function Present(m: map<string, Value>, name: string): bool {
    name in m && !m[name].Null?
  }

  function EncodeFields(m: map<string, Value>, fields: seq<Field>, cal: Calendar): Option<seq<Asn1>>
    decreases fields, 0
  {
    if fields == [] then Some([])
    else if Present(m, fields[0].name) then
      match Encode(m[fields[0].name], fields[0].schema, cal)
      case None => None
      case Some(c) => Prepend([c], EncodeFields(m, fields[1..], cal))
    else if fields[0].schema.Optional? then EncodeFields(m, fields[1..], cal)
    else None
  }

  // ---- Decode ---------------------------------------------------------------

  function Decode(a: Asn1, s: Schema, cal: Calendar): Option<Value>
    decreases s, 0
  {
    match s
    case Optional(inner) => Decode(a, inner, cal)
    case Context(tag, inner) => if a.Ctx? && a.tag == tag then Decode(a.contains, inner, cal) else None
    case Choice(alternatives) => DecodeChoice(a, alternatives, cal)
    case SequenceOf(inner) =>
      if !a.Seq? then None
      else (match DecodeItems(a.items, inner, cal) case None => None case Some(vs) => Some(Array(vs)))
    case Struct(fields) =>
      if !a.Seq? then None
      else
        (match MatchTuple(a.items, fields, cal)
         case None => None
         case Some(matched) =>
           match Project(fields, matched, cal) case None => None case Some(m) => Some(Object(m)))
    case Utf8 => if a.Text? then Some(Str(a.text)) else None
    case Oid => if a.OidLeaf? then Some(Str(OidToName(a.dotted))) else None
    case OctetString => if a.Octets? then Some(BufferJson(a.bytes)) else None
    case Date =>
      if !a.DateLeaf? then None
      else (match cal.render(a.instant) case None => None case Some(text) => Some(Str(text)))
  }

  function DecodeChoice(a: Asn1, alternatives: seq<Schema>, cal: Calendar): Option<Value>
    decreases alternatives, 0
  {
    if alternatives == [] then None
    else
      var first := Decode(a, alternatives[0], cal);
      if first.Some? then first else DecodeChoice(a, alternatives[1..], cal)
  }

  function DecodeItems(items: seq<Asn1>, inner: Schema, cal: Calendar): Option<seq<Value>>
    decreases inner, 1, |items|
  {
    if items == [] then Some([])
    else
      match Decode(items[0], inner, cal)
      case None => None
      case Some(v) => Prepend([v], DecodeItems(items[1..], inner, cal))
  }

  /** Assigns the components, in order and all of them, to fields that accept
      them, preferring to bind the earlier field and leaving only optional fields
      unbound; backs up when the rest cannot be assigned. */
  function MatchTuple(components: seq<Asn1>, fields: seq<Field>, cal: Calendar): (r: Option<seq<Option<Asn1>>>)
    ensures r.Some? ==> |r.value| == |fields|
    decreases fields, 0
  {
    if fields == [] then if components == [] then Some([]) else None
    else
      var bound :=
        if components != [] && Decode(components[0], fields[0].schema, cal).Some?
        then MatchTuple(components[1..], fields[1..], cal) else None;
      if bound.Some? then Some([Some(components[0])] + bound.value)
      else if fields[0].schema.Optional? then Prepend([None], MatchTuple(components, fields[1..], cal))
      else None
  }

  function Project(fields: seq<Field>, matched: seq<Option<Asn1>>, cal: Calendar): Option<map<string, Value>>
    requires |fields| == |matched|
    decreases fields, 0
  {
    if fields == [] then Some(map[])
    else
      match Project(fields[1..], matched[1..], cal)
      case None => None
      case Some(rest) =>
        match matched[0]
        case None => Some(rest)
        case Some(c) =>
          match Decode(c, fields[0].schema, cal)
          case None => None
          case Some(v) => Some(map[fields[0].name := v] + rest)
  }

  function Overlay(front: map<string, Value>, rest: Option<map<string, Value>>): (r: Option<map<string, Value>>)
    ensures front == map[] ==> r == rest
    ensures rest == Some(map[]) ==> r == Some(front)
  {
    if rest.None? then None
    else
      assert map[] + rest.value == rest.value && front + map[] == front;
      Some(front + rest.value)
  }

  // ---- The loops ------------------------------------------------------------

  method EncodeSequenceOf(v: Value, inner: Schema, cal: Calendar) returns (r: Option<Asn1>)
    ensures r == Encode(v, SequenceOf(inner), cal)
  {
    if !v.Array? {
      return None;
    }
    var items := [];
    for i := 0 to |v.items|
      invariant EncodeItems(v.items, inner, cal) == Prepend(items, EncodeItems(v.items[i..], inner, cal))
    {
      assert v.items[i..][1..] == v.items[i + 1..];
      match Encode(v.items[i], inner, cal) {
        case None => return None;
        case Some(item) =>
          PrependTwice(items, [item], EncodeItems(v.items[i + 1..], inner, cal));
          items := items + [item];
      }
    }
    return Some(Seq(items));
  }

  method EncodeStruct(v: Value, fields: seq<Field>, cal: Calendar) returns (r: Option<Asn1>)
    ensures r == Encode(v, Struct(fields), cal)
  {
    if !v.Object? {
      return None;
    }
    var components := [];
    for i := 0 to |fields|
      invariant EncodeFields(v.members, fields, cal) == Prepend(components, EncodeFields(v.members, fields[i..], cal))
    {
      assert fields[i..][1..] == fields[i + 1..];
      var field := fields[i];
      if Present(v.members, field.name) {
        match Encode(v.members[field.name], field.schema, cal) {
          case None => return None;
          case Some(c) =>
            PrependTwice(components, [c], EncodeFields(v.members, fields[i + 1..], cal));
            components := components + [c];
        }
      } else if !field.schema.Optional? {
        return None;
      }
    }
    return Some(Seq(components));
  }

  method DecodeSequenceOf(a: Asn1, inner: Schema, cal: Calendar) returns (r: Option<Value>)
    ensures r == Decode(a, SequenceOf(inner), cal)
  {
    if !a.Seq? {
      return None;
    }
    var decoded := [];
    for i := 0 to |a.items|
      invariant DecodeItems(a.items, inner, cal) == Prepend(decoded, DecodeItems(a.items[i..], inner, cal))
    {
      assert a.items[i..][1..] == a.items[i + 1..];
      match Decode(a.items[i], inner, cal) {
        case None => return None;
        case Some(v) =>
          PrependTwice(decoded, [v], DecodeItems(a.items[i + 1..], inner, cal));
          decoded := decoded + [v];
      }
    }
    return Some(Array(decoded));
  }

  method DecodeStruct(a: Asn1, fields: seq<Field>, cal: Calendar) returns (r: Option<Value>)
    ensures r == Decode(a, Struct(fields), cal)
  {
    if !a.Seq? {
      return None;
    }
    var matched := MatchTuple(a.items, fields, cal);
    if matched.None? {
      return None;
    }
    var m: map<string, Value> := map[];
    for i := 0 to |fields|
      invariant Project(fields, matched.value, cal) == Overlay(m, Project(fields[i..], matched.value[i..], cal))
    {
      assert fields[i..][1..] == fields[i + 1..] && matched.value[i..][1..] == matched.value[i + 1..];
      match matched.value[i] {
        case None =>
        case Some(c) =>
          match Decode(c, fields[i].schema, cal) {
            case None => return None;
            case Some(v) =>
              ghost var tail := Project(fields[i + 1..], matched.value[i + 1..], cal);
              assert tail.Some? ==> m + (map[fields[i].name := v] + tail.value) == m[fields[i].name := v] + tail.value;
              m := m[fields[i].name := v];
          }
      }
    }
    return Some(Object(m));
  }

  method ReadBufferJson(v: Value) returns (r: Option<Bytes>)
    ensures r == BytesFromBufferJson(v)
  {
    var data := Get(v, "data");
    if data.None? || !data.value.Array? {
      return None;
    }
    var entries := data.value.items;
    var out: Bytes := [];
    for i := 0 to |entries|
      invariant ByteEntries(entries) == Prepend(out, ByteEntries(entries[i..]))
    {
      assert entries[i..][1..] == entries[i + 1..];
      var n := AsU64(entries[i]);
      if n.None? || n.value > 255 {
        return None;
      }
      PrependTwice(out, [n.value as byte], ByteEntries(entries[i + 1..]));
      out := out + [n.value as byte];
    }
    return Some(out);
  }
}
