/** The trees the encoder emits: their shape, schema by schema, and that decoding
    one and encoding it again gives the very tree back. */
module SchemaTrees {
  import opened Wrappers
  import opened Json
  import opened SchemaCodec
  import opened SchemaRoundTrip

  /** No symbolic name stands where an OID should. */
  ghost predicate NoSymbolicName(dotted: string) {
    forall i :: 0 <= i < |OID_NAME_TABLE| ==> OID_NAME_TABLE[i].0 != dotted
  }

  /** A tree of the form `s` prescribes: tags, leaves, and the components of a
      struct in member order, optional ones at most once. */
  ghost predicate Shaped(a: Asn1, s: Schema, cal: Calendar)
    decreases s, 0
  {
    match s
    case Optional(inner) => Shaped(a, inner, cal)
    case Context(tag, inner) => a.Ctx? && a.tag == tag && Shaped(a.contains, inner, cal)
    case Choice(alternatives) =>
      exists k :: 0 <= k < |alternatives| && !Dominated(alternatives, k) && Shaped(a, alternatives[k], cal)
    case SequenceOf(inner) => a.Seq? && forall i :: 0 <= i < |a.items| ==> Shaped(a.items[i], inner, cal)
    case Struct(fields) => a.Seq? && ShapedFields(a.items, fields, cal)
    case Utf8 => a.Text?
    case Oid => a.OidLeaf? && NoSymbolicName(a.dotted)
    case OctetString => a.Octets?
    case Date => a.DateLeaf? && cal.render(a.instant).Some?
  }

  ghost predicate ShapedFields(items: seq<Asn1>, fields: seq<Field>, cal: Calendar)
    decreases fields, 0
  {
    if fields == [] then items == []
    else
      || (items != [] && Shaped(items[0], fields[0].schema, cal) && ShapedFields(items[1..], fields[1..], cal))
      || (fields[0].schema.Optional? && ShapedFields(items, fields[1..], cal))
  }

  // ---- The encoder stays in shape -------------------------------------------

  lemma NamesAreConverted(text: string)
    ensures NoSymbolicName(OidFromName(text))
  {
    hide OID_NAME_TABLE;
    forall i | 0 <= i < |OID_NAME_TABLE| ensures OID_NAME_TABLE[i].0 != OidFromName(text) {
      NameIsNoOid(i, text);
    }
  }

  lemma NameIsNoOid(i: nat, text: string)
    requires i < |OID_NAME_TABLE|
    ensures OID_NAME_TABLE[i].0 != OidFromName(text)
  {
    hide OID_NAME_TABLE, RowTells;
    RowsTell();
    TellingTableIsBijective(OID_NAME_TABLE);
    OidNamesConvert(text);
    if OidFromName(text) != text {
      var j :| 0 <= j < |OID_NAME_TABLE| && OID_NAME_TABLE[j].0 == text;
      assert OID_NAME_TABLE[i].0 != OID_NAME_TABLE[j].1;
    }
  }

  /** Whatever is encoded has the shape of its schema; in particular no symbolic
      name is left in it. */
  lemma {:induction false} EncodesInShape(v: Value, s: Schema, cal: Calendar)
    requires cal.Lawful() && Encode(v, s, cal).Some?
    ensures Shaped(Encode(v, s, cal).value, s, cal)
    decreases s, 0
  {
    match s
    case Optional(inner) => EncodesInShape(v, inner, cal);
    case Context(_, inner) => EncodesInShape(v, inner, cal);
    case Choice(alternatives) =>
      var k := ChosenAlternative(v, alternatives, cal);
      EncodesInShape(v, alternatives[k], cal);
    case SequenceOf(inner) => ItemsInShape(v.items, inner, cal);
    case Struct(fields) => FieldsInShape(v.members, fields, cal);
    case Oid => NamesAreConverted(v.s);
    case _ =>
  }

  lemma {:induction false} ItemsInShape(vs: seq<Value>, inner: Schema, cal: Calendar)
    requires cal.Lawful() && EncodeItems(vs, inner, cal).Some?
    ensures forall i :: 0 <= i < |EncodeItems(vs, inner, cal).value| ==> Shaped(EncodeItems(vs, inner, cal).value[i], inner, cal)
    decreases inner, 1, |vs|
  {
    if vs != [] {
      EncodesInShape(vs[0], inner, cal);
      ItemsInShape(vs[1..], inner, cal);
    }
  }

  lemma {:induction false} FieldsInShape(m: map<string, Value>, fields: seq<Field>, cal: Calendar)
    requires cal.Lawful() && EncodeFields(m, fields, cal).Some?
    ensures ShapedFields(EncodeFields(m, fields, cal).value, fields, cal)
    decreases fields, 0
  {
    if fields != [] {
      FieldsInShape(m, fields[1..], cal);
      if Present(m, fields[0].name) {
        EncodesInShape(m[fields[0].name], fields[0].schema, cal);
        var items := EncodeFields(m, fields, cal).value;
        assert items[1..] == EncodeFields(m, fields[1..], cal).value;
      }
    }
  }

  // ---- Disjoint schemas reject each other's trees ---------------------------

  lemma {:induction false} DisjointShapes(c: Asn1, a: Schema, b: Schema, cal: Calendar)
    requires Disjoint(a, b) && Shaped(c, b, cal)
    ensures Decode(c, a, cal).None?
    decreases a, b
  {
    if a.Optional? {
      DisjointShapes(c, a.inner, b, cal);
    } else if b.Optional? {
      DisjointShapes(c, a, b.inner, cal);
    } else if a.Choice? {
      forall e | 0 <= e < |a.alternatives| ensures Decode(c, a.alternatives[e], cal).None? {
        DisjointShapes(c, a.alternatives[e], b, cal);
      }
      DecodesNone(c, a.alternatives, cal);
    } else if b.Choice? {
      var k :| 0 <= k < |b.alternatives| && !Dominated(b.alternatives, k) && Shaped(c, b.alternatives[k], cal);
      DisjointShapes(c, a, b.alternatives[k], cal);
    } else if a.Context? && b.Context? {
      if a.tag == b.tag && c.tag == b.tag {
        DisjointShapes(c.contains, a.inner, b.inner, cal);
      }
    }
  }

  // ---- Decode, then encode --------------------------------------------------

  /** Every date in `a` is one that its printed form reads back as. */
  ghost predicate ExactDates(a: Asn1, cal: Calendar) {
    match a
    case Ctx(_, inner) => ExactDates(inner, cal)
    case Seq(items) => forall i :: 0 <= i < |items| ==> ExactDates(items[i], cal)
    case DateLeaf(t) => cal.render(t).Some? ==> cal.parse(cal.render(t).value) == Some(t)
    case _ => true
  }

  /** The decoder accepts every tree in shape, and encoding what it reads gives the
      same tree. */
  lemma {:induction false} DecodeThenEncode(a: Asn1, s: Schema, cal: Calendar)
    requires Unambiguous(s) && UniformChoices(s) && Shaped(a, s, cal) && ExactDates(a, cal)
    ensures Decode(a, s, cal).Some? && !Decode(a, s, cal).value.Null?
    ensures Encode(Decode(a, s, cal).value, s, cal) == Some(a)
    decreases s, 0
  {
    match s
    case Optional(inner) => DecodeThenEncode(a, inner, cal);
    case Context(_, inner) => DecodeThenEncode(a.contains, inner, cal);
    case Choice(alternatives) =>
      var k :| 0 <= k < |alternatives| && !Dominated(alternatives, k) && Shaped(a, alternatives[k], cal);
      assert k == 0;
      DecodeThenEncode(a, alternatives[0], cal);
    case SequenceOf(inner) => ItemsThere(a.items, inner, cal);
    case Struct(fields) => FieldsThere(a.items, fields, cal);
    case Oid => OidThere(a.dotted);
    case OctetString => BufferRoundTrip(a.bytes);
    case _ =>
  }

  lemma OidThere(dotted: string)
    requires NoSymbolicName(dotted)
    ensures OidFromName(OidToName(dotted)) == dotted
  {
    hide OID_NAME_TABLE;
    OidNamesConvert(dotted);
  }

  lemma {:induction false} ItemsThere(items: seq<Asn1>, inner: Schema, cal: Calendar)
    requires Unambiguous(inner) && UniformChoices(inner)
    requires forall i :: 0 <= i < |items| ==> Shaped(items[i], inner, cal) && ExactDates(items[i], cal)
    ensures DecodeItems(items, inner, cal).Some?
    ensures EncodeItems(DecodeItems(items, inner, cal).value, inner, cal) == Some(items)
    decreases inner, 1, |items|
  {
    if items != [] {
      DecodeThenEncode(items[0], inner, cal);
      ItemsThere(items[1..], inner, cal);
      var vs := DecodeItems(items, inner, cal).value;
      assert vs[1..] == DecodeItems(items[1..], inner, cal).value;
      assert items == [items[0]] + items[1..];
    }
  }

  /** A component in shape for some member. */
  lemma {:induction false} ShapedForSome(items: seq<Asn1>, fields: seq<Field>, cal: Calendar) returns (j: nat)
    requires ShapedFields(items, fields, cal) && items != []
    ensures j < |fields| && Shaped(items[0], fields[j].schema, cal)
    decreases |fields|
  {
    if Shaped(items[0], fields[0].schema, cal) {
      j := 0;
    } else {
      var i := ShapedForSome(items, fields[1..], cal);
      j := i + 1;
    }
  }

  /** The components a struct's members bind, the object read from them, and the
      components encoded from that object. */
  ghost predicate Returns(items: seq<Asn1>, fields: seq<Field>, cal: Calendar) {
    var matched := MatchTuple(items, fields, cal);
    && matched.Some?
    && Project(fields, matched.value, cal).Some?
    && EncodeFields(Project(fields, matched.value, cal).value, fields, cal) == Some(items)
  }

  lemma {:induction false} ProjectNames(fields: seq<Field>, matched: seq<Option<Asn1>>, cal: Calendar, name: string)
    requires |fields| == |matched| && Project(fields, matched, cal).Some? && name in Project(fields, matched, cal).value
    ensures exists i :: 0 <= i < |fields| && fields[i].name == name
  {
    if fields[0].name != name {
      ProjectNames(fields[1..], matched[1..], cal, name);
      var i :| 0 <= i < |fields[1..]| && fields[1..][i].name == name;
      assert fields[i + 1].name == name;
    }
  }

  lemma {:induction false} FieldsThere(items: seq<Asn1>, fields: seq<Field>, cal: Calendar)
    requires FieldsUnambiguous(fields) && forall i :: 0 <= i < |fields| ==> UniformChoices(fields[i].schema)
    requires ShapedFields(items, fields, cal) && forall i :: 0 <= i < |items| ==> ExactDates(items[i], cal)
    ensures Returns(items, fields, cal)
    decreases fields, 0
  {
    if fields != [] {
      assert forall i :: 0 <= i < |fields| - 1 ==> fields[1..][i] == fields[i + 1];
      if items != [] && Shaped(items[0], fields[0].schema, cal) && ShapedFields(items[1..], fields[1..], cal) {
        DecodeThenEncode(items[0], fields[0].schema, cal);
        FieldsThere(items[1..], fields[1..], cal);
        BoundHead(items, fields, cal);
      } else {
        FieldsThere(items, fields[1..], cal);
        if items != [] {
          var j := ShapedForSome(items, fields[1..], cal);
          DisjointShapes(items[0], fields[0].schema, fields[j + 1].schema, cal);
        }
        UnboundHead(items, fields, cal);
      }
    }
  }

  lemma BoundHead(items: seq<Asn1>, fields: seq<Field>, cal: Calendar)
    requires items != [] && fields != [] && FieldsUnambiguous(fields)
    requires Decode(items[0], fields[0].schema, cal).Some? && !Decode(items[0], fields[0].schema, cal).value.Null?
    requires Encode(Decode(items[0], fields[0].schema, cal).value, fields[0].schema, cal) == Some(items[0])
    requires Returns(items[1..], fields[1..], cal)
    ensures Returns(items, fields, cal)
  {
    hide Encode, Decode;
    var name, v := fields[0].name, Decode(items[0], fields[0].schema, cal).value;
    var bound := MatchTuple(items[1..], fields[1..], cal).value;
    var matched := [Some(items[0])] + bound;
    assert MatchTuple(items, fields, cal) == Some(matched) && matched[1..] == bound;
    var rest := Project(fields[1..], bound, cal).value;
    var m := map[name := v] + rest;
    if name in rest { ProjectNames(fields[1..], bound, cal, name); }
    assert m[name] == v;
    SameMembers(rest, m, fields, cal);
    assert items == [items[0]] + items[1..];
  }

  lemma UnboundHead(items: seq<Asn1>, fields: seq<Field>, cal: Calendar)
    requires fields != [] && FieldsUnambiguous(fields) && fields[0].schema.Optional?
    requires items != [] ==> Decode(items[0], fields[0].schema, cal).None?
    requires Returns(items, fields[1..], cal)
    ensures Returns(items, fields, cal)
  {
    hide Encode, Decode;
    var name := fields[0].name;
    var bound := MatchTuple(items, fields[1..], cal).value;
    var matched := [None] + bound;
    assert MatchTuple(items, fields, cal) == Some(matched) && matched[1..] == bound;
    var rest := Project(fields[1..], bound, cal).value;
    if name in rest { ProjectNames(fields[1..], bound, cal, name); }
  }

  lemma SameMembers(rest: map<string, Value>, m: map<string, Value>, fields: seq<Field>, cal: Calendar)
    requires fields != [] && FieldsUnambiguous(fields)
    requires forall k :: k != fields[0].name ==> (k in m <==> k in rest) && (k in m ==> m[k] == rest[k])
    ensures EncodeFields(m, fields[1..], cal) == EncodeFields(rest, fields[1..], cal)
  {
    assert forall i :: 0 <= i < |fields| - 1 ==> fields[1..][i] == fields[i + 1];
    FieldsFrame(rest, m, fields[1..], cal);
  }

  // ---- Absent members -------------------------------------------------------

  /** `m` without its null members. */
  function WithoutNulls(m: map<string, Value>): map<string, Value> {
    map k | k in m && !m[k].Null? :: m[k]
  }

  /** A null member counts as absent, and a member no field names for nothing. */
  lemma NullCountsAsAbsent(m: map<string, Value>, extra: string, v: Value, fields: seq<Field>, cal: Calendar)
    ensures EncodeFields(WithoutNulls(m), fields, cal) == EncodeFields(m, fields, cal)
    ensures (forall i :: 0 <= i < |fields| ==> fields[i].name != extra) ==>
              EncodeFields(m[extra := v], fields, cal) == EncodeFields(m, fields, cal)
  {
    FieldsFrame(m, WithoutNulls(m), fields, cal);
    if forall i :: 0 <= i < |fields| ==> fields[i].name != extra {
      FieldsFrame(m, m[extra := v], fields, cal);
    }
  }

  // ---- Byte buffers ---------------------------------------------------------

  predicate IsByte(v: Value) {
    v.Num? && v.num.Integer? && 0 <= v.num.n < 256
  }

  lemma {:induction false} EntriesReadIff(data: seq<Value>)
    ensures ByteEntries(data).Some? <==> forall i :: 0 <= i < |data| ==> IsByte(data[i])
    ensures ByteEntries(data).Some? ==>
              |ByteEntries(data).value| == |data|
              && forall i :: 0 <= i < |data| ==> data[i].Num? && data[i].num == Integer(ByteEntries(data).value[i] as int)
  {
    if data != [] {
      EntriesReadIff(data[1..]);
      assert forall i :: 0 < i < |data| ==> data[1..][i - 1] == data[i];
      assert forall i :: 0 <= i < |data| - 1 ==> data[1..][i] == data[i + 1];
    }
  }

  /** A buffer is read exactly when its data is an array of whole numbers from 0 to
      255, and then as these. */
  lemma BufferReadIff(v: Value)
    ensures BytesFromBufferJson(v).Some? <==>
            v.Object? && "data" in v.members && v.members["data"].Array?
            && forall i :: 0 <= i < |v.members["data"].items| ==> IsByte(v.members["data"].items[i])
    ensures BytesFromBufferJson(v).Some? ==>
              var data, bytes := v.members["data"].items, BytesFromBufferJson(v).value;
              |bytes| == |data| && forall i :: 0 <= i < |data| ==> data[i] == Num(Integer(bytes[i] as int))
  {
    if v.Object? && "data" in v.members && v.members["data"].Array? {
      EntriesReadIff(v.members["data"].items);
    }
  }
}
