/** Decoding undoes encoding up to a normal form, for every schema whose struct
    members and choice alternatives cannot be mistaken for one another. */
module SchemaRoundTrip {
  import opened Wrappers
  import opened Json
  import opened SchemaCodec

  // ---- The normal form ------------------------------------------------------

  /** The form in which a decoder returns an accepted value: nulls and unlisted
      members dropped, OIDs by symbolic name, byte buffers and dates canonical. */
  function Normal(v: Value, s: Schema, cal: Calendar): Value
    requires Encode(v, s, cal).Some? && cal.Lawful()
    decreases s, 0
  {
    match s
    case Optional(inner) => Normal(v, inner, cal)
    case Context(_, inner) => Normal(v, inner, cal)
    case Choice(alternatives) => NormalChoice(v, alternatives, cal)
    case SequenceOf(inner) => Array(NormalItems(v.items, inner, cal))
    case Struct(fields) => Object(NormalFields(v.members, fields, cal))
    case Utf8 => v
    case Oid => Str(OidToName(OidFromName(v.s)))
    case OctetString => BufferJson(BytesFromBufferJson(v).value)
    case Date => Str(cal.render(cal.parse(v.s).value).value)
  }

  function NormalChoice(v: Value, alternatives: seq<Schema>, cal: Calendar): Value
    requires EncodeChoice(v, alternatives, cal).Some? && cal.Lawful()
    decreases alternatives, 0
  {
    if Encode(v, alternatives[0], cal).Some? then Normal(v, alternatives[0], cal)
    else NormalChoice(v, alternatives[1..], cal)
  }

  function NormalItems(vs: seq<Value>, inner: Schema, cal: Calendar): seq<Value>
    requires EncodeItems(vs, inner, cal).Some? && cal.Lawful()
    decreases inner, 1, |vs|
  {
    if vs == [] then [] else [Normal(vs[0], inner, cal)] + NormalItems(vs[1..], inner, cal)
  }

  function NormalFields(m: map<string, Value>, fields: seq<Field>, cal: Calendar): map<string, Value>
    requires EncodeFields(m, fields, cal).Some? && cal.Lawful()
    decreases fields, 0
  {
    if fields == [] then map[]
    else
      var name := fields[0].name;
      var rest := NormalFields(m, fields[1..], cal);
      if Present(m, name) then map[name := Normal(m[name], fields[0].schema, cal)] + rest else rest
  }

  // ---- Which schemas cannot be confused -------------------------------------

  function Strip(s: Schema): Schema {
    match s
    case Optional(inner) => Strip(inner)
    case Context(_, inner) => Strip(inner)
    case _ => s
  }

  /** Some earlier alternative takes every value this one does, so the encoder
      never gets to it. */
  predicate Dominated(alternatives: seq<Schema>, k: nat)
    requires k < |alternatives|
  {
    exists e :: 0 <= e < k && Strip(alternatives[e]) == Strip(alternatives[k])
  }

  datatype Kind = Tagged | Sequenced | Leaf(schema: Schema)

  function KindOf(s: Schema): Kind
    requires !s.Optional? && !s.Choice?
  {
    match s
    case Context(_, _) => Tagged
    case SequenceOf(_) => Sequenced
    case Struct(_) => Sequenced
    case _ => Leaf(s)
  }

  /** Nothing the encoder emits for `b` is accepted by the decoder of `a`. */
  predicate Disjoint(a: Schema, b: Schema)
    decreases a, b
  {
    if a.Optional? then Disjoint(a.inner, b)
    else if b.Optional? then Disjoint(a, b.inner)
    else if a.Choice? then forall i :: 0 <= i < |a.alternatives| ==> Disjoint(a.alternatives[i], b)
    else if b.Choice? then
      forall k :: 0 <= k < |b.alternatives| ==> Dominated(b.alternatives, k) || Disjoint(a, b.alternatives[k])
    else if a.Context? && b.Context? then a.tag != b.tag || Disjoint(a.inner, b.inner)
    else KindOf(a) != KindOf(b)
  }

  /** Every choice and every struct inside `s` can be decoded without guessing. */
  predicate Unambiguous(s: Schema)
    decreases s, 0
  {
    match s
    case Optional(inner) => Unambiguous(inner)
    case Context(_, inner) => Unambiguous(inner)
    case SequenceOf(inner) => Unambiguous(inner)
    case Choice(alternatives) =>
      && (forall k :: 0 <= k < |alternatives| ==> Unambiguous(alternatives[k]))
      && (forall e, k :: 0 <= e < k < |alternatives| ==>
            Dominated(alternatives, k) || Disjoint(alternatives[e], alternatives[k]))
    case Struct(fields) => FieldsUnambiguous(fields)
    case _ => true
  }

  /** Names are distinct, and a member that may be absent cannot swallow the
      component of a later one. */
  predicate FieldsUnambiguous(fields: seq<Field>)
    decreases fields, 0
  {
    fields == [] ||
    (&& Unambiguous(fields[0].schema)
     && (forall j :: 1 <= j < |fields| ==> fields[j].name != fields[0].name)
     && (fields[0].schema.Optional? ==> forall j :: 1 <= j < |fields| ==> Disjoint(fields[0].schema, fields[j].schema))
     && FieldsUnambiguous(fields[1..]))
  }

  // ---- Choices --------------------------------------------------------------

  lemma {:induction false} StripAccepts(v: Value, s: Schema, cal: Calendar)
    ensures Encode(v, s, cal).Some? <==> Encode(v, Strip(s), cal).Some?
  {
    match s
    case Optional(inner) => StripAccepts(v, inner, cal);
    case Context(_, inner) => StripAccepts(v, inner, cal);
    case _ =>
  }

  /** The alternative the encoder takes. */
  lemma {:induction false} ChosenAlternative(v: Value, alternatives: seq<Schema>, cal: Calendar) returns (k: nat)
    requires EncodeChoice(v, alternatives, cal).Some?
    ensures k < |alternatives| && Encode(v, alternatives[k], cal) == EncodeChoice(v, alternatives, cal)
    ensures forall e :: 0 <= e < k ==> Encode(v, alternatives[e], cal).None?
    ensures !Dominated(alternatives, k)
    ensures cal.Lawful() ==> NormalChoice(v, alternatives, cal) == Normal(v, alternatives[k], cal)
  {
    k := FirstAccepting(v, alternatives, cal);
    if Dominated(alternatives, k) {
      var e :| 0 <= e < k && Strip(alternatives[e]) == Strip(alternatives[k]);
      StripAccepts(v, alternatives[e], cal);
      StripAccepts(v, alternatives[k], cal);
    }
  }

  lemma {:induction false} FirstAccepting(v: Value, alternatives: seq<Schema>, cal: Calendar) returns (k: nat)
    requires EncodeChoice(v, alternatives, cal).Some?
    ensures k < |alternatives| && Encode(v, alternatives[k], cal) == EncodeChoice(v, alternatives, cal)
    ensures forall e :: 0 <= e < k ==> Encode(v, alternatives[e], cal).None?
    ensures cal.Lawful() ==> NormalChoice(v, alternatives, cal) == Normal(v, alternatives[k], cal)
  {
    if Encode(v, alternatives[0], cal).Some? {
      k := 0;
    } else {
      var n := FirstAccepting(v, alternatives[1..], cal);
      k := n + 1;
      forall e | 0 <= e < k ensures Encode(v, alternatives[e], cal).None? {
        if e > 0 { assert alternatives[e] == alternatives[1..][e - 1]; }
      }
    }
  }

  lemma {:induction false} DecodesFirst(a: Asn1, alternatives: seq<Schema>, k: nat, cal: Calendar)
    requires k < |alternatives| && Decode(a, alternatives[k], cal).Some?
    requires forall e :: 0 <= e < k ==> Decode(a, alternatives[e], cal).None?
    ensures DecodeChoice(a, alternatives, cal) == Decode(a, alternatives[k], cal)
  {
    if k > 0 {
      assert forall e :: 0 <= e < k - 1 ==> alternatives[1..][e] == alternatives[e + 1];
      DecodesFirst(a, alternatives[1..], k - 1, cal);
    }
  }

  lemma {:induction false} DecodesNone(a: Asn1, alternatives: seq<Schema>, cal: Calendar)
    requires forall e :: 0 <= e < |alternatives| ==> Decode(a, alternatives[e], cal).None?
    ensures DecodeChoice(a, alternatives, cal).None?
  {
    if alternatives != [] {
      assert forall e :: 0 <= e < |alternatives| - 1 ==> alternatives[1..][e] == alternatives[e + 1];
      DecodesNone(a, alternatives[1..], cal);
    }
  }

  // ---- Disjointness is sound ------------------------------------------------

  lemma {:induction false} DisjointRejects(v: Value, a: Schema, b: Schema, cal: Calendar)
    requires Disjoint(a, b) && Encode(v, b, cal).Some?
    ensures Decode(Encode(v, b, cal).value, a, cal).None?
    decreases a, b
  {
    var c := Encode(v, b, cal).value;
    if a.Optional? {
      DisjointRejects(v, a.inner, b, cal);
    } else if b.Optional? {
      DisjointRejects(v, a, b.inner, cal);
    } else if a.Choice? {
      forall e | 0 <= e < |a.alternatives| ensures Decode(c, a.alternatives[e], cal).None? {
        DisjointRejects(v, a.alternatives[e], b, cal);
      }
      DecodesNone(c, a.alternatives, cal);
    } else if b.Choice? {
      var k := ChosenAlternative(v, b.alternatives, cal);
      DisjointRejects(v, a, b.alternatives[k], cal);
    } else if a.Context? && b.Context? {
      if a.tag == b.tag {
        DisjointRejects(v, a.inner, b.inner, cal);
      }
    }
  }

  // ---- The round trip -------------------------------------------------------

  /** Whatever the encoder accepts, the decoder returns in normal form. */
  lemma {:induction false} RoundTrip(v: Value, s: Schema, cal: Calendar)
    requires Unambiguous(s) && cal.Lawful() && Encode(v, s, cal).Some?
    ensures Decode(Encode(v, s, cal).value, s, cal) == Some(Normal(v, s, cal))
    decreases s, 0
  {
    match s
    case Optional(inner) => RoundTrip(v, inner, cal);
    case Context(_, inner) => RoundTrip(v, inner, cal);
    case Choice(alternatives) =>
      var c := Encode(v, s, cal).value;
      var k := ChosenAlternative(v, alternatives, cal);
      RoundTrip(v, alternatives[k], cal);
      forall e | 0 <= e < k ensures Decode(c, alternatives[e], cal).None? {
        DisjointRejects(v, alternatives[e], alternatives[k], cal);
      }
      DecodesFirst(c, alternatives, k, cal);
    case SequenceOf(inner) => RoundTripItems(v.items, inner, cal);
    case Struct(fields) => RoundTripFields(v.members, fields, cal);
    case _ =>
  }

  lemma {:induction false} RoundTripItems(vs: seq<Value>, inner: Schema, cal: Calendar)
    requires Unambiguous(inner) && cal.Lawful() && EncodeItems(vs, inner, cal).Some?
    ensures DecodeItems(EncodeItems(vs, inner, cal).value, inner, cal) == Some(NormalItems(vs, inner, cal))
    decreases inner, 1, |vs|
  {
    if vs != [] {
      RoundTrip(vs[0], inner, cal);
      RoundTripItems(vs[1..], inner, cal);
      var rest := EncodeItems(vs[1..], inner, cal).value;
      assert EncodeItems(vs, inner, cal).value[1..] == rest;
    }
  }

  /** The component each field contributed. */
  function Contributed(m: map<string, Value>, fields: seq<Field>, cal: Calendar): (r: seq<Option<Asn1>>)
    requires EncodeFields(m, fields, cal).Some?
    ensures |r| == |fields|
    decreases fields, 0
  {
    if fields == [] then []
    else
      var name := fields[0].name;
      [if Present(m, name) then Encode(m[name], fields[0].schema, cal) else None] + Contributed(m, fields[1..], cal)
  }

  lemma {:induction false} FirstComponent(m: map<string, Value>, fields: seq<Field>, cal: Calendar) returns (j: nat)
    requires EncodeFields(m, fields, cal).Some? && EncodeFields(m, fields, cal).value != []
    ensures j < |fields| && Present(m, fields[j].name)
    ensures Encode(m[fields[j].name], fields[j].schema, cal) == Some(EncodeFields(m, fields, cal).value[0])
  {
    if Present(m, fields[0].name) {
      j := 0;
    } else {
      var i := FirstComponent(m, fields[1..], cal);
      j := i + 1;
    }
  }

  lemma {:induction false} RoundTripFields(m: map<string, Value>, fields: seq<Field>, cal: Calendar)
    requires FieldsUnambiguous(fields) && cal.Lawful() && EncodeFields(m, fields, cal).Some?
    ensures MatchTuple(EncodeFields(m, fields, cal).value, fields, cal) == Some(Contributed(m, fields, cal))
    ensures Project(fields, Contributed(m, fields, cal), cal) == Some(NormalFields(m, fields, cal))
    decreases fields, 0
  {
    if fields != [] {
      var name, schema := fields[0].name, fields[0].schema;
      var components := EncodeFields(m, fields, cal).value;
      RoundTripFields(m, fields[1..], cal);
      var contributed := Contributed(m, fields, cal);
      assert contributed[1..] == Contributed(m, fields[1..], cal);
      if Present(m, name) {
        RoundTrip(m[name], schema, cal);
        assert components[1..] == EncodeFields(m, fields[1..], cal).value;
      } else if components != [] {
        var j := FirstComponent(m, fields[1..], cal);
        DisjointRejects(m[fields[1..][j].name], schema, fields[j + 1].schema, cal);
      }
    }
  }

  // ---- What the positional matcher promises ---------------------------------

  function Bound(assignment: seq<Option<Asn1>>): seq<Asn1> {
    if assignment == [] then []
    else (if assignment[0].Some? then [assignment[0].value] else []) + Bound(assignment[1..])
  }

  /** Every component is bound, in order, to a field that accepts it, and only
      optional fields stay unbound. */
  ghost predicate Assigns(components: seq<Asn1>, fields: seq<Field>, assignment: seq<Option<Asn1>>, cal: Calendar) {
    && |assignment| == |fields|
    && Bound(assignment) == components
    && forall i :: 0 <= i < |fields| ==>
         if assignment[i].Some? then Decode(assignment[i].value, fields[i].schema, cal).Some? else fields[i].schema.Optional?
  }

  /** Where they first differ, `a` binds and `b` does not. */
  ghost predicate Prefers(a: seq<Option<Asn1>>, b: seq<Option<Asn1>>) {
    a != b ==> exists i :: 0 <= i < |a| && i < |b| && a[..i] == b[..i] && a[i].Some? && b[i].None?
  }

  lemma AssignsTail(components: seq<Asn1>, fields: seq<Field>, assignment: seq<Option<Asn1>>, cal: Calendar)
    requires fields != [] && |assignment| == |fields|
    ensures Assigns(components, fields, assignment, cal) <==>
            match assignment[0] {
              case Some(c) =>
                && components != [] && components[0] == c && Decode(c, fields[0].schema, cal).Some?
                && Assigns(components[1..], fields[1..], assignment[1..], cal)
              case None => fields[0].schema.Optional? && Assigns(components, fields[1..], assignment[1..], cal)
            }
  {
    var rest := Bound(assignment[1..]);
    assert forall i :: 0 <= i < |fields| - 1 ==> fields[1..][i] == fields[i + 1] && assignment[1..][i] == assignment[i + 1];
    match assignment[0]
    case Some(c) =>
      assert Bound(assignment) == [c] + rest;
      if components != [] && components[0] == c {
        assert components == [c] + components[1..];
      }
    case None =>
      assert Bound(assignment) == [] + rest == rest;
  }

  lemma {:induction false} MatcherSound(components: seq<Asn1>, fields: seq<Field>, cal: Calendar)
    requires MatchTuple(components, fields, cal).Some?
    ensures Assigns(components, fields, MatchTuple(components, fields, cal).value, cal)
    decreases |fields|
  {
    if fields != [] {
      var r := MatchTuple(components, fields, cal).value;
      if r[0].Some? {
        MatcherSound(components[1..], fields[1..], cal);
      } else {
        MatcherSound(components, fields[1..], cal);
      }
      AssignsTail(components, fields, r, cal);
    }
  }

  lemma PrefersCons(head: Option<Asn1>, a: seq<Option<Asn1>>, b: seq<Option<Asn1>>)
    requires Prefers(a, b)
    ensures Prefers([head] + a, [head] + b)
  {
    if a != b {
      var i :| 0 <= i < |a| && i < |b| && a[..i] == b[..i] && a[i].Some? && b[i].None?;
      var x, y := [head] + a, [head] + b;
      assert x[..i + 1] == [head] + a[..i] && y[..i + 1] == [head] + b[..i];
      assert x[i + 1] == a[i] && y[i + 1] == b[i];
    }
  }

  /** The matcher finds an assignment whenever there is one, and it is the one
      that binds the earliest fields. */
  lemma {:induction false} MatcherFindsPreferred(components: seq<Asn1>, fields: seq<Field>, cal: Calendar, other: seq<Option<Asn1>>)
    requires Assigns(components, fields, other, cal)
    ensures MatchTuple(components, fields, cal).Some?
    ensures Prefers(MatchTuple(components, fields, cal).value, other)
    decreases |fields|
  {
    if fields != [] {
      AssignsTail(components, fields, other, cal);
      assert other == [other[0]] + other[1..];
      if other[0].Some? {
        MatcherFindsPreferred(components[1..], fields[1..], cal, other[1..]);
        PrefersCons(other[0], MatchTuple(components[1..], fields[1..], cal).value, other[1..]);
      } else {
        MatcherFindsPreferred(components, fields[1..], cal, other[1..]);
        var r := MatchTuple(components, fields, cal).value;
        if r[0].Some? {
          assert r[..0] == other[..0];
        } else {
          PrefersCons(other[0], MatchTuple(components, fields[1..], cal).value, other[1..]);
        }
      }
    }
  }

  /** Without disjoint members the round trip does fail: of two optional texts
      under one tag, a lone second one is read back as the first. */
  lemma CollidingTagsMisread(text: string, tag: nat, cal: Calendar)
    ensures
      var s := Struct([Field("a", Optional(Context(tag, Utf8))), Field("b", Optional(Context(tag, Utf8)))]);
      var v := Object(map["b" := Str(text)]);
      && !Unambiguous(s)
      && Encode(v, s, cal).Some?
      && Decode(Encode(v, s, cal).value, s, cal) == Some(Object(map["a" := Str(text)]))
  {
    var a, b := Field("a", Optional(Context(tag, Utf8))), Field("b", Optional(Context(tag, Utf8)));
    var fields := [a, b];
    assert fields[1..] == [b] && [b][1..] == [];
    var v := Object(map["b" := Str(text)]);
    var c := Ctx(tag, Text(text));
    assert Encode(Str(text), Utf8, cal) == Some(Text(text));
    assert Encode(Str(text), a.schema.inner, cal) == Some(c) == Encode(Str(text), a.schema, cal);
    assert EncodeFields(v.members, [], cal) == Some([]);
    assert EncodeFields(v.members, [b], cal) == Some([c]);
    assert EncodeFields(v.members, fields, cal) == Some([c]);
    assert Decode(Text(text), Utf8, cal) == Some(Str(text));
    assert Decode(c, a.schema.inner, cal) == Some(Str(text)) == Decode(c, a.schema, cal);
    assert [c][1..] == [];
    assert MatchTuple([], [], cal) == Some([]);
    assert MatchTuple([], [b], cal) == Some([None]);
    assert [Some(c)] + [None] == [Some(c), None];
    assert MatchTuple([c], fields, cal) == Some([Some(c), None]);
    assert [Some(c), None][1..] == [None];
    assert Project([], [], cal) == Some(map[]);
    assert Project([b], [None], cal) == Some(map[]);
    var only: map<string, Value> := map["a" := Str(text)];
    assert only + map[] == only;
    assert Project(fields, [Some(c), None], cal) == Some(map["a" := Str(text)]);
    assert !Disjoint(Utf8, Utf8);
    assert !Disjoint(a.schema.inner, b.schema.inner);
    assert !Disjoint(a.schema.inner, b.schema);
    assert !Disjoint(a.schema, b.schema);
    assert fields[1] == b;
  }

  // ---- Normal forms are stable ----------------------------------------------

  lemma {:induction false} BufferRoundTrip(bytes: Bytes)
    ensures BytesFromBufferJson(BufferJson(bytes)) == Some(bytes)
  {
    var data := seq(|bytes|, i requires 0 <= i < |bytes| => Num(Integer(bytes[i] as int)));
    ByteEntriesRoundTrip(bytes, data);
  }

  lemma {:induction false} ByteEntriesRoundTrip(bytes: Bytes, data: seq<Value>)
    requires |data| == |bytes| && forall i :: 0 <= i < |data| ==> data[i] == Num(Integer(bytes[i] as int))
    ensures ByteEntries(data) == Some(bytes)
  {
    if data != [] {
      ByteEntriesRoundTrip(bytes[1..], data[1..]);
      assert bytes == [bytes[0]] + bytes[1..];
    }
  }

  lemma {:induction false} NormalIsNotNull(v: Value, s: Schema, cal: Calendar)
    requires Encode(v, s, cal).Some? && cal.Lawful()
    ensures !v.Null? && !Normal(v, s, cal).Null?
    decreases s, 0
  {
    match s
    case Optional(inner) => NormalIsNotNull(v, inner, cal);
    case Context(_, inner) => NormalIsNotNull(v, inner, cal);
    case Choice(alternatives) =>
      var k := ChosenAlternative(v, alternatives, cal);
      NormalIsNotNull(v, alternatives[k], cal);
    case _ =>
  }

  /** The alternatives of every choice differ only in their tags. */
  predicate UniformChoices(s: Schema)
    decreases s, 0
  {
    match s
    case Optional(inner) => UniformChoices(inner)
    case Context(_, inner) => UniformChoices(inner)
    case SequenceOf(inner) => UniformChoices(inner)
    case Choice(alternatives) =>
      forall k :: 0 <= k < |alternatives| ==>
        UniformChoices(alternatives[k]) && Strip(alternatives[k]) == Strip(alternatives[0])
    case Struct(fields) => forall i :: 0 <= i < |fields| ==> UniformChoices(fields[i].schema)
    case _ => true
  }

  /** A normal form is accepted again and is its own normal form. */
  lemma {:induction false} NormalIsStable(v: Value, s: Schema, cal: Calendar)
    requires Unambiguous(s) && UniformChoices(s) && cal.Lawful() && Encode(v, s, cal).Some?
    ensures Encode(Normal(v, s, cal), s, cal).Some?
    ensures Normal(Normal(v, s, cal), s, cal) == Normal(v, s, cal)
    decreases s, 0
  {
    match s
    case Optional(inner) => NormalIsStable(v, inner, cal);
    case Context(_, inner) => NormalIsStable(v, inner, cal);
    case Choice(alternatives) =>
      var k := ChosenAlternative(v, alternatives, cal);
      assert k == 0;
      NormalIsStable(v, alternatives[0], cal);
    case SequenceOf(inner) => NormalItemsStable(v.items, inner, cal);
    case Struct(fields) => NormalFieldsStable(v.members, fields, cal);
    case Oid => OidNamesConvert(v.s); OidNamesConvert(OidFromName(v.s));
    case OctetString => BufferRoundTrip(BytesFromBufferJson(v).value);
    case _ =>
  }

  lemma {:induction false} NormalItemsStable(vs: seq<Value>, inner: Schema, cal: Calendar)
    requires Unambiguous(inner) && UniformChoices(inner) && cal.Lawful() && EncodeItems(vs, inner, cal).Some?
    ensures EncodeItems(NormalItems(vs, inner, cal), inner, cal).Some?
    ensures NormalItems(NormalItems(vs, inner, cal), inner, cal) == NormalItems(vs, inner, cal)
    decreases inner, 1, |vs|
  {
    if vs != [] {
      NormalIsStable(vs[0], inner, cal);
      NormalItemsStable(vs[1..], inner, cal);
      var normal := NormalItems(vs, inner, cal);
      assert normal[1..] == NormalItems(vs[1..], inner, cal);
    }
  }

  lemma {:induction false} FieldsFrame(m: map<string, Value>, n: map<string, Value>, fields: seq<Field>, cal: Calendar)
    requires forall i :: 0 <= i < |fields| ==>
      (Present(m, fields[i].name) <==> Present(n, fields[i].name))
      && (Present(m, fields[i].name) ==> m[fields[i].name] == n[fields[i].name])
    ensures EncodeFields(m, fields, cal) == EncodeFields(n, fields, cal)
    ensures EncodeFields(m, fields, cal).Some? && cal.Lawful() ==>
              NormalFields(m, fields, cal) == NormalFields(n, fields, cal)
  {
    if fields != [] {
      assert forall i :: 0 <= i < |fields| - 1 ==> fields[1..][i] == fields[i + 1];
      FieldsFrame(m, n, fields[1..], cal);
    }
  }

  lemma {:induction false} NormalFieldsNames(m: map<string, Value>, fields: seq<Field>, cal: Calendar, name: string)
    requires EncodeFields(m, fields, cal).Some? && cal.Lawful()
    requires name in NormalFields(m, fields, cal)
    ensures exists i :: 0 <= i < |fields| && fields[i].name == name
  {
    if fields[0].name != name {
      NormalFieldsNames(m, fields[1..], cal, name);
      var i :| 0 <= i < |fields[1..]| && fields[1..][i].name == name;
      assert fields[i + 1].name == name;
    }
  }

  lemma {:induction false} NormalFieldsStable(m: map<string, Value>, fields: seq<Field>, cal: Calendar)
    requires FieldsUnambiguous(fields) && forall i :: 0 <= i < |fields| ==> UniformChoices(fields[i].schema)
    requires cal.Lawful() && EncodeFields(m, fields, cal).Some?
    ensures EncodeFields(NormalFields(m, fields, cal), fields, cal).Some?
    ensures NormalFields(NormalFields(m, fields, cal), fields, cal) == NormalFields(m, fields, cal)
    decreases fields, 0
  {
    if fields != [] {
      var name, schema := fields[0].name, fields[0].schema;
      assert forall i :: 0 <= i < |fields| - 1 ==> fields[1..][i] == fields[i + 1];
      NormalFieldsStable(m, fields[1..], cal);
      var normal, rest := NormalFields(m, fields, cal), NormalFields(m, fields[1..], cal);
      if name in rest { NormalFieldsNames(m, fields[1..], cal, name); }
      assert name !in rest;
      FieldsFrame(rest, normal, fields[1..], cal);
      if Present(m, name) {
        NormalIsStable(m[name], schema, cal);
        NormalIsNotNull(m[name], schema, cal);
        assert normal[name] == Normal(m[name], schema, cal);
      }
    }
  }

  // ---- Symbolic names -------------------------------------------------------

  ghost predicate Bijective(table: seq<(string, string)>) {
    && (forall i, j :: 0 <= i < j < |table| ==> table[i].0 != table[j].0 && table[i].1 != table[j].1)
    && (forall i, j :: 0 <= i < |table| && 0 <= j < |table| ==> table[i].0 != table[j].1)
  }

  lemma {:induction false} TableLookups(table: seq<(string, string)>, i: nat)
    requires Bijective(table) && i < |table|
    ensures NameOf(table, table[i].1) == table[i].0 && DottedOf(table, table[i].0) == table[i].1
  {
    if i > 0 {
      TableLookups(table[1..], i - 1);
    }
  }

  lemma {:induction false} TableMisses(table: seq<(string, string)>, text: string)
    ensures (forall i :: 0 <= i < |table| ==> table[i].0 != text) ==> DottedOf(table, text) == text
    ensures (forall i :: 0 <= i < |table| ==> table[i].1 != text) ==> NameOf(table, text) == text
    ensures DottedOf(table, text) != text ==> exists i :: 0 <= i < |table| && table[i].0 == text
    ensures NameOf(table, text) != text ==> exists i :: 0 <= i < |table| && table[i].1 == text
  {
    if table != [] {
      TableMisses(table[1..], text);
      assert forall i :: 0 <= i < |table| - 1 ==> table[1..][i] == table[i + 1];
    }
  }

  // A decision tree that tells the table's names apart, and one for its OIDs.
  function NameRow(s: string): int {
    if |s| == 6 then (if s[5] == '6' then 0 else 10)
    else if |s| == 8 then (if s[7] == '6' then 1 else 13)
    else if |s| == 7 then (if s[6] == '9' then 5 else 8)
    else if |s| == 9 then (if s[7] == 'k' then 6 else 7)
    else if |s| == 17 then 2
    else if |s| == 15 then 3
    else if |s| == 5 then 4
    else if |s| == 12 then 9
    else if |s| == 10 then 11
    else 12
  }

  function DottedRow(s: string): int {
    if |s| == 22 then (if s[21] == '1' then 0 else if s[21] == '8' then 1 else 13)
    else if |s| == 19 then (if s[18] == '2' then 3 else 7)
    else if |s| == 7 then (if s[6] == '5' then 9 else 11)
    else if |s| == 23 then 2
    else if |s| == 17 then 4
    else if |s| == 11 then 5
    else if |s| == 12 then 6
    else if |s| == 14 then 8
    else if |s| == 8 then 10
    else 12
  }

  predicate StartsWithDigit(s: string) {
    s != "" && '0' <= s[0] <= '9'
  }

  ghost predicate RowTells(row: (string, string), i: int) {
    NameRow(row.0) == i && DottedRow(row.1) == i && StartsWithDigit(row.1) && !StartsWithDigit(row.0)
  }

  lemma RowsTellFirst()
    ensures |OID_NAME_TABLE| == 14
    ensures RowTells(OID_NAME_TABLE[0], 0) && RowTells(OID_NAME_TABLE[1], 1) && RowTells(OID_NAME_TABLE[2], 2)
    ensures RowTells(OID_NAME_TABLE[3], 3) && RowTells(OID_NAME_TABLE[4], 4)
  {
  }

  lemma RowsTellMiddle()
    ensures RowTells(OID_NAME_TABLE[5], 5) && RowTells(OID_NAME_TABLE[6], 6) && RowTells(OID_NAME_TABLE[7], 7)
    ensures RowTells(OID_NAME_TABLE[8], 8) && RowTells(OID_NAME_TABLE[9], 9)
  {
  }

  lemma RowsTellLast()
    ensures RowTells(OID_NAME_TABLE[10], 10) && RowTells(OID_NAME_TABLE[11], 11)
    ensures RowTells(OID_NAME_TABLE[12], 12) && RowTells(OID_NAME_TABLE[13], 13)
  {
  }

  lemma RowsTell()
    ensures |OID_NAME_TABLE| == 14
    ensures forall i :: 0 <= i < 14 ==> RowTells(OID_NAME_TABLE[i], i)
  {
    hide OID_NAME_TABLE, RowTells;
    RowsTellFirst();
    RowsTellMiddle();
    RowsTellLast();
  }

  lemma TellingTableIsBijective(table: seq<(string, string)>)
    requires forall i :: 0 <= i < |table| ==> RowTells(table[i], i)
    ensures Bijective(table)
  {
    forall i, j | 0 <= i < j < |table| ensures table[i].0 != table[j].0 && table[i].1 != table[j].1 {
      assert RowTells(table[i], i) && RowTells(table[j], j);
    }
    forall i, j | 0 <= i < |table| && 0 <= j < |table| ensures table[i].0 != table[j].1 {
      assert RowTells(table[i], i) && RowTells(table[j], j);
    }
  }

  /** Symbolic names and their OIDs convert into each other, and any other text
      passes through unchanged both ways. */
  lemma OidNamesConvert(text: string)
    ensures forall i :: 0 <= i < |OID_NAME_TABLE| ==>
              var (name, dotted) := OID_NAME_TABLE[i];
              OidFromName(name) == dotted && OidToName(dotted) == name
              && OidFromName(dotted) == dotted && OidToName(name) == name
    ensures OidFromName(text) != text ==> exists i :: 0 <= i < |OID_NAME_TABLE| && OID_NAME_TABLE[i].0 == text
    ensures OidToName(text) != text ==> exists i :: 0 <= i < |OID_NAME_TABLE| && OID_NAME_TABLE[i].1 == text
  {
    hide OID_NAME_TABLE;
    RowsTell();
    TellingTableIsBijective(OID_NAME_TABLE);
    forall i | 0 <= i < |OID_NAME_TABLE|
      ensures var (name, dotted) := OID_NAME_TABLE[i];
              OidFromName(name) == dotted && OidToName(dotted) == name
              && OidFromName(dotted) == dotted && OidToName(name) == name
    {
      TableLookups(OID_NAME_TABLE, i);
      TableMisses(OID_NAME_TABLE, OID_NAME_TABLE[i].0);
      TableMisses(OID_NAME_TABLE, OID_NAME_TABLE[i].1);
    }
    TableMisses(OID_NAME_TABLE, text);
  }
}
