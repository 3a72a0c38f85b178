/** What generated code means: generator expressions read as codec schemas. Joins the
    generator to the schemas the codec runs on. */
module SchemaMeaning {
  import opened Wrappers
  import opened Text
  import opened SnakeNames
  import opened SchemaCodec
  import opened SchemaRoundTrip
  import opened GeneratedSchemas
  import G = SchemaGeneratorModel

  type Builders = seq<(string, G.Expr)>

  // ---- Expressions as schemas -----------------------------------------------

  /** Running `e` among `builders` yields `s`. */
  ghost predicate Denotes(builders: Builders, e: G.Expr, s: Schema)
    decreases s, 1
  {
    match e
    case Call(b) => exists i :: 0 <= i < |builders| && builders[i].0 == b && Stands(builders, builders[i].1, s)
    case _ => Stands(builders, e, s)
  }

  ghost predicate Stands(builders: Builders, e: G.Expr, s: Schema)
    decreases s, 0
  {
    match e
    case Leaf(keyword) => LeafSchema(keyword) == Some(s)
    case SequenceOf(x) => s.SequenceOf? && Denotes(builders, x, s.inner)
    case Context(i, x) => s.Context? && s.tag == i && Denotes(builders, x, s.inner)
    case Optional(x) => s.Optional? && Denotes(builders, x, s.inner)
    case Choice(xs) =>
      s.Choice? && |xs| == |s.alternatives| && forall k :: 0 <= k < |xs| ==> Denotes(builders, xs[k], s.alternatives[k])
    case Struct(ms) =>
      && s.Struct? && |ms| == |s.fields|
      && forall k :: 0 <= k < |ms| ==> ms[k].0 == s.fields[k].name && Denotes(builders, ms[k].1, s.fields[k].schema)
    case Call(_) => false
  }

  // The variant of the schema type that a leaf of generated code names.
  function LeafSchema(keyword: string): Option<Schema> {
    if keyword == "Utf8" then Some(Utf8)
    else if keyword == "Date" then Some(Date)
    else if keyword == "Oid" then Some(Oid)
    else if keyword == "OctetString" then Some(OctetString)
    else None
  }

  /** With every builder defined once, an expression means at most one schema. */
  lemma {:induction false} MeansOneSchema(builders: Builders, e: G.Expr, s: Schema, t: Schema)
    requires G.DistinctNames(builders) && Denotes(builders, e, s) && Denotes(builders, e, t)
    ensures s == t
    decreases s, 1
  {
    match e
    case Call(b) =>
      var i :| 0 <= i < |builders| && builders[i].0 == b && Stands(builders, builders[i].1, s);
      StandsForOne(builders, builders[i].1, s, t);
    case _ => StandsForOne(builders, e, s, t);
  }

  lemma {:induction false} StandsForOne(builders: Builders, e: G.Expr, s: Schema, t: Schema)
    requires G.DistinctNames(builders) && Stands(builders, e, s) && Stands(builders, e, t)
    ensures s == t
    decreases s, 0
  {
    match e
    case SequenceOf(x) => MeansOneSchema(builders, x, s.inner, t.inner);
    case Context(_, x) => MeansOneSchema(builders, x, s.inner, t.inner);
    case Optional(x) => MeansOneSchema(builders, x, s.inner, t.inner);
    case Choice(xs) =>
      forall k | 0 <= k < |xs| ensures s.alternatives[k] == t.alternatives[k] {
        MeansOneSchema(builders, xs[k], s.alternatives[k], t.alternatives[k]);
      }
      assert s.alternatives == t.alternatives;
    case Struct(ms) =>
      forall k | 0 <= k < |ms| ensures s.fields[k] == t.fields[k] {
        MeansOneSchema(builders, ms[k].1, s.fields[k].schema, t.fields[k].schema);
      }
      assert s.fields == t.fields;
    case _ =>
  }

  // ---- Structs --------------------------------------------------------------

  // One member of a struct type: what its table entry says and what its type means.
  datatype Entry = Entry(name: string, optional: bool, choice: bool, payload: Schema)

  /** The table entry `def` lists `entries`, in order. */
  ghost predicate Tabulates(g: G.Grammar, builders: Builders, def: G.StructDef, entries: seq<Entry>) {
    && |def.order| == |entries|
    && forall i :: 0 <= i < |entries| ==> TabulatesMember(g, builders, def, i, entries[i])
  }

  ghost predicate TabulatesMember(g: G.Grammar, builders: Builders, def: G.StructDef, i: nat, entry: Entry)
    requires i < |def.order|
  {
    var name := def.order[i];
    && name == entry.name && name in def.fields && def.fields[name].optional == entry.optional
    && G.IsChoiceOf(g, def.fields[name].typeName) == entry.choice
    && G.MemberOf(g, def.fields[name].typeName).Some?
    && Denotes(builders, G.MemberOf(g, def.fields[name].typeName).value, entry.payload)
  }

  predicate AnyOptional(entries: seq<Entry>) {
    exists i :: 0 <= i < |entries| && entries[i].optional
  }

  /** Where a member ends up: a choice stays bare; else its position is its tag if
      any member is optional, and it has no tag if none is. */
  predicate Placed(entries: seq<Entry>, i: nat, s: Schema)
    requires i < |entries|
  {
    var entry := entries[i];
    && s.Optional? == entry.optional
    && var bare := if entry.optional then s.inner else s;
       bare == if entry.choice || !AnyOptional(entries) then entry.payload else Context(i, entry.payload)
  }

  predicate LaidOut(entries: seq<Entry>, fields: seq<Field>) {
    && |fields| == |entries|
    && forall i :: 0 <= i < |fields| ==> fields[i].name == entries[i].name && Placed(entries, i, fields[i].schema)
  }

  lemma {:induction false} PartsAt(g: G.Grammar, def: G.StructDef, n: nat, i: nat)
    requires i < n <= |def.order| && G.StructParts(g, def, n).Some?
    ensures |G.StructParts(g, def, n).value| == n
    ensures G.MemberAt(g, def, i) == Some(G.StructParts(g, def, n).value[i])
    decreases n
  {
    hide G.MemberAt;
    PartsCount(g, def, n - 1);
    if i < n - 1 {
      PartsAt(g, def, n - 1, i);
    }
  }

  lemma {:induction false} PartsCount(g: G.Grammar, def: G.StructDef, n: nat)
    requires n <= |def.order| && G.StructParts(g, def, n).Some?
    ensures |G.StructParts(g, def, n).value| == n
    decreases n
  {
    if n > 0 { PartsCount(g, def, n - 1); }
  }

  lemma SameOptional(g: G.Grammar, builders: Builders, def: G.StructDef, entries: seq<Entry>)
    requires Tabulates(g, builders, def, entries)
    ensures G.HasOptional(def) <==> AnyOptional(entries)
  {
    assert forall i :: 0 <= i < |entries| ==> TabulatesMember(g, builders, def, i, entries[i]);
    if G.HasOptional(def) {
      var i :| 0 <= i < |def.order| && def.order[i] in def.fields && def.fields[def.order[i]].optional;
      assert entries[i].optional;
    }
    if AnyOptional(entries) {
      var i :| 0 <= i < |entries| && entries[i].optional;
      assert def.order[i] in def.fields && def.fields[def.order[i]].optional;
    }
  }

  lemma MemberMeans(g: G.Grammar, builders: Builders, def: G.StructDef, entries: seq<Entry>, i: nat, s: Schema)
    requires i < |entries| && Tabulates(g, builders, def, entries) && Placed(entries, i, s)
    ensures G.MemberAt(g, def, i).Some?
    ensures G.MemberAt(g, def, i).value.0 == entries[i].name && Denotes(builders, G.MemberAt(g, def, i).value.1, s)
  {
    hide AnyOptional, G.HasOptional, G.MemberOf, G.IsChoiceOf;
    SameOptional(g, builders, def, entries);
    assert TabulatesMember(g, builders, def, i, entries[i]);
    var e := G.MemberOf(g, def.fields[def.order[i]].typeName).value;
    var bare := if s.Optional? then s.inner else s;
    if !entries[i].choice && AnyOptional(entries) {
      assert Denotes(builders, G.Context(i, e), bare);
    } else {
      assert Denotes(builders, e, bare);
    }
  }

  /** A struct body means the fields its table entry lists, each in its place. */
  lemma StructMeans(g: G.Grammar, builders: Builders, def: G.StructDef, entries: seq<Entry>, fields: seq<Field>)
    requires Tabulates(g, builders, def, entries) && LaidOut(entries, fields)
    ensures G.StructParts(g, def, |def.order|).Some?
    ensures Stands(builders, G.Struct(G.StructParts(g, def, |def.order|).value), Struct(fields))
  {
    hide G.MemberAt, Tabulates, Placed, Denotes;
    assert |def.order| == |entries| by { ListsAll(g, builders, def, entries); }
    forall i | 0 <= i < |entries|
      ensures G.MemberAt(g, def, i).Some? && G.MemberAt(g, def, i).value.0 == fields[i].name
      ensures Denotes(builders, G.MemberAt(g, def, i).value.1, fields[i].schema)
    {
      MemberMeans(g, builders, def, entries, i, fields[i].schema);
    }
    AllParts(g, def, |def.order|);
    forall i | 0 <= i < |entries| ensures G.MemberAt(g, def, i) == Some(G.StructParts(g, def, |def.order|).value[i]) {
      PartsAt(g, def, |def.order|, i);
    }
  }

  lemma ListsAll(g: G.Grammar, builders: Builders, def: G.StructDef, entries: seq<Entry>)
    requires Tabulates(g, builders, def, entries)
    ensures |def.order| == |entries|
  {
  }

  lemma {:induction false} AllParts(g: G.Grammar, def: G.StructDef, n: nat)
    requires n <= |def.order| && forall i :: 0 <= i < n ==> G.MemberAt(g, def, i).Some?
    ensures G.StructParts(g, def, n).Some? && |G.StructParts(g, def, n).value| == n
    decreases n
  {
    hide G.MemberAt;
    if n > 0 { AllParts(g, def, n - 1); }
  }

  /** A struct without choices, of sound payloads under distinct names, is laid out
      soundly: decoding it never guesses. */
  lemma LaidOutSound(entries: seq<Entry>, fields: seq<Field>)
    requires LaidOut(entries, fields) && DistinctNames(fields)
    requires forall i :: 0 <= i < |entries| ==>
      !entries[i].choice && Sound(entries[i].payload) && !entries[i].payload.Optional?
    ensures Sound(Struct(fields))
    ensures AnyOptional(entries) ==> forall i :: 0 <= i < |fields| ==> TagOf(fields[i].schema) == Some(i)
  {
    hide Sound, AnyOptional;
    assert forall i :: 0 <= i < |fields| ==> Placed(entries, i, fields[i].schema);
    if AnyOptional(entries) {
      assert forall i :: 0 <= i < |fields| ==> TagOf(fields[i].schema) == Some(i) && Untagged(fields[i].schema) == entries[i].payload;
      PositionalSound(fields);
    } else {
      NoneOptional(entries);
      assert forall i :: 0 <= i < |fields| ==> fields[i].schema == entries[i].payload;
      RequiredSound(fields);
    }
  }

  lemma NoneOptional(entries: seq<Entry>)
    requires !AnyOptional(entries)
    ensures forall i :: 0 <= i < |entries| ==> !entries[i].optional
  {
  }

  // ---- Choices, lists and keywords ------------------------------------------

  /** The alternatives of a choice are tagged by their index. */
  lemma {:induction false} ChoiceMeans(g: G.Grammar, builders: Builders, types: seq<string>, alternatives: seq<Schema>)
    requires |alternatives| == |types|
    requires forall k :: 0 <= k < |types| ==>
      && alternatives[k].Context? && alternatives[k].tag == k
      && G.MemberOf(g, types[k]).Some? && Denotes(builders, G.MemberOf(g, types[k]).value, alternatives[k].inner)
    ensures G.ChoiceParts(g, types).Some? && Stands(builders, G.Choice(G.ChoiceParts(g, types).value), Choice(alternatives))
    decreases |types|
  {
    hide G.MemberOf;
    if types != [] {
      var n := |types| - 1;
      ChoiceMeans(g, builders, types[..n], alternatives[..n]);
      var front := G.ChoiceParts(g, types[..n]).value;
      var e := G.Context(n, G.MemberOf(g, types[n]).value);
      assert G.ChoiceParts(g, types) == Some(front + [e]);
      assert Denotes(builders, e, alternatives[n]);
      forall k | 0 <= k < |types| ensures Denotes(builders, (front + [e])[k], alternatives[k]) {
        if k < n { assert (front + [e])[k] == front[k] && alternatives[..n][k] == alternatives[k]; }
      }
    }
  }

  lemma KeywordsMean(g: G.Grammar, builders: Builders)
    ensures G.MemberOf(g, "UTF8String").Some? && Denotes(builders, G.MemberOf(g, "UTF8String").value, Utf8)
    ensures G.MemberOf(g, "GeneralizedTime").Some? && Denotes(builders, G.MemberOf(g, "GeneralizedTime").value, Date)
    ensures G.MemberOf(g, "OBJECT IDENTIFIER").Some? && Denotes(builders, G.MemberOf(g, "OBJECT IDENTIFIER").value, Oid)
    ensures G.MemberOf(g, "OCTET STRING").Some? && Denotes(builders, G.MemberOf(g, "OCTET STRING").value, OctetString)
  {
    hide G.MemberOf;
    KeywordCompiles(g, "UTF8String");
    KeywordCompiles(g, "GeneralizedTime");
    KeywordCompiles(g, "OBJECT IDENTIFIER");
    KeywordCompiles(g, "OCTET STRING");
  }

  lemma KeywordCompiles(g: G.Grammar, k: string)
    requires k in G.KEYWORDS
    ensures G.MemberOf(g, k) == Some(G.KEYWORDS[k])
  {
    assert k in ["UTF8String", "GeneralizedTime", "OBJECT IDENTIFIER", "OCTET STRING"];
    TrimWord(k);
    assert !StartsWith(k, G.SEQUENCE_OF);
  }

  lemma TrimWord(k: string)
    requires k != "" && !IsSpace(k[0]) && !IsSpace(k[|k| - 1])
    ensures Trim(k) == k
  {
  }

  /** An enumeration is text, an alias means what it stands for, and a type of its own
      is a call of its builder. */
  lemma NamesMean(g: G.Grammar, builders: Builders, k: string)
    requires G.Unambiguous(g.tables) && k != "" && !IsSpace(k[0]) && !IsSpace(k[|k| - 1])
    ensures k in g.tables.enumerations ==> G.MemberOf(g, k).Some? && Denotes(builders, G.MemberOf(g, k).value, Utf8)
    ensures k in g.tables.primitives ==> G.MemberOf(g, k) == G.MemberOf(g, g.tables.primitives[k])
    ensures k in g.tables.attributes && !G.IsSequenceAttribute(g.tables, k) ==>
              G.MemberOf(g, k) == G.MemberOf(g, g.tables.attributes[k].typeName)
    ensures k in G.BuilderTypes(g.tables) ==> G.MemberOf(g, k) == Some(G.Call(BuilderName(k)))
  {
    TrimWord(k);
    var named := G.BuilderTypes(g.tables);
    if k in g.tables.enumerations || k in g.tables.primitives || k in g.tables.attributes || k in named {
      assert k in named + g.tables.primitives.Keys + g.tables.attributes.Keys + g.tables.enumerations;
    }
  }

  /** A SEQUENCE OF maps through to its element. */
  lemma SequenceMeans(g: G.Grammar, builders: Builders, t: string, payload: Schema)
    requires t != "" && !IsSpace(t[|t| - 1])
    requires G.MemberOf(g, t).Some? && Denotes(builders, G.MemberOf(g, t).value, payload)
    ensures G.MemberOf(g, G.SEQUENCE_OF + t).Some?
    ensures Denotes(builders, G.MemberOf(g, G.SEQUENCE_OF + t).value, SequenceOf(payload))
  {
    var k := G.SEQUENCE_OF + t;
    assert k[0] == 'S' && k[|k| - 1] == t[|t| - 1];
    TrimWord(k);
    assert k[|G.SEQUENCE_OF|..] == t;
    assert G.MemberOf(g, k) == Some(G.SequenceOf(G.MemberOf(g, t).value));
  }

  // ---- Builders -------------------------------------------------------------

  /** What the generator promises of the builders it returns, when no two types share
      a builder name. */
  ghost predicate Generated(g: G.Grammar, builders: Builders) {
    && G.DistinctBuilders(g.tables) && G.DistinctNames(builders)
    && forall i :: 0 <= i < |builders| ==> G.BuildsType(g, builders[i])
  }

  ghost predicate HasBuilder(g: G.Grammar, builders: Builders, k: string) {
    k in G.BuilderTypes(g.tables) && BuilderName(k) in G.Defined(builders)
  }

  lemma CallMeansBody(g: G.Grammar, builders: Builders, k: string, body: G.Expr, s: Schema)
    requires Generated(g, builders) && HasBuilder(g, builders, k)
    requires G.BodyOf(g, k) == Some(body) && Stands(builders, body, s)
    ensures Denotes(builders, G.Call(BuilderName(k)), s)
  {
    hide G.BodyOf, G.BuilderTypes, BuilderName, G.BuildsType, G.Defined, G.DistinctBuilders, G.DistinctNames, Stands;
    var i := G.CallReachesItsType(g, builders, k);
  }

  lemma StructBody(g: G.Grammar, k: string, def: G.StructDef)
    requires k !in g.tables.choices && G.StructDefOf(g.tables, k) == Some(def)
    requires G.StructParts(g, def, |def.order|).Some?
    ensures G.BodyOf(g, k) == Some(G.Struct(G.StructParts(g, def, |def.order|).value))
  {
    hide G.StructParts, G.StructDefOf;
  }

  /** A call of a struct type's builder means the fields its table entry lists. */
  lemma CallMeansStruct(g: G.Grammar, builders: Builders, k: string, def: G.StructDef, entries: seq<Entry>, fields: seq<Field>)
    requires Generated(g, builders) && HasBuilder(g, builders, k)
    requires k !in g.tables.choices && G.StructDefOf(g.tables, k) == Some(def)
    requires Tabulates(g, builders, def, entries) && LaidOut(entries, fields)
    ensures Denotes(builders, G.Call(BuilderName(k)), Struct(fields))
  {
    hide *;
    StructMeans(g, builders, def, entries, fields);
    StructBody(g, k, def);
    CallMeansBody(g, builders, k, G.Struct(G.StructParts(g, def, |def.order|).value), Struct(fields));
  }

  lemma CallMeansChoice(g: G.Grammar, builders: Builders, k: string, alternatives: seq<Schema>)
    requires Generated(g, builders) && HasBuilder(g, builders, k)
    requires k in g.tables.choices && |alternatives| == |g.tables.choices[k]|
    requires forall n :: 0 <= n < |alternatives| ==>
      && alternatives[n].Context? && alternatives[n].tag == n && G.MemberOf(g, g.tables.choices[k][n]).Some?
      && Denotes(builders, G.MemberOf(g, g.tables.choices[k][n]).value, alternatives[n].inner)
    ensures Denotes(builders, G.Call(BuilderName(k)), Choice(alternatives))
  {
    hide BuilderName, Generated, HasBuilder, G.MemberOf, G.ChoiceParts, Denotes, Stands;
    ChoiceMeans(g, builders, g.tables.choices[k], alternatives);
    CallMeansBody(g, builders, k, G.Choice(G.ChoiceParts(g, g.tables.choices[k]).value), Choice(alternatives));
  }

  // ---- Generated schemas ----------------------------------------------------

  const BIRTH_ENTRIES: seq<Entry> := [
    Entry("birthDate", false, false, Date),
    Entry("cityOfBirth", false, false, Utf8),
    Entry("countryOfBirth", false, false, Utf8),
    Entry("provinceOfBirth", true, false, Utf8)
  ]

  const ADDRESS_ENTRIES: seq<Entry> := [
    Entry("addressLines", true, false, SequenceOf(Utf8)),
    Entry("addressType", true, true, TEXT_CHOICE),
    Entry("buildingNumber", true, false, Utf8),
    Entry("country", true, false, Utf8),
    Entry("countrySubDivision", true, false, Utf8),
    Entry("department", true, false, Utf8),
    Entry("postalCode", true, false, Utf8),
    Entry("streetName", true, false, Utf8),
    Entry("subDepartment", true, false, Utf8),
    Entry("townName", true, false, Utf8)
  ]

  const REFERENCE_ENTRIES: seq<Entry> := [
    Entry("external", false, false, Struct(EXTERNAL_REFERENCE_FIELDS)),
    Entry("digest", false, false, Struct(DIGEST_INFO_FIELDS)),
    Entry("encryptionAlgorithm", false, false, Oid)
  ]

  const IDENTIFICATION_ENTRIES: seq<Entry> := [
    Entry("id", false, false, Utf8),
    Entry("issuer", true, false, Utf8),
    Entry("schemeName", true, true, TEXT_CHOICE)
  ]

  /** The generated fields are the entries laid out: optional or not, choices bare,
      references untagged. */
  lemma GeneratedFieldsAreLaidOut()
    ensures LaidOut(BIRTH_ENTRIES, BIRTH_FIELDS)
    ensures LaidOut(REFERENCE_ENTRIES, REFERENCE_FIELDS)
    ensures LaidOut(IDENTIFICATION_ENTRIES, IDENTIFICATION_FIELDS)
  {
    hide TEXT_CHOICE, EXTERNAL_REFERENCE_FIELDS, DIGEST_INFO_FIELDS;
    assert BIRTH_ENTRIES[3].optional && IDENTIFICATION_ENTRIES[1].optional;
  }

  lemma AddressIsLaidOut()
    ensures LaidOut(ADDRESS_ENTRIES, ADDRESS_FIELDS)
  {
    hide TEXT_CHOICE;
    assert ADDRESS_ENTRIES[0].optional;
  }

  // A table entry for each, over the keyword types.
  const BIRTH_DEF := G.StructDef(
    ["birthDate", "cityOfBirth", "countryOfBirth", "provinceOfBirth"],
    map["birthDate" := G.FieldDef("GeneralizedTime", false),
        "cityOfBirth" := G.FieldDef("UTF8String", false),
        "countryOfBirth" := G.FieldDef("UTF8String", false),
        "provinceOfBirth" := G.FieldDef("UTF8String", true)])

  lemma KeywordIsNoChoice(g: G.Grammar, k: string)
    requires G.Unambiguous(g.tables) && k in G.KEYWORDS
    ensures !G.IsChoiceOf(g, k)
  {
    assert k in ["UTF8String", "GeneralizedTime", "OBJECT IDENTIFIER", "OCTET STRING"];
    TrimWord(k);
  }

  lemma BirthTabulated(g: G.Grammar, builders: Builders)
    requires G.Unambiguous(g.tables)
    ensures Tabulates(g, builders, BIRTH_DEF, BIRTH_ENTRIES)
  {
    hide G.MemberOf, G.IsChoiceOf, G.Unambiguous, Denotes;
    KeywordsMean(g, builders);
    KeywordIsNoChoice(g, "UTF8String");
    KeywordIsNoChoice(g, "GeneralizedTime");
    assert TabulatesMember(g, builders, BIRTH_DEF, 0, BIRTH_ENTRIES[0]);
    assert TabulatesMember(g, builders, BIRTH_DEF, 1, BIRTH_ENTRIES[1]);
    assert TabulatesMember(g, builders, BIRTH_DEF, 2, BIRTH_ENTRIES[2]);
    assert TabulatesMember(g, builders, BIRTH_DEF, 3, BIRTH_ENTRIES[3]);
  }

  /** The generator compiles the date-and-place-of-birth entry to the schema in use. */
  lemma BirthCompiles(g: G.Grammar, builders: Builders, k: string)
    requires G.Unambiguous(g.tables) && Generated(g, builders) && HasBuilder(g, builders, k)
    requires k !in g.tables.choices && G.StructDefOf(g.tables, k) == Some(BIRTH_DEF)
    ensures Denotes(builders, G.Call(BuilderName(k)), Struct(BIRTH_FIELDS))
  {
    hide *;
    BirthTabulated(g, builders);
    GeneratedFieldsAreLaidOut();
    CallMeansStruct(g, builders, k, BIRTH_DEF, BIRTH_ENTRIES, BIRTH_FIELDS);
  }

  // The first member is a list of texts, the second a choice of two texts, the rest texts.
  const ADDRESS_NAMES: seq<string> := [
    "addressLines", "addressType", "buildingNumber", "country", "countrySubDivision",
    "department", "postalCode", "streetName", "subDepartment", "townName"]

  ghost predicate IsAddressDef(def: G.StructDef) {
    && def.order == ADDRESS_NAMES
    && (forall name :: name in ADDRESS_NAMES ==> name in def.fields && def.fields[name].optional)
    && (forall i :: 0 <= i < 10 ==>
          def.fields[ADDRESS_NAMES[i]].typeName ==
            if i == 0 then G.SEQUENCE_OF + "UTF8String" else if i == 1 then "AddressType" else "UTF8String")
  }

  ghost predicate HasAddressType(g: G.Grammar, builders: Builders) {
    && "AddressType" in g.tables.choices && g.tables.choices["AddressType"] == ["UTF8String", "UTF8String"]
    && HasBuilder(g, builders, "AddressType")
  }

  lemma AddressTypeMeans(g: G.Grammar, builders: Builders)
    requires G.Unambiguous(g.tables) && Generated(g, builders) && HasAddressType(g, builders)
    ensures G.IsChoiceOf(g, "AddressType")
    ensures G.MemberOf(g, "AddressType").Some? && Denotes(builders, G.MemberOf(g, "AddressType").value, TEXT_CHOICE)
  {
    hide G.MemberOf, G.IsChoiceOf, Denotes, Generated, HasBuilder, BuilderName, G.Unambiguous;
    ChoiceCompiles(g, "AddressType");
    KeywordsMean(g, builders);
    CallMeansChoice(g, builders, "AddressType", TEXT_CHOICE.alternatives);
  }

  lemma ChoiceCompiles(g: G.Grammar, k: string)
    requires G.Unambiguous(g.tables) && k in g.tables.choices && k != "" && !IsSpace(k[0]) && !IsSpace(k[|k| - 1])
    ensures G.IsChoiceOf(g, k) && G.MemberOf(g, k) == Some(G.Call(BuilderName(k)))
  {
    TrimWord(k);
    NamesMean(g, [], k);
  }

  lemma ListIsNoChoice(g: G.Grammar)
    requires G.Unambiguous(g.tables)
    ensures !G.IsChoiceOf(g, G.SEQUENCE_OF + "UTF8String")
  {
    var k := G.SEQUENCE_OF + "UTF8String";
    assert k[0] == 'S' && k[|k| - 1] == 'g';
    TrimWord(k);
    assert StartsWith(k, G.SEQUENCE_OF);
    assert k !in G.BuilderTypes(g.tables) + g.tables.primitives.Keys + g.tables.attributes.Keys + g.tables.enumerations;
  }

  lemma AddressTabulated(g: G.Grammar, builders: Builders, def: G.StructDef)
    requires G.Unambiguous(g.tables) && Generated(g, builders) && HasAddressType(g, builders) && IsAddressDef(def)
    ensures Tabulates(g, builders, def, ADDRESS_ENTRIES)
  {
    hide G.MemberOf, G.IsChoiceOf, G.Unambiguous, Denotes, Generated, HasAddressType, TEXT_CHOICE;
    KeywordsMean(g, builders);
    KeywordIsNoChoice(g, "UTF8String");
    ListIsNoChoice(g);
    SequenceMeans(g, builders, "UTF8String", Utf8);
    AddressTypeMeans(g, builders);
    forall i | 0 <= i < 10 ensures TabulatesMember(g, builders, def, i, ADDRESS_ENTRIES[i]) {
      assert def.order[i] == ADDRESS_NAMES[i] && ADDRESS_NAMES[i] in ADDRESS_NAMES;
      AddressEntryAt(i);
    }
  }

  lemma AddressEntryAt(i: nat)
    requires i < 10
    ensures ADDRESS_ENTRIES[i] ==
            Entry(ADDRESS_NAMES[i], true, i == 1, if i == 0 then SequenceOf(Utf8) else if i == 1 then TEXT_CHOICE else Utf8)
  {
    hide TEXT_CHOICE;
  }

  /** The generator compiles the address entry to the schema in use, bare choice and
      all. */
  lemma AddressCompiles(g: G.Grammar, builders: Builders, k: string, def: G.StructDef)
    requires G.Unambiguous(g.tables) && Generated(g, builders) && HasBuilder(g, builders, k) && HasAddressType(g, builders)
    requires k !in g.tables.choices && G.StructDefOf(g.tables, k) == Some(def) && IsAddressDef(def)
    ensures Denotes(builders, G.Call(BuilderName(k)), Struct(ADDRESS_FIELDS))
  {
    hide *;
    AddressTabulated(g, builders, def);
    AddressIsLaidOut();
    CallMeansStruct(g, builders, k, def, ADDRESS_ENTRIES, ADDRESS_FIELDS);
  }
}
