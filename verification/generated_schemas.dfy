/** The schemas generated for the structured KYC attributes. Bare choices share
    context tags with positional members, yet no component can be mistaken. */
module GeneratedSchemas {
  import opened Wrappers
  import opened Json
  import opened SchemaCodec
  import opened SchemaRoundTrip
  import opened SchemaTrees

  function Required(name: string, i: nat, s: Schema): Field { Field(name, Context(i, s)) }

  function Maybe(name: string, i: nat, s: Schema): Field { Field(name, Optional(Context(i, s))) }

  // The proprietary/code pair of every choice in use: both alternatives are text.
  const TEXT_CHOICE := Choice([Context(0, Utf8), Context(1, Utf8)])

  const ADDRESS_FIELDS: seq<Field> := [
    Maybe("addressLines", 0, SequenceOf(Utf8)),
    Field("addressType", Optional(TEXT_CHOICE)),
    Maybe("buildingNumber", 2, Utf8),
    Maybe("country", 3, Utf8),
    Maybe("countrySubDivision", 4, Utf8),
    Maybe("department", 5, Utf8),
    Maybe("postalCode", 6, Utf8),
    Maybe("streetName", 7, Utf8),
    Maybe("subDepartment", 8, Utf8),
    Maybe("townName", 9, Utf8)
  ]

  const OTHER_CONTACT_FIELDS: seq<Field> := [
    Required("channelType", 0, Utf8),
    Maybe("id", 1, Utf8)
  ]

  const CONTACT_DETAILS_FIELDS: seq<Field> := [
    Maybe("department", 0, Utf8),
    Maybe("emailAddress", 1, Utf8),
    Maybe("emailPurpose", 2, Utf8),
    Maybe("faxNumber", 3, Utf8),
    Maybe("fullName", 4, Utf8),
    Maybe("jobResponsibility", 5, Utf8),
    Maybe("jobTitle", 6, Utf8),
    Maybe("mobileNumber", 7, Utf8),
    Maybe("namePrefix", 8, Utf8),
    Maybe("other", 9, SequenceOf(Struct(OTHER_CONTACT_FIELDS))),
    Maybe("phoneNumber", 10, Utf8),
    Maybe("preferredMethod", 11, Utf8)
  ]

  const BIRTH_FIELDS: seq<Field> := [
    Required("birthDate", 0, Date),
    Required("cityOfBirth", 1, Utf8),
    Required("countryOfBirth", 2, Utf8),
    Maybe("provinceOfBirth", 3, Utf8)
  ]

  const EXTERNAL_REFERENCE_FIELDS: seq<Field> := [Field("url", Utf8), Field("contentType", Utf8)]

  const DIGEST_INFO_FIELDS: seq<Field> := [Field("digestAlgorithm", Oid), Field("digest", OctetString)]

  const REFERENCE_FIELDS: seq<Field> := [
    Field("external", Struct(EXTERNAL_REFERENCE_FIELDS)),
    Field("digest", Struct(DIGEST_INFO_FIELDS)),
    Field("encryptionAlgorithm", Oid)
  ]

  const DOCUMENT_FIELDS: seq<Field> := [
    Required("documentNumber", 0, Utf8),
    Maybe("front", 1, Struct(REFERENCE_FIELDS)),
    Maybe("back", 2, Struct(REFERENCE_FIELDS)),
    Maybe("selfie", 3, Struct(REFERENCE_FIELDS)),
    Maybe("fullName", 4, Utf8),
    Maybe("firstName", 5, Utf8),
    Maybe("lastName", 6, Utf8),
    Maybe("dob", 7, Date),
    Maybe("gender", 8, Utf8),
    Maybe("address", 9, Struct(ADDRESS_FIELDS)),
    Maybe("expiresAt", 10, Date),
    Maybe("issuedAt", 11, Date),
    Maybe("issuingState", 12, Utf8),
    Maybe("issuingCountry", 13, Utf8),
    Maybe("refNumber", 14, Utf8),
    Maybe("nationality", 15, Utf8),
    Maybe("curp", 16, Utf8),
    Maybe("claveDeElector", 17, Utf8),
    Maybe("classifiedDocumentType", 18, Utf8),
    Maybe("curpValidationResponse", 19, Utf8),
    Maybe("sambaActivityHistoryResponse", 20, Utf8)
  ]

  const IDENTIFICATION_FIELDS: seq<Field> := [
    Required("id", 0, Utf8),
    Maybe("issuer", 1, Utf8),
    Field("schemeName", Optional(TEXT_CHOICE))
  ]

  const ENTITY_TYPE_FIELDS: seq<Field> := [
    Maybe("organization", 0, SequenceOf(Struct(IDENTIFICATION_FIELDS))),
    Maybe("person", 1, SequenceOf(Struct(IDENTIFICATION_FIELDS)))
  ]

  const DOCUMENT_TOKENS: set<string> := {
    "Document", "DocumentDriversLicense", "DocumentIdCard", "DocumentPassport", "DocumentPassportCard",
    "DocumentPermit", "DocumentResidenceDocument", "DocumentVisa"}

  function AttributeSchema(token: string): Option<Schema> {
    if token == "Address" then Some(Struct(ADDRESS_FIELDS))
    else if token == "ContactDetails" then Some(Struct(CONTACT_DETAILS_FIELDS))
    else if token == "DateAndPlaceOfBirth" then Some(Struct(BIRTH_FIELDS))
    else if token in DOCUMENT_TOKENS then Some(Struct(DOCUMENT_FIELDS))
    else if token == "EntityType" then Some(Struct(ENTITY_TYPE_FIELDS))
    else None
  }

  // ---- Positional members ---------------------------------------------------

  function TagOf(s: Schema): Option<nat> {
    match s
    case Optional(Context(i, _)) => Some(i)
    case Context(i, _) => Some(i)
    case _ => None
  }

  predicate DistinctNames(fields: seq<Field>) {
    forall i, j :: 0 <= i < j < |fields| ==> fields[i].name != fields[j].name
  }

  predicate PairwiseDisjoint(fields: seq<Field>) {
    forall i, j :: 0 <= i < j < |fields| && fields[i].schema.Optional? ==> Disjoint(fields[i].schema, fields[j].schema)
  }

  lemma TagsTellApart(a: Schema, b: Schema)
    requires TagOf(a).Some? && TagOf(b).Some? && TagOf(a) != TagOf(b)
    ensures Disjoint(a, b)
  {
    var x := if a.Optional? then a.inner else a;
    var y := if b.Optional? then b.inner else b;
    assert Disjoint(x, y);
    assert Disjoint(a, b) == (if b.Optional? then Disjoint(x, b) else Disjoint(x, b));
  }

  lemma {:induction false} MembersUnambiguous(fields: seq<Field>)
    requires DistinctNames(fields) && PairwiseDisjoint(fields)
    requires forall i :: 0 <= i < |fields| ==> Unambiguous(fields[i].schema)
    ensures FieldsUnambiguous(fields)
  {
    if fields != [] {
      assert forall i :: 0 <= i < |fields| - 1 ==> fields[1..][i] == fields[i + 1];
      MembersUnambiguous(fields[1..]);
    }
  }

  /** Members tagged by distinct numbers, in order. */
  predicate Positional(fields: seq<Field>) {
    forall i :: 0 <= i < |fields| ==> TagOf(fields[i].schema) == Some(i)
  }

  predicate Sound(s: Schema) {
    Unambiguous(s) && UniformChoices(s)
  }

  /** What a tagged member holds under its tag. */
  function Untagged(s: Schema): Schema {
    match s
    case Optional(Context(_, x)) => x
    case Context(_, x) => x
    case _ => s
  }

  lemma TaggedSound(s: Schema)
    requires TagOf(s).Some? && Sound(Untagged(s))
    ensures Sound(s)
  {
    if s.Optional? { assert Sound(s.inner); }
  }

  lemma ListSound(s: Schema)
    requires Sound(s)
    ensures Sound(SequenceOf(s))
  {
  }

  /** A struct whose every member carries its position as a tag is sound when its
      members are. */
  lemma PositionalSound(fields: seq<Field>)
    requires Positional(fields) && DistinctNames(fields)
    requires forall i :: 0 <= i < |fields| ==> Sound(Untagged(fields[i].schema))
    ensures Sound(Struct(fields))
  {
    forall i | 0 <= i < |fields| ensures Sound(fields[i].schema) {
      TaggedSound(fields[i].schema);
    }
    forall i, j | 0 <= i < j < |fields| ensures Disjoint(fields[i].schema, fields[j].schema) {
      TagsTellApart(fields[i].schema, fields[j].schema);
    }
    MembersUnambiguous(fields);
  }

  /** A struct without optional members is sound when its members are. */
  lemma RequiredSound(fields: seq<Field>)
    requires DistinctNames(fields)
    requires forall i :: 0 <= i < |fields| ==> Sound(fields[i].schema) && !fields[i].schema.Optional?
    ensures Sound(Struct(fields))
  {
    MembersUnambiguous(fields);
  }

  lemma SecondTextDominated()
    ensures Dominated(TEXT_CHOICE.alternatives, 1)
  {
    assert Strip(TEXT_CHOICE.alternatives[0]) == Strip(TEXT_CHOICE.alternatives[1]);
  }

  lemma TextChoiceSound()
    ensures Sound(Optional(TEXT_CHOICE))
  {
    SecondTextDominated();
  }

  // A choice of texts emits its first alternative only.
  lemma TextChoiceDisjoint(s: Schema)
    requires s == Optional(Context(0, SequenceOf(Utf8))) || (TagOf(s).Some? && TagOf(s).value > 1)
    ensures Disjoint(Optional(TEXT_CHOICE), s)
    ensures Disjoint(s, Optional(TEXT_CHOICE))
  {
    var bare := if s.Optional? then s.inner else s;
    assert forall k :: 0 <= k < 2 ==> Disjoint(TEXT_CHOICE.alternatives[k], bare) && Disjoint(bare, TEXT_CHOICE.alternatives[k]);
    assert Disjoint(TEXT_CHOICE, bare);
    assert Disjoint(bare, TEXT_CHOICE);
  }

  /** One bare choice of texts at position 1, tagged members everywhere else. */
  lemma BareChoiceSound(fields: seq<Field>)
    requires |fields| > 1 && DistinctNames(fields) && fields[1].schema == Optional(TEXT_CHOICE)
    requires fields[0].schema == Optional(Context(0, SequenceOf(Utf8)))
    requires forall i :: 1 < i < |fields| ==> fields[i].schema == Optional(Context(i, Utf8))
    ensures Sound(Struct(fields))
  {
    hide Disjoint, Dominated;
    TextChoiceSound();
    forall i, j | 0 <= i < j < |fields| ensures Disjoint(fields[i].schema, fields[j].schema) {
      if i == 1 || j == 1 {
        TextChoiceDisjoint(fields[if i == 1 then j else i].schema);
      } else {
        TagsTellApart(fields[i].schema, fields[j].schema);
      }
    }
    forall i | 0 <= i < |fields| ensures Sound(fields[i].schema) {
      if i != 1 { TaggedSound(fields[i].schema); }
    }
    MembersUnambiguous(fields);
  }

  // ---- Each schema ----------------------------------------------------------

  lemma RowsDistinct(fields: seq<Field>, row: string -> int)
    requires forall i :: 0 <= i < |fields| ==> row(fields[i].name) == i
    ensures DistinctNames(fields)
  {
    forall i, j | 0 <= i < j < |fields| ensures fields[i].name != fields[j].name {
      assert row(fields[i].name) == i && row(fields[j].name) == j;
    }
  }

  // Decision trees that tell the member names of the larger structs apart.
  function AddressRow(s: string): int {
    if |s| == 12 then 0
    else if |s| == 11 then 1
    else if |s| == 14 then 2
    else if |s| == 7 then 3
    else if |s| == 18 then 4
    else if |s| == 13 then 8
    else if |s| == 8 then 9
    else if |s| == 10 && s[0] == 'd' then 5
    else if |s| == 10 && s[0] == 'p' then 6
    else 7
  }

  function ContactRow(s: string): int {
    if |s| == 10 then (if s[0] == 'd' then 0 else 8)
    else if |s| == 12 then (if s[0] == 'e' && s[5] == 'A' then 1 else if s[0] == 'e' then 2 else 7)
    else if |s| == 9 then 3
    else if |s| == 17 then 5
    else if |s| == 5 then 9
    else if |s| == 11 then 10
    else if |s| == 15 then 11
    else if |s| == 8 && s[0] == 'f' then 4
    else 6
  }

  function DocumentRow(s: string): int {
    if |s| == 14 then (if s[0] == 'd' then 0 else if s[0] == 'i' then 13 else 17)
    else if |s| == 5 then 1
    else if |s| == 4 then (if s[0] == 'b' then 2 else 16)
    else if |s| == 6 then (if s[0] == 's' then 3 else 8)
    else if |s| == 8 then (if s[0] == 'f' then 4 else if s[0] == 'l' then 6 else 11)
    else if |s| == 9 then (if s[0] == 'f' then 5 else if s[0] == 'e' then 10 else 14)
    else if |s| == 3 then 7
    else if |s| == 7 then 9
    else if |s| == 12 then 12
    else if |s| == 11 then 15
    else if |s| == 22 then (if s[1] == 'l' then 18 else 19)
    else 20
  }

  ghost predicate AddressField(f: Field, i: int) {
    && AddressRow(f.name) == i
    && f.schema == (if i == 0 then Optional(Context(0, SequenceOf(Utf8)))
                    else if i == 1 then Optional(TEXT_CHOICE) else if i < 0 then Utf8 else Optional(Context(i, Utf8)))
  }

  lemma AddressHead()
    ensures |ADDRESS_FIELDS| == 10
    ensures AddressField(ADDRESS_FIELDS[0], 0) && AddressField(ADDRESS_FIELDS[1], 1)
    ensures AddressField(ADDRESS_FIELDS[2], 2) && AddressField(ADDRESS_FIELDS[3], 3)
    ensures AddressField(ADDRESS_FIELDS[4], 4)
  {
    hide TEXT_CHOICE;
  }

  lemma AddressTail()
    ensures |ADDRESS_FIELDS| == 10
    ensures AddressField(ADDRESS_FIELDS[5], 5) && AddressField(ADDRESS_FIELDS[6], 6)
    ensures AddressField(ADDRESS_FIELDS[7], 7) && AddressField(ADDRESS_FIELDS[8], 8)
    ensures AddressField(ADDRESS_FIELDS[9], 9)
  {
    hide TEXT_CHOICE;
  }

  lemma AddressShape()
    ensures |ADDRESS_FIELDS| == 10
    ensures forall i :: 0 <= i < 10 ==> AddressField(ADDRESS_FIELDS[i], i)
  {
    hide ADDRESS_FIELDS, AddressField;
    AddressHead();
    AddressTail();
  }

  lemma AddressSound()
    ensures Sound(Struct(ADDRESS_FIELDS))
  {
    hide ADDRESS_FIELDS, Sound;
    AddressShape();
    RowsDistinct(ADDRESS_FIELDS, AddressRow);
    BareChoiceSound(ADDRESS_FIELDS);
  }

  /** A member with its position as tag, a distinctive name and a known payload. */
  ghost predicate TaggedField(f: Field, i: int, row: string -> int, payloads: set<Schema>) {
    row(f.name) == i && 0 <= i && TagOf(f.schema) == Some(i) && Untagged(f.schema) in payloads
  }

  lemma TaggedFieldsSound(fields: seq<Field>, row: string -> int, payloads: set<Schema>)
    requires forall i :: 0 <= i < |fields| ==> TaggedField(fields[i], i, row, payloads)
    requires forall s :: s in payloads ==> Sound(s)
    ensures Sound(Struct(fields))
  {
    hide Sound;
    RowsDistinct(fields, row);
    PositionalSound(fields);
  }

  ghost predicate ContactField(f: Field, i: int) {
    TaggedField(f, i, ContactRow, {Utf8, SequenceOf(Struct(OTHER_CONTACT_FIELDS))})
  }

  lemma ContactHead()
    ensures |CONTACT_DETAILS_FIELDS| == 12
    ensures ContactField(CONTACT_DETAILS_FIELDS[0], 0) && ContactField(CONTACT_DETAILS_FIELDS[1], 1)
    ensures ContactField(CONTACT_DETAILS_FIELDS[2], 2) && ContactField(CONTACT_DETAILS_FIELDS[3], 3)
  {
    hide OTHER_CONTACT_FIELDS;
  }

  lemma ContactMiddle()
    ensures |CONTACT_DETAILS_FIELDS| == 12
    ensures ContactField(CONTACT_DETAILS_FIELDS[4], 4) && ContactField(CONTACT_DETAILS_FIELDS[5], 5)
    ensures ContactField(CONTACT_DETAILS_FIELDS[6], 6) && ContactField(CONTACT_DETAILS_FIELDS[7], 7)
  {
    hide OTHER_CONTACT_FIELDS;
  }

  lemma ContactTail()
    ensures |CONTACT_DETAILS_FIELDS| == 12
    ensures ContactField(CONTACT_DETAILS_FIELDS[8], 8) && ContactField(CONTACT_DETAILS_FIELDS[9], 9)
    ensures ContactField(CONTACT_DETAILS_FIELDS[10], 10) && ContactField(CONTACT_DETAILS_FIELDS[11], 11)
  {
    hide OTHER_CONTACT_FIELDS;
  }

  lemma ContactShape()
    ensures |CONTACT_DETAILS_FIELDS| == 12
    ensures forall i :: 0 <= i < 12 ==> ContactField(CONTACT_DETAILS_FIELDS[i], i)
  {
    hide CONTACT_DETAILS_FIELDS, ContactField;
    ContactHead();
    ContactMiddle();
    ContactTail();
  }

  lemma OtherContactSound()
    ensures Sound(Struct(OTHER_CONTACT_FIELDS))
  {
    PositionalSound(OTHER_CONTACT_FIELDS);
  }

  lemma LeavesSound()
    ensures Sound(Utf8) && Sound(Oid) && Sound(OctetString) && Sound(Date)
  {
  }

  lemma ContactSound()
    ensures Sound(Struct(CONTACT_DETAILS_FIELDS))
  {
    hide CONTACT_DETAILS_FIELDS, OTHER_CONTACT_FIELDS, Sound, TaggedField;
    OtherContactSound();
    LeavesSound();
    ListSound(Struct(OTHER_CONTACT_FIELDS));
    ContactShape();
    TaggedFieldsSound(CONTACT_DETAILS_FIELDS, ContactRow, {Utf8, SequenceOf(Struct(OTHER_CONTACT_FIELDS))});
  }

  lemma IdentificationSound()
    ensures Sound(Struct(IDENTIFICATION_FIELDS))
  {
    var fields := IDENTIFICATION_FIELDS;
    TextChoiceSound();
    SecondTextDominated();
    assert Disjoint(Context(1, Utf8), TEXT_CHOICE);
    assert Disjoint(fields[1].schema, fields[2].schema);
    MembersUnambiguous(fields);
  }

  lemma EntityTypeSound()
    ensures Sound(Struct(ENTITY_TYPE_FIELDS))
  {
    hide IDENTIFICATION_FIELDS, Sound;
    IdentificationSound();
    ListSound(Struct(IDENTIFICATION_FIELDS));
    PositionalSound(ENTITY_TYPE_FIELDS);
  }

  lemma ReferenceSound()
    ensures Sound(Struct(REFERENCE_FIELDS))
  {
    RequiredSound(EXTERNAL_REFERENCE_FIELDS);
    RequiredSound(DIGEST_INFO_FIELDS);
    assert Sound(Oid);
    hide EXTERNAL_REFERENCE_FIELDS, DIGEST_INFO_FIELDS, Sound;
    RequiredSound(REFERENCE_FIELDS);
  }

  ghost predicate DocumentField(f: Field, i: int) {
    TaggedField(f, i, DocumentRow, {Utf8, Date, Struct(REFERENCE_FIELDS), Struct(ADDRESS_FIELDS)})
  }

  lemma DocumentImages()
    ensures |DOCUMENT_FIELDS| == 21
    ensures DocumentField(DOCUMENT_FIELDS[0], 0) && DocumentField(DOCUMENT_FIELDS[1], 1)
    ensures DocumentField(DOCUMENT_FIELDS[2], 2) && DocumentField(DOCUMENT_FIELDS[3], 3)
  {
    hide REFERENCE_FIELDS, ADDRESS_FIELDS;
  }

  lemma DocumentNames()
    ensures |DOCUMENT_FIELDS| == 21
    ensures DocumentField(DOCUMENT_FIELDS[4], 4) && DocumentField(DOCUMENT_FIELDS[5], 5)
    ensures DocumentField(DOCUMENT_FIELDS[6], 6) && DocumentField(DOCUMENT_FIELDS[7], 7)
  {
    hide REFERENCE_FIELDS, ADDRESS_FIELDS;
  }

  lemma DocumentDates()
    ensures |DOCUMENT_FIELDS| == 21
    ensures DocumentField(DOCUMENT_FIELDS[8], 8) && DocumentField(DOCUMENT_FIELDS[9], 9)
    ensures DocumentField(DOCUMENT_FIELDS[10], 10) && DocumentField(DOCUMENT_FIELDS[11], 11)
  {
    hide REFERENCE_FIELDS, ADDRESS_FIELDS;
  }

  lemma DocumentIssuer()
    ensures |DOCUMENT_FIELDS| == 21
    ensures DocumentField(DOCUMENT_FIELDS[12], 12) && DocumentField(DOCUMENT_FIELDS[13], 13)
    ensures DocumentField(DOCUMENT_FIELDS[14], 14) && DocumentField(DOCUMENT_FIELDS[15], 15)
    ensures DocumentField(DOCUMENT_FIELDS[16], 16)
  {
    hide REFERENCE_FIELDS, ADDRESS_FIELDS;
  }

  lemma DocumentRegistry()
    ensures |DOCUMENT_FIELDS| == 21
    ensures DocumentField(DOCUMENT_FIELDS[17], 17) && DocumentField(DOCUMENT_FIELDS[18], 18)
    ensures DocumentField(DOCUMENT_FIELDS[19], 19) && DocumentField(DOCUMENT_FIELDS[20], 20)
  {
    hide REFERENCE_FIELDS, ADDRESS_FIELDS;
  }

  lemma DocumentShape()
    ensures |DOCUMENT_FIELDS| == 21
    ensures forall i :: 0 <= i < 21 ==> DocumentField(DOCUMENT_FIELDS[i], i)
  {
    hide DOCUMENT_FIELDS, DocumentField;
    DocumentImages();
    DocumentNames();
    DocumentDates();
    DocumentIssuer();
    DocumentRegistry();
  }

  lemma DocumentSound()
    ensures Sound(Struct(DOCUMENT_FIELDS))
  {
    hide DOCUMENT_FIELDS, REFERENCE_FIELDS, ADDRESS_FIELDS, Sound, TaggedField;
    ReferenceSound();
    AddressSound();
    LeavesSound();
    DocumentShape();
    TaggedFieldsSound(DOCUMENT_FIELDS, DocumentRow, {Utf8, Date, Struct(REFERENCE_FIELDS), Struct(ADDRESS_FIELDS)});
  }

  lemma BirthSound()
    ensures Sound(Struct(BIRTH_FIELDS))
  {
    PositionalSound(BIRTH_FIELDS);
  }

  lemma GeneratedSchemasSound(token: string)
    requires AttributeSchema(token).Some?
    ensures Sound(AttributeSchema(token).value)
  {
    hide Sound;
    AddressSound();
    ContactSound();
    BirthSound();
    DocumentSound();
    EntityTypeSound();
  }

  // ---- The structured codec -------------------------------------------------

  function EncodeStructured(token: string, v: Value, cal: Calendar): Option<Asn1> {
    match AttributeSchema(token) case None => None case Some(s) => Encode(v, s, cal)
  }

  // A certificate issued before context tags were added is read by the
  // tag-stripped schema, and only when the current one rejects it.
  function DecodeStructured(token: string, a: Asn1, stripTags: Schema -> Schema, cal: Calendar): Option<Value> {
    match AttributeSchema(token)
    case None => None
    case Some(s) =>
      var current := Decode(a, s, cal);
      if current.Some? then current else Decode(a, stripTags(s), cal)
  }

  /** For every attribute token and every value the encoder accepts: decoding
      gives its normal form, whatever the legacy schema would have read, and that
      normal form is accepted again and decodes to itself. */
  lemma AttributeRoundTrip(token: string, v: Value, stripTags: Schema -> Schema, cal: Calendar)
    requires cal.Lawful() && EncodeStructured(token, v, cal).Some?
    ensures
      var normal := Normal(v, AttributeSchema(token).value, cal);
      && DecodeStructured(token, EncodeStructured(token, v, cal).value, stripTags, cal) == Some(normal)
      && EncodeStructured(token, normal, cal).Some?
      && DecodeStructured(token, EncodeStructured(token, normal, cal).value, stripTags, cal) == Some(normal)
  {
    hide Unambiguous, UniformChoices, Encode, Decode, Normal, AttributeSchema;
    var s := AttributeSchema(token).value;
    GeneratedSchemasSound(token);
    RoundTrip(v, s, cal);
    NormalIsStable(v, s, cal);
    RoundTrip(Normal(v, s, cal), s, cal);
  }

  /** For every attribute token, the decoder reads every tree of the schema's shape,
      and encoding what it reads gives that tree back. */
  lemma AttributeTreesReturn(token: string, a: Asn1, stripTags: Schema -> Schema, cal: Calendar)
    requires AttributeSchema(token).Some? && Shaped(a, AttributeSchema(token).value, cal) && ExactDates(a, cal)
    ensures DecodeStructured(token, a, stripTags, cal).Some?
    ensures EncodeStructured(token, DecodeStructured(token, a, stripTags, cal).value, cal) == Some(a)
  {
    hide Unambiguous, UniformChoices, Encode, Decode, Shaped, ExactDates, AttributeSchema;
    GeneratedSchemasSound(token);
    DecodeThenEncode(a, AttributeSchema(token).value, cal);
  }

  // ---- Certificates issued before context tags ------------------------------

  const UNTAGGED_BIRTH_FIELDS: seq<Field> := [
    Field("birthDate", Date),
    Field("cityOfBirth", Utf8),
    Field("countryOfBirth", Utf8),
    Field("provinceOfBirth", Optional(Utf8))
  ]

  /** A date and place of birth encoded without tags is rejected by the current
      schema and read by the stripped one. */
  lemma LegacyBirthReads(v: Value, stripTags: Schema -> Schema, cal: Calendar)
    requires cal.Lawful() && Encode(v, Struct(UNTAGGED_BIRTH_FIELDS), cal).Some?
    requires stripTags(Struct(BIRTH_FIELDS)) == Struct(UNTAGGED_BIRTH_FIELDS)
    ensures
      var legacy := Struct(UNTAGGED_BIRTH_FIELDS);
      DecodeStructured("DateAndPlaceOfBirth", Encode(v, legacy, cal).value, stripTags, cal) == Some(Normal(v, legacy, cal))
  {
    var legacy := Struct(UNTAGGED_BIRTH_FIELDS);
    UntaggedBirthUnambiguous();
    RoundTrip(v, legacy, cal);
    TaggedBirthRejects(v, cal);
    hide BIRTH_FIELDS, UNTAGGED_BIRTH_FIELDS, Encode, Decode;
    assert "DateAndPlaceOfBirth" != "Address" && "DateAndPlaceOfBirth" != "ContactDetails";
    assert AttributeSchema("DateAndPlaceOfBirth") == Some(Struct(BIRTH_FIELDS));
  }

  lemma UntaggedBirthUnambiguous()
    ensures Unambiguous(Struct(UNTAGGED_BIRTH_FIELDS))
  {
    MembersUnambiguous(UNTAGGED_BIRTH_FIELDS);
  }

  lemma TaggedBirthRejects(v: Value, cal: Calendar)
    requires Encode(v, Struct(UNTAGGED_BIRTH_FIELDS), cal).Some?
    ensures Decode(Encode(v, Struct(UNTAGGED_BIRTH_FIELDS), cal).value, Struct(BIRTH_FIELDS), cal).None?
  {
    var items := EncodeFields(v.members, UNTAGGED_BIRTH_FIELDS, cal).value;
    assert UNTAGGED_BIRTH_FIELDS[0].schema == Date && !Date.Optional?;
    assert items != [] && items[0].DateLeaf?;
    assert BIRTH_FIELDS[0].schema == Context(0, Date);
    assert Decode(items[0], BIRTH_FIELDS[0].schema, cal).None?;
    assert MatchTuple(items, BIRTH_FIELDS, cal).None?;
  }
}
