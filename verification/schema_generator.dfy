/** The build-time generator that compiles named type definitions into schema
    builder functions. */
module SchemaGeneratorModel {
  import opened Wrappers
  import opened Text
  import opened SnakeNames

  datatype FieldDef = FieldDef(typeName: string, optional: bool)
  datatype StructDef = StructDef(order: seq<string>, fields: map<string, FieldDef>)
  datatype AttributeDef = AttributeDef(typeName: string, body: StructDef)

  // A choice is the list of its alternatives' types, in table order.
  datatype Tables = Tables(
    primitives: map<string, string>,
    choices: map<string, seq<string>>,
    enumerations: set<string>,
    sequences: map<string, StructDef>,
    extStructs: map<string, StructDef>,
    attributes: map<string, AttributeDef>)

  // A generated schema expression.
  datatype Expr =
    | Leaf(keyword: string)
    | SequenceOf(element: Expr)
    | Context(index: nat, inner: Expr)
    | Optional(inner: Expr)
    | Choice(alternatives: seq<Expr>)
    | Struct(members: seq<(string, Expr)>)
    | Call(builder: string)

  const SEQUENCE_OF := "SEQUENCE OF "
  const KEYWORDS: map<string, Expr> := map[
    "UTF8String" := Leaf("Utf8"),
    "GeneralizedTime" := Leaf("Date"),
    "OBJECT IDENTIFIER" := Leaf("Oid"),
    "OCTET STRING" := Leaf("OctetString")]

  function IsNamed(t: Tables, k: string): bool {
    k in t.choices || k in t.sequences || k in t.extStructs
  }

  function IsSequenceAttribute(t: Tables, k: string): bool {
    k in t.attributes && t.attributes[k].typeName == "SEQUENCE"
  }

  /** Type tables with a rank that every alias, and every step to the element of a
      SEQUENCE OF, lowers: one exists exactly when no alias chain is cyclic. */
  datatype RawGrammar = RawGrammar(tables: Tables, rank: string -> nat) {
    ghost predicate Acyclic() {
      && (forall s: string :: rank(Trim(s)) < rank(SEQUENCE_OF + s))
      && (forall k :: k in tables.primitives ==> rank(Trim(tables.primitives[k])) < rank(k))
      && (forall k :: k in tables.attributes && !IsSequenceAttribute(tables, k) ==>
            rank(Trim(tables.attributes[k].typeName)) < rank(k))
    }
  }

  type Grammar = g: RawGrammar | g.Acyclic()
    ghost witness RawGrammar(Tables(map[], map[], {}, map[], map[], map[]), (s: string) => |s|)

  // ---- What the generator computes ------------------------------------------

  /** The expression for a type used as a member; None where the generator panics. */
  ghost function MemberOf(g: Grammar, typeName: string): Option<Expr>
    decreases g.rank(Trim(typeName))
  {
    var k := Trim(typeName);
    if StartsWith(k, SEQUENCE_OF) then
      assert k == SEQUENCE_OF + k[|SEQUENCE_OF|..];
      match MemberOf(g, k[|SEQUENCE_OF|..]) case None => None case Some(e) => Some(SequenceOf(e))
    else if k in KEYWORDS then Some(KEYWORDS[k])
    else if IsNamed(g.tables, k) then Some(Call(BuilderName(k)))
    else if k in g.tables.enumerations then Some(Leaf("Utf8"))
    else if k in g.tables.primitives then MemberOf(g, g.tables.primitives[k])
    else if k in g.tables.attributes then
      if IsSequenceAttribute(g.tables, k) then Some(Call(BuilderName(k))) else MemberOf(g, g.tables.attributes[k].typeName)
    else None
  }

  ghost function IsChoiceOf(g: Grammar, typeName: string): bool
    decreases g.rank(Trim(typeName))
  {
    var k := Trim(typeName);
    if k in g.tables.choices then true
    else if k in g.tables.primitives then IsChoiceOf(g, g.tables.primitives[k])
    else if k in g.tables.attributes && !IsSequenceAttribute(g.tables, k) then IsChoiceOf(g, g.tables.attributes[k].typeName)
    else false
  }

  ghost function ChoiceParts(g: Grammar, alternatives: seq<string>): Option<seq<Expr>>
    decreases |alternatives|
  {
    if alternatives == [] then Some([])
    else
      var n := |alternatives| - 1;
      match (ChoiceParts(g, alternatives[..n]), MemberOf(g, alternatives[n]))
      case (Some(front), Some(e)) => Some(front + [Context(n, e)])
      case _ => None
  }

  function HasOptional(def: StructDef): bool {
    exists i :: 0 <= i < |def.order| && def.order[i] in def.fields && def.fields[def.order[i]].optional
  }

  function Positioned(e: Expr, isChoice: bool, hasOptional: bool, index: nat, optional: bool): Expr {
    var positioned := if isChoice then e else if hasOptional then Context(index, e) else e;
    if optional then Optional(positioned) else positioned
  }

  ghost function MemberAt(g: Grammar, def: StructDef, i: nat): Option<(string, Expr)>
    requires i < |def.order|
  {
    var name := def.order[i];
    if name !in def.fields then None
    else
      var field := def.fields[name];
      match MemberOf(g, field.typeName)
      case None => None
      case Some(e) =>
        Some((name, Positioned(e, IsChoiceOf(g, field.typeName), HasOptional(def), i, field.optional)))
  }

  /** The first `n` members of a struct. */
  ghost function StructParts(g: Grammar, def: StructDef, n: nat): Option<seq<(string, Expr)>>
    requires n <= |def.order|
    decreases n
  {
    if n == 0 then Some([])
    else
      match (StructParts(g, def, n - 1), MemberAt(g, def, n - 1))
      case (Some(front), Some(member)) => Some(front + [member])
      case _ => None
  }

  function StructDefOf(t: Tables, k: string): Option<StructDef> {
    if k in t.sequences then Some(t.sequences[k])
    else if k in t.extStructs then Some(t.extStructs[k])
    else if k in t.attributes then Some(t.attributes[k].body)
    else None
  }

  /** The body of the builder for a named struct or choice. */
  ghost function BodyOf(g: Grammar, k: string): Option<Expr>
  {
    if k in g.tables.choices then
      match ChoiceParts(g, g.tables.choices[k]) case None => None case Some(parts) => Some(Choice(parts))
    else
      match StructDefOf(g.tables, k)
      case None => None
      case Some(def) =>
        match StructParts(g, def, |def.order|) case None => None case Some(members) => Some(Struct(members))
  }

  function Calls(e: Expr): set<string> {
    match e
    case Leaf(_) => {}
    case SequenceOf(x) => Calls(x)
    case Context(_, x) => Calls(x)
    case Optional(x) => Calls(x)
    case Choice(xs) => set i, b | 0 <= i < |xs| && b in Calls(xs[i]) :: b
    case Struct(ms) => set i, b | 0 <= i < |ms| && b in Calls(ms[i].1) :: b
    case Call(b) => {b}
  }

  /** The types that get a builder. */
  function BuilderTypes(t: Tables): set<string> {
    t.choices.Keys + t.sequences.Keys + t.extStructs.Keys + set k | k in t.attributes && IsSequenceAttribute(t, k)
  }

  function BuilderNames(t: Tables): set<string> {
    set k | k in BuilderTypes(t) :: BuilderName(k)
  }

  // ---- Choices are recognised exactly ---------------------------------------

  ghost predicate DistinctBuilders(t: Tables) {
    forall j, k :: j in BuilderTypes(t) && k in BuilderTypes(t) && BuilderName(j) == BuilderName(k) ==> j == k
  }

  /** No name means two things, and no two types share a builder name. */
  ghost predicate Unambiguous(t: Tables) {
    var keys := BuilderTypes(t);
    && (forall k :: k in keys + t.primitives.Keys + t.attributes.Keys + t.enumerations ==>
          k !in KEYWORDS && !StartsWith(k, SEQUENCE_OF))
    && t.choices.Keys !! t.sequences.Keys !! t.extStructs.Keys !! t.primitives.Keys !! t.enumerations !! t.attributes.Keys
    && DistinctBuilders(t)
  }

  /** A type is recognised as a choice exactly when the expression it compiles to
      is a call of a choice's builder. */
  lemma {:induction false} ChoiceRecognisedIff(g: Grammar, typeName: string)
    requires Unambiguous(g.tables)
    ensures IsChoiceOf(g, typeName) <==>
            exists k :: k in g.tables.choices && MemberOf(g, typeName) == Some(Call(BuilderName(k)))
    decreases g.rank(Trim(typeName))
  {
    var k := Trim(typeName);
    if StartsWith(k, SEQUENCE_OF) || k in KEYWORDS {
    } else if IsNamed(g.tables, k) {
      assert k in BuilderTypes(g.tables);
    } else if k in g.tables.enumerations {
    } else if k in g.tables.primitives {
      ChoiceRecognisedIff(g, g.tables.primitives[k]);
    } else if k in g.tables.attributes {
      if IsSequenceAttribute(g.tables, k) {
        assert k in BuilderTypes(g.tables);
      } else {
        ChoiceRecognisedIff(g, g.tables.attributes[k].typeName);
      }
    }
  }

  // ---- The generator --------------------------------------------------------

  ghost predicate DistinctNames(builders: seq<(string, Expr)>) {
    forall i, j :: 0 <= i < j < |builders| ==> builders[i].0 != builders[j].0
  }

  function Defined(builders: seq<(string, Expr)>): set<string> {
    set i | 0 <= i < |builders| :: builders[i].0
  }

  function CalledBy(builders: seq<(string, Expr)>): set<string> {
    set i, b | 0 <= i < |builders| && b in Calls(builders[i].1) :: b
  }

  /** `entry` is the builder of some named type, with that type's own body. */
  ghost predicate BuildsType(g: Grammar, entry: (string, Expr))
  {
    exists k :: k in BuilderTypes(g.tables) && entry.0 == BuilderName(k) && BodyOf(g, k) == Some(entry.1)
  }

  /** Builders are defined once, under a visited name, with their type's body,
      and call only visited builders. */
  ghost predicate Inv(g: Grammar, visited: set<string>, builders: seq<(string, Expr)>) {
    && visited <= BuilderNames(g.tables)
    && Defined(builders) <= visited
    && DistinctNames(builders)
    && CalledBy(builders) <= visited
    && forall i :: 0 <= i < |builders| ==> BuildsType(g, builders[i])
  }

  /** Every call `e` makes is of a name in `scope`. */
  ghost predicate Within(e: Expr, scope: iset<string>) {
    forall b :: b in Calls(e) ==> b in scope
  }

  /** The types whose builders are named in `scope` have bodies, whose calls stay
      in `scope`. */
  ghost predicate KnownWithin(g: Grammar, scope: iset<string>)
  {
    forall k :: k in BuilderTypes(g.tables) && BuilderName(k) in scope ==>
      BodyOf(g, k).Some? && Within(BodyOf(g, k).value, scope)
  }

  /** What compiling an expression that makes `calls` adds: builders that this
      expression or one of them calls, leaving open only what was open before. */
  ghost predicate Grew(v0: set<string>, b0: seq<(string, Expr)>, v1: set<string>, b1: seq<(string, Expr)>, calls: set<string>) {
    && v0 <= v1 && b0 <= b1
    && v1 - Defined(b1) == v0 - Defined(b0)
    && calls <= v1
    && v1 - v0 <= calls + CalledBy(b1[|b0|..])
  }

  lemma CalledByAppend(a: seq<(string, Expr)>, b: seq<(string, Expr)>)
    ensures CalledBy(a + b) == CalledBy(a) + CalledBy(b)
    ensures Defined(a + b) == Defined(a) + Defined(b)
  {
    var ab := a + b;
    forall x ensures x in CalledBy(ab) <==> x in CalledBy(a) + CalledBy(b) {
      if x in CalledBy(a) {
        var i :| 0 <= i < |a| && x in Calls(a[i].1);
        assert ab[i] == a[i];
      }
      if x in CalledBy(b) {
        var i :| 0 <= i < |b| && x in Calls(b[i].1);
        assert ab[|a| + i] == b[i];
      }
    }
    forall x ensures x in Defined(ab) <==> x in Defined(a) + Defined(b) {
      if x in Defined(a) {
        var i :| 0 <= i < |a| && a[i].0 == x;
        assert ab[i] == a[i];
      }
      if x in Defined(b) {
        var i :| 0 <= i < |b| && b[i].0 == x;
        assert ab[|a| + i] == b[i];
      }
    }
  }

  lemma GrewTwice(
    v0: set<string>, b0: seq<(string, Expr)>, v1: set<string>, b1: seq<(string, Expr)>,
    v2: set<string>, b2: seq<(string, Expr)>, c1: set<string>, c2: set<string>)
    requires Grew(v0, b0, v1, b1, c1) && Grew(v1, b1, v2, b2, c2)
    ensures Grew(v0, b0, v2, b2, c1 + c2)
  {
    hide CalledBy, Defined;
    assert b2[|b0|..] == b1[|b0|..] + b2[|b1|..];
    CalledByAppend(b1[|b0|..], b2[|b1|..]);
    assert v2 - v0 == (v2 - v1) + (v1 - v0);
  }

  lemma OneEntry(entry: (string, Expr))
    ensures CalledBy([entry]) == Calls(entry.1) && Defined([entry]) == {entry.0}
  {
    assert [entry][0] == entry;
  }

  lemma NewNameDistinct(builders: seq<(string, Expr)>, entry: (string, Expr))
    requires DistinctNames(builders) && entry.0 !in Defined(builders)
    ensures DistinctNames(builders + [entry])
  {
    assert forall i :: 0 <= i < |builders| ==> builders[i].0 in Defined(builders);
  }

  /** Finishing a builder closes it and nothing else. */
  lemma Closed(
    g: Grammar, v0: set<string>, b0: seq<(string, Expr)>,
    v2: set<string>, b2: seq<(string, Expr)>, k: string, body: Expr)
    requires Inv(g, v0, b0) && Inv(g, v2, b2)
    requires k in BuilderTypes(g.tables) && BuilderName(k) !in v0 && BodyOf(g, k) == Some(body)
    requires Grew(v0 + {BuilderName(k)}, b0, v2, b2, Calls(body))
    ensures Inv(g, v2, b2 + [(BuilderName(k), body)])
    ensures Grew(v0, b0, v2, b2 + [(BuilderName(k), body)], {BuilderName(k)})
  {
    hide CalledBy, Defined, DistinctNames, BodyOf, BuilderTypes, BuilderNames;
    var name := BuilderName(k);
    var entry := (name, body);
    var b3 := b2 + [entry];
    OneEntry(entry);
    CalledByAppend(b2, [entry]);
    assert b3[|b0|..] == b2[|b0|..] + [entry];
    CalledByAppend(b2[|b0|..], [entry]);
    assert name !in Defined(b2) && name in v2 by {
      assert name in v0 + {name} - Defined(b0);
    }
    NewNameDistinct(b2, entry);
    assert BuildsType(g, entry);
    assert v2 - Defined(b3) == (v0 + {name} - Defined(b0)) - {name} == v0 - Defined(b0);
    assert b0 <= b3 by { assert b3[..|b0|] == b2[..|b0|] == b0; }
    assert v2 - v0 == {name} + (v2 - (v0 + {name}));
  }

  lemma KeywordCalls(k: string)
    requires k in KEYWORDS
    ensures Calls(KEYWORDS[k]) == {}
  {
  }

  lemma Still(v: set<string>, b: seq<(string, Expr)>)
    ensures Grew(v, b, v, b, Calls(Choice([]))) && Grew(v, b, v, b, Calls(Struct([])))
    ensures Grew(v, b, v, b, {})
  {
  }

  lemma GrowthKeepsVisited(v0: set<string>, b0: seq<(string, Expr)>, v1: set<string>, b1: seq<(string, Expr)>, calls: set<string>, all: set<string>)
    requires Grew(v0, b0, v1, b1, calls)
    ensures |all - v1| <= |all - v0|
  {
    SetSizes(all - v1, all - v0);
  }

  lemma FewerLeft(all: set<string>, v0: set<string>, v1: set<string>, name: string)
    requires name in all && name !in v0 && v0 + {name} <= v1
    ensures |all - v1| < |all - v0|
  {
    SetSizes(all - v1, all - v0 - {name});
  }

  lemma SetSizes(a: set<string>, b: set<string>)
    requires a <= b
    ensures |a| <= |b|
  {
    assert b == a + (b - a);
  }

  class SchemaGenerator {
    const tables: Tables
    ghost const g: Grammar
    // Where every type is known, nothing fails.
    ghost const scope: iset<string>
    var visited: set<string>
    var builders: seq<(string, Expr)>

    ghost predicate Valid()
      reads this
    {
      g.tables == tables && Inv(g, visited, builders)
    }

    ghost function Remaining(): nat
      reads this
    {
      |BuilderNames(tables) - visited|
    }

    constructor (tables: Tables, ghost g: Grammar, ghost scope: iset<string>)
      requires g.tables == tables
      ensures this.tables == tables && this.g == g && this.scope == scope && visited == {} && builders == [] && Valid()
    {
      this.tables := tables;
      this.g := g;
      this.scope := scope;
      visited := {};
      builders := [];
    }

    method MemberExpr(typeName: string) returns (r: Option<Expr>)
      requires Valid()
      modifies this
      ensures r.Some? ==> r == MemberOf(g, typeName) && Valid()
      ensures r.Some? ==> Grew(old(visited), old(builders), visited, builders, Calls(r.value))
      ensures KnownWithin(g, scope) && MemberOf(g, typeName).Some? && Within(MemberOf(g, typeName).value, scope) ==> r.Some?
      decreases Remaining(), g.rank(Trim(typeName)) + 1, 0
    {
      hide Inv, Grew, KnownWithin, KEYWORDS, BuilderName, BuilderNames;
      var k := Trim(typeName);
      if StartsWith(k, SEQUENCE_OF) {
        assert k == SEQUENCE_OF + k[|SEQUENCE_OF|..];
        var element := MemberExpr(k[|SEQUENCE_OF|..]);
        return if element.Some? then Some(SequenceOf(element.value)) else None;
      }
      Still(visited, builders);
      if k in KEYWORDS {
        KeywordCalls(k);
        return Some(KEYWORDS[k]);
      }
      if IsNamed(tables, k) {
        var builder := EnsureBuilder(k);
        return if builder.Some? then Some(Call(builder.value)) else None;
      }
      if k in tables.enumerations {
        return Some(Leaf("Utf8"));
      }
      if k in tables.primitives {
        r := MemberExpr(tables.primitives[k]);
        return;
      }
      if k in tables.attributes {
        if IsSequenceAttribute(tables, k) {
          var builder := EnsureBuilder(k);
          return if builder.Some? then Some(Call(builder.value)) else None;
        }
        r := MemberExpr(tables.attributes[k].typeName);
        return;
      }
      return None;
    }

    /** Registers the builder of a named type the first time it is asked for. */
    method EnsureBuilder(k: string) returns (r: Option<string>)
      requires Valid() && k in BuilderTypes(tables)
      modifies this
      ensures r.Some? ==> r.value == BuilderName(k) && Valid()
      ensures r.Some? ==> Grew(old(visited), old(builders), visited, builders, {r.value})
      ensures KnownWithin(g, scope) && BuilderName(k) in scope ==> r.Some?
      decreases Remaining(), 0, 3
    {
      var name := BuilderName(k);
      if name in visited {
        return Some(name);
      }
      visited := visited + {name};
      FewerLeft(BuilderNames(tables), old(visited), visited, name);
      var body := DefineBody(k);
      if body.None? {
        return None;
      }
      Closed(g, old(visited), old(builders), visited, builders, k, body.value);
      builders := builders + [(name, body.value)];
      return Some(name);
    }

    method DefineBody(k: string) returns (r: Option<Expr>)
      requires Valid() && k in BuilderTypes(tables)
      modifies this
      ensures r.Some? ==> r == BodyOf(g, k) && Valid()
      ensures r.Some? ==> Grew(old(visited), old(builders), visited, builders, Calls(r.value))
      ensures KnownWithin(g, scope) && BuilderName(k) in scope ==> r.Some?
      decreases Remaining() + 1, 0, 2
    {
      if k in tables.choices {
        r := ChoiceBody(tables.choices[k]);
        return;
      }
      var def := StructDefOf(tables, k);
      if def.None? {
        return None;
      }
      r := StructBody(def.value);
    }

    /** Each alternative under its own index as an explicit tag. */
    method ChoiceBody(alternatives: seq<string>) returns (r: Option<Expr>)
      requires Valid()
      modifies this
      ensures r.Some? ==> Valid() && ChoiceParts(g, alternatives).Some?
                          && r.value == Choice(ChoiceParts(g, alternatives).value)
      ensures r.Some? ==> Grew(old(visited), old(builders), visited, builders, Calls(r.value))
      ensures KnownWithin(g, scope) && ChoiceParts(g, alternatives).Some? && Within(Choice(ChoiceParts(g, alternatives).value), scope) ==> r.Some?
      decreases Remaining() + 1, 0, 1
    {
      hide Inv, Grew, Calls, MemberOf, BuilderNames, KnownWithin;
      var parts := [];
      Still(visited, builders);
      for i := 0 to |alternatives|
        invariant Valid() && ChoiceParts(g, alternatives[..i]) == Some(parts)
        invariant Grew(old(visited), old(builders), visited, builders, Calls(Choice(parts)))
      {
        ghost var v1, b1 := visited, builders;
        assert alternatives[..i + 1][..i] == alternatives[..i];
        GrowthKeepsVisited(old(visited), old(builders), visited, builders, Calls(Choice(parts)), BuilderNames(tables));
        var inner := MemberExpr(alternatives[i]);
        if inner.None? {
          if ChoiceParts(g, alternatives).Some? { ChoicePart(g, alternatives, i); }
          return None;
        }
        GrewTwice(old(visited), old(builders), v1, b1, visited, builders, Calls(Choice(parts)), Calls(inner.value));
        ChoiceCalls(parts, i, inner.value);
        parts := parts + [Context(i, inner.value)];
      }
      assert alternatives[..|alternatives|] == alternatives;
      return Some(Choice(parts));
    }

    /** Members carry their position as a tag when the struct has any optional
        member, except choices, which stay bare. */
    method StructBody(def: StructDef) returns (r: Option<Expr>)
      requires Valid()
      modifies this
      ensures r.Some? ==> Valid() && StructParts(g, def, |def.order|).Some?
                          && r.value == Struct(StructParts(g, def, |def.order|).value)
      ensures r.Some? ==> Grew(old(visited), old(builders), visited, builders, Calls(r.value))
      ensures KnownWithin(g, scope) && StructParts(g, def, |def.order|).Some? && Within(Struct(StructParts(g, def, |def.order|).value), scope) ==> r.Some?
      decreases Remaining() + 1, 0, 1
    {
      hide Inv, Grew, Calls, MemberAt, BuilderNames, KnownWithin;
      var hasOptional := HasOptional(def);
      var members := [];
      Still(visited, builders);
      for i := 0 to |def.order|
        invariant Valid() && StructParts(g, def, i) == Some(members)
        invariant Grew(old(visited), old(builders), visited, builders, Calls(Struct(members)))
      {
        ghost var v1, b1 := visited, builders;
        GrowthKeepsVisited(old(visited), old(builders), visited, builders, Calls(Struct(members)), BuilderNames(tables));
        var member := StructMember(def, i, hasOptional);
        if member.None? {
          if StructParts(g, def, |def.order|).Some? { StructPart(g, def, |def.order|, i); }
          return None;
        }
        GrewTwice(old(visited), old(builders), v1, b1, visited, builders, Calls(Struct(members)), Calls(member.value.1));
        StructCalls(members, member.value);
        members := members + [member.value];
      }
      return Some(Struct(members));
    }

    method StructMember(def: StructDef, index: nat, hasOptional: bool) returns (r: Option<(string, Expr)>)
      requires Valid() && index < |def.order| && hasOptional == HasOptional(def)
      modifies this
      ensures r.Some? ==> r == MemberAt(g, def, index) && Valid()
      ensures r.Some? ==> Grew(old(visited), old(builders), visited, builders, Calls(r.value.1))
      ensures KnownWithin(g, scope) && MemberAt(g, def, index).Some? && Within(MemberAt(g, def, index).value.1, scope) ==> r.Some?
      decreases Remaining() + 1, 0, 0
    {
      hide Inv, Grew, KnownWithin, Calls, Positioned, BuilderNames, BuilderTypes, MemberOf, IsChoiceOf, HasOptional;
      var name := def.order[index];
      if name !in def.fields {
        return None;
      }
      var field := def.fields[name];
      var isChoice := IsChoiceType(field.typeName);
      var inner := MemberExpr(field.typeName);
      if inner.None? {
        if MemberAt(g, def, index).Some? {
          PositionedCalls(MemberOf(g, field.typeName).value, isChoice, hasOptional, index, field.optional);
        }
        return None;
      }
      PositionedCalls(inner.value, isChoice, hasOptional, index, field.optional);
      return Some((name, Positioned(inner.value, isChoice, hasOptional, index, field.optional)));
    }

    method IsChoiceType(typeName: string) returns (r: bool)
      requires g.tables == tables
      ensures r == IsChoiceOf(g, typeName)
      decreases g.rank(Trim(typeName))
    {
      var k := Trim(typeName);
      if k in tables.choices {
        return true;
      }
      if k in tables.primitives {
        r := IsChoiceType(tables.primitives[k]);
        return;
      }
      if k in tables.attributes && !IsSequenceAttribute(tables, k) {
        r := IsChoiceType(tables.attributes[k].typeName);
        return;
      }
      return false;
    }
  }

  lemma {:induction false} ChoicePart(g: Grammar, alternatives: seq<string>, i: nat)
    requires i < |alternatives| && ChoiceParts(g, alternatives).Some?
    ensures MemberOf(g, alternatives[i]).Some?
    ensures Calls(MemberOf(g, alternatives[i]).value) <= Calls(Choice(ChoiceParts(g, alternatives).value))
    decreases |alternatives|
  {
    hide MemberOf, Calls;
    var n := |alternatives| - 1;
    var front := ChoiceParts(g, alternatives[..n]).value;
    ChoiceCalls(front, n, MemberOf(g, alternatives[n]).value);
    if i < n {
      ChoicePart(g, alternatives[..n], i);
    }
  }

  lemma {:induction false} StructPart(g: Grammar, def: StructDef, n: nat, i: nat)
    requires i < n <= |def.order| && StructParts(g, def, n).Some?
    ensures MemberAt(g, def, i).Some?
    ensures Calls(MemberAt(g, def, i).value.1) <= Calls(Struct(StructParts(g, def, n).value))
    decreases n
  {
    hide MemberAt, Calls;
    StructCalls(StructParts(g, def, n - 1).value, MemberAt(g, def, n - 1).value);
    if i < n - 1 {
      StructPart(g, def, n - 1, i);
    }
  }

  lemma PositionedCalls(e: Expr, isChoice: bool, hasOptional: bool, index: nat, optional: bool)
    ensures Calls(Positioned(e, isChoice, hasOptional, index, optional)) == Calls(e)
  {
  }

  lemma ChoiceCalls(parts: seq<Expr>, index: nat, inner: Expr)
    ensures Calls(Choice(parts + [Context(index, inner)])) == Calls(Choice(parts)) + Calls(inner)
  {
    var last := Context(index, inner);
    var all := parts + [last];
    assert all[|parts|] == last && Calls(last) == Calls(inner);
    forall b ensures b in Calls(Choice(all)) <==> b in Calls(Choice(parts)) || b in Calls(inner) {
      if b in Calls(Choice(parts)) {
        var i :| 0 <= i < |parts| && b in Calls(parts[i]);
        assert all[i] == parts[i];
      }
    }
  }

  lemma StructCalls(members: seq<(string, Expr)>, last: (string, Expr))
    ensures Calls(Struct(members + [last])) == Calls(Struct(members)) + Calls(last.1)
  {
    var all := members + [last];
    assert all[|members|] == last;
    forall b ensures b in Calls(Struct(all)) <==> b in Calls(Struct(members)) || b in Calls(last.1) {
      if b in Calls(Struct(members)) {
        var i :| 0 <= i < |members| && b in Calls(members[i].1);
        assert all[i] == members[i];
      }
    }
  }

  // ---- The generated module -------------------------------------------------

  /** The builder names called from the tokens, directly or through the body of
      a type that gets one of these names. */
  least predicate Reached(g: Grammar, tokens: seq<string>, name: string) {
    || (exists i :: 0 <= i < |tokens| && MemberOf(g, tokens[i]).Some? && name in Calls(MemberOf(g, tokens[i]).value))
    || (exists k :: k in BuilderTypes(g.tables) && Reached(g, tokens, BuilderName(k))
                    && BodyOf(g, k).Some? && name in Calls(BodyOf(g, k).value))
  }

  /** A token, or something mentioned by a type reached from the tokens, is unknown. */
  ghost predicate ReachesUnknown(g: Grammar, tokens: seq<string>) {
    || (exists i :: 0 <= i < |tokens| && MemberOf(g, tokens[i]).None?)
    || (exists k :: k in BuilderTypes(g.tables) && Reached(g, tokens, BuilderName(k)) && BodyOf(g, k).None?)
  }

  lemma ReachedIsClosed(g: Grammar, tokens: seq<string>, scope: iset<string>)
    requires !ReachesUnknown(g, tokens)
    requires forall name :: name in scope <==> Reached(g, tokens, name)
    ensures KnownWithin(g, scope)
    ensures forall i :: 0 <= i < |tokens| ==> MemberOf(g, tokens[i]).Some? && Within(MemberOf(g, tokens[i]).value, scope)
  {
    hide MemberOf, BodyOf, Calls, BuilderTypes, BuilderName;
  }

  least lemma ReachedIsDefined(g: Grammar, tokens: seq<string>, name: string, arms: seq<(string, Expr)>, builders: seq<(string, Expr)>)
    requires Reached(g, tokens, name)
    requires |arms| == |tokens| && forall i :: 0 <= i < |arms| ==> MemberOf(g, tokens[i]) == Some(arms[i].1)
    requires forall i :: 0 <= i < |builders| ==> BuildsType(g, builders[i])
    requires CalledBy(arms) + CalledBy(builders) == Defined(builders) && DistinctBuilders(g.tables)
    ensures name in Defined(builders)
  {
    hide MemberOf, BodyOf, Calls, BuilderTypes, BuilderName, DistinctBuilders;
    if i :| 0 <= i < |tokens| && MemberOf(g, tokens[i]).Some? && name in Calls(MemberOf(g, tokens[i]).value) {
      assert name in CalledBy(arms);
    } else {
      var k :| k in BuilderTypes(g.tables) && Reached(g, tokens, BuilderName(k))
               && BodyOf(g, k).Some? && name in Calls(BodyOf(g, k).value);
      ReachedIsDefined(g, tokens, BuilderName(k), arms, builders);
      var i :| 0 <= i < |builders| && builders[i].0 == BuilderName(k);
      assert BuildsType(g, builders[i]);
      assert name in CalledBy(builders);
    }
  }

  lemma DefinedIsKnown(g: Grammar, tokens: seq<string>, arms: seq<(string, Expr)>, builders: seq<(string, Expr)>)
    requires |arms| == |tokens| && forall i :: 0 <= i < |arms| ==> MemberOf(g, tokens[i]) == Some(arms[i].1)
    requires forall i :: 0 <= i < |builders| ==> BuildsType(g, builders[i])
    requires CalledBy(arms) + CalledBy(builders) == Defined(builders) && DistinctBuilders(g.tables)
    ensures !ReachesUnknown(g, tokens)
  {
    hide MemberOf, BodyOf, Calls, BuilderTypes, BuilderName, CalledBy;
    forall k | k in BuilderTypes(g.tables) && Reached(g, tokens, BuilderName(k)) ensures BodyOf(g, k).Some? {
      ReachedIsDefined(g, tokens, BuilderName(k), arms, builders);
      var i :| 0 <= i < |builders| && builders[i].0 == BuilderName(k);
      assert BuildsType(g, builders[i]);
    }
  }

  /** One schema expression per structured token, and the builders they need. */
  method Generate(tables: Tables, tokens: seq<string>, ghost g: Grammar)
    returns (r: Option<(seq<(string, Expr)>, seq<(string, Expr)>)>)
    requires g.tables == tables
    // It fails only, and with distinct builder names exactly, when something unknown is reached.
    ensures r.None? ==> ReachesUnknown(g, tokens)
    ensures DistinctBuilders(tables) && ReachesUnknown(g, tokens) ==> r.None?
    ensures r.Some? ==>
              var (arms, builders) := r.value;
              && |arms| == |tokens|
              && (forall i :: 0 <= i < |arms| ==> arms[i].0 == tokens[i] && MemberOf(g, tokens[i]) == Some(arms[i].1))
              // Each builder is defined once, with its own type's body.
              && DistinctNames(builders)
              && (forall i :: 0 <= i < |builders| ==> BuildsType(g, builders[i]))
              // What is called is what is defined.
              && CalledBy(arms) + CalledBy(builders) == Defined(builders)
  {
    hide Inv, Grew, Calls, CalledBy, Defined, MemberOf, BuildsType, KnownWithin, Within, ReachesUnknown, DistinctBuilders;
    ghost var scope: iset<string> := iset name | Reached(g, tokens, name);
    var generator := new SchemaGenerator(tables, g, scope);
    var arms: seq<(string, Expr)> := [];
    NothingYet();
    if !ReachesUnknown(g, tokens) { ReachedIsClosed(g, tokens, scope); }
    for i := 0 to |tokens|
      invariant fresh(generator) && generator.tables == tables && generator.g == g && generator.scope == scope && generator.Valid()
      invariant |arms| == i
      invariant forall j :: 0 <= j < i ==> arms[j].0 == tokens[j] && MemberOf(g, tokens[j]) == Some(arms[j].1)
      invariant Grew({}, [], generator.visited, generator.builders, CalledBy(arms))
    {
      ghost var v1, b1 := generator.visited, generator.builders;
      var expr := generator.MemberExpr(tokens[i]);
      if expr.None? {
        return None;
      }
      var arm := (tokens[i], expr.value);
      GrewTwice({}, [], v1, b1, generator.visited, generator.builders, CalledBy(arms), Calls(expr.value));
      CalledByAppend(arms, [arm]);
      OneEntry(arm);
      arms := arms + [arm];
    }
    NothingOpen(g, generator.visited, generator.builders, CalledBy(arms));
    if DistinctBuilders(tables) { DefinedIsKnown(g, tokens, arms, generator.builders); }
    return Some((arms, generator.builders));
  }

  lemma NothingYet()
    ensures Grew({}, [], {}, [], CalledBy([]))
  {
  }

  lemma NothingOpen(g: Grammar, visited: set<string>, builders: seq<(string, Expr)>, calls: set<string>)
    requires Inv(g, visited, builders) && Grew({}, [], visited, builders, calls)
    ensures DistinctNames(builders) && forall i :: 0 <= i < |builders| ==> BuildsType(g, builders[i])
    ensures calls + CalledBy(builders) == Defined(builders)
  {
    assert builders[0..] == builders;
    var none: set<string> := {};
    assert visited - Defined(builders) == none;
    assert visited == Defined(builders) + (visited - Defined(builders));
  }

  // ---- What a call reaches --------------------------------------------------

  /** The body that a call of `name` runs. */
  ghost predicate Runs(builders: seq<(string, Expr)>, name: string, body: Option<Expr>) {
    exists i :: 0 <= i < |builders| && builders[i].0 == name && body == Some(builders[i].1)
  }

  /** A call meant for type `k` runs the body of `k`. */
  ghost predicate ReachesItsType(g: Grammar, builders: seq<(string, Expr)>, k: string) {
    k in BuilderTypes(g.tables) && BuilderName(k) in Defined(builders) ==> Runs(builders, BuilderName(k), BodyOf(g, k))
  }

  /** Types with one builder name, if it is in use, have one body. */
  ghost predicate Agree(g: Grammar, builders: seq<(string, Expr)>, j: string, k: string) {
    (&& j in BuilderTypes(g.tables) && k in BuilderTypes(g.tables)
     && BuilderName(j) == BuilderName(k) && BuilderName(k) in Defined(builders))
    ==> BodyOf(g, j) == BodyOf(g, k)
  }

  /** Every call reaches the body of the type that was meant exactly when no two
      types with one builder name in use have different bodies. */
  lemma CallsReachTheirTypesIff(g: Grammar, builders: seq<(string, Expr)>)
    requires DistinctNames(builders)
    requires forall i :: 0 <= i < |builders| ==> BuildsType(g, builders[i])
    ensures (forall k :: ReachesItsType(g, builders, k)) <==> (forall j, k :: Agree(g, builders, j, k))
  {
    hide ReachesItsType, Agree;
    if forall k :: ReachesItsType(g, builders, k) {
      forall j, k ensures Agree(g, builders, j, k) { BothReached(g, builders, j, k); }
    }
    if forall j, k :: Agree(g, builders, j, k) {
      forall k ensures ReachesItsType(g, builders, k) { AgreementReaches(g, builders, k); }
    }
  }

  lemma BothReached(g: Grammar, builders: seq<(string, Expr)>, j: string, k: string)
    requires DistinctNames(builders) && ReachesItsType(g, builders, j) && ReachesItsType(g, builders, k)
    ensures Agree(g, builders, j, k)
  {
    hide BodyOf, BuilderTypes, BuilderName, Runs, Defined;
    OneBodyEach(builders);
  }

  lemma AgreementReaches(g: Grammar, builders: seq<(string, Expr)>, k: string)
    requires forall i :: 0 <= i < |builders| ==> BuildsType(g, builders[i])
    requires forall j :: Agree(g, builders, j, k)
    ensures ReachesItsType(g, builders, k)
  {
    hide BodyOf, BuilderTypes, BuilderName;
    if k in BuilderTypes(g.tables) && BuilderName(k) in Defined(builders) {
      var i :| 0 <= i < |builders| && builders[i].0 == BuilderName(k);
      assert BuildsType(g, builders[i]);
      var j :| j in BuilderTypes(g.tables) && builders[i].0 == BuilderName(j) && BodyOf(g, j) == Some(builders[i].1);
      assert Agree(g, builders, j, k);
    }
  }

  lemma OneBodyEach(builders: seq<(string, Expr)>)
    requires DistinctNames(builders)
    ensures forall name, a, b :: Runs(builders, name, a) && Runs(builders, name, b) ==> a == b
  {
  }

  /** When no two types share a builder name, the one builder a call reaches holds
      the body of the type that was meant. */
  lemma CallReachesItsType(g: Grammar, builders: seq<(string, Expr)>, k: string) returns (i: nat)
    requires DistinctBuilders(g.tables) && DistinctNames(builders)
    requires forall j :: 0 <= j < |builders| ==> BuildsType(g, builders[j])
    requires k in BuilderTypes(g.tables) && BuilderName(k) in Defined(builders)
    ensures i < |builders| && BodyOf(g, k).Some? && builders[i] == (BuilderName(k), BodyOf(g, k).value)
    ensures forall j :: 0 <= j < |builders| && builders[j].0 == BuilderName(k) ==> j == i
  {
    hide BodyOf, BuilderTypes, BuilderName;
    i :| 0 <= i < |builders| && builders[i].0 == BuilderName(k);
    assert BuildsType(g, builders[i]);
  }

  /** Of two types with different bodies and one builder name in use, spelled as
      SnakeNames.NamesCollideIff says, calls run one and the same body, which
      then is not that of both. */
  lemma CollidingTypesMisbuilt(g: Grammar, builders: seq<(string, Expr)>, j: string, k: string) returns (t: string)
    requires DistinctNames(builders)
    requires forall i :: 0 <= i < |builders| ==> BuildsType(g, builders[i])
    requires SameButFirst(Camel(j), Camel(k)) && BodyOf(g, j) != BodyOf(g, k)
    requires BuilderName(j) in Defined(builders)
    ensures t in BuilderTypes(g.tables)
    ensures Runs(builders, BuilderName(j), BodyOf(g, t)) && Runs(builders, BuilderName(k), BodyOf(g, t))
    ensures !Runs(builders, BuilderName(j), BodyOf(g, j)) || !Runs(builders, BuilderName(k), BodyOf(g, k))
  {
    hide BodyOf, BuilderTypes, BuilderName;
    NamesCollideIff(j, k);
    OneBodyEach(builders);
    var i :| 0 <= i < |builders| && builders[i].0 == BuilderName(j);
    assert BuildsType(g, builders[i]);
    t :| t in BuilderTypes(g.tables) && builders[i].0 == BuilderName(t) && BodyOf(g, t) == Some(builders[i].1);
  }
}
