/** Collecting the external references of a decoded attribute: a stack walk that
    visits nodes in right-to-left preorder and never looks inside a reference. */
module References {
  import opened Wrappers
  import opened Json
  import SchemaCodec
  import SchemaRoundTrip

  const KEETA_CONTAINER_OID := "1.3.6.1.4.1.62675.2"
  const SHA3_256_OID := "2.16.840.1.101.3.4.2.8"
  const SHA2_256_OID := "2.16.840.1.101.3.4.2.1"

  datatype HashAlgorithm = Sha3_256 | Sha2_256

  datatype Error = UnsupportedDigestAlgorithm(oid: string) | UnsupportedEncryptionAlgorithm(oid: string)

  // Every supported reference is sealed in a Keeta container, version 1.
  datatype Reference = Reference(url: string, contentType: string, algorithm: HashAlgorithm, digest: Bytes)

  // The shared algorithm map lives in another crate; it is the parameter `known`,
  // from symbolic name to dotted OID.
  function DigestAlgorithm(known: map<string, string>, name: string): Result<HashAlgorithm, Error> {
    var dotted := if name in known then known[name] else SchemaCodec.OidFromName(name);
    if dotted == SHA3_256_OID then Ok(Sha3_256)
    else if dotted == SHA2_256_OID then Ok(Sha2_256)
    else Err(UnsupportedDigestAlgorithm(name))
  }

  predicate SupportedEncryption(name: string) {
    name == "KeetaEncryptedContainerV1" || name == KEETA_CONTAINER_OID
  }

  /** `external` and `digest` members that are both objects. */
  predicate IsReferenceShape(v: Value) {
    && Get(v, "external").Some? && Get(v, "external").value.Object?
    && Get(v, "digest").Some? && Get(v, "digest").value.Object?
  }

  datatype Parts = Parts(url: string, contentType: string, digestName: string, digest: Bytes, encryptionName: string)

  /** The strings and bytes of a well-formed reference node. */
  function PartsOf(v: Value): Option<Parts>
    requires IsReferenceShape(v)
  {
    var external, info := Get(v, "external").value, Get(v, "digest").value;
    var bytes := match Get(info, "digest") case Some(d) => SchemaCodec.BytesFromBufferJson(d) case None => None;
    match (GetStr(external, "url"), GetStr(external, "contentType"), GetStr(info, "digestAlgorithm"), bytes,
           GetStr(v, "encryptionAlgorithm"))
    case (Some(url), Some(contentType), Some(digestName), Some(digest), Some(encryptionName)) =>
      Some(Parts(url, contentType, digestName, digest, encryptionName))
    case _ => None
  }

  /** None for a malformed node; an error for an unknown algorithm. */
  function ParseReference(known: map<string, string>, v: Value): Result<Option<Reference>, Error>
    requires IsReferenceShape(v)
  {
    match PartsOf(v)
    case None => Ok(None)
    case Some(p) =>
      match DigestAlgorithm(known, p.digestName)
      case Err(e) => Err(e)
      case Ok(algorithm) =>
        if SupportedEncryption(p.encryptionName) then Ok(Some(Reference(p.url, p.contentType, algorithm, p.digest)))
        else Err(UnsupportedEncryptionAlgorithm(p.encryptionName))
  }

  // ---- The nodes visited ----------------------------------------------------

  type KeyOrder = map<string, Value> -> seq<string>

  /** `order` lists the keys of every object, each once, as its map iterates. */
  ghost predicate Enumerates(order: KeyOrder) {
    forall m ::
      && (forall k :: k in order(m) <==> k in m)
      && (forall i, j :: 0 <= i < j < |order(m)| ==> order(m)[i] != order(m)[j])
  }

  function Children(v: Value, order: KeyOrder): (r: seq<Value>)
    requires Enumerates(order)
    ensures forall i :: 0 <= i < |r| ==> r[i] < v
  {
    if IsReferenceShape(v) then []
    else
      match v
      case Object(m) =>
        var keys := order(m);
        assert forall i :: 0 <= i < |keys| ==> keys[i] in m;
        seq(|keys|, i requires 0 <= i < |keys| => m[keys[i]])
      case Array(xs) => xs
      case _ => []
  }

  /** Right-to-left preorder, stopping at reference-shaped nodes. */
  ghost function Preorder(v: Value, order: KeyOrder): seq<Value>
    requires Enumerates(order)
    decreases v, 1, 0
  {
    [v] + ChildrenOrder(v, |Children(v, order)|, order)
  }

  ghost function ChildrenOrder(v: Value, n: nat, order: KeyOrder): seq<Value>
    requires Enumerates(order) && n <= |Children(v, order)|
    decreases v, 0, n
  {
    if n == 0 then [] else Preorder(Children(v, order)[n - 1], order) + ChildrenOrder(v, n - 1, order)
  }

  // ---- Which nodes those are ------------------------------------------------

  /** `path` leads from `v` past no reference. */
  ghost predicate Open(v: Value, path: Path) {
    forall n :: 0 <= n < |path| ==> NodeAt(v, path[..n]).Some? && !IsReferenceShape(NodeAt(v, path[..n]).value)
  }

  /** `x` is at the end of `path`, which leads past no reference. */
  ghost predicate Leads(v: Value, path: Path, x: Value) {
    Open(v, path) && NodeAt(v, path) == Some(x)
  }

  lemma LeadsFurther(v: Value, s: Segment, rest: Path, x: Value)
    ensures Leads(v, [s] + rest, x) <==>
            !IsReferenceShape(v) && Child(v, s).Some? && Leads(Child(v, s).value, rest, x)
  {
    hide IsReferenceShape, Child;
    var path := [s] + rest;
    assert path[1..] == rest && path[..0] == [];
    forall n | 0 < n <= |path|
      ensures NodeAt(v, path[..n]) == if Child(v, s).Some? then NodeAt(Child(v, s).value, rest[..n - 1]) else None
    {
      assert path[..n][1..] == rest[..n - 1];
    }
    assert path[..|path|] == path && rest[..|rest|] == rest;
    if Leads(v, path, x) {
      forall n | 0 <= n < |rest| ensures NodeAt(Child(v, s).value, rest[..n]).Some? && !IsReferenceShape(NodeAt(Child(v, s).value, rest[..n]).value) {
        assert NodeAt(v, path[..n + 1]).Some?;
      }
    }
    if !IsReferenceShape(v) && Child(v, s).Some? && Leads(Child(v, s).value, rest, x) {
      forall n | 0 <= n < |path| ensures NodeAt(v, path[..n]).Some? && !IsReferenceShape(NodeAt(v, path[..n]).value) {
        if n > 0 { assert NodeAt(Child(v, s).value, rest[..n - 1]).Some?; }
      }
    }
  }

  lemma ChildrenBySegment(v: Value, order: KeyOrder, c: Value)
    requires Enumerates(order)
    ensures c in Children(v, order) <==> !IsReferenceShape(v) && exists s :: Child(v, s) == Some(c)
  {
    hide IsReferenceShape;
    if !IsReferenceShape(v) {
      match v
      case Object(m) =>
        forall k | k in m ensures m[k] in Children(v, order) {
          var i :| 0 <= i < |order(m)| && order(m)[i] == k;
          assert Children(v, order)[i] == m[k];
        }
        if c in Children(v, order) {
          var i :| 0 <= i < |order(m)| && Children(v, order)[i] == c;
          assert order(m)[i] in m && Child(v, Key(order(m)[i])) == Some(c);
        }
      case Array(xs) =>
        if c in xs {
          var i :| 0 <= i < |xs| && xs[i] == c;
          assert Child(v, Index(i)) == Some(c);
        }
      case _ =>
    }
  }

  lemma {:induction false} AmongChildren(v: Value, n: nat, order: KeyOrder, x: Value)
    requires Enumerates(order) && n <= |Children(v, order)|
    ensures x in ChildrenOrder(v, n, order) <==> exists i :: 0 <= i < n && x in Preorder(Children(v, order)[i], order)
    decreases n
  {
    hide Enumerates, Children, Preorder;
    if n > 0 {
      AmongChildren(v, n - 1, order, x);
    }
  }

  lemma {:induction false} VisitedHasPath(v: Value, order: KeyOrder, x: Value) returns (path: Path)
    requires Enumerates(order) && x in Preorder(v, order)
    ensures Leads(v, path, x)
    decreases v
  {
    hide IsReferenceShape, Enumerates;
    if x == v {
      path := [];
    } else {
      AmongChildren(v, |Children(v, order)|, order, x);
      var i :| 0 <= i < |Children(v, order)| && x in Preorder(Children(v, order)[i], order);
      var c := Children(v, order)[i];
      ChildrenBySegment(v, order, c);
      var s :| Child(v, s) == Some(c);
      var rest := VisitedHasPath(c, order, x);
      LeadsFurther(v, s, rest, x);
      path := [s] + rest;
    }
  }

  lemma {:induction false} PathIsVisited(v: Value, order: KeyOrder, path: Path, x: Value)
    requires Enumerates(order) && Leads(v, path, x)
    ensures x in Preorder(v, order)
    decreases |path|
  {
    if path != [] {
      hide IsReferenceShape, Enumerates, Leads;
      assert path == [path[0]] + path[1..];
      LeadsFurther(v, path[0], path[1..], x);
      var c := Child(v, path[0]).value;
      PathIsVisited(c, order, path[1..], x);
      ChildrenBySegment(v, order, c);
      var i :| 0 <= i < |Children(v, order)| && Children(v, order)[i] == c;
      AmongChildren(v, |Children(v, order)|, order, x);
    }
  }

  /** The walk visits exactly the nodes that some path leads to past no reference. */
  lemma VisitsExactly(v: Value, order: KeyOrder, x: Value)
    requires Enumerates(order)
    ensures x in Preorder(v, order) <==> exists path :: Leads(v, path, x)
  {
    hide Preorder, Leads, Enumerates;
    if x in Preorder(v, order) {
      var path := VisitedHasPath(v, order, x);
    }
    if path :| Leads(v, path, x) {
      PathIsVisited(v, order, path, x);
    }
  }

  function Backwards(parts: seq<seq<Value>>): seq<Value> {
    if parts == [] then [] else parts[|parts| - 1] + Backwards(parts[..|parts| - 1])
  }

  lemma {:induction false} ChildrenBackwards(v: Value, n: nat, order: KeyOrder, parts: seq<seq<Value>>)
    requires Enumerates(order) && n == |parts| <= |Children(v, order)|
    requires forall i :: 0 <= i < n ==> parts[i] == Preorder(Children(v, order)[i], order)
    ensures ChildrenOrder(v, n, order) == Backwards(parts)
    decreases n
  {
    hide Enumerates, Children, Preorder;
    if n > 0 {
      ChildrenBackwards(v, n - 1, order, parts[..n - 1]);
    }
  }

  /** Each once, parents first, and among the members of an object or the items of
      an array the last first. */
  lemma RightToLeft(v: Value, order: KeyOrder)
    requires Enumerates(order)
    ensures IsReferenceShape(v) || (!v.Object? && !v.Array?) ==> Preorder(v, order) == [v]
    ensures !IsReferenceShape(v) && v.Array? ==>
              Preorder(v, order) == [v] + Backwards(seq(|v.items|, i requires 0 <= i < |v.items| => Preorder(v.items[i], order)))
    ensures !IsReferenceShape(v) && v.Object? ==>
              var keys := order(v.members);
              && (forall i :: 0 <= i < |keys| ==> keys[i] in v.members)
              && Preorder(v, order) ==
                 [v] + Backwards(seq(|keys|, i requires 0 <= i < |keys| && keys[i] in v.members => Preorder(v.members[keys[i]], order)))
  {
    hide IsReferenceShape;
    if IsReferenceShape(v) || (!v.Object? && !v.Array?) {
      assert Children(v, order) == [];
      assert [v] + [] == [v];
    } else if v.Array? {
      var parts := seq(|v.items|, i requires 0 <= i < |v.items| => Preorder(v.items[i], order));
      ChildrenBackwards(v, |v.items|, order, parts);
    } else {
      var keys := order(v.members);
      assert forall i :: 0 <= i < |keys| ==> keys[i] in v.members;
      var parts := seq(|keys|, i requires 0 <= i < |keys| && keys[i] in v.members => Preorder(v.members[keys[i]], order));
      ChildrenBackwards(v, |keys|, order, parts);
    }
  }

  // ---- What is read from them -----------------------------------------------

  function Found(known: map<string, string>, node: Value): Result<Option<Reference>, Error> {
    if IsReferenceShape(node) then ParseReference(known, node) else Ok(None)
  }

  /** References in the order visited; the first unknown algorithm ends it. */
  function ParseAll(known: map<string, string>, nodes: seq<Value>): Result<seq<Reference>, Error> {
    if nodes == [] then Ok([]) else Then(Found(known, nodes[0]), ParseAll(known, nodes[1..]))
  }

  function Then(found: Result<Option<Reference>, Error>, rest: Result<seq<Reference>, Error>)
    : Result<seq<Reference>, Error>
  {
    match found
    case Err(e) => Err(e)
    case Ok(found) => match found case None => rest case Some(r) => Before([r], rest)
  }

  function Before(front: seq<Reference>, r: Result<seq<Reference>, Error>): Result<seq<Reference>, Error> {
    match r case Err(e) => Err(e) case Ok(rest) => Ok(front + rest)
  }

  lemma BeforeTwice(a: seq<Reference>, b: seq<Reference>, r: Result<seq<Reference>, Error>)
    ensures Before(a, Before(b, r)) == Before(a + b, r)
    ensures Before([], r) == r
  {
    if r.Ok? {
      assert a + (b + r.value) == a + b + r.value && [] + r.value == r.value;
    }
  }

  /** A well-formed reference node whose digest or encryption is not supported. */
  predicate NamesUnknownAlgorithm(known: map<string, string>, node: Value) {
    && IsReferenceShape(node) && PartsOf(node).Some?
    && (DigestAlgorithm(known, PartsOf(node).value.digestName).Err? || !SupportedEncryption(PartsOf(node).value.encryptionName))
  }

  function WellFormed(nodes: seq<Value>): (r: seq<Value>)
    ensures forall i :: 0 <= i < |r| ==> IsReferenceShape(r[i]) && PartsOf(r[i]).Some?
  {
    if nodes == [] then []
    else (if IsReferenceShape(nodes[0]) && PartsOf(nodes[0]).Some? then [nodes[0]] else []) + WellFormed(nodes[1..])
  }

  /** `r` is what `node` spells out, its algorithms recognised. */
  ghost predicate Spells(known: map<string, string>, node: Value, r: Reference) {
    && IsReferenceShape(node) && PartsOf(node).Some?
    && var p := PartsOf(node).value;
       && r.url == p.url && r.contentType == p.contentType && r.digest == p.digest
       && DigestAlgorithm(known, p.digestName) == Ok(r.algorithm) && SupportedEncryption(p.encryptionName)
  }

  lemma FoundSpells(known: map<string, string>, node: Value)
    requires Found(known, node).Ok?
    ensures Found(known, node).value.Some? <==> IsReferenceShape(node) && PartsOf(node).Some?
    ensures Found(known, node).value.Some? ==> Spells(known, node, Found(known, node).value.value)
  {
  }

  lemma {:induction false} FailsIff(known: map<string, string>, nodes: seq<Value>)
    ensures ParseAll(known, nodes).Err? <==> exists i :: 0 <= i < |nodes| && NamesUnknownAlgorithm(known, nodes[i])
  {
    hide NamesUnknownAlgorithm, Found;
    if nodes != [] {
      FoundFails(known, nodes[0]);
      FailsIff(known, nodes[1..]);
      assert forall i :: 0 < i < |nodes| ==> nodes[1..][i - 1] == nodes[i];
      assert forall i :: 0 <= i < |nodes| - 1 ==> nodes[1..][i] == nodes[i + 1];
    }
  }

  lemma {:induction false} ListsSpelled(known: map<string, string>, nodes: seq<Value>)
    requires ParseAll(known, nodes).Ok?
    ensures |ParseAll(known, nodes).value| == |WellFormed(nodes)|
    ensures forall i :: 0 <= i < |WellFormed(nodes)| ==> Spells(known, WellFormed(nodes)[i], ParseAll(known, nodes).value[i])
  {
    hide PartsOf, IsReferenceShape, Spells, Found;
    if nodes != [] {
      FoundSpells(known, nodes[0]);
      ListsSpelled(known, nodes[1..]);
    }
  }

  /** Collecting fails exactly when some visited reference names an unknown
      algorithm; otherwise it lists what each well-formed visited node spells out,
      in order and nothing else. */
  lemma CollectsOrFails(known: map<string, string>, nodes: seq<Value>)
    ensures ParseAll(known, nodes).Err? <==> exists i :: 0 <= i < |nodes| && NamesUnknownAlgorithm(known, nodes[i])
    ensures ParseAll(known, nodes).Ok? ==>
              var references := ParseAll(known, nodes).value;
              && |references| == |WellFormed(nodes)|
              && forall i :: 0 <= i < |references| ==> Spells(known, WellFormed(nodes)[i], references[i])
  {
    hide ParseAll, WellFormed, NamesUnknownAlgorithm, Spells;
    FailsIff(known, nodes);
    if ParseAll(known, nodes).Ok? { ListsSpelled(known, nodes); }
  }

  lemma FoundFails(known: map<string, string>, node: Value)
    ensures Found(known, node).Err? <==> NamesUnknownAlgorithm(known, node)
  {
  }

  /** What collecting from a document gives, in terms of paths alone: it fails exactly
      when a path past no reference leads to one that names an unknown algorithm,
      and else lists exactly what the well-formed references at such paths spell. */
  lemma CollectsByPath(known: map<string, string>, value: Value, order: KeyOrder)
    requires Enumerates(order)
    ensures
      var r := ParseAll(known, Preorder(value, order));
      && (r.Err? <==> exists path, node :: Leads(value, path, node) && NamesUnknownAlgorithm(known, node))
      && (r.Ok? ==>
            && (forall found :: found in r.value ==> exists path, node :: Leads(value, path, node) && Spells(known, node, found))
            && (forall path, node :: Leads(value, path, node) && IsReferenceShape(node) && PartsOf(node).Some? ==>
                  exists found :: found in r.value && Spells(known, node, found)))
  {
    hide Preorder, Leads, Enumerates, ParseAll, NamesUnknownAlgorithm, Spells, IsReferenceShape, PartsOf;
    var nodes := Preorder(value, order);
    CollectsOrFails(known, nodes);
    WellFormedAmong(nodes);
    forall x ensures x in nodes <==> exists path :: Leads(value, path, x) {
      VisitsExactly(value, order, x);
    }
    if i :| 0 <= i < |nodes| && NamesUnknownAlgorithm(known, nodes[i]) {
      assert nodes[i] in nodes;
    }
    if path, node :| Leads(value, path, node) && NamesUnknownAlgorithm(known, node) {
      assert node in nodes;
    }
    if ParseAll(known, nodes).Ok? {
      var found := ParseAll(known, nodes).value;
      forall f | f in found ensures exists path, node :: Leads(value, path, node) && Spells(known, node, f) {
        var i :| 0 <= i < |found| && found[i] == f;
        assert WellFormed(nodes)[i] in nodes;
      }
      forall path, node | Leads(value, path, node) && IsReferenceShape(node) && PartsOf(node).Some?
        ensures exists f :: f in found && Spells(known, node, f)
      {
        assert node in WellFormed(nodes);
        var i :| 0 <= i < |WellFormed(nodes)| && WellFormed(nodes)[i] == node;
        assert found[i] in found;
      }
    }
  }

  lemma {:induction false} WellFormedAmong(nodes: seq<Value>)
    ensures forall x :: x in WellFormed(nodes) <==> x in nodes && IsReferenceShape(x) && PartsOf(x).Some?
  {
    hide IsReferenceShape, PartsOf;
    if nodes != [] {
      WellFormedAmong(nodes[1..]);
      assert nodes == [nodes[0]] + nodes[1..];
    }
  }

  /** A reference as an attribute spells it. */
  function ReferenceJson(p: Parts): Value {
    Object(map[
      "external" := Object(map["url" := Str(p.url), "contentType" := Str(p.contentType)]),
      "digest" := Object(map["digestAlgorithm" := Str(p.digestName), "digest" := SchemaCodec.BufferJson(p.digest)]),
      "encryptionAlgorithm" := Str(p.encryptionName)])
  }

  /** Such a spelling is recognised, and its parts are read back each from its place. */
  lemma ReferenceReadsBack(p: Parts)
    ensures IsReferenceShape(ReferenceJson(p)) && PartsOf(ReferenceJson(p)) == Some(p)
  {
    SchemaRoundTrip.BufferRoundTrip(p.digest);
  }

  lemma OneStep(v: Value, s: Segment)
    ensures NodeAt(v, [s]) == Child(v, s)
  {
    assert [s][1..] == [];
  }

  /** A node is a reference exactly when objects stand under both of its names. */
  lemma ShapeByPaths(v: Value)
    ensures IsReferenceShape(v) <==>
            && NodeAt(v, [Key("external")]).Some? && NodeAt(v, [Key("external")]).value.Object?
            && NodeAt(v, [Key("digest")]).Some? && NodeAt(v, [Key("digest")]).value.Object?
  {
    OneStep(v, Key("external"));
    OneStep(v, Key("digest"));
  }

  /** The algorithms recognised, by symbolic name or by OID, when no other names
      are known. */
  lemma AlgorithmsRecognised(name: string)
    ensures DigestAlgorithm(map[], name) == Ok(Sha3_256) <==> name in {"sha3-256", SHA3_256_OID}
    ensures DigestAlgorithm(map[], name) == Ok(Sha2_256) <==> name in {"sha256", SHA2_256_OID}
    ensures DigestAlgorithm(map[], name).Err? <==> name !in {"sha3-256", SHA3_256_OID, "sha256", SHA2_256_OID}
    ensures SupportedEncryption(name) <==> name in {"KeetaEncryptedContainerV1", "1.3.6.1.4.1.62675.2"}
  {
    SchemaRoundTrip.OidNamesConvert(name);
    assert SchemaCodec.OID_NAME_TABLE[0] == ("sha256", SHA2_256_OID) && SchemaCodec.OID_NAME_TABLE[1] == ("sha3-256", SHA3_256_OID);
  }

  // ---- The stack ------------------------------------------------------------

  /** The nodes a pending stack still visits, top first. */
  ghost function StackOrder(pending: seq<Value>, order: KeyOrder): seq<Value>
    requires Enumerates(order)
    decreases |pending|
  {
    if pending == [] then []
    else Preorder(pending[|pending| - 1], order) + StackOrder(pending[..|pending| - 1], order)
  }

  lemma {:induction false} StackAppend(a: seq<Value>, b: seq<Value>, order: KeyOrder)
    requires Enumerates(order)
    ensures StackOrder(a + b, order) == StackOrder(b, order) + StackOrder(a, order)
    decreases |b|
  {
    if b == [] {
      assert a + b == a;
    } else {
      var front := b[..|b| - 1];
      assert (a + b)[..|a + b| - 1] == a + front;
      StackAppend(a, front, order);
    }
  }

  lemma {:induction false} ChildrenOnStack(v: Value, n: nat, order: KeyOrder)
    requires Enumerates(order) && n <= |Children(v, order)|
    ensures StackOrder(Children(v, order)[..n], order) == ChildrenOrder(v, n, order)
    decreases n
  {
    if n > 0 {
      var kids := Children(v, order);
      assert kids[..n][..n - 1] == kids[..n - 1];
      ChildrenOnStack(v, n - 1, order);
    }
  }

  lemma PopAndPush(front: seq<Value>, node: Value, order: KeyOrder)
    requires Enumerates(order)
    ensures StackOrder(front + [node], order) == [node] + StackOrder(front + Children(node, order), order)
  {
    var kids := Children(node, order);
    assert (front + [node])[..|front|] == front;
    assert StackOrder(front + [node], order) == Preorder(node, order) + StackOrder(front, order);
    assert Preorder(node, order) == [node] + ChildrenOrder(node, |kids|, order);
    hide Enumerates, StackOrder, Preorder, ChildrenOrder, Children;
    ChildrenOnStack(node, |kids|, order);
    assert kids[..|kids|] == kids;
    StackAppend(front, kids, order);
    Reassociate([node], StackOrder(kids, order), StackOrder(front, order));
  }

  lemma Reassociate(a: seq<Value>, b: seq<Value>, c: seq<Value>)
    ensures a + b + c == a + (b + c)
  {
  }

  lemma ParseHead(known: map<string, string>, node: Value, rest: seq<Value>)
    ensures ParseAll(known, [node] + rest) == Then(Found(known, node), ParseAll(known, rest))
  {
    assert ([node] + rest)[1..] == rest;
  }

  /** One turn of the loop: the top node is parsed and its children take its place. */
  lemma Turn(known: map<string, string>, front: seq<Value>, node: Value, order: KeyOrder)
    requires Enumerates(order)
    ensures |StackOrder(front + [node], order)| == 1 + |StackOrder(front + Children(node, order), order)|
    ensures ParseAll(known, StackOrder(front + [node], order)) ==
            Then(Found(known, node), ParseAll(known, StackOrder(front + Children(node, order), order)))
    ensures IsReferenceShape(node) ==> front + Children(node, order) == front
  {
    hide ParseReference, IsReferenceShape, ParseAll, Enumerates, StackOrder;
    PopAndPush(front, node, order);
    ParseHead(known, node, StackOrder(front + Children(node, order), order));
  }

  lemma StackStart(value: Value, order: KeyOrder)
    requires Enumerates(order)
    ensures StackOrder([value], order) == Preorder(value, order)
    ensures StackOrder([], order) == []
  {
    assert [value][..0] == [];
    assert Preorder(value, order) + [] == Preorder(value, order);
  }

  /** Walks the tree with an explicit stack. */
  method Collect(known: map<string, string>, value: Value, order: KeyOrder) returns (r: Result<seq<Reference>, Error>)
    requires Enumerates(order)
    ensures r == ParseAll(known, Preorder(value, order))
  {
    hide Enumerates, Preorder, StackOrder, ParseAll, ParseReference, IsReferenceShape, Children;
    var references: seq<Reference> := [];
    var pending := [value];
    StackStart(value, order);
    BeforeTwice([], [], ParseAll(known, Preorder(value, order)));
    while pending != []
      invariant ParseAll(known, Preorder(value, order)) == Before(references, ParseAll(known, StackOrder(pending, order)))
      decreases |StackOrder(pending, order)|
    {
      var node := pending[|pending| - 1];
      ghost var stack := pending;
      pending := pending[..|pending| - 1];
      assert stack == pending + [node];
      Turn(known, pending, node, order);
      if IsReferenceShape(node) {
        var parsed := ParseReference(known, node);
        if parsed.Err? {
          return Err(parsed.error);
        }
        if parsed.value.Some? {
          BeforeTwice(references, [parsed.value.value], ParseAll(known, StackOrder(pending, order)));
          references := references + [parsed.value.value];
        }
      } else {
        pending := pending + Children(node, order);
      }
    }
    NothingLeft(known, references);
    return Ok(references);
  }

  lemma NothingLeft(known: map<string, string>, references: seq<Reference>)
    ensures Before(references, ParseAll(known, [])) == Ok(references)
  {
    assert references + [] == references;
  }
}
