/** What resolving a metadata document means: the recursive top-down reading of
    the ExternalURL rules, independent of the worklist that computes it. */
module ResolverSpec {
  import opened Wrappers
  import opened Json

  const EXTERNAL_URL_MARKER := "2b828e33-2692-46e9-817e-9b93d63f28fd"

  // Every URL that can be read, with the document it serves; a URL outside the
  // map has an unsupported scheme or an unreadable target.
  type World = map<string, Value>

  function AsExternalUrl(v: Value): Option<string> {
    if GetStr(v, "external") == Some(EXTERNAL_URL_MARKER) then GetStr(v, "url") else None
  }

  ghost function Resolve(v: Value, ancestors: set<string>, world: World): Value
    decreases world.Keys - ancestors, v
  {
    match AsExternalUrl(v)
    case Some(url) =>
      if url in ancestors || url !in world then Null
      else Resolve(world[url], ancestors + {url}, world)
    case None =>
      match v
      case Object(m) => Object(map k | k in m :: Resolve(m[k], ancestors, world))
      case Array(xs) => Array(seq(|xs|, i requires 0 <= i < |xs| => Resolve(xs[i], ancestors, world)))
      case _ => v
  }

  // ---- Resolution node by node ----------------------------------------------

  /** The document at the end of the indirections that start at `v`, with the URLs
      followed to it; None if they close a cycle or cannot all be read. */
  function Target(v: Value, ancestors: set<string>, world: World): (r: Option<(Value, set<string>)>)
    ensures r.Some? ==> AsExternalUrl(r.value.0).None? && ancestors <= r.value.1 <= ancestors + world.Keys
    decreases world.Keys - ancestors
  {
    match AsExternalUrl(v)
    case None => Some((v, ancestors))
    case Some(url) =>
      if url in ancestors || url !in world then None else Target(world[url], ancestors + {url}, world)
  }

  lemma {:induction false} ResolvesToTarget(v: Value, ancestors: set<string>, world: World)
    ensures Resolve(v, ancestors, world) ==
            if Target(v, ancestors, world).None? then Null
            else Resolve(Target(v, ancestors, world).value.0, Target(v, ancestors, world).value.1, world)
    decreases world.Keys - ancestors
  {
    match AsExternalUrl(v)
    case Some(url) =>
      if url !in ancestors && url in world {
        ResolvesToTarget(world[url], ancestors + {url}, world);
      }
    case None =>
  }

  /** A document that is no indirection resolves child by child: no child is added,
      none is lost, and a scalar stays as it is. */
  lemma ResolvesChildByChild(v: Value, ancestors: set<string>, world: World, s: Segment)
    requires AsExternalUrl(v).None?
    ensures Child(Resolve(v, ancestors, world), s) ==
            if Child(v, s).Some? then Some(Resolve(Child(v, s).value, ancestors, world)) else None
    ensures !v.Object? && !v.Array? ==> Resolve(v, ancestors, world) == v
  {
  }

  /** Where no indirection is on the way, resolving the whole resolves each part in
      its place. */
  lemma {:induction false} ResolvesInPlace(v: Value, ancestors: set<string>, world: World, path: Path)
    requires forall n :: 0 <= n < |path| ==> NodeAt(v, path[..n]).Some? && AsExternalUrl(NodeAt(v, path[..n]).value).None?
    ensures NodeAt(Resolve(v, ancestors, world), path) ==
            if NodeAt(v, path).Some? then Some(Resolve(NodeAt(v, path).value, ancestors, world)) else None
    decreases |path|
  {
    if path != [] {
      hide Resolve, AsExternalUrl, Child;
      assert path[..0] == [];
      ResolvesChildByChild(v, ancestors, world, path[0]);
      if Child(v, path[0]).Some? {
        var c, rest := Child(v, path[0]).value, path[1..];
        forall n | 0 <= n < |rest| ensures NodeAt(c, rest[..n]).Some? && AsExternalUrl(NodeAt(c, rest[..n]).value).None? {
          assert path[..n + 1][1..] == rest[..n];
          assert NodeAt(v, path[..n + 1]) == NodeAt(c, rest[..n]);
        }
        ResolvesInPlace(c, ancestors, world, rest);
      }
    }
  }

  /** No node of `v`, at any depth, is an ExternalURL indirection. */
  ghost predicate NoExternal(v: Value) {
    AsExternalUrl(v).None? &&
    match v
    case Object(m) => forall k :: k in m ==> NoExternal(m[k])
    case Array(xs) => forall i :: 0 <= i < |xs| ==> NoExternal(xs[i])
    case _ => true
  }

  /** A document without indirections is left as it is. */
  lemma {:induction false} CleanIsUnchanged(v: Value, ancestors: set<string>, world: World)
    requires NoExternal(v)
    ensures Resolve(v, ancestors, world) == v
    decreases v
  {
    match v
    case Object(m) =>
      forall k | k in m ensures Resolve(m[k], ancestors, world) == m[k] {
        CleanIsUnchanged(m[k], ancestors, world);
      }
      assert Resolve(v, ancestors, world).members == m;
    case Array(xs) =>
      forall i | 0 <= i < |xs| ensures Resolve(xs[i], ancestors, world) == xs[i] {
        CleanIsUnchanged(xs[i], ancestors, world);
      }
      assert Resolve(v, ancestors, world).items == xs;
    case _ =>
  }

  ghost predicate ServesNoBareString(world: World) {
    forall url :: url in world ==> !world[url].Str?
  }

  // A string in the result was a string, in the same place, before.
  lemma {:induction false} ResolvesToString(v: Value, ancestors: set<string>, world: World)
    requires ServesNoBareString(world)
    ensures Resolve(v, ancestors, world).Str? ==> v == Resolve(v, ancestors, world)
    decreases world.Keys - ancestors, v
  {
    match AsExternalUrl(v)
    case Some(url) =>
      if url !in ancestors && url in world {
        ResolvesToString(world[url], ancestors + {url}, world);
      }
    case None =>
  }

  lemma {:induction false} ResolvedHoldsNoExternal(v: Value, ancestors: set<string>, world: World)
    requires ServesNoBareString(world)
    ensures NoExternal(Resolve(v, ancestors, world))
    decreases world.Keys - ancestors, v
  {
    match AsExternalUrl(v)
    case Some(url) =>
      if url !in ancestors && url in world {
        ResolvedHoldsNoExternal(world[url], ancestors + {url}, world);
      }
    case None =>
      match v
      case Object(m) =>
        forall k | k in m ensures NoExternal(Resolve(m[k], ancestors, world)) {
          ResolvedHoldsNoExternal(m[k], ancestors, world);
        }
        var r := Resolve(v, ancestors, world);
        if "external" in m { ResolvesToString(m["external"], ancestors, world); }
        if "url" in m { ResolvesToString(m["url"], ancestors, world); }
        assert AsExternalUrl(r).None?;
      case Array(xs) =>
        forall i | 0 <= i < |xs| ensures NoExternal(Resolve(xs[i], ancestors, world)) {
          ResolvedHoldsNoExternal(xs[i], ancestors, world);
        }
      case _ =>
  }

  function Indirection(url: Value): Value {
    Object(map["external" := Str(EXTERNAL_URL_MARKER), "url" := url])
  }

  /** An indirection whose own `url` field is an indirection to a bare string
      survives: the outer object was visited before its field became a string. */
  lemma BareStringLeavesExternal(world: World, url: string)
    requires url in world && world[url].Str?
    ensures Resolve(Indirection(Indirection(Str(url))), {}, world) == Indirection(world[url])
    ensures !NoExternal(Resolve(Indirection(Indirection(Str(url))), {}, world))
  {
    var inner := Indirection(Str(url));
    var outer := Indirection(inner);
    assert AsExternalUrl(inner) == Some(url);
    assert Resolve(inner, {}, world) == Resolve(world[url], {} + {url}, world) == world[url];
    assert AsExternalUrl(outer).None?;
    assert Resolve(outer, {}, world).members == Indirection(world[url]).members;
    assert AsExternalUrl(Indirection(world[url])) == Some(world[url].s);
  }

  /** The string at the end of the indirections that start at `v`. */
  function ChainEnd(v: Value, ancestors: set<string>, world: World): Option<string>
    decreases world.Keys - ancestors
  {
    match AsExternalUrl(v)
    case Some(url) =>
      if url in ancestors || url !in world then None else ChainEnd(world[url], ancestors + {url}, world)
    case None => if v.Str? then Some(v.s) else None
  }

  lemma {:induction false} ResolvesToChainEnd(v: Value, ancestors: set<string>, world: World)
    ensures ChainEnd(v, ancestors, world) ==
            if Resolve(v, ancestors, world).Str? then Some(Resolve(v, ancestors, world).s) else None
    decreases world.Keys - ancestors
  {
    match AsExternalUrl(v)
    case Some(url) =>
      if url !in ancestors && url in world {
        ResolvesToChainEnd(world[url], ancestors + {url}, world);
      }
    case None =>
  }

  /** The marker and the URL of `m` become strings only after `m` was visited. */
  predicate TurnsExternal(m: map<string, Value>, ancestors: set<string>, world: World) {
    && "external" in m && ChainEnd(m["external"], ancestors, world) == Some(EXTERNAL_URL_MARKER)
    && "url" in m && ChainEnd(m["url"], ancestors, world).Some?
  }

  /** Some object that resolving `v` visits, and is no indirection then, turns
      into one. */
  ghost predicate TurnsLate(v: Value, ancestors: set<string>, world: World)
    decreases world.Keys - ancestors, v
  {
    match AsExternalUrl(v)
    case Some(url) => url !in ancestors && url in world && TurnsLate(world[url], ancestors + {url}, world)
    case None =>
      match v
      case Object(m) => TurnsExternal(m, ancestors, world) || exists k :: k in m && TurnsLate(m[k], ancestors, world)
      case Array(xs) => exists i :: 0 <= i < |xs| && TurnsLate(xs[i], ancestors, world)
      case _ => false
  }

  ghost predicate CleanIff(v: Value, ancestors: set<string>, world: World) {
    NoExternal(Resolve(v, ancestors, world)) <==> !TurnsLate(v, ancestors, world)
  }

  lemma ObjectCleanIff(m: map<string, Value>, ancestors: set<string>, world: World)
    requires AsExternalUrl(Object(m)).None? && forall k :: k in m ==> CleanIff(m[k], ancestors, world)
    ensures CleanIff(Object(m), ancestors, world)
  {
    var r := Resolve(Object(m), ancestors, world);
    if "external" in m { ResolvesToChainEnd(m["external"], ancestors, world); }
    if "url" in m { ResolvesToChainEnd(m["url"], ancestors, world); }
    assert AsExternalUrl(r).Some? <==> TurnsExternal(m, ancestors, world);
    assert forall k :: k in m ==> r.members[k] == Resolve(m[k], ancestors, world);
  }

  lemma ArrayCleanIff(xs: seq<Value>, ancestors: set<string>, world: World)
    requires forall i :: 0 <= i < |xs| ==> CleanIff(xs[i], ancestors, world)
    ensures CleanIff(Array(xs), ancestors, world)
  {
    var r := Resolve(Array(xs), ancestors, world);
    assert forall i :: 0 <= i < |xs| ==> r.items[i] == Resolve(xs[i], ancestors, world);
  }

  /** A document resolves free of ExternalURL nodes exactly when no object in it, or
      in what it leads to, turns into one late. */
  lemma {:induction false} ResolvesCleanIff(v: Value, ancestors: set<string>, world: World)
    ensures NoExternal(Resolve(v, ancestors, world)) <==> !TurnsLate(v, ancestors, world)
    decreases world.Keys - ancestors, v
  {
    match AsExternalUrl(v)
    case Some(url) =>
      if url !in ancestors && url in world {
        ResolvesCleanIff(world[url], ancestors + {url}, world);
      }
    case None =>
      match v
      case Object(m) =>
        forall k | k in m ensures CleanIff(m[k], ancestors, world) {
          ResolvesCleanIff(m[k], ancestors, world);
        }
        ObjectCleanIff(m, ancestors, world);
      case Array(xs) =>
        forall i | 0 <= i < |xs| ensures CleanIff(xs[i], ancestors, world) {
          ResolvesCleanIff(xs[i], ancestors, world);
        }
        ArrayCleanIff(xs, ancestors, world);
      case _ =>
  }

  /** Every document resolves free of ExternalURL nodes exactly when no readable
      URL serves a bare JSON string. */
  lemma NoExternalSurvivesIff(world: World)
    ensures (forall document :: NoExternal(Resolve(document, {}, world))) <==> ServesNoBareString(world)
  {
    if ServesNoBareString(world) {
      forall document ensures NoExternal(Resolve(document, {}, world)) {
        ResolvedHoldsNoExternal(document, {}, world);
      }
    } else {
      var url :| url in world && world[url].Str?;
      BareStringLeavesExternal(world, url);
    }
  }

  /** `urls` can be met one after the other along one branch of `v` and of the
      documents they serve. On a cyclic reference graph such chains have no end. */
  ghost predicate Chain(v: Value, world: World, urls: seq<string>)
    decreases |urls|, v
  {
    urls != [] ==>
      match AsExternalUrl(v)
      case Some(url) => url in world && urls[0] == url && Chain(world[url], world, urls[1..])
      case None => exists s :: Child(v, s).Some? && Chain(Child(v, s).value, world, urls)
  }

  ghost predicate DistinctWithin(urls: seq<string>, s: set<string>) {
    && (forall i :: 0 <= i < |urls| ==> urls[i] in s)
    && (forall i, j :: 0 <= i < j < |urls| ==> urls[i] != urls[j])
  }

  lemma {:induction false} DistinctBound(urls: seq<string>, s: set<string>)
    requires DistinctWithin(urls, s)
    ensures |urls| <= |s|
  {
    if urls != [] {
      assert forall i :: 0 <= i < |urls[1..]| ==> urls[1..][i] == urls[i + 1];
      DistinctBound(urls[1..], s - {urls[0]});
    }
  }
}
