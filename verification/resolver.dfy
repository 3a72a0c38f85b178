/** The worklist of resolver/mod.rs: a stack of (path, ancestor URLs) entries
    rewrites one document in place. Proved to end, on every fetch map, with
    exactly the document ResolverSpec.Resolve describes. */
module Resolver {
  import opened Wrappers
  import opened Json
  import opened ResolverSpec

  datatype Entry = Entry(path: Path, ancestors: set<string>)

  // ---- What a pending stack still has to do ---------------------------------

  /** The document once every pending entry, top first, has been resolved. */
  ghost function Finish(document: Value, pending: seq<Entry>, world: World): Value
    decreases |pending|
  {
    if pending == [] then document
    else
      var top, rest := pending[|pending| - 1], pending[..|pending| - 1];
      match NodeAt(document, top.path)
      case None => Finish(document, rest, world)
      case Some(node) =>
        Finish(SetAt(document, top.path, Resolve(node, top.ancestors, world)), rest, world)
  }

  /** Loop iterations needed to resolve `v`. */
  ghost function Work(v: Value, ancestors: set<string>, world: World): nat
    decreases world.Keys - ancestors, v, 1, 0
  {
    match AsExternalUrl(v)
    case Some(url) =>
      if url in ancestors || url !in world then 1 else 1 + Work(world[url], ancestors + {url}, world)
    case None =>
      match v
      case Object(m) => 1 + MemberWork(v, m.Keys, ancestors, world)
      case Array(xs) => 1 + ItemWork(v, |xs|, ancestors, world)
      case _ => 1
  }

  ghost function MemberWork(v: Value, keys: set<string>, ancestors: set<string>, world: World): nat
    requires v.Object? && keys <= v.members.Keys
    decreases world.Keys - ancestors, v, 0, |keys|
  {
    if keys == {} then 0
    else
      var k :| k in keys;
      Work(v.members[k], ancestors, world) + MemberWork(v, keys - {k}, ancestors, world)
  }

  ghost function ItemWork(v: Value, n: nat, ancestors: set<string>, world: World): nat
    requires v.Array? && n <= |v.items|
    decreases world.Keys - ancestors, v, 0, n
  {
    if n == 0 then 0
    else ItemWork(v, n - 1, ancestors, world) + Work(v.items[n - 1], ancestors, world)
  }

  /** The total over the pending entries, each measured when its turn comes. */
  ghost function TotalWork(document: Value, pending: seq<Entry>, world: World): nat
    decreases |pending|
  {
    if pending == [] then 0
    else
      var top, rest := pending[|pending| - 1], pending[..|pending| - 1];
      match NodeAt(document, top.path)
      case None => 1 + TotalWork(document, rest, world)
      case Some(node) =>
        Work(node, top.ancestors, world)
        + TotalWork(SetAt(document, top.path, Resolve(node, top.ancestors, world)), rest, world)
  }

  ghost predicate AllResolve(document: Value, pending: seq<Entry>) {
    forall i :: 0 <= i < |pending| ==> NodeAt(document, pending[i].path).Some?
  }

  ghost predicate PairwiseIncomparable(pending: seq<Entry>) {
    forall i, j :: 0 <= i < |pending| && 0 <= j < |pending| && i != j ==>
      Incomparable(pending[i].path, pending[j].path)
  }

  // ---- One step of the stack ------------------------------------------------

  lemma Popped(document: Value, rest: seq<Entry>, top: Entry, world: World)
    ensures Finish(document, rest + [top], world) ==
            match NodeAt(document, top.path) {
              case None => Finish(document, rest, world)
              case Some(node) => Finish(SetAt(document, top.path, Resolve(node, top.ancestors, world)), rest, world)
            }
    ensures TotalWork(document, rest + [top], world) ==
            match NodeAt(document, top.path) {
              case None => 1 + TotalWork(document, rest, world)
              case Some(node) => Work(node, top.ancestors, world) + TotalWork(SetAt(document, top.path, Resolve(node, top.ancestors, world)), rest, world)
            }
  {
    var pending := rest + [top];
    assert pending[..|pending| - 1] == rest;
  }

  /** Replacing an indirection by its document and queueing it again leaves the
      final document as it was, with one iteration less to go. */
  lemma FollowStep(document: Value, rest: seq<Entry>, top: Entry, url: string, world: World)
    requires NodeAt(document, top.path).Some?
    requires AsExternalUrl(NodeAt(document, top.path).value) == Some(url)
    requires url !in top.ancestors && url in world
    ensures
      var next := SetAt(document, top.path, world[url]);
      var pending := rest + [Entry(top.path, top.ancestors + {url})];
      && Finish(next, pending, world) == Finish(document, rest + [top], world)
      && TotalWork(next, pending, world) < TotalWork(document, rest + [top], world)
  {
    var again := Entry(top.path, top.ancestors + {url});
    SetAtFrame(document, top.path, world[url]);
    Popped(document, rest, top, world);
    Popped(SetAt(document, top.path, world[url]), rest, again, world);
    SetAtTwice(document, top.path, world[url], Resolve(world[url], again.ancestors, world));
  }

  /** An indirection that is not followed is settled at once. */
  lemma CutStep(document: Value, rest: seq<Entry>, top: Entry, url: string, world: World)
    requires NodeAt(document, top.path).Some?
    requires AsExternalUrl(NodeAt(document, top.path).value) == Some(url)
    requires url in top.ancestors || url !in world
    ensures Finish(SetAt(document, top.path, Null), rest, world) == Finish(document, rest + [top], world)
    ensures TotalWork(SetAt(document, top.path, Null), rest, world) < TotalWork(document, rest + [top], world)
  {
    Popped(document, rest, top, world);
  }

  // ---- Queueing the children of a container ---------------------------------

  ghost function Entries(path: Path, segments: seq<Segment>, ancestors: set<string>): (r: seq<Entry>)
    ensures |r| == |segments|
    ensures forall i :: 0 <= i < |r| ==> r[i] == Entry(path + [segments[i]], ancestors)
  {
    seq(|segments|, i requires 0 <= i < |segments| => Entry(path + [segments[i]], ancestors))
  }

  ghost predicate Distinct(segments: seq<Segment>) {
    forall i, j :: 0 <= i < j < |segments| ==> segments[i] != segments[j]
  }

  /** `v` with the children named by `segments` resolved, last first. */
  ghost function ResolveChildren(v: Value, segments: seq<Segment>, ancestors: set<string>, world: World): Value
    decreases |segments|
  {
    if segments == [] then v
    else
      var s := segments[|segments| - 1];
      match Child(v, s)
      case None => v
      case Some(c) =>
        ResolveChildren(WithChild(v, s, Resolve(c, ancestors, world)), segments[..|segments| - 1], ancestors, world)
  }

  ghost function ChildrenWork(v: Value, segments: seq<Segment>, ancestors: set<string>, world: World): nat
    decreases |segments|
  {
    if segments == [] then 0
    else
      var s := segments[|segments| - 1];
      match Child(v, s)
      case None => 0
      case Some(c) => Work(c, ancestors, world) + ChildrenWork(v, segments[..|segments| - 1], ancestors, world)
  }

  lemma {:induction false} ChildrenWorkFrame(v: Value, w: Value, segments: seq<Segment>, ancestors: set<string>, world: World)
    requires forall s :: s in segments ==> Child(v, s) == Child(w, s)
    ensures ChildrenWork(v, segments, ancestors, world) == ChildrenWork(w, segments, ancestors, world)
    decreases |segments|
  {
    if segments != [] {
      assert segments[|segments| - 1] in segments;
      ChildrenWorkFrame(v, w, segments[..|segments| - 1], ancestors, world);
    }
  }

  lemma PoppedChild(document: Value, front: seq<Entry>, path: Path, node: Value, s: Segment, ancestors: set<string>, world: World)
    requires NodeAt(document, path) == Some(node) && Child(node, s).Some?
    ensures
      var c := Child(node, s).value;
      var node' := WithChild(node, s, Resolve(c, ancestors, world));
      var document' := SetAt(document, path, node');
      && NodeAt(document', path) == Some(node')
      && Finish(document, front + [Entry(path + [s], ancestors)], world) == Finish(document', front, world)
      && TotalWork(document, front + [Entry(path + [s], ancestors)], world)
         == Work(c, ancestors, world) + TotalWork(document', front, world)
  {
    var c := Child(node, s).value;
    var resolved := Resolve(c, ancestors, world);
    Popped(document, front, Entry(path + [s], ancestors), world);
    NodeAtAppend(document, path, s);
    SetAtAppend(document, path, s, resolved);
    SetAtFrame(document, path, WithChild(node, s, resolved));
  }

  /** Queueing children is the same as resolving them inside their parent. */
  lemma {:induction false} QueuedChildren(
    document: Value, rest: seq<Entry>, path: Path, node: Value, segments: seq<Segment>, ancestors: set<string>, world: World)
    requires NodeAt(document, path) == Some(node)
    requires Distinct(segments) && forall s :: s in segments ==> Child(node, s).Some?
    ensures
      var after := SetAt(document, path, ResolveChildren(node, segments, ancestors, world));
      var pending := rest + Entries(path, segments, ancestors);
      && Finish(document, pending, world) == Finish(after, rest, world)
      && TotalWork(document, pending, world) == ChildrenWork(node, segments, ancestors, world) + TotalWork(after, rest, world)
    decreases |segments|
  {
    hide Finish, TotalWork, Work, SetAt, NodeAt, Resolve;
    var pending := rest + Entries(path, segments, ancestors);
    if segments == [] {
      assert pending == rest;
      SetAtFrame(document, path, node);
    } else {
      var n := |segments| - 1;
      var s, before := segments[n], segments[..n];
      assert s in segments;
      var node' := WithChild(node, s, Resolve(Child(node, s).value, ancestors, world));
      var document' := SetAt(document, path, node');
      var front := rest + Entries(path, before, ancestors);
      assert pending == front + [Entry(path + [s], ancestors)];
      PoppedChild(document, front, path, node, s, ancestors, world);
      assert forall t :: t in before ==> t != s && Child(node', t) == Child(node, t);
      QueuedChildren(document', rest, path, node', before, ancestors, world);
      ChildrenWorkFrame(node, node', before, ancestors, world);
      var inside := ResolveChildren(node', before, ancestors, world);
      assert inside == ResolveChildren(node, segments, ancestors, world);
      SetAtTwice(document, path, node', inside);
      assert ChildrenWork(node, segments, ancestors, world)
          == Work(Child(node, s).value, ancestors, world) + ChildrenWork(node', before, ancestors, world);
      var after := SetAt(document, path, ResolveChildren(node, segments, ancestors, world));
      assert Finish(document, pending, world) == Finish(document', front, world) == Finish(after, rest, world);
    }
  }

  /** `segments` names every child of `v`, each once. */
  ghost predicate NamesChildren(v: Value, segments: seq<Segment>) {
    Distinct(segments) && forall s :: s in segments <==> Child(v, s).Some?
  }

  lemma {:induction false} ResolveChildrenAt(v: Value, segments: seq<Segment>, ancestors: set<string>, world: World, t: Segment)
    requires Distinct(segments) && forall s :: s in segments ==> Child(v, s).Some?
    ensures
      var r := ResolveChildren(v, segments, ancestors, world);
      && (r.Object? <==> v.Object?) && (r.Array? <==> v.Array?)
      && (v.Array? ==> |r.items| == |v.items|)
      && (t in segments ==> Child(r, t) == Some(Resolve(Child(v, t).value, ancestors, world)))
      && (t !in segments ==> Child(r, t) == Child(v, t))
    decreases |segments|
  {
    hide Resolve, WithChild, Child;
    if segments != [] {
      var n := |segments| - 1;
      var s := segments[n];
      assert s in segments;
      var v' := WithChild(v, s, Resolve(Child(v, s).value, ancestors, world));
      assert forall u :: u in segments[..n] ==> u != s;
      assert t in segments <==> t == s || t in segments[..n];
      ResolveChildrenAt(v', segments[..n], ancestors, world, t);
    }
  }

  lemma ResolveAllChildren(v: Value, segments: seq<Segment>, ancestors: set<string>, world: World)
    requires AsExternalUrl(v).None? && (v.Object? || v.Array?) && NamesChildren(v, segments)
    ensures ResolveChildren(v, segments, ancestors, world) == Resolve(v, ancestors, world)
  {
    var r := ResolveChildren(v, segments, ancestors, world);
    var whole := Resolve(v, ancestors, world);
    ResolveChildrenAt(v, segments, ancestors, world, Index(0));
    if v.Object? {
      forall k: string ensures (k in r.members <==> k in whole.members)
                       && (k in r.members ==> r.members[k] == whole.members[k]) {
        ResolveChildrenAt(v, segments, ancestors, world, Key(k));
        assert Child(r, Key(k)) == Get(r, k) && Child(v, Key(k)) == Get(v, k);
      }
      assert r.members == whole.members;
    } else {
      forall i | 0 <= i < |v.items| ensures r.items[i] == whole.items[i] {
        ResolveChildrenAt(v, segments, ancestors, world, Index(i));
        assert Child(v, Index(i)) == Some(v.items[i]) && Child(r, Index(i)) == Some(r.items[i]);
      }
      assert r.items == whole.items;
    }
  }

  // ---- Work of a container --------------------------------------------------

  lemma {:induction false} MemberWorkAny(v: Value, keys: set<string>, k: string, ancestors: set<string>, world: World)
    requires v.Object? && keys <= v.members.Keys && k in keys
    ensures MemberWork(v, keys, ancestors, world) ==
            Work(v.members[k], ancestors, world) + MemberWork(v, keys - {k}, ancestors, world)
    decreases |keys|
  {
    var j :| j in keys && MemberWork(v, keys, ancestors, world) ==
             Work(v.members[j], ancestors, world) + MemberWork(v, keys - {j}, ancestors, world);
    if j != k {
      MemberWorkAny(v, keys - {j}, k, ancestors, world);
      MemberWorkAny(v, keys - {k}, j, ancestors, world);
      assert keys - {j} - {k} == keys - {k} - {j};
    }
  }

  lemma {:induction false} KeyedWork(v: Value, segments: seq<Segment>, ancestors: set<string>, world: World, keys: set<string>)
    requires v.Object? && Distinct(segments)
    requires forall s :: s in segments <==> s.Key? && s.name in keys
    requires keys <= v.members.Keys
    ensures ChildrenWork(v, segments, ancestors, world) == MemberWork(v, keys, ancestors, world)
    decreases |segments|
  {
    if segments == [] {
      assert forall k :: k in keys ==> Key(k) in segments;
      assert keys == {};
    } else {
      var n := |segments| - 1;
      var s := segments[n];
      assert s in segments;
      assert forall t :: t in segments <==> t == s || t in segments[..n];
      assert s !in segments[..n];
      MemberWorkAny(v, keys, s.name, ancestors, world);
      KeyedWork(v, segments[..n], ancestors, world, keys - {s.name});
    }
  }

  lemma {:induction false} IndexedWork(v: Value, segments: seq<Segment>, ancestors: set<string>, world: World)
    requires v.Array? && |segments| <= |v.items|
    requires forall i :: 0 <= i < |segments| ==> segments[i] == Index(i)
    ensures ChildrenWork(v, segments, ancestors, world) == ItemWork(v, |segments|, ancestors, world)
    decreases |segments|
  {
    if segments != [] {
      IndexedWork(v, segments[..|segments| - 1], ancestors, world);
    }
  }

  // ---- Path bookkeeping -----------------------------------------------------

  lemma ExtensionsIncomparable(p: Path, s: Segment, q: Path, t: Segment)
    ensures Incomparable(p, q) ==> Incomparable(p + [s], q) && Incomparable(q, p + [s])
    ensures s != t ==> Incomparable(p + [s], p + [t])
  {
    if Incomparable(p, q) {
      var i :| 0 <= i < |p| && i < |q| && p[i] != q[i];
      assert (p + [s])[i] != q[i];
    }
    if s != t {
      assert (p + [s])[|p|] != (p + [t])[|p|];
    }
  }

  lemma RewriteKeepsPending(document: Value, path: Path, value: Value, rest: seq<Entry>)
    requires AllResolve(document, rest)
    requires forall i :: 0 <= i < |rest| ==> Incomparable(path, rest[i].path)
    ensures AllResolve(SetAt(document, path, value), rest)
    ensures forall i :: 0 <= i < |rest| ==>
              NodeAt(SetAt(document, path, value), rest[i].path) == NodeAt(document, rest[i].path)
  {
    forall i | 0 <= i < |rest|
      ensures NodeAt(SetAt(document, path, value), rest[i].path) == NodeAt(document, rest[i].path)
    {
      SetAtElsewhere(document, path, value, rest[i].path);
    }
  }

  lemma ChildrenStayIncomparable(rest: seq<Entry>, top: Entry, segments: seq<Segment>)
    requires PairwiseIncomparable(rest + [top]) && Distinct(segments)
    ensures PairwiseIncomparable(rest + Entries(top.path, segments, top.ancestors))
  {
    var pending := rest + Entries(top.path, segments, top.ancestors);
    forall i, j | 0 <= i < |pending| && 0 <= j < |pending| && i != j
      ensures Incomparable(pending[i].path, pending[j].path)
    {
      var before := rest + [top];
      var n := |rest|;
      if i < n && j < n {
        assert before[i] == pending[i] && before[j] == pending[j];
      } else if i < n {
        assert before[i] == pending[i] && before[n] == top && Incomparable(before[n].path, before[i].path);
        ExtensionsIncomparable(top.path, segments[j - n], pending[i].path, segments[j - n]);
      } else if j < n {
        assert before[j] == pending[j] && before[n] == top && Incomparable(before[n].path, before[j].path);
        ExtensionsIncomparable(top.path, segments[i - n], pending[j].path, segments[i - n]);
      } else {
        assert segments[i - n] != segments[j - n];
        ExtensionsIncomparable(top.path, segments[i - n], top.path, segments[j - n]);
      }
    }
  }

  lemma ChildrenResolve(document: Value, rest: seq<Entry>, top: Entry, node: Value, segments: seq<Segment>)
    requires AllResolve(document, rest) && NodeAt(document, top.path) == Some(node)
    requires forall s :: s in segments ==> Child(node, s).Some?
    ensures AllResolve(document, rest + Entries(top.path, segments, top.ancestors))
  {
    var pending := rest + Entries(top.path, segments, top.ancestors);
    forall i | 0 <= i < |pending| ensures NodeAt(document, pending[i].path).Some? {
      if i >= |rest| {
        assert segments[i - |rest|] in segments;
        NodeAtAppend(document, top.path, segments[i - |rest|]);
      }
    }
  }

  /** Visiting a container: its children take its place on the stack. */
  lemma VisitStep(document: Value, rest: seq<Entry>, top: Entry, node: Value, segments: seq<Segment>, world: World)
    requires NodeAt(document, top.path) == Some(node) && AsExternalUrl(node).None?
    requires node.Object? || node.Array?
    requires NamesChildren(node, segments)
    requires node.Array? ==> |segments| == |node.items| && forall i :: 0 <= i < |segments| ==> segments[i] == Index(i)
    ensures
      var pending := rest + Entries(top.path, segments, top.ancestors);
      && Finish(document, pending, world) == Finish(document, rest + [top], world)
      && TotalWork(document, pending, world) < TotalWork(document, rest + [top], world)
  {
    Popped(document, rest, top, world);
    QueuedChildren(document, rest, top.path, node, segments, top.ancestors, world);
    ResolveAllChildren(node, segments, top.ancestors, world);
    if node.Object? {
      forall s ensures s in segments <==> s.Key? && s.name in node.members.Keys {
        assert s in segments <==> Child(node, s).Some?;
      }
      KeyedWork(node, segments, top.ancestors, world, node.members.Keys);
    } else {
      IndexedWork(node, segments, top.ancestors, world);
    }
  }

  /** Visiting a scalar: nothing to rewrite and nothing to queue. */
  lemma ScalarStep(document: Value, rest: seq<Entry>, top: Entry, node: Value, world: World)
    requires NodeAt(document, top.path) == Some(node) && AsExternalUrl(node).None?
    requires !node.Object? && !node.Array?
    ensures NamesChildren(node, [])
    ensures Finish(document, rest, world) == Finish(document, rest + [top], world)
    ensures TotalWork(document, rest, world) < TotalWork(document, rest + [top], world)
  {
    Popped(document, rest, top, world);
    SetAtFrame(document, top.path, node);
  }

  lemma StartAndEnd(document: Value, world: World)
    ensures Finish(document, [Entry([], {})], world) == Resolve(document, {}, world)
    ensures Finish(document, [], world) == document
  {
    Popped(document, [], Entry([], {}), world);
    assert [] + [Entry([], {})] == [Entry([], {})];
  }

  lemma TopAndRest(document: Value, pending: seq<Entry>)
    requires pending != [] && PairwiseIncomparable(pending) && AllResolve(document, pending)
    ensures
      var top, rest := pending[|pending| - 1], pending[..|pending| - 1];
      && pending == rest + [top] && NodeAt(document, top.path).Some?
      && PairwiseIncomparable(rest) && AllResolve(document, rest)
      && forall i :: 0 <= i < |rest| ==> Incomparable(top.path, rest[i].path) && Incomparable(rest[i].path, top.path)
  {
    var top, rest := pending[|pending| - 1], pending[..|pending| - 1];
    assert pending[|rest|] == top;
    assert forall i :: 0 <= i < |rest| ==> rest[i] == pending[i];
  }

  // ---- The URLs behind an entry ---------------------------------------------

  /** `chain` lists the URLs fetched on the way from `origin` to the entry's node:
      they are its ancestors, each once, and what can be met below the node can be
      met below `origin` after them. */
  ghost predicate Traced(origin: Value, node: Value, entry: Entry, chain: seq<string>, world: World) {
    && DistinctWithin(chain, world.Keys)
    && (forall url :: url in chain <==> url in entry.ancestors)
    && forall urls :: Chain(node, world, urls) ==> Chain(origin, world, chain + urls)
  }

  ghost predicate AllTraced(origin: Value, document: Value, pending: seq<Entry>, chains: seq<seq<string>>, world: World) {
    && |chains| == |pending|
    && forall i :: 0 <= i < |pending| ==>
         && NodeAt(document, pending[i].path).Some?
         && Traced(origin, NodeAt(document, pending[i].path).value, pending[i], chains[i], world)
  }

  /** A chain of fetches that `origin` allows and that repeats nothing. */
  ghost predicate Fetched(origin: Value, chain: seq<string>, world: World) {
    chain != [] && DistinctWithin(chain, world.Keys) && Chain(origin, world, chain)
  }

  ghost predicate AllFetched(origin: Value, fetched: seq<seq<string>>, world: World) {
    forall i :: 0 <= i < |fetched| ==> Fetched(origin, fetched[i], world)
  }

  /** So however long the chains that a cyclic graph allows, those followed are no
      longer than the number of readable URLs. */
  lemma ChainsNeverRepeat(origin: Value, chain: seq<string>, world: World)
    requires Fetched(origin, chain, world)
    ensures forall i, j :: 0 <= i < j < |chain| ==> chain[i] != chain[j]
    ensures 0 < |chain| <= |world|
  {
    DistinctBound(chain, world.Keys);
  }

  /** Fetching extends the chain by a URL that is not yet on it. */
  lemma FollowTraced(origin: Value, node: Value, entry: Entry, chain: seq<string>, url: string, world: World)
    requires Traced(origin, node, entry, chain, world) && AsExternalUrl(node) == Some(url)
    requires url !in entry.ancestors && url in world
    ensures Traced(origin, world[url], Entry(entry.path, entry.ancestors + {url}), chain + [url], world)
    ensures Fetched(origin, chain + [url], world)
  {
    var longer := chain + [url];
    forall urls | Chain(world[url], world, urls) ensures Chain(origin, world, longer + urls) {
      assert ([url] + urls)[1..] == urls;
      assert Chain(node, world, [url] + urls);
      assert longer + urls == chain + ([url] + urls);
    }
    assert Chain(world[url], world, []);
    assert longer + [] == longer;
    assert forall u :: u in longer <==> u in chain || u == url;
    forall i, j | 0 <= i < j < |longer| ensures longer[i] != longer[j] {
      assert longer[i] == chain[i] && longer[i] in chain;
    }
  }

  lemma ChildTraced(origin: Value, node: Value, entry: Entry, chain: seq<string>, s: Segment, world: World)
    requires Traced(origin, node, entry, chain, world) && AsExternalUrl(node).None? && Child(node, s).Some?
    ensures Traced(origin, Child(node, s).value, Entry(entry.path + [s], entry.ancestors), chain, world)
  {
    forall urls | Chain(Child(node, s).value, world, urls) ensures Chain(origin, world, chain + urls) {
      assert Chain(node, world, urls);
    }
  }

  lemma RewriteKeepsTraces(origin: Value, document: Value, path: Path, value: Value, rest: seq<Entry>, chains: seq<seq<string>>, world: World)
    requires AllTraced(origin, document, rest, chains, world)
    requires forall i :: 0 <= i < |rest| ==> Incomparable(path, rest[i].path)
    ensures AllTraced(origin, SetAt(document, path, value), rest, chains, world)
  {
    hide Traced, SetAt, NodeAt, Incomparable;
    RewriteKeepsPending(document, path, value, rest);
  }

  lemma PushedTrace(origin: Value, document: Value, rest: seq<Entry>, chains: seq<seq<string>>, entry: Entry, chain: seq<string>, world: World)
    requires AllTraced(origin, document, rest, chains, world)
    requires NodeAt(document, entry.path).Some? && Traced(origin, NodeAt(document, entry.path).value, entry, chain, world)
    ensures AllTraced(origin, document, rest + [entry], chains + [chain], world)
  {
    hide Traced, NodeAt;
  }

  lemma ChildrenTraced(
    origin: Value, document: Value, rest: seq<Entry>, chains: seq<seq<string>>, top: Entry, chain: seq<string>, node: Value,
    segments: seq<Segment>, world: World)
    requires AllTraced(origin, document, rest, chains, world)
    requires NodeAt(document, top.path) == Some(node) && Traced(origin, node, top, chain, world)
    requires AsExternalUrl(node).None? && forall s :: s in segments ==> Child(node, s).Some?
    ensures AllTraced(origin, document, rest + Entries(top.path, segments, top.ancestors), chains + seq(|segments|, _ => chain), world)
  {
    hide Traced, NodeAt;
    var pending := rest + Entries(top.path, segments, top.ancestors);
    forall i | |rest| <= i < |pending|
      ensures NodeAt(document, pending[i].path).Some? && Traced(origin, NodeAt(document, pending[i].path).value, pending[i], chain, world)
    {
      var s := segments[i - |rest|];
      assert s in segments;
      NodeAtAppend(document, top.path, s);
      ChildTraced(origin, node, top, chain, s, world);
    }
  }

  lemma StartTraced(document: Value, world: World)
    ensures AllTraced(document, document, [Entry([], {})], [[]], world)
  {
    assert forall urls: seq<string> :: [] + urls == urls;
  }

  lemma PoppedTrace(origin: Value, document: Value, pending: seq<Entry>, chains: seq<seq<string>>, world: World)
    requires AllTraced(origin, document, pending, chains, world) && pending != []
    ensures
      var n := |pending| - 1;
      && |chains| == |pending| && AllTraced(origin, document, pending[..n], chains[..n], world)
      && NodeAt(document, pending[n].path).Some?
      && Traced(origin, NodeAt(document, pending[n].path).value, pending[n], chains[n], world)
  {
    hide Traced, NodeAt;
  }

  lemma OneMoreFetched(origin: Value, fetched: seq<seq<string>>, chain: seq<string>, world: World)
    requires AllFetched(origin, fetched, world) && Fetched(origin, chain, world)
    ensures AllFetched(origin, fetched + [chain], world)
  {
  }

  lemma NothingFetched(origin: Value, world: World)
    ensures AllFetched(origin, [], world)
  {
  }

  // ---- The loop -------------------------------------------------------------

  class Resolution {
    const world: World
    var document: Value
    var pending: seq<Entry>
    // The document at the start, the chain of fetches behind every pending entry,
    // and every chain fetched.
    ghost var origin: Value
    ghost var chains: seq<seq<string>>
    ghost var fetched: seq<seq<string>>

    constructor (document: Value, world: World)
      ensures this.document == document && this.world == world && pending == []
    {
      this.document := document;
      this.world := world;
      pending := [];
      origin, chains, fetched := document, [], [];
    }

    /** The stack discipline: no two pending paths share a line of descent, and
        every one still leads to a node. */
    ghost predicate Valid()
      reads this
    {
      PairwiseIncomparable(pending) && AllResolve(document, pending)
    }

    /** The ancestors of every pending entry are the URLs fetched on the way to it. */
    ghost predicate KeepsTrace()
      reads this
    {
      AllTraced(origin, document, pending, chains, world) && AllFetched(origin, fetched, world)
    }

    method ResolveExternalUrls()
      modifies this
      ensures document == Resolve(old(document), {}, world)
      ensures pending == []
      ensures AllFetched(old(document), fetched, world)
    {
      hide Finish, TotalWork, Resolve, Work, AllTraced, AllFetched, Traced;
      pending := [Entry([], {})];
      origin, chains, fetched := document, [[]], [];
      StartAndEnd(document, world);
      StartTraced(document, world);
      NothingFetched(document, world);
      while pending != []
        invariant Valid()
        invariant KeepsTrace() && origin == old(document)
        invariant Finish(document, pending, world) == Resolve(old(document), {}, world)
        decreases TotalWork(document, pending, world)
      {
        TopAndRest(document, pending);
        PoppedTrace(origin, document, pending, chains, world);
        var top := pending[|pending| - 1];
        ghost var chain := chains[|pending| - 1];
        chains := chains[..|pending| - 1];
        pending := pending[..|pending| - 1];
        var node := FindNode(document, top.path);
        match AsExternalUrl(node.value)
        case Some(url) => ExpandExternal(top, url, chain);
        case None => PushChildren(top, chain);
      }
      StartAndEnd(document, world);
    }

    /** Replaces the indirection at `top` by `null` when its URL closes a cycle or
        cannot be read, and otherwise by its document, which is queued again. */
    method ExpandExternal(top: Entry, url: string, ghost chain: seq<string>)
      requires Valid() && KeepsTrace() && NodeAt(document, top.path).Some?
      requires Traced(origin, NodeAt(document, top.path).value, top, chain, world)
      requires AsExternalUrl(NodeAt(document, top.path).value) == Some(url)
      requires forall i :: 0 <= i < |pending| ==> Incomparable(top.path, pending[i].path)
      requires forall i :: 0 <= i < |pending| ==> Incomparable(pending[i].path, top.path)
      modifies this
      ensures Valid()
      ensures var follows := url !in top.ancestors && url in world;
              && document == SetAt(old(document), top.path, if follows then world[url] else Null)
              && pending == old(pending) + (if follows then [Entry(top.path, top.ancestors + {url})] else [])
              && fetched == old(fetched) + (if follows then [chain + [url]] else [])
      ensures KeepsTrace() && origin == old(origin)
      ensures forall i :: 0 <= i < |old(pending)| ==>
                NodeAt(document, old(pending)[i].path) == NodeAt(old(document), old(pending)[i].path)
      ensures Finish(document, pending, world) == Finish(old(document), old(pending) + [top], world)
      ensures TotalWork(document, pending, world) < TotalWork(old(document), old(pending) + [top], world)
    {
      hide Finish, TotalWork, Resolve, Work, SetAt, AllTraced, AllFetched, Traced, Fetched, Incomparable, AsExternalUrl;
      if url in top.ancestors || url !in world {
        CutStep(document, pending, top, url, world);
        RewriteKeepsPending(document, top.path, Null, pending);
        RewriteKeepsTraces(origin, document, top.path, Null, pending, chains, world);
        document := SetAt(document, top.path, Null);
        assert pending == old(pending) + [] && fetched == old(fetched) + [];
        return;
      }
      var value := world[url];
      FollowStep(document, pending, top, url, world);
      RewriteKeepsPending(document, top.path, value, pending);
      RewriteKeepsTraces(origin, document, top.path, value, pending, chains, world);
      FollowTraced(origin, NodeAt(document, top.path).value, top, chain, url, world);
      SetAtFrame(document, top.path, value);
      document := SetAt(document, top.path, value);
      PushedTrace(origin, document, pending, chains, Entry(top.path, top.ancestors + {url}), chain + [url], world);
      OneMoreFetched(origin, fetched, chain + [url], world);
      pending := pending + [Entry(top.path, top.ancestors + {url})];
      chains, fetched := chains + [chain + [url]], fetched + [chain + [url]];
    }

    /** Queues every child of the container at `top`, in any key order. */
    method PushChildren(top: Entry, ghost chain: seq<string>)
      requires Valid() && KeepsTrace() && NodeAt(document, top.path).Some?
      requires Traced(origin, NodeAt(document, top.path).value, top, chain, world)
      requires AsExternalUrl(NodeAt(document, top.path).value).None?
      requires PairwiseIncomparable(pending + [top])
      modifies this`pending, this`chains
      ensures Valid() && KeepsTrace()
      ensures exists segments ::
                NamesChildren(NodeAt(document, top.path).value, segments)
                && pending == old(pending) + Entries(top.path, segments, top.ancestors)
      ensures Finish(document, pending, world) == Finish(document, old(pending) + [top], world)
      ensures TotalWork(document, pending, world) < TotalWork(document, old(pending) + [top], world)
    {
      hide Finish, TotalWork, Resolve, Work, AllTraced, AllFetched, Traced;
      var found := FindNode(document, top.path);
      var node := found.value;
      ghost var segments: seq<Segment> := [];
      ghost var rest := pending;
      assert rest == rest + Entries(top.path, segments, top.ancestors);
      match node {
        case Object(m) =>
          var keys := m.Keys;
          while keys != {}
            invariant keys <= m.Keys && Distinct(segments) && chains == old(chains)
            invariant forall s :: s in segments <==> s.Key? && s.name in m.Keys - keys
            invariant pending == rest + Entries(top.path, segments, top.ancestors)
            decreases keys
          {
            var key :| key in keys;
            pending := pending + [Entry(top.path + [Key(key)], top.ancestors)];
            keys := keys - {key};
            assert Key(key) !in segments;
            segments := segments + [Key(key)];
          }
          assert NamesChildren(node, segments);
        case Array(items) =>
          for i := 0 to |items|
            invariant chains == old(chains) && |segments| == i && forall j :: 0 <= j < i ==> segments[j] == Index(j)
            invariant pending == rest + Entries(top.path, segments, top.ancestors)
          {
            pending := pending + [Entry(top.path + [Index(i)], top.ancestors)];
            segments := segments + [Index(i)];
          }
          forall s ensures s in segments <==> Child(node, s).Some? {
            if Child(node, s).Some? { assert segments[s.index] == s; }
          }
        case _ =>
          ScalarStep(document, rest, top, node, world);
          return;
      }
      ChildrenStayIncomparable(rest, top, segments);
      ChildrenResolve(document, rest, top, node, segments);
      ChildrenTraced(origin, document, rest, chains, top, chain, node, segments, world);
      chains := chains + seq(|segments|, _ => chain);
      VisitStep(document, rest, top, node, segments, world);
    }
  }
}
