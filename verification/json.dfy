/** JSON values as serde_json holds them, and the path-addressed reads and writes
    the metadata resolver makes on them. */
module Json {
  import opened Wrappers

  // serde_json tells an integer from a float even when the float is whole.
  datatype Number = Integer(n: int) | Float(text: string)

  datatype Value =
    | Null
    | Bool(b: bool)
    | Num(num: Number)
    | Str(s: string)
    | Array(items: seq<Value>)
    | Object(members: map<string, Value>)

  function AsU64(v: Value): Option<nat> {
    if v.Num? && v.num.Integer? && 0 <= v.num.n <= U64_MAX then Some(v.num.n) else None
  }

  function Get(v: Value, key: string): Option<Value> {
    if v.Object? && key in v.members then Some(v.members[key]) else None
  }

  function GetStr(v: Value, key: string): Option<string> {
    match Get(v, key)
    case Some(Str(s)) => Some(s)
    case _ => None
  }

  datatype Segment = Key(name: string) | Index(index: nat)

  type Path = seq<Segment>

  function Child(v: Value, s: Segment): Option<Value> {
    match s
    case Key(k) => Get(v, k)
    case Index(i) => if v.Array? && i < |v.items| then Some(v.items[i]) else None
  }

  function WithChild(v: Value, s: Segment, child: Value): (r: Value)
    requires Child(v, s).Some?
    ensures Child(r, s) == Some(child)
    ensures forall t :: t != s ==> Child(r, t) == Child(v, t)
    ensures (r.Object? <==> v.Object?) && (r.Array? <==> v.Array?) && (v.Array? ==> |r.items| == |v.items|)
  {
    match s
    case Key(k) => Object(v.members[k := child])
    case Index(i) => Array(v.items[i := child])
  }

  function NodeAt(root: Value, path: Path): Option<Value> {
    if path == [] then Some(root)
    else match Child(root, path[0])
      case None => None
      case Some(child) => NodeAt(child, path[1..])
  }

  // Writing through a path that no longer resolves changes nothing.
  function SetAt(root: Value, path: Path, value: Value): Value {
    if path == [] then value
    else match Child(root, path[0])
      case None => root
      case Some(child) => WithChild(root, path[0], SetAt(child, path[1..], value))
  }

  /** Neither path leads through the other. */
  predicate Incomparable(p: Path, q: Path) {
    exists i :: 0 <= i < |p| && i < |q| && p[i] != q[i]
  }

  lemma {:induction false} SetAtFrame(root: Value, path: Path, value: Value)
    ensures NodeAt(root, path).Some? ==> NodeAt(SetAt(root, path, value), path) == Some(value)
    ensures NodeAt(root, path).None? ==> SetAt(root, path, value) == root
    ensures NodeAt(root, path) == Some(value) ==> SetAt(root, path, value) == root
  {
    if path != [] {
      match Child(root, path[0])
      case None =>
      case Some(child) =>
        SetAtFrame(child, path[1..], value);
        if path[0].Key? {
          assert root.members[path[0].name := child] == root.members;
        } else {
          assert root.items[path[0].index := child] == root.items;
        }
    }
  }

  lemma {:induction false} SetAtTwice(root: Value, path: Path, v: Value, w: Value)
    ensures SetAt(SetAt(root, path, v), path, w) == SetAt(root, path, w)
  {
    if path != [] {
      match Child(root, path[0])
      case None =>
      case Some(child) =>
        SetAtTwice(child, path[1..], v, w);
        var a := SetAt(child, path[1..], v);
        assert SetAt(root, path, v) == WithChild(root, path[0], a);
        WithChildTwice(root, path[0], a, SetAt(a, path[1..], w));
    }
  }

  lemma {:induction false} NodeAtAppend(root: Value, path: Path, s: Segment)
    ensures NodeAt(root, path + [s]) ==
            match NodeAt(root, path) { case None => None case Some(n) => Child(n, s) }
  {
    if path == [] {
      assert path + [s] == [s];
    } else {
      assert (path + [s])[1..] == path[1..] + [s];
      match Child(root, path[0])
      case None =>
      case Some(child) => NodeAtAppend(child, path[1..], s);
    }
  }

  lemma {:induction false} SetAtAppend(root: Value, path: Path, s: Segment, value: Value)
    requires NodeAt(root, path).Some? && Child(NodeAt(root, path).value, s).Some?
    ensures SetAt(root, path + [s], value) == SetAt(root, path, WithChild(NodeAt(root, path).value, s, value))
  {
    if path == [] {
      assert path + [s] == [s] && [s][1..] == [];
    } else {
      assert (path + [s])[1..] == path[1..] + [s];
      SetAtAppend(Child(root, path[0]).value, path[1..], s, value);
    }
  }

  lemma IncomparableTails(p: Path, q: Path)
    requires Incomparable(p, q) && p[0] == q[0]
    ensures Incomparable(p[1..], q[1..])
  {
    var i :| 0 <= i < |p| && i < |q| && p[i] != q[i];
    assert p[1..][i - 1] != q[1..][i - 1];
  }

  /** A write moves no node that its path does not lead through or to. */
  lemma {:induction false} SetAtElsewhere(root: Value, p: Path, value: Value, q: Path)
    requires Incomparable(p, q)
    ensures NodeAt(SetAt(root, p, value), q) == NodeAt(root, q)
  {
    match Child(root, p[0])
    case None =>
    case Some(child) =>
      if p[0] == q[0] {
        IncomparableTails(p, q);
        SetAtElsewhere(child, p[1..], value, q[1..]);
      }
  }

  /** Two writes at incomparable paths commute. */
  lemma {:induction false} RewritesCommute(root: Value, p: Path, v: Value, q: Path, w: Value)
    requires Incomparable(p, q)
    ensures SetAt(SetAt(root, p, v), q, w) == SetAt(SetAt(root, q, w), p, v)
  {
    if p[0] == q[0] {
      match Child(root, p[0])
      case None =>
      case Some(c) =>
        IncomparableTails(p, q);
        RewritesCommute(c, p[1..], v, q[1..], w);
        OneBranch(root, p, v, q, w, c);
        OneBranch(root, q, w, p, v, c);
    } else {
      TwoBranches(root, p, v, q, w);
    }
  }

  lemma OneBranch(root: Value, p: Path, v: Value, q: Path, w: Value, c: Value)
    requires p != [] && q != [] && p[0] == q[0] && Child(root, p[0]) == Some(c)
    ensures SetAt(SetAt(root, p, v), q, w) == WithChild(root, p[0], SetAt(SetAt(c, p[1..], v), q[1..], w))
  {
    var a := SetAt(c, p[1..], v);
    assert SetAt(root, p, v) == WithChild(root, p[0], a);
    WithChildTwice(root, p[0], a, SetAt(a, q[1..], w));
  }

  lemma SetAtHead(root: Value, p: Path, v: Value)
    requires p != []
    ensures SetAt(root, p, v) ==
            match Child(root, p[0]) { case None => root case Some(c) => WithChild(root, p[0], SetAt(c, p[1..], v)) }
  {
  }

  lemma TwoBranches(root: Value, p: Path, v: Value, q: Path, w: Value)
    requires p != [] && q != [] && p[0] != q[0]
    ensures SetAt(SetAt(root, p, v), q, w) == SetAt(SetAt(root, q, w), p, v)
  {
    hide SetAt, WithChild, Child;
    SetAtHead(root, p, v);
    SetAtHead(root, q, w);
    SetAtHead(SetAt(root, p, v), q, w);
    SetAtHead(SetAt(root, q, w), p, v);
    var cp, cq := Child(root, p[0]), Child(root, q[0]);
    if cp.Some? && cq.Some? {
      WithChildCommute(root, p[0], SetAt(cp.value, p[1..], v), q[0], SetAt(cq.value, q[1..], w));
    }
  }

  lemma WithChildTwice(v: Value, s: Segment, a: Value, b: Value)
    requires Child(v, s).Some?
    ensures WithChild(WithChild(v, s, a), s, b) == WithChild(v, s, b)
  {
    if s.Key? {
      assert v.members[s.name := a][s.name := b] == v.members[s.name := b];
    } else {
      assert v.items[s.index := a][s.index := b] == v.items[s.index := b];
    }
  }

  lemma WithChildCommute(v: Value, s: Segment, a: Value, t: Segment, b: Value)
    requires s != t && Child(v, s).Some? && Child(v, t).Some?
    ensures WithChild(WithChild(v, s, a), t, b) == WithChild(WithChild(v, t, b), s, a)
  {
    if s.Key? {
      assert v.members[s.name := a][t.name := b] == v.members[t.name := b][s.name := a];
    } else {
      assert v.items[s.index := a][t.index := b] == v.items[t.index := b][s.index := a];
    }
  }

  /** Follows `path` one segment at a time with a moving cursor. */
  method FindNode(root: Value, path: Path) returns (node: Option<Value>)
    ensures node == NodeAt(root, path)
  {
    var current := root;
    for i := 0 to |path|
      invariant NodeAt(root, path) == NodeAt(current, path[i..])
    {
      assert path[i..][1..] == path[i + 1..];
      match Child(current, path[i])
      case None => return None;
      case Some(child) => current := child;
    }
    return Some(current);
  }
}
