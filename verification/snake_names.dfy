/** Builder names: the snake-case form of a type name, and exactly which type
    names it cannot tell apart. */
module SnakeNames {

  predicate IsLower(c: char) { 'a' <= c <= 'z' }

  predicate IsUpper(c: char) { 'A' <= c <= 'Z' }

  function Lower(c: char): char {
    if IsUpper(c) then ((c as int) + 32) as char else c
  }

  function Upper(c: char): char {
    if IsLower(c) then ((c as int) - 32) as char else c
  }

  function Mark(front: string, c: char): string {
    if IsUpper(c) && front != "" then "_" else ""
  }

  function CamelToSnake(s: string): string {
    if s == "" then ""
    else
      var front, c := s[..|s| - 1], s[|s| - 1];
      CamelToSnake(front) + Mark(front, c) + [Lower(c)]
  }

  function BuilderName(typeName: string): string {
    CamelToSnake(typeName) + "_schema"
  }

  // ---- Which names collide --------------------------------------------------

  /** Equal but for the case of the first letter. */
  predicate SameButFirst(a: string, b: string) {
    |a| == |b| && (a != "" ==> Lower(a[0]) == Lower(b[0]) && a[1..] == b[1..])
  }

  /** "_x" that is not at the very start, and so reads like "X". */
  predicate Splits(front: string, c: char) {
    |front| >= 2 && front[|front| - 1] == '_' && IsLower(c)
  }

  /** `s` with every such "_x" written "X". */
  function Camel(s: string): string
    decreases |s|
  {
    if s == "" then ""
    else
      var front, c := s[..|s| - 1], s[|s| - 1];
      if Splits(front, c) then Camel(front[..|front| - 1]) + [Upper(c)] else Camel(front) + [c]
  }

  lemma Appended(front: string, c: char)
    ensures (front + [c])[..|front|] == front
    ensures CamelToSnake(front + [c]) == CamelToSnake(front) + Mark(front, c) + [Lower(c)]
    ensures Camel(front + [c]) == if Splits(front, c) then Camel(front[..|front| - 1]) + [Upper(c)] else Camel(front) + [c]
  {
    var s := front + [c];
    assert s[..|s| - 1] == front && s[|s| - 1] == c;
  }

  lemma Empty()
    ensures CamelToSnake("") == "" && Camel("") == "" && CamelCased("") && SameButFirst("", "")
  {
  }

  lemma Split(s: string) returns (front: string, c: char)
    requires s != ""
    ensures s == front + [c] && |front| == |s| - 1
    ensures CamelToSnake(s) == CamelToSnake(front) + Mark(front, c) + [Lower(c)]
    ensures Camel(s) == if Splits(front, c) then Camel(front[..|front| - 1]) + [Upper(c)] else Camel(front) + [c]
  {
    front, c := s[..|s| - 1], s[|s| - 1];
    Appended(front, c);
  }

  lemma LastOf(s: string, c: char, t: string, d: char)
    requires s + [c] == t + [d]
    ensures s == t && c == d
  {
    assert (s + [c])[|s|] == c && (t + [d])[|t|] == d && s == (s + [c])[..|s|] && t == (t + [d])[..|t|];
  }

  lemma SnakeLength(s: string)
    ensures |CamelToSnake(s)| >= |s|
    ensures |s| <= 1 ==> |CamelToSnake(s)| == |s|
  {
  }

  lemma {:induction false} SnakeOfCamel(s: string)
    ensures CamelToSnake(Camel(s)) == CamelToSnake(s)
    ensures Camel(s) == "" <==> s == ""
    decreases |s|
  {
    hide CamelToSnake, Camel;
    Empty();
    if s != "" {
      var front, c := Split(s);
      if Splits(front, c) {
        var stem, u := Split(front);
        assert u == '_' && stem == front[..|front| - 1];
        SnakeOfCamel(stem);
        Appended(Camel(stem), Upper(c));
        assert CamelToSnake(s) == CamelToSnake(stem) + ['_'] + [c];
      } else {
        SnakeOfCamel(front);
        Appended(Camel(front), c);
      }
    }
  }

  /** No "_x" after the first character. */
  ghost predicate CamelCased(s: string) {
    forall i :: 2 <= i < |s| ==> !(s[i - 1] == '_' && IsLower(s[i]))
  }

  lemma CasedAppend(front: string, c: char)
    ensures CamelCased(front + [c]) <==> CamelCased(front) && !Splits(front, c)
  {
    var s := front + [c];
    assert forall i :: 0 <= i < |front| ==> s[i] == front[i];
    assert s[|front|] == c;
  }

  lemma {:induction false} CamelIsCased(s: string)
    ensures CamelCased(Camel(s))
    ensures |s| >= 2 ==> |Camel(s)| >= 2
    ensures |s| <= 2 ==> |Camel(s)| == |s|
    ensures s != "" && s[|s| - 1] != '_' ==> Camel(s) != "" && Camel(s)[|Camel(s)| - 1] != '_'
    decreases |s|
  {
    hide CamelToSnake, Camel, CamelCased;
    Empty();
    if s != "" {
      var front, c := Split(s);
      if Splits(front, c) {
        var stem := front[..|front| - 1];
        CamelIsCased(stem);
        CasedAppend(Camel(stem), Upper(c));
      } else {
        CamelIsCased(front);
        CasedAppend(Camel(front), c);
      }
    }
  }

  lemma {:induction false} CasedIsCamel(s: string)
    requires CamelCased(s)
    ensures Camel(s) == s
    decreases |s|
  {
    hide CamelToSnake, Camel, CamelCased;
    Empty();
    if s != "" {
      var front, c := Split(s);
      CasedAppend(front, c);
      CasedIsCamel(front);
    }
  }

  lemma SameMark(f: string, x: char, g: string, y: char)
    requires !Splits(g, y) && Lower(x) == Lower(y)
    requires CamelToSnake(f) + Mark(f, x) == CamelToSnake(g) + Mark(g, y)
    ensures Mark(f, x) != "" ==> Mark(g, y) != ""
  {
    hide CamelToSnake;
    if Mark(f, x) != "" && Mark(g, y) == "" {
      SnakeLength(f);
      SnakeLength(g);
      var front, c := Split(g);
      LastOf(CamelToSnake(f), '_', CamelToSnake(front) + Mark(front, c), Lower(c));
    }
  }

  lemma SameLast(f: string, x: char, g: string, y: char)
    requires !Splits(f, x) && !Splits(g, y) && CamelToSnake(f + [x]) == CamelToSnake(g + [y])
    ensures Lower(x) == Lower(y) && Mark(f, x) == Mark(g, y) && CamelToSnake(f) == CamelToSnake(g)
  {
    hide CamelToSnake;
    Appended(f, x);
    Appended(g, y);
    LastOf(CamelToSnake(f) + Mark(f, x), Lower(x), CamelToSnake(g) + Mark(g, y), Lower(y));
    SameMark(f, x, g, y);
    SameMark(g, y, f, x);
    if Mark(f, x) != "" {
      LastOf(CamelToSnake(f), '_', CamelToSnake(g), '_');
    } else {
      assert CamelToSnake(f) + "" == CamelToSnake(f) && CamelToSnake(g) + "" == CamelToSnake(g);
    }
  }

  lemma SameGrown(f: string, x: char, g: string, y: char)
    requires SameButFirst(f, g) && Lower(x) == Lower(y) && (f != "" ==> x == y)
    ensures SameButFirst(f + [x], g + [y])
  {
    if f != "" {
      assert (f + [x])[1..] == f[1..] + [x] && (g + [y])[1..] == g[1..] + [y];
    }
  }

  lemma {:induction false} SameSnake(a: string, b: string)
    requires CamelCased(a) && CamelCased(b) && CamelToSnake(a) == CamelToSnake(b)
    ensures SameButFirst(a, b)
    decreases |a| + |b|
  {
    hide CamelToSnake, CamelCased, SameButFirst;
    Empty();
    SnakeLength(a);
    SnakeLength(b);
    if a != "" {
      var f, x := Split(a);
      var g, y := Split(b);
      CasedAppend(f, x);
      CasedAppend(g, y);
      SameLast(f, x, g, y);
      SameSnake(f, g);
      SameGrown(f, x, g, y);
    }
  }

  lemma {:induction false} SameButFirstSnake(a: string, b: string)
    requires SameButFirst(a, b)
    ensures CamelToSnake(a) == CamelToSnake(b)
    decreases |a|
  {
    if |a| > 1 {
      hide CamelToSnake;
      var f, x := Split(a);
      var g, y := Split(b);
      assert a[1..] == f[1..] + [x] && b[1..] == g[1..] + [y];
      LastOf(f[1..], x, g[1..], y);
      SameButFirstSnake(f, g);
    }
  }

  /** Two types share a builder name exactly when they are spelled alike but for
      the first letter's case and for writing "_x" in place of "X" after it. */
  lemma NamesCollideIff(a: string, b: string)
    ensures BuilderName(a) == BuilderName(b) <==> SameButFirst(Camel(a), Camel(b))
  {
    hide CamelToSnake, CamelCased, SameButFirst;
    SnakeOfCamel(a);
    SnakeOfCamel(b);
    CamelIsCased(a);
    CamelIsCased(b);
    if BuilderName(a) == BuilderName(b) {
      assert CamelToSnake(a) == BuilderName(a)[..|BuilderName(a)| - 7];
      assert CamelToSnake(b) == BuilderName(b)[..|BuilderName(b)| - 7];
      SameSnake(Camel(a), Camel(b));
    }
    if SameButFirst(Camel(a), Camel(b)) {
      SameButFirstSnake(Camel(a), Camel(b));
    }
  }

  /** Names without underscores share one exactly when they differ at most in the
      case of the first letter. */
  lemma PlainNamesCollideIff(a: string, b: string)
    requires '_' !in a && '_' !in b
    ensures BuilderName(a) == BuilderName(b) <==> SameButFirst(a, b)
  {
    CasedIsCamel(a);
    CasedIsCamel(b);
    NamesCollideIff(a, b);
  }

  /** Such spellings, with and without an underscore. */
  lemma SpellingsCollide()
    ensures "Entity" != "entity" && BuilderName("Entity") == BuilderName("entity")
    ensures "aB" != "a_b" && BuilderName("aB") == BuilderName("a_b")
  {
    hide BuilderName, CamelToSnake, Camel;
    PlainNamesCollideIff("Entity", "entity");
    assert "Entity"[1..] == "ntity" == "entity"[1..];
    NamesCollideIff("aB", "a_b");
    Empty();
    Appended("", 'a');
    Appended("a", 'B');
    Appended("a_", 'b');
    assert "" + ['a'] == "a" && "a" + ['B'] == "aB" && "a_" + ['b'] == "a_b" && "a_"[..1] == "a";
  }

  // What each character of a name becomes, after the first.
  function Snaked(s: string): string {
    if s == "" then "" else (if IsUpper(s[0]) then "_" else "") + [Lower(s[0])] + Snaked(s[1..])
  }

  lemma {:induction false} SnakedAppend(s: string, c: char)
    ensures Snaked(s + [c]) == Snaked(s) + (if IsUpper(c) then "_" else "") + [Lower(c)]
  {
    if s == "" {
      assert "" + [c] == [c] && [c][1..] == "";
    } else {
      assert (s + [c])[0] == s[0] && (s + [c])[1..] == s[1..] + [c];
      SnakedAppend(s[1..], c);
    }
  }

  /** A builder is named by its type in small letters, an underscore before every
      capital but a leading one, and "_schema". */
  lemma {:induction false} NamedByType(first: char, rest: string)
    ensures BuilderName([first] + rest) == [Lower(first)] + Snaked(rest) + "_schema"
  {
    SnakeFromFront(first, rest);
  }

  lemma {:induction false} SnakeFromFront(first: char, rest: string)
    ensures CamelToSnake([first] + rest) == [Lower(first)] + Snaked(rest)
    decreases |rest|
  {
    hide CamelToSnake, Snaked;
    Empty();
    if rest == "" {
      Appended("", first);
      NothingSnaked();
      assert [first] + "" == "" + [first];
    } else {
      var front, c := rest[..|rest| - 1], rest[|rest| - 1];
      assert rest == front + [c] && [first] + rest == ([first] + front) + [c];
      SnakeFromFront(first, front);
      Appended([first] + front, c);
      SnakedAppend(front, c);
    }
  }

  lemma NothingSnaked()
    ensures Snaked("") == ""
  {
  }
}
