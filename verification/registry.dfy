/** The opaque-handle table: a 32-bit counter that wraps and skips live handles. */
module Registry {
  import opened Wrappers

  const I32_MAX: int := 0x7FFF_FFFF
  const I32_MIN: int := -0x8000_0000

  type i32 = x: int | I32_MIN <= x <= I32_MAX

  function WrappingAdd(a: i32, b: i32): i32 {
    var s := a + b;
    if s > I32_MAX then s - 0x1_0000_0000 else if s < I32_MIN then s + 0x1_0000_0000 else s
  }

  /** The counter's next value: 1 to 2^31 - 1, in a cycle. */
  function Advance(next: i32): (r: i32)
    ensures next >= 0 ==> r == (if next == I32_MAX then 1 else next + 1)
  {
    Max(WrappingAdd(next, 1), 1)
  }

  /** How many steps bring the counter from `next` to the handle `h`. */
  function Distance(next: i32, h: i32): int {
    if h > next then h - next else I32_MAX - next + h
  }

  /** The first handle after `next`, in counter order, that is not live. */
  ghost predicate FirstFree(next: i32, live: set<i32>, h: i32) {
    && 1 <= h <= I32_MAX && h !in live
    && forall g: i32 :: 1 <= g <= I32_MAX && Distance(next, g) < Distance(next, h) ==> g in live
  }

  lemma FirstFreeUnique(next: i32, live: set<i32>, g: i32, h: i32)
    requires 0 <= next && FirstFree(next, live, g) && FirstFree(next, live, h)
    ensures g == h
  {
  }

  // ---- Pigeonhole -----------------------------------------------------------

  function Handles(n: nat): (r: set<i32>)
    requires n <= I32_MAX
    ensures forall h: i32 :: h in r <==> 1 <= h <= n
    ensures |r| == n
  {
    if n == 0 then {} else Handles(n - 1) + {n}
  }

  lemma SubsetSize(a: set<i32>, b: set<i32>)
    ensures a <= b ==> |a| <= |b|
  {
    if a <= b {
      assert b == a + (b - a);
    }
  }

  lemma SomeHandleFree(live: set<i32>) returns (h: i32)
    requires |live| < I32_MAX
    ensures 1 <= h <= I32_MAX && h !in live
  {
    SubsetSize(Handles(I32_MAX), live);
    h :| h in Handles(I32_MAX) && h !in live;
  }

  lemma FullTable(live: set<i32>)
    requires |live| >= I32_MAX && forall h :: h in live ==> 1 <= h
    ensures Handles(I32_MAX) == live
  {
    SubsetSize(live, Handles(I32_MAX));
    SameSize(live, Handles(I32_MAX));
  }

  lemma SameSize(a: set<i32>, b: set<i32>)
    requires a <= b && |a| >= |b|
    ensures a == b
  {
    assert b == a + (b - a) && |b| == |a| + |b - a|;
  }

  /** With every handle live the search meets no free handle, however long it
      runs. */
  lemma {:induction false} FullTableNeverFinds(next: i32, live: set<i32>, steps: nat)
    requires 0 <= next && Handles(I32_MAX) <= live
    ensures 0 <= AdvanceBy(next, steps) <= I32_MAX
    ensures steps > 0 ==> AdvanceBy(next, steps) in live
  {
    if steps > 0 {
      FullTableNeverFinds(next, live, steps - 1);
    }
  }

  function AdvanceBy(next: i32, steps: nat): i32 {
    if steps == 0 then next else Advance(AdvanceBy(next, steps - 1))
  }

  // ---- The search -----------------------------------------------------------

  /** After some steps from `start`, every handle passed is live, and `free` is
      still ahead, less than a full turn away. */
  ghost predicate Searching(start: i32, next: i32, live: set<i32>, free: i32, steps: nat) {
    && 0 <= next <= I32_MAX && 1 <= free <= I32_MAX && free !in live
    && steps + Distance(next, free) <= I32_MAX
    && (next == start || Distance(start, next) < Distance(start, free))
    && (next != start ==> next in live && 1 <= next)
    && forall g: i32 :: 1 <= g <= I32_MAX && next != start && Distance(start, g) <= Distance(start, next) ==> g in live
  }

  lemma SearchStarts(start: i32, live: set<i32>, free: i32)
    requires 0 <= start && 1 <= free <= I32_MAX && free !in live
    ensures Searching(start, start, live, free, 0)
  {
  }

  lemma SearchTurn(start: i32, next: i32, live: set<i32>, free: i32, steps: nat)
    requires 0 <= start && Searching(start, next, live, free, steps)
    ensures if Advance(next) in live then Searching(start, Advance(next), live, free, steps + 1) else FirstFree(start, live, Advance(next))
  {
  }

  lemma SearchIsShort(start: i32, next: i32, live: set<i32>, free: i32, steps: nat)
    requires Searching(start, next, live, free, steps)
    ensures steps < I32_MAX
  {
  }

  // ---- The object -----------------------------------------------------------

  class HandleRegistry<T> {
    var next: i32
    var entries: map<i32, T>

    ghost predicate Valid()
      reads this
    {
      0 <= next && forall h :: h in entries ==> 1 <= h
    }

    constructor ()
      ensures Valid() && next == 0 && entries == map[]
    {
      next := 0;
      entries := map[];
    }

    /** Stores under the first free handle after the last one given out. With every
        handle live the search has no end: `patience` bounds its steps, which the
        source does not, and a full turn of the counter is always enough. */
    method Store(value: T, patience: nat) returns (r: Option<i32>)
      requires Valid()
      modifies this
      ensures Valid()
      ensures r.Some? ==> FirstFree(old(next), old(entries).Keys, r.value)
      ensures r.Some? ==> next == r.value && entries == old(entries)[r.value := value]
      ensures r.None? ==> entries == old(entries)
      ensures |old(entries)| >= I32_MAX ==> r.None?
      ensures |old(entries)| < I32_MAX && patience >= I32_MAX ==> r.Some?
    {
      hide Searching, FirstFree, Distance;
      ghost var free: i32 := 1;
      if |entries| < I32_MAX {
        free := SomeHandleFree(entries.Keys);
        SearchStarts(next, entries.Keys, free);
      } else {
        FullTable(entries.Keys);
      }
      var steps: nat := 0;
      while steps < patience
        invariant 0 <= next <= I32_MAX && entries == old(entries)
        invariant |entries| < I32_MAX ==> Searching(old(next), next, entries.Keys, free, steps)
      {
        if |entries| < I32_MAX { SearchTurn(old(next), next, entries.Keys, free, steps); }
        next := Advance(next);
        steps := steps + 1;
        if next !in entries {
          entries := entries[next := value];
          return Some(next);
        }
      }
      if |entries| < I32_MAX { SearchIsShort(old(next), next, entries.Keys, free, steps); }
      return None;
    }

    /** Reads the value at `handle`; None is the unknown-handle error. */
    method With<R>(handle: i32, body: T -> R) returns (r: Option<R>)
      ensures r == if handle in entries then Some(body(entries[handle])) else None
    {
      if handle !in entries {
        return None;
      }
      return Some(body(entries[handle]));
    }

    /** Replaces the value at `handle` by what `body` makes of it. */
    method WithMut<R>(handle: i32, body: T -> (T, R)) returns (r: Option<R>)
      requires Valid()
      modifies this`entries
      ensures Valid()
      ensures handle in old(entries) ==>
                r == Some(body(old(entries)[handle]).1) && entries == old(entries)[handle := body(old(entries)[handle]).0]
      ensures handle !in old(entries) ==> r == None && entries == old(entries)
    {
      if handle !in entries {
        return None;
      }
      var (value, result) := body(entries[handle]);
      entries := entries[handle := value];
      return Some(result);
    }

    method Remove(handle: i32)
      requires Valid()
      modifies this`entries
      ensures Valid()
      ensures entries == old(entries) - {handle}
    {
      entries := entries - {handle};
    }
  }
}
