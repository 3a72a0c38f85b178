/** Option and Result, and the machine-integer bounds shared by every module. */
module Wrappers {

  datatype Option<+T> = None | Some(value: T)

  datatype Result<+T, +E> = Ok(value: T) | Err(error: E)

  newtype byte = x: int | 0 <= x < 256
  type Bytes = seq<byte>

  const U64_MAX: nat := 0xFFFF_FFFF_FFFF_FFFF
  const U32_MAX: nat := 0xFFFF_FFFF

  /** A partial result put in front of what the rest yields, if it yields anything. */
  function Prepend<T>(front: seq<T>, rest: Option<seq<T>>): (r: Option<seq<T>>)
    ensures front == [] ==> r == rest
    ensures rest == Some([]) ==> r == Some(front)
  {
    if rest.None? then None
    else
      assert [] + rest.value == rest.value && front + [] == front;
      Some(front + rest.value)
  }

  lemma PrependTwice<T>(a: seq<T>, b: seq<T>, rest: Option<seq<T>>)
    ensures Prepend(a, Prepend(b, rest)) == Prepend(a + b, rest)
  {
    if rest.Some? {
      assert a + (b + rest.value) == a + b + rest.value;
    }
  }

  // u64::saturating_mul of the standard library.
  function SaturatingMul(a: nat, b: nat): nat {
    Min(a * b, U64_MAX)
  }

  lemma MulMonotone(a: nat, x: int, y: int)
    requires x <= y
    ensures a * x <= a * y
  {
  }

  function Min(a: int, b: int): int {
    if a <= b then a else b
  }

  function Max(a: int, b: int): int {
    if a <= b then b else a
  }
}
