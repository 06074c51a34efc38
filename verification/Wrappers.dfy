/** Types, widths and small functions shared by the component models. */
module Wrappers {
  datatype Option<+T> = None | Some(value: T)

  datatype Result<+T, +E> = Ok(value: T) | Err(error: E)

  type Byte = b: int | 0 <= b < 256
  type Bytes = seq<Byte>

  const U32_MAX := 0xFFFF_FFFF
  const U64_MAX := 0xFFFF_FFFF_FFFF_FFFF

  function Min(a: nat, b: nat): nat { if a <= b then a else b }

  function Pow256(width: nat): (p: nat)
    ensures p > 0
  {
    if width == 0 then 1 else 256 * Pow256(width - 1)
  }

  /** What was collected before, in front of what comes after unless that fails. */
  function Prepend<T, E>(head: seq<T>, tail: Result<seq<T>, E>): Result<seq<T>, E> {
    match tail
    case Ok(rest) => Ok(head + rest)
    case Err(error) => Err(error)
  }

  lemma PrependTwice<T, E>(a: seq<T>, b: seq<T>, tail: Result<seq<T>, E>)
    ensures Prepend([], tail) == tail
    ensures Prepend(a, Prepend(b, tail)) == Prepend(a + b, tail)
  {
    if tail.Ok? {
      assert [] + tail.value == tail.value;
      assert a + (b + tail.value) == a + b + tail.value;
    }
  }

  function Mapped<A, B>(f: A -> B, s: seq<A>): (r: seq<B>)
    ensures |r| == |s| && forall i :: 0 <= i < |s| ==> r[i] == f(s[i])
  {
    seq(|s|, i requires 0 <= i < |s| => f(s[i]))
  }

  lemma MappedAppend<A, B>(f: A -> B, a: seq<A>, b: seq<A>)
    ensures Mapped(f, a + b) == Mapped(f, a) + Mapped(f, b)
  {
  }

  lemma MappedNext<A, B>(f: A -> B, s: seq<A>, i: nat)
    requires i < |s|
    ensures Mapped(f, s[..i + 1]) == Mapped(f, s[..i]) + [f(s[i])]
  {
  }
}
