/** IntDimension: an immutable (width, height) pair of Java ints, both at least 1. */
module Dimensions {
  import opened Wrappers

  const TwoTo32: int := 0x1_0000_0000

  /** The values of a Java `int`. */
  type Int32 = x: int | -0x8000_0000 <= x < 0x8000_0000

  /** Reduces an unbounded integer to the Java `int` with the same low 32 bits. */
  function Wrap32(x: int): (r: Int32)
    ensures (r - x) % TwoTo32 == 0
    ensures -0x8000_0000 <= x < 0x8000_0000 ==> r == x
  {
    (x + 0x8000_0000) % TwoTo32 - 0x8000_0000
  }

  datatype DimensionError = IllegalArgument

  /** The fields of an IntDimension; every value built through Create is Valid. */
  datatype IntDimension = IntDimension(width: Int32, height: Int32) {
    predicate Valid() { width >= 1 && height >= 1 }
  }

  /** The dimensions the Java constructor lets through. */
  type ValidDimension = d: IntDimension | d.Valid() witness IntDimension(1, 1)

  /** The constructor: throws IllegalArgumentException unless both sides are at least 1. */
  function Create(width: Int32, height: Int32): (r: Result<ValidDimension, DimensionError>)
    ensures r.Failure? <==> width < 1 || height < 1
    ensures r.Success? ==> r.value.width == width && r.value.height == height
  {
    if width < 1 || height < 1 then Failure(IllegalArgument)
    else Success(IntDimension(width, height))
  }

  /** `equals`: the height and then the width are compared. */
  function Equals(a: IntDimension, b: IntDimension): (eq: bool)
    ensures eq <==> a == b
  {
    if a.height != b.height then false
    else if a.width != b.width then false
    else true
  }

  /** `hashCode`: 31 * (31 * 1 + height) + width, each step in wrapping `int` arithmetic. */
  function HashCode(d: IntDimension): (h: Int32)
    ensures h == Wrap32(961 + 31 * d.height + d.width)
  {
    var prime := 31;
    var result := 1;
    var result := Wrap32(prime * result + d.height);
    var result := Wrap32(prime * result + d.width);
    result
  }

  /** `equals` is an equivalence relation. */
  lemma EqualsIsEquivalence(a: IntDimension, b: IntDimension, c: IntDimension)
    ensures Equals(a, a)
    ensures Equals(a, b) ==> Equals(b, a)
    ensures Equals(a, b) && Equals(b, c) ==> Equals(a, c)
  {
  }

  /** `hashCode` is consistent with `equals`. */
  lemma HashConsistentWithEquals(a: IntDimension, b: IntDimension)
    requires Equals(a, b)
    ensures HashCode(a) == HashCode(b)
  {
  }
}
