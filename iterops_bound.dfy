/** std/exp/iterops/bound.go: bounds of a key range, after Rust's
    `std::ops::Bound`. */
module IterOps {
  import opened Options

  /** `BoundType` is an `int8`. */
  newtype BoundType = x: int | -128 <= x < 128

  const BoundIncluded: BoundType := 1
  const BoundExcluded: BoundType := 2
  const BoundUnbounded: BoundType := 3

  /** The iota-based tags are distinct and none is the zero value, so a
      zero `Bound` has no valid type. */
  lemma {:induction false} BoundTagsDistinct()
    ensures BoundIncluded != BoundExcluded && BoundExcluded != BoundUnbounded
    ensures BoundIncluded != BoundUnbounded
    ensures BoundIncluded != 0 && BoundExcluded != 0 && BoundUnbounded != 0
  {
  }

  datatype Bound<T> = Bound(key: Option<T>, boundType: BoundType)

  function Included<T>(key: T): (b: Bound<T>)
    ensures Key(b) == Some(key) && GetBoundType(b) == BoundIncluded
  {
    Bound(Some(key), BoundIncluded)
  }

  function Excluded<T>(key: T): (b: Bound<T>)
    ensures Key(b) == Some(key) && GetBoundType(b) == BoundExcluded
  {
    Bound(Some(key), BoundExcluded)
  }

  /** `Unbounded[T]()`: the key field is the zero `Option[T]`. */
  function Unbounded<T>(zero: T): (b: Bound<T>)
    ensures Key(b) == None(zero) && GetBoundType(b) == BoundUnbounded
  {
    Bound(None(zero), BoundUnbounded)
  }

  function Key<T>(b: Bound<T>): Option<T>
  {
    b.key
  }

  /** The `BoundType` method. */
  function GetBoundType<T>(b: Bound<T>): BoundType
  {
    b.boundType
  }

  /** A bound made by one of the three constructors. */
  ghost predicate Constructed<T>(b: Bound<T>, zero: T)
  {
    b == Included(b.key.val) || b == Excluded(b.key.val) || b == Unbounded(zero)
  }

  /** For constructed bounds the key is present exactly when the bound is
      included or excluded. */
  lemma KeyPresentIffBounded<T>(b: Bound<T>, zero: T)
    requires Constructed(b, zero)
    ensures IsSome(Key(b)) <==> GetBoundType(b) == BoundIncluded || GetBoundType(b) == BoundExcluded
    ensures GetBoundType(b) in {BoundIncluded, BoundExcluded, BoundUnbounded}
  {
  }
}
