/** std/vector.go: `Vector[T]` is a Go slice of `T`. */
module Vectors {
  import opened Base
  import opened GoSlices

  /** `VectorFromSlice(s)`: the vector is the slice header itself, so it
      shares the backing array of `s`. */
  function VectorFromSlice<E>(s: Slice<E>): (v: Slice<E>)
    ensures v == s && Repr(v) == Repr(s)
  {
    s
  }

  /** A variable of type `Vector[T]`, the receiver of `AppendVector`. */
  class VectorVar<E> {
    var v: Slice<E>

    constructor (init: Slice<E>)
      ensures v == init
    {
      v := init;
    }

    /** `v.AppendVector(other)`: `*v = append(*v, other...)`. */
    method AppendVector(other: Slice<E>)
      requires Valid(v) && Valid(other) && Len(v) + Len(other) <= MaxInt
      modifies this, Repr(v)
      ensures Valid(v) && Len(v) == old(Len(v)) + Len(other)
      ensures Elems(v) == old(Elems(v)) + old(Elems(other))
      ensures Len(other) == 0 ==> v == old(v)
      ensures Len(other) > 0 && old(Len(v)) + Len(other) <= old(Cap(v)) ==>
                v == Slice(old(v).arr, old(v).off, old(v).len + Len(other), old(v).cap) &&
                OnlyWritten(old(v), old(v).len, Len(other))
      ensures old(Len(v)) + Len(other) > old(Cap(v)) ==>
                v.Slice? && fresh(v.arr) && v.cap == v.len && v.off == 0 &&
                unchanged(Repr(old(v)))
    {
      v := Append(v, other);
    }
  }

  /** `v.Copy()`: nil stays nil; otherwise `append(Vector[T](nil), v...)`,
      which is a fresh array with the same elements, or nil again when `v`
      is empty. */
  method Copy<E>(v: Slice<E>) returns (r: Slice<E>)
    requires Valid(v)
    ensures Valid(r) && Elems(r) == Elems(v)
    ensures r.NilSlice? <==> Len(v) == 0
    ensures r.Slice? ==> fresh(r.arr) && r.cap == r.len
  {
    if v.NilSlice? {
      return NilSlice;
    }
    r := Append(NilSlice, v);
  }

  /** `v.Clone()`: `append(Vector[T](nil), v...)`; the elements themselves
      are not cloned, so the result is the same as Copy's. */
  method Clone<E>(v: Slice<E>) returns (r: Slice<E>)
    requires Valid(v)
    ensures Valid(r) && Elems(r) == Elems(v)
    ensures r.NilSlice? <==> Len(v) == 0
    ensures r.Slice? ==> fresh(r.arr) && r.cap == r.len
  {
    r := Append(NilSlice, v);
  }
}
