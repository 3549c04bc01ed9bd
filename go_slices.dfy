/** Go slices as the slice algorithms of the library use them: a header
    (backing array, offset, length, capacity) that is passed by value while
    the backing array is shared and written in place; the `nil` slice; and
    the builtins `make`, `copy`, `clear` and `append`, and `s[lo:hi]`. */
module GoSlices {
  import opened Base

  /** A slice header. `NilSlice` is the nil slice (length and capacity 0, no
      backing array). */
  datatype Slice<E> = NilSlice | Slice(arr: array<E>, off: nat, len: nat, cap: nat)

  /** A well-formed header: the capacity lies inside the backing array and
      fits Go's `int`. */
  predicate Valid<E>(s: Slice<E>)
  {
    s.Slice? ==> s.len <= s.cap <= MaxInt && s.off + s.cap <= s.arr.Length
  }

  /** `len(s)`. */
  function Len<E>(s: Slice<E>): nat
  {
    if s.NilSlice? then 0 else s.len
  }

  /** `cap(s)`. */
  function Cap<E>(s: Slice<E>): nat
  {
    if s.NilSlice? then 0 else s.cap
  }

  /** The objects whose contents the slice shows. */
  function Repr<E>(s: Slice<E>): set<object>
  {
    if s.NilSlice? then {} else {s.arr}
  }

  /** The elements `s[0], ..., s[len(s)-1]`. */
  function Elems<E>(s: Slice<E>): (r: seq<E>)
    requires Valid(s)
    reads Repr(s)
    ensures |r| == Len(s)
  {
    if s.NilSlice? then [] else s.arr[s.off..s.off + s.len]
  }

  function Min(a: int, b: int): int
  {
    if a <= b then a else b
  }

  /** Nothing in the backing array of `s` outside the `n` elements starting
      at `s[lo]` differs from `old`. */
  twostate predicate OnlyWritten<E>(s: Slice<E>, lo: nat, n: nat)
    requires Valid(s)
    reads Repr(s)
  {
    s.Slice? ==>
      forall k :: 0 <= k < s.arr.Length && !(s.off + lo <= k < s.off + lo + n) ==>
        s.arr[k] == old(s.arr[k])
  }

  /** `s[lo:hi]`: shares the backing array; slicing `nil` gives `nil`. */
  function Sub<E>(s: Slice<E>, lo: nat, hi: nat): (r: Slice<E>)
    requires Valid(s) && lo <= hi <= Cap(s)
    ensures Valid(r) && Len(r) == hi - lo && Cap(r) == Cap(s) - lo
    ensures Repr(r) == Repr(s)
    ensures r.Slice? <==> s.Slice?
    ensures r.Slice? ==> r.arr == s.arr && r.off == s.off + lo
  {
    if s.NilSlice? then NilSlice else Slice(s.arr, s.off + lo, hi - lo, s.cap - lo)
  }

  /** The elements of `s[lo:hi]` are the elements `lo .. hi-1` of `s`. */
  lemma SubElems<E>(s: Slice<E>, lo: nat, hi: nat)
    requires Valid(s) && lo <= hi <= Len(s)
    ensures Elems(Sub(s, lo, hi)) == Elems(s)[lo..hi]
  {
  }

  /** `make([]E, n)`: a fresh, non-nil slice of length and capacity `n`
      holding the zero value `zero`. */
  method Make<E>(n: nat, zero: E) returns (r: Slice<E>)
    requires n <= MaxInt
    ensures r.Slice? && fresh(r.arr) && r.off == 0 && r.len == n && r.cap == n
    ensures Valid(r) && r.arr.Length == n
    ensures Elems(r) == seq(n, _ => zero)
  {
    var a := new E[n](_ => zero);
    r := Slice(a, 0, n, n);
  }

  /** `copy(dst, src)`: copies `min(len(dst), len(src))` elements as if
      through a temporary buffer, so `dst` and `src` may overlap. */
  method Copy<E>(dst: Slice<E>, src: Slice<E>) returns (n: nat)
    requires Valid(dst) && Valid(src)
    modifies Repr(dst)
    ensures n == Min(Len(dst), Len(src))
    ensures n > 0 ==>
              forall j :: dst.off <= j < dst.off + n ==>
                dst.arr[j] == old(src.arr[j - dst.off + src.off])
    ensures OnlyWritten(dst, 0, n)
  {
    n := Min(Len(dst), Len(src));
    if n > 0 {
      ghost var before := Elems(src);
      forall k | 0 <= k < n {
        dst.arr[dst.off + k] := src.arr[src.off + k];
      }
      assert forall k :: 0 <= k < n ==> Elems(dst)[k] == before[k];
    }
  }

  /** `clear(s)`: every element becomes the zero value `zero`. */
  method Clear<E>(s: Slice<E>, zero: E)
    requires Valid(s)
    modifies Repr(s)
    ensures Elems(s) == seq(Len(s), _ => zero)
    ensures OnlyWritten(s, 0, Len(s))
  {
    if s.Slice? {
      forall k | 0 <= k < s.len {
        s.arr[s.off + k] := zero;
      }
    }
  }

  /** `append(s, other...)`. Appending nothing returns `s` itself (so a nil
      `s` stays nil); when the result fits the capacity of `s` the elements
      are written into its backing array after `s[len(s)-1]`; otherwise a
      fresh backing array of exactly the new length holds the result. */
  method Append<E>(s: Slice<E>, other: Slice<E>) returns (r: Slice<E>)
    requires Valid(s) && Valid(other)
    requires Len(s) + Len(other) <= MaxInt
    modifies Repr(s)
    ensures Valid(r) && Len(r) == Len(s) + Len(other)
    ensures Elems(r) == old(Elems(s)) + old(Elems(other))
    ensures Len(other) == 0 ==> r == s
    ensures Len(other) > 0 && Len(s) + Len(other) <= Cap(s) ==>
              r == Slice(s.arr, s.off, s.len + Len(other), s.cap) &&
              OnlyWritten(s, s.len, Len(other))
    ensures Len(s) + Len(other) > Cap(s) ==>
              r.Slice? && fresh(r.arr) && r.cap == r.len && r.off == 0 &&
              unchanged(Repr(s))
  {
    if Len(other) == 0 {
      r := s;
    } else if Len(s) + Len(other) <= Cap(s) {
      r := AppendInPlace(s, other);
    } else {
      r := AppendFresh(s, other);
    }
  }

  /** The case of Append where the result fits the capacity of `s`. */
  method AppendInPlace<E>(s: Slice<E>, other: Slice<E>) returns (r: Slice<E>)
    requires Valid(s) && Valid(other) && s.Slice?
    requires s.len + Len(other) <= s.cap
    modifies s.arr
    ensures r == Slice(s.arr, s.off, s.len + Len(other), s.cap) && Valid(r)
    ensures Elems(r) == old(Elems(s)) + old(Elems(other))
    ensures OnlyWritten(s, s.len, Len(other))
  {
    var n, m := s.len, Len(other);
    ghost var front := Elems(s);
    ghost var back := Elems(other);
    r := Slice(s.arr, s.off, n + m, s.cap);
    if m > 0 {
      forall k | 0 <= k < m {
        s.arr[s.off + n + k] := other.arr[other.off + k];
      }
    }
    assert forall k :: 0 <= k < n + m ==> Elems(r)[k] == (front + back)[k];
  }

  /** The case of Append where a new backing array is needed. */
  method AppendFresh<E>(s: Slice<E>, other: Slice<E>) returns (r: Slice<E>)
    requires Valid(s) && Valid(other)
    requires Len(s) + Len(other) <= MaxInt
    ensures r.Slice? && fresh(r.arr) && r.cap == r.len && r.off == 0
    ensures Valid(r) && Len(r) == Len(s) + Len(other)
    ensures Elems(r) == Elems(s) + Elems(other)
  {
    var both := Elems(s) + Elems(other);
    var a := new E[|both|](k requires 0 <= k < |both| => both[k]);
    r := Slice(a, 0, |both|, |both|);
    assert Elems(r) == a[..] == both;
  }
}
