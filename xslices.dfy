/** std/exp/xslices/fill.go (`Fill`) and the `repeat` helper of its test
    suite: both grow a filled prefix by copying it onto itself, doubling its
    length each round. */
module XSlices {
  import opened Base
  import opened GoSlices

  const TWO62: int := 0x4000_0000_0000_0000

  /** The panic of `slice[i:]` once the counter has wrapped to `math.MinInt`. */
  const SliceFromMinInt: string := "runtime error: slice bounds out of range [-9223372036854775808:]"

  lemma {:induction false} Pow2Add(a: nat, b: nat)
    ensures Pow2(a + b) == Pow2(a) * Pow2(b)
  {
    if b > 0 {
      Pow2Add(a, b - 1);
      calc {
        Pow2(a + b);
        2 * Pow2(a + b - 1);
        2 * (Pow2(a) * Pow2(b - 1));
        Pow2(a) * (2 * Pow2(b - 1));
        Pow2(a) * Pow2(b);
      }
    }
  }

  lemma Pow2Of62()
    ensures Pow2(62) == TWO62
  {
    assert Pow2(2) == 4;
    Pow2Add(2, 2);
    assert Pow2(4) == 0x10;
    Pow2Add(4, 4);
    assert Pow2(8) == 0x100;
    Pow2Add(8, 8);
    assert Pow2(16) == 0x1_0000;
    Pow2Add(16, 16);
    assert Pow2(32) == 0x1_0000_0000;
    Pow2Add(32, 16);
    assert Pow2(48) == 0x1_0000_0000_0000;
    Pow2Add(48, 8);
    assert Pow2(56) == 0x100_0000_0000_0000;
    Pow2Add(56, 4);
    assert Pow2(60) == 0x1000_0000_0000_0000;
    Pow2Add(60, 2);
  }

  lemma {:induction false} Pow2Below(k: nat)
    requires k <= 62
    ensures Pow2(k) <= TWO62
    ensures k < 62 ==> 2 * Pow2(k) <= TWO62
    ensures k == 62 ==> Pow2(k) == TWO62
    decreases 62 - k
  {
    if k < 62 {
      Pow2Below(k + 1);
    } else {
      Pow2Of62();
    }
  }

  /** `xslices.Fill(slice, value)` as written: every element of `slice`
      becomes `value` and nothing outside `slice[0:len(slice)]` is written.
      `clear` writes the zero value `zero` of the element type first. The
      counter is a 64-bit `int`, so for a length above 2^62 (possible for an
      element type of size zero) `i *= 2` wraps from 2^62 to `math.MinInt`,
      which is still below the length, and `slice[i:]` panics, after the
      round at 2^62 has already filled the whole slice. */
  method Fill<E>(s: Slice<E>, value: E, zero: E) returns (r: Outcome<()>)
    requires Valid(s)
    modifies Repr(s)
    ensures r.Panicked? <==> Len(s) > TWO62
    ensures r.Panicked? ==> r.msg == SliceFromMinInt
    ensures Elems(s) == seq(Len(s), _ => value)
    ensures OnlyWritten(s, 0, Len(s))
  {
    var n: int := Len(s);
    if n == 0 {
      return Returned(());
    }
    if n == 1 {
      s.arr[s.off] := value;
      return Returned(());
    }
    s.arr[s.off] := value;
    Clear(Sub(s, 1, n), zero);
    var i: int := 1;
    ghost var k: nat := 0;
    while i < n
      invariant i == -TWO63 || (1 <= i == Pow2(k) && k <= 62)
      invariant i < 0 ==> n > TWO62
      invariant i >= 1 ==> FilledTo(s, value, i)
      invariant i < 0 ==> FilledTo(s, value, n)
      invariant OnlyWritten(s, 0, n)
      decreases if i < 0 then 0 else TWO63 + 1 - i
    {
      if i < 0 {
        FilledElems(s, value);
        return Panicked(SliceFromMinInt);
      }
      DoubleStep(i, k, n);
      FillRound(s, value, i);
      i, k := DoubleInt(i), k + 1;
    }
    Pow2Below(k);
    FilledElems(s, value);
    r := Returned(());
  }

  /** A slice of `1<<62 + 1` elements of a zero-size type makes Fill panic. */
  datatype Empty = Empty

  method FillHugeSlicePanics() returns (r: Outcome<()>)
    ensures r == Panicked(SliceFromMinInt)
  {
    var a := new Empty[TWO62 + 1];
    r := Fill(Slice(a, 0, TWO62 + 1, TWO62 + 1), Empty, Empty);
  }

  /** The evidently intended Fill: the same rounds with a counter that
      cannot wrap, so every slice is filled and the call returns. */
  method FillSafe<E>(s: Slice<E>, value: E, zero: E)
    requires Valid(s)
    modifies Repr(s)
    ensures Elems(s) == seq(Len(s), _ => value)
    ensures OnlyWritten(s, 0, Len(s))
  {
    var n: int := Len(s);
    if n == 0 {
      return;
    }
    if n == 1 {
      s.arr[s.off] := value;
      return;
    }
    s.arr[s.off] := value;
    Clear(Sub(s, 1, n), zero);
    var i: int := 1;
    while i < n
      invariant 1 <= i
      invariant FilledTo(s, value, i)
      invariant OnlyWritten(s, 0, n)
      decreases n - i
    {
      FillRound(s, value, i);
      i := i * 2;
    }
    FilledElems(s, value);
  }

  /** Go's `i *= 2` on a 64-bit `int`, for `0 < i < 2^63`. */
  function DoubleInt(i: int): (r: int)
    requires 0 < i < TWO63
    ensures -TWO63 <= r < TWO63 && (r - 2 * i) % TWO64 == 0
  {
    if 2 * i < TWO63 then 2 * i else 2 * i - TWO64
  }

  /** The counter of Fill doubles through the powers of two up to 2^62
      and then wraps to `math.MinInt`, which only a length above 2^62 lets
      it reach. */
  lemma DoubleStep(i: int, k: nat, n: int)
    requires 1 <= i == Pow2(k) && k <= 62 && i < n <= MaxInt
    ensures DoubleInt(i) == -TWO63 ==> n > TWO62
    ensures DoubleInt(i) != -TWO63 ==> 1 <= DoubleInt(i) == Pow2(k + 1) && k + 1 <= 62
  {
    Pow2Below(k);
  }

  /** A slice filled up to its length holds only `value`. */
  lemma FilledElems<E>(s: Slice<E>, value: E)
    requires Valid(s) && FilledTo(s, value, Len(s))
    ensures Elems(s) == seq(Len(s), _ => value)
  {
    assert forall k :: 0 <= k < Len(s) ==> Elems(s)[k] == s.arr[s.off + k];
  }

  /** The elements `s[0:i]` (those of them inside `s`) are `value`. */
  ghost predicate FilledTo<E>(s: Slice<E>, value: E, i: int)
    requires Valid(s)
    reads Repr(s)
  {
    s.Slice? ==> forall j :: s.off <= j < s.off + s.len && j < s.off + i ==> s.arr[j] == value
  }

  /** One round of Fill: `copy(slice[i:], slice[:i])`. */
  method FillRound<E>(s: Slice<E>, value: E, i: nat)
    requires Valid(s) && 0 < i < Len(s) && FilledTo(s, value, i)
    modifies Repr(s)
    ensures FilledTo(s, value, 2 * i)
    ensures OnlyWritten(s, 0, Len(s))
  {
    var _ := Copy(Sub(s, i, Len(s)), Sub(s, 0, i));
  }

  /** The elements of a repetition: `count` copies of `xs` one after the
      other. */
  function Repeated<E>(xs: seq<E>, count: nat): (r: seq<E>)
  {
    if count == 0 then [] else xs + Repeated(xs, count - 1)
  }

  /** Element `k` of a repetition of `xs` is `xs[k mod len(xs)]`. */
  lemma {:induction false} RepeatedIndex<E>(xs: seq<E>, count: nat)
    ensures |Repeated(xs, count)| == |xs| * count
    ensures forall k :: 0 <= k < |xs| * count ==> Repeated(xs, count)[k] == xs[k % |xs|]
  {
    if count > 0 {
      var L := |xs|;
      var rest := Repeated(xs, count - 1);
      RepeatedIndex(xs, count - 1);
      var r := Repeated(xs, count);
      assert r == xs + rest;
      assert L * count == L + L * (count - 1);
      forall k | 0 <= k < L * count
        ensures r[k] == xs[k % L]
      {
        if k < L {
          ModUnique(k, L, 0, k);
        } else {
          assert r[k] == rest[k - L];
          ModShift(k - L, L, 1);
        }
      }
    }
  }

  /** Adding a multiple of `n` does not change a remainder modulo `n`. */
  lemma ModShift(k: nat, n: nat, q: nat)
    requires n > 0
    ensures (k + q * n) % n == k % n
  {
    ModUnique(k + q * n, n, k / n + q, k % n);
  }

  const NegativeCount: string := "cannot be negative"
  const Overflows: string := "the result of (len(x) * count) overflows"

  /** The overflow test of `repeat`: the 128-bit product has a non-zero
      high word or a low word above `maxInt` exactly when the product does
      not fit an `int`. */
  lemma OverflowTest(a: uint64, b: uint64)
    ensures var (hi, lo) := Mul64(a, b);
            (hi > 0 || lo as int > MaxInt) <==> a as int * b as int > MaxInt
  {
    var (hi, lo) := Mul64(a, b);
    NonNegProduct(hi as int, TWO64);
  }

  /** `repeat(x, count)`: panics for a negative count or when
      `len(x) * count` overflows `int`; otherwise a fresh, non-nil slice of
      length and capacity `len(x) * count` holding `count` copies of `x`. */
  method Repeat<E>(x: Slice<E>, count: int64, zero: E) returns (r: Outcome<Slice<E>>)
    requires Valid(x)
    ensures count < 0 ==> r == Panicked(NegativeCount)
    ensures count >= 0 && Len(x) * count as int > MaxInt ==> r == Panicked(Overflows)
    ensures count >= 0 && Len(x) * count as int <= MaxInt ==>
              r.Returned? && r.value.Slice? && fresh(r.value.arr) && Valid(r.value) &&
              Len(r.value) == Cap(r.value) == Len(x) * count as int &&
              forall k :: 0 <= k < Len(r.value) ==> Elems(r.value)[k] == old(Elems(x))[k % Len(x)]
  {
    if count < 0 {
      return Panicked(NegativeCount);
    }
    var (hi, lo) := Mul64(Len(x) as uint64, count as uint64);
    OverflowTest(Len(x) as uint64, count as uint64);
    if hi > 0 || lo as int > MaxInt {
      return Panicked(Overflows);
    }
    var total := Len(x) * count as int;
    var newslice := Make(total, zero);
    if total > 0 {
      RepeatInto(newslice, x, count as nat);
    }
    r := Returned(newslice);
  }

  /** The body of `repeat` after `make`: `copy(newslice, x)`, then the
      doubling loop. */
  method RepeatInto<E>(newslice: Slice<E>, x: Slice<E>, count: nat)
    requires Valid(x) && newslice.Slice? && Valid(newslice) && newslice.off == 0
    requires newslice.arr !in Repr(x)
    requires 0 < newslice.len == Len(x) * count
    modifies newslice.arr
    ensures forall k :: 0 <= k < Len(newslice) ==> Elems(newslice)[k] == Elems(x)[k % Len(x)]
  {
    ghost var xs := Elems(x);
    NonNegProduct(count - 1, Len(x));
    var n := Copy(newslice, x);
    assert n == |xs|;
    assert unchanged(Repr(x));
    forall k | 0 <= k < n
      ensures newslice.arr[k] == xs[k % n]
    {
      assert newslice.arr[k] == xs[k];
      ModUnique(k, n, 0, k);
    }
    assert Periodic(newslice.arr, xs, n);
    RepeatPrefix(newslice, n, xs, count);
  }

  /** `a[0:n]` holds copies of `xs` one after the other (the last possibly
      cut short). */
  ghost predicate Periodic<E>(a: array<E>, xs: seq<E>, n: nat)
    reads a
    requires 0 < |xs| && n <= a.Length
  {
    forall k :: 0 <= k < n ==> a[k] == xs[k % |xs|]
  }

  /** The copying loop of `repeat`: `newslice[0:n]` already holds whole
      copies of `xs`, and each round copies that prefix after itself. */
  method RepeatPrefix<E>(newslice: Slice<E>, n0: nat, ghost xs: seq<E>, ghost count: nat)
    requires newslice.Slice? && Valid(newslice) && newslice.off == 0
    requires 0 < |xs| == n0 <= newslice.len == count * |xs|
    requires Periodic(newslice.arr, xs, n0)
    modifies newslice.arr
    ensures forall k :: 0 <= k < Len(newslice) ==> Elems(newslice)[k] == xs[k % |xs|]
  {
    var total := newslice.len;
    var n := n0;
    ghost var q := 1;
    while n < total
      invariant 0 < n <= total
      invariant n == q * |xs|
      invariant Periodic(newslice.arr, xs, n)
      decreases total - n
    {
      var m := RepeatRound(newslice, n, xs, q);
      if m == n {
        assert n + m == (2 * q) * |xs|;
        q := 2 * q;
      } else {
        q := count;
      }
      n := n + m;
    }
    assert forall k :: 0 <= k < total ==> Elems(newslice)[k] == newslice.arr[k];
  }

  /** One round of RepeatPrefix: `copy(newslice[n:], newslice[:n])`. */
  method RepeatRound<E>(newslice: Slice<E>, n: nat, ghost xs: seq<E>, ghost q: nat) returns (m: nat)
    requires newslice.Slice? && Valid(newslice) && newslice.off == 0
    requires 0 < |xs| && 0 < n == q * |xs| < newslice.len
    requires Periodic(newslice.arr, xs, n)
    modifies newslice.arr
    ensures m == Min(n, newslice.len - n)
    ensures Periodic(newslice.arr, xs, n + m)
  {
    ghost var prev := newslice.arr[..];
    m := Copy(Sub(newslice, n, newslice.len), Sub(newslice, 0, n));
    forall k | 0 <= k < n + m
      ensures newslice.arr[k] == xs[k % |xs|]
    {
      if k < n {
        assert newslice.arr[k] == prev[k];
      } else {
        assert newslice.arr[k] == prev[k - n];
        ModShift(k - n, |xs|, q);
      }
    }
  }

  /** A result of Repeat is the repetition of `x`. */
  lemma RepeatIsRepeated<E>(xs: seq<E>, ys: seq<E>, count: nat)
    requires |ys| == |xs| * count
    requires forall k :: 0 <= k < |ys| ==> ys[k] == xs[k % |xs|]
    ensures ys == Repeated(xs, count)
  {
    RepeatedIndex(xs, count);
  }
}
