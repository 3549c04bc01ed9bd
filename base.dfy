/** Go-level vocabulary shared by every module of the model: the `error`
    interface, panics, fixed-width integers and `math/bits.Mul64`. */
module Base {

  /** A Go `error` value: `nil`, or an error carrying its message. */
  datatype Error = Nil | Err(msg: string)

  /** `fmt.Errorf(prefix + "%w", err)`: a non-nil error that wraps `err`;
      `fmt` renders a nil `err` as `%!w(<nil>)`. */
  function WrapError(prefix: string, err: Error): (r: Error)
    ensures r.Err? && |prefix| <= |r.msg| && r.msg[..|prefix|] == prefix
    ensures err.Err? ==> r.msg == prefix + err.msg
    ensures err.Nil? ==> r.msg == prefix + "%!w(<nil>)"
  {
    Err(prefix + (if err.Err? then err.msg else "%!w(<nil>)"))
  }

  /** How a Go call ends: it returns a value, or it panics with a message. */
  datatype Outcome<T> = Returned(value: T) | Panicked(msg: string)

  /** A value-or-error pair where the value is meaningless on error. */
  datatype Result<T> = Ok(value: T) | Failure(err: Error)

  /** A Dafny-level optional used where Go asks "does this exist" (a method
      set, a type assertion); it is not Go's `Option`. */
  datatype Maybe<T> = Nothing | Just(value: T)

  newtype byte = x: int | 0 <= x < 0x100

  /** A Go `string`: its bytes, which need not be valid UTF-8. A Dafny
      `string` (a sequence of Unicode scalar values) is used only for the
      text of error and panic messages and for names. */
  type GoString = seq<byte>

  /** The bytes of a string literal made of ASCII characters. */
  function Ascii(s: string): (r: GoString)
    requires forall i :: 0 <= i < |s| ==> s[i] < 128 as char
    ensures |r| == |s| && forall i :: 0 <= i < |s| ==> r[i] as int == s[i] as int
  {
    seq(|s|, i requires 0 <= i < |s| => s[i] as int as byte)
  }

  const TWO32: int := 0x1_0000_0000
  const TWO63: int := 0x8000_0000_0000_0000
  const TWO64: int := 0x1_0000_0000_0000_0000

  /** `math.MaxInt` on a 64-bit platform. */
  const MaxInt: int := TWO63 - 1

  newtype uint64 = x: int | 0 <= x < 0x1_0000_0000_0000_0000
  newtype uint32 = x: int | 0 <= x < 0x1_0000_0000
  newtype int64 = x: int | -0x8000_0000_0000_0000 <= x < 0x8000_0000_0000_0000
  newtype int32 = x: int | -0x8000_0000 <= x < 0x8000_0000

  /** `bits.Mul64(x, y)`: the high and low words of the 128-bit product. */
  function Mul64(x: uint64, y: uint64): (r: (uint64, uint64))
    ensures r.0 as int * TWO64 + r.1 as int == x as int * y as int
  {
    var p := x as int * y as int;
    ProductBound(x as int, y as int);
    ((p / TWO64) as uint64, (p % TWO64) as uint64)
  }

  lemma ProductBound(x: int, y: int)
    requires 0 <= x < TWO64 && 0 <= y < TWO64
    ensures 0 <= x * y / TWO64 < TWO64
  {
    MulStrictBound(x, y, TWO64);
    DivBelow(x * y, TWO64, TWO64);
  }

  lemma MulStrictBound(x: int, y: int, n: int)
    requires 0 <= x < n && 0 <= y < n
    ensures 0 <= x * y < n * n
  {
    assert x * y <= x * n;
    assert x * n < n * n;
  }

  /** `p < n * m` with `0 <= p` gives `p / n < m`. */
  lemma DivBelow(p: int, n: int, m: int)
    requires 0 <= p < n * m && n > 0
    ensures 0 <= p / n < m
  {
    var q := p / n;
    assert q * n <= p;
    NonNegProduct(q - m, n);
    assert (q - m) * n == q * n - m * n;
  }

  /** Disjunctive form of the sign rule, so no branch of it is vacuous. */
  lemma NonNegProduct(a: int, n: int)
    requires n > 0
    ensures a >= 0 ==> a * n >= 0
    ensures a < 0 ==> a * n <= -n
  {
  }

  /** Go's `x & y` on unsigned integers, bit by bit from the least
      significant end. */
  function And(x: nat, y: nat): nat
  {
    if x == 0 || y == 0 then 0
    else 2 * And(x / 2, y / 2) + (if x % 2 == 1 && y % 2 == 1 then 1 else 0)
  }

  /** Masking never yields more than the mask. */
  lemma {:induction false} AndAtMost(x: nat, y: nat)
    ensures And(x, y) <= y
  {
    if x != 0 && y != 0 {
      AndAtMost(x / 2, y / 2);
    }
  }

  function Pow2(k: nat): (r: nat)
    ensures r >= 1
  {
    if k == 0 then 1 else 2 * Pow2(k - 1)
  }

  /** Masking with `2^k - 1` keeps the low `k` bits: it is `x mod 2^k`. */
  lemma {:induction false} AndLowMask(x: nat, k: nat)
    ensures And(x, Pow2(k) - 1) == x % Pow2(k)
  {
    if k == 0 {
    } else if x == 0 {
    } else {
      var m := Pow2(k - 1);
      AndLowMask(x / 2, k - 1);
      assert (Pow2(k) - 1) / 2 == m - 1;
      assert (Pow2(k) - 1) % 2 == 1;
      if k == 1 {
        assert And(x / 2, 0) == 0;
      }
      assert And(x, Pow2(k) - 1) == 2 * ((x / 2) % m) + x % 2;
      DivModSplit(x, m);
    }
  }

  lemma DivModSplit(x: nat, m: nat)
    requires m >= 1
    ensures x % (2 * m) == 2 * ((x / 2) % m) + x % 2
  {
    var q := (x / 2) / m;
    var r := (x / 2) % m;
    var b := x % 2;
    assert x / 2 == q * m + r;
    assert x == 2 * (x / 2) + b;
    assert x == q * (2 * m) + (2 * r + b) by {
      assert 2 * (q * m + r) == q * (2 * m) + 2 * r;
    }
    assert 0 <= 2 * r + b < 2 * m;
    ModUnique(x, 2 * m, q, 2 * r + b);
  }

  lemma ModUnique(x: int, n: int, q: int, r: int)
    requires n > 0 && 0 <= r < n && x == q * n + r
    ensures x % n == r && x / n == q
  {
    var q', r' := x / n, x % n;
    assert (q - q') * n == r' - r;
    NonNegProduct(q - q', n);
    NonNegProduct(q' - q, n);
    assert (q' - q) * n == r - r';
  }

  /** A power of two shares no bit with its predecessor. */
  lemma {:induction false} PowerOfTwoMask(k: nat)
    ensures And(Pow2(k), Pow2(k) - 1) == 0
  {
    AndLowMask(Pow2(k), k);
    assert Pow2(k) % Pow2(k) == 0;
  }
}
