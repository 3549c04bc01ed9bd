/** std/randx/num.go: random integers from `crypto/rand`. The random
    source is an input: a stream of `rand.Read` outcomes, one per 8-byte
    read, consumed from a position `pos`; reading past the end of the
    stream is a failed read. A 64-bit platform is assumed. */
module RandNum {
  import opened Base

  type Bytes8 = s: seq<byte> | |s| == 8 witness [0, 0, 0, 0, 0, 0, 0, 0]

  /** One `rand.Read(data[:])` call on `var data [8]byte`. */
  datatype Draw = RandomBytes(data: Bytes8) | ReadError(msg: string)

  const EndOfStream: string := "EOF"

  /** The outcome of the read at position `pos`. */
  function DrawAt(draws: seq<Draw>, pos: nat): (d: Draw)
    ensures d.RandomBytes? ==> pos < |draws|
  {
    if pos < |draws| then draws[pos] else ReadError(EndOfStream)
  }

  function Pow256(n: nat): (r: nat)
    ensures r >= 1
  {
    if n == 0 then 1 else 256 * Pow256(n - 1)
  }

  /** The little-endian value of a byte string: byte `i` weighs `256^i`.
      The `|` of shifted bytes in `Uint64` is this sum, since the shifted
      bytes occupy disjoint bits. */
  function LittleEndian(b: seq<byte>): (r: nat)
    ensures r < Pow256(|b|)
  {
    if |b| == 0 then 0 else b[0] as nat + 256 * LittleEndian(b[1..])
  }

  /** The `n` low bytes of `x`, least significant first. */
  function ToBytes(x: nat, n: nat): (r: seq<byte>)
    ensures |r| == n
  {
    if n == 0 then [] else [(x % 256) as byte] + ToBytes(x / 256, n - 1)
  }

  /** Splitting a number below `256^n` into `n` bytes and assembling them
      again gives the number back. */
  lemma {:induction false} AssembleSplit(x: nat, n: nat)
    requires x < Pow256(n)
    ensures LittleEndian(ToBytes(x, n)) == x
  {
    if n > 0 {
      var t := ToBytes(x, n);
      assert t[1..] == ToBytes(x / 256, n - 1);
      DivBelow(x, 256, Pow256(n - 1));
      AssembleSplit(x / 256, n - 1);
    }
  }

  /** Assembling bytes and splitting the result gives the bytes back. */
  lemma {:induction false} SplitAssemble(b: seq<byte>)
    ensures ToBytes(LittleEndian(b), |b|) == b
  {
    if |b| > 0 {
      var x := LittleEndian(b);
      ModUnique(x, 256, LittleEndian(b[1..]), b[0] as nat);
      SplitAssemble(b[1..]);
      assert b == [b[0]] + b[1..];
    }
  }

  const ReadPrefix: string := "unable to read random data: "

  /** `randx.Uint64()`: the 8 bytes of the read, little-endian, or the
      read's error wrapped. */
  function Uint64(d: Draw): (r: (uint64, Error))
    ensures d.RandomBytes? ==> r.1 == Nil && ToBytes(r.0 as nat, 8) == d.data
    ensures d.ReadError? ==> r.0 == 0 && r.1 == WrapError(ReadPrefix, Err(d.msg))
  {
    match d
    case RandomBytes(b) =>
      assert Pow256(8) == TWO64;
      SplitAssemble(b);
      (LittleEndian(b) as uint64, Nil)
    case ReadError(msg) => (0, WrapError(ReadPrefix, Err(msg)))
  }

  /** `-max % max` in uint64 arithmetic, i.e. `2^64 mod max`: the number
      of low words a draw is rejected for. */
  function Threshold(max: uint64): (t: uint64)
    requires max > 0
    ensures t < max && t as int == TWO64 % max as int
  {
    var m := max as int;
    ModUnique(TWO64, m, (TWO64 - m) / m + 1, (TWO64 - m) % m);
    ((TWO64 - m) % m) as uint64
  }

  /** The high word of `num * max` is below `max`. */
  lemma HighBelow(num: uint64, max: uint64)
    requires max > 0
    ensures Mul64(num, max).0 < max
  {
    var (hi, lo) := Mul64(num, max);
    assert num as int * max as int < TWO64 * max as int;
    NonNegProduct(hi as int - max as int, TWO64);
  }

  /** `max & (max-1) == 0`: `max` is a power of two (or zero). */
  predicate MaskTest(max: uint64)
  {
    max > 0 && And(max as nat, max as nat - 1) == 0
  }

  /** The value `Uint64N(max)` computes from the reads starting at `pos`,
      and the position after the last read it makes: a failed read gives 0;
      a power of two masks the first draw; otherwise the high word of the
      first draw whose product with `max` has a low word of at least
      `Threshold(max)`. */
  function Reduction(max: uint64, draws: seq<Draw>, pos: nat): (r: (uint64, nat))
    requires max > 0
    ensures r.0 < max && r.1 > pos
    decreases |draws| - pos
  {
    match DrawAt(draws, pos)
    case ReadError(_) => (0, pos + 1)
    case RandomBytes(_) =>
      var num := Uint64(DrawAt(draws, pos)).0;
      if MaskTest(max) then
        AndAtMost(num as nat, max as nat - 1);
        (And(num as nat, max as nat - 1) as uint64, pos + 1)
      else if Mul64(num, max).1 >= Threshold(max) then
        HighBelow(num, max);
        (Mul64(num, max).0, pos + 1)
      else
        Reduction(max, draws, pos + 1)
  }

  const MaxNotPositive: string := "Argument max must be > 0"

  /** `randx.Uint64N(max)`: panics for `max == 0`; a failed read gives
      `(0, nil)`, so the error result is always nil. */
  method Uint64N(max: uint64, draws: seq<Draw>, pos: nat) returns (r: Outcome<(uint64, Error)>, next: nat)
    ensures max == 0 ==> r == Panicked(MaxNotPositive) && next == pos
    ensures max > 0 ==> r == Returned((Reduction(max, draws, pos).0, Nil)) &&
                        next == Reduction(max, draws, pos).1
  {
    if max == 0 {
      return Panicked(MaxNotPositive), pos;
    }
    var (num, err) := Uint64(DrawAt(draws, pos));
    next := pos + 1;
    if err != Nil {
      return Returned((0, Nil)), next;
    }
    if And(max as nat, max as nat - 1) == 0 {
      AndAtMost(num as nat, max as nat - 1);
      return Returned((And(num as nat, max as nat - 1) as uint64, Nil)), next;
    }
    var (hi, lo) := Mul64(num, max);
    if lo < max {
      var thresh := ((TWO64 - max as int) % max as int) as uint64;
      assert thresh == Threshold(max);
      while lo < thresh
        invariant pos < next && DrawAt(draws, next - 1).RandomBytes?
        invariant (hi, lo) == Mul64(Uint64(DrawAt(draws, next - 1)).0, max)
        invariant Reduction(max, draws, pos) == Reduction(max, draws, next - 1)
        decreases |draws| - next
      {
        var read := Uint64(DrawAt(draws, next));
        num, err := read.0, read.1;
        next := next + 1;
        if err != Nil {
          return Returned((0, Nil)), next;
        }
        var product := Mul64(num, max);
        hi, lo := product.0, product.1;
      }
    }
    return Returned((hi, Nil)), next;
  }

  /** For a power of two `max` the mask test succeeds and the result is
      the first draw modulo `max`. */
  lemma PowerOfTwoMasks(max: uint64, draws: seq<Draw>, pos: nat, k: nat)
    requires max as nat == Pow2(k) && max > 0
    requires DrawAt(draws, pos).RandomBytes?
    ensures MaskTest(max)
    ensures Reduction(max, draws, pos) ==
              ((Uint64(DrawAt(draws, pos)).0 as nat % max as nat) as uint64, pos + 1)
  {
    PowerOfTwoMask(k);
    AndLowMask(Uint64(DrawAt(draws, pos)).0 as nat, k);
  }

  /** The shortcut of Uint64N: a low word of at least `max` is never
      rejected, so the threshold is needed only when `lo < max`. */
  lemma ThresholdShortcut(max: uint64, lo: uint64)
    requires max > 0 && lo >= max
    ensures lo >= Threshold(max)
  {
  }

  /** A draw is rejected exactly when the low word of the product falls in
      the `2^64 mod max` values that would bias the result. */
  lemma {:induction false} RejectionRule(max: uint64, draws: seq<Draw>, pos: nat)
    requires max > 0 && !MaskTest(max) && DrawAt(draws, pos).RandomBytes?
    ensures var num := Uint64(DrawAt(draws, pos)).0;
            Mul64(num, max).1 as int < TWO64 % max as int <==>
              Reduction(max, draws, pos) == Reduction(max, draws, pos + 1)
  {
    var num := Uint64(DrawAt(draws, pos)).0;
    if Mul64(num, max).1 >= Threshold(max) {
      assert Reduction(max, draws, pos).1 == pos + 1;
      assert Reduction(max, draws, pos + 1).1 > pos + 1;
    }
  }

  /** `uint64(max)` for an `int`: a negative value wraps around. */
  function WrapToUint64(x: int64): (r: uint64)
    ensures r as int % TWO64 == x as int % TWO64
  {
    if x < 0 then (x as int + TWO64) as uint64 else x as uint64
  }

  /** `int(num)` for a `uint64`: a value of `2^63` or more wraps to a
      negative one. */
  function WrapToInt64(x: uint64): (r: int64)
    ensures r as int % TWO64 == x as int % TWO64
    ensures x as int < TWO63 ==> r as int == x as int
  {
    if x as int < TWO63 then x as int as int64 else (x as int - TWO64) as int64
  }

  /** `randx.IntN(max)`: `Uint64N(uint64(max))` converted back to `int`.
      Zero panics; a negative `max` becomes a huge unsigned bound and does
      not panic. Uint64N never fails, so the error check of num.go:16 never
      fires and is not modelled. */
  method IntN(max: int64, draws: seq<Draw>, pos: nat) returns (r: Outcome<(int64, Error)>, next: nat)
    ensures max == 0 ==> r == Panicked(MaxNotPositive)
    ensures max > 0 ==> r.Returned? && r.value.1 == Nil && 0 <= r.value.0 < max
    ensures max != 0 ==>
              r == Returned((WrapToInt64(Reduction(WrapToUint64(max), draws, pos).0), Nil))
  {
    var res;
    res, next := Uint64N(WrapToUint64(max), draws, pos);
    if res.Panicked? {
      return Panicked(res.msg), next;
    }
    r := Returned((WrapToInt64(res.value.0), Nil));
  }

  /** IntN as its comment describes it: it panics for every `max <= 0`. */
  method IntNChecked(max: int64, draws: seq<Draw>, pos: nat) returns (r: Outcome<(int64, Error)>, next: nat)
    ensures r.Panicked? <==> max <= 0
    ensures max > 0 ==> r.Returned? && r.value.1 == Nil && 0 <= r.value.0 < max
  {
    if max <= 0 {
      return Panicked(MaxNotPositive), pos;
    }
    r, next := IntN(max, draws, pos);
  }

  /** With eight 0xff bytes as the only draw, `IntN(-1)` returns -2, a
      value outside `[0, max)`, instead of panicking. */
  lemma IntNNegativeMax()
    ensures var draws := [RandomBytes([0xff, 0xff, 0xff, 0xff, 0xff, 0xff, 0xff, 0xff])];
            WrapToInt64(Reduction(WrapToUint64(-1), draws, 0).0) == -2
  {
    var draws := [RandomBytes([0xff, 0xff, 0xff, 0xff, 0xff, 0xff, 0xff, 0xff])];
    var max := WrapToUint64(-1);
    assert max as int == TWO64 - 1;
    var num := Uint64(DrawAt(draws, 0)).0;
    assert num as int == TWO64 - 1 by {
      assert LittleEndian(DrawAt(draws, 0).data) == TWO64 - 1;
    }
    assert !MaskTest(max) by {
      assert max as nat % 2 == 1 && (max as nat - 1) % 2 == 0;
      OddAndEven(max as nat, max as nat - 1);
    }
    var (hi, lo) := Mul64(num, max);
    ModUnique(num as int * max as int, TWO64, TWO64 - 2, 1);
    assert hi as int == TWO64 - 2 && lo == 1;
    assert Threshold(max) == 1;
  }

  /** An odd number shares its low bit with nothing even, so masking with
      its even predecessor keeps some higher bit set (for `x > 1`). */
  lemma OddAndEven(x: nat, y: nat)
    requires x % 2 == 1 && y % 2 == 0 && y == x - 1 && x > 1
    ensures And(x, y) != 0
  {
    AndSelf(x / 2, y / 2);
    assert y / 2 == x / 2;
  }

  /** Masking a positive number with itself keeps it. */
  lemma {:induction false} AndSelf(x: nat, y: nat)
    requires x == y && x > 0
    ensures And(x, y) == x
  {
    if x / 2 > 0 {
      AndSelf(x / 2, y / 2);
    }
  }

  /** `randx.Uint32N(max)`: Uint64N on the widened bound, narrowed back. */
  method Uint32N(max: uint32, draws: seq<Draw>, pos: nat) returns (r: Outcome<(uint32, Error)>, next: nat)
    ensures max == 0 ==> r == Panicked(MaxNotPositive)
    ensures max > 0 ==> r.Returned? && r.value.1 == Nil && r.value.0 < max &&
                        r.value.0 as int == Reduction(max as int as uint64, draws, pos).0 as int
  {
    var res;
    res, next := Uint64N(max as int as uint64, draws, pos);
    if res.Panicked? {
      return Panicked(res.msg), next;
    }
    r := Returned((res.value.0 as int as uint32, Nil));
  }

  /** `randx.Int()`: `int(uint(num) << 1 >> 1)`, the draw with its top bit
      cleared. */
  function Int(d: Draw): (r: (int64, Error))
    ensures d.ReadError? ==> r == (0, Uint64(d).1)
    ensures d.RandomBytes? ==> r.1 == Nil && 0 <= r.0 as int == Uint64(d).0 as int % TWO63
  {
    var (num, err) := Uint64(d);
    if err != Nil then (0, err)
    else
      var shifted := (num as int * 2) % TWO64 / 2;
      ShiftClearsTopBit(num as int);
      (shifted as int64, Nil)
  }

  lemma ShiftClearsTopBit(x: int)
    requires 0 <= x < TWO64
    ensures (x * 2) % TWO64 / 2 == x % TWO63
  {
    var q, r := x / TWO63, x % TWO63;
    ModUnique(x * 2, TWO64, q, 2 * r);
    ModUnique(2 * r, 2, r, 0);
  }

  /** `randx.Uint32()`: the top 32 bits of the draw. */
  function Uint32(d: Draw): (r: (uint32, Error))
    ensures d.ReadError? ==> r == (0, Uint64(d).1)
    ensures d.RandomBytes? ==>
              (r.1 == Nil && r.0 as int * TWO32 <= Uint64(d).0 as int < (r.0 as int + 1) * TWO32)
  {
    var (num, err) := Uint64(d);
    if err != Nil then (0, err)
    else
      DivBelow(num as int, TWO32, TWO32);
      ((num as int / TWO32) as uint32, Nil)
  }
}
