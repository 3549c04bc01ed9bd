/** std/randx/sequence.go: the rune alphabets and random rune sequences
    drawn with Uint64N. A Go `rune` is an `int32`, so it need not be a
    Unicode scalar value; `string(seq)` is its UTF-8 encoding. */
module RandSequence {
  import opened Base
  import opened RandNum

  /** `[]rune(s)` of a string literal: its code points. */
  function RunesOf(s: string): (r: seq<int32>)
    ensures |r| == |s| && forall i :: 0 <= i < |s| ==> r[i] as int == s[i] as int
  {
    seq(|s|, i requires 0 <= i < |s| => s[i] as int as int32)
  }

  lemma RunesOfConcat(a: string, b: string)
    ensures RunesOf(a + b) == RunesOf(a) + RunesOf(b)
  {
    assert forall i :: 0 <= i < |a| + |b| ==> RunesOf(a + b)[i] == (RunesOf(a) + RunesOf(b))[i];
  }

  const AlphaLower: seq<int32> := RunesOf("abcdefghijklmnopqrstuvwxyz")
  const AlphaUpper: seq<int32> := RunesOf("ABCDEFGHIJKLMNOPQRSTUVWXYZ")
  const Numeric: seq<int32> := RunesOf("0123456789")
  const AlphaNum: seq<int32> := RunesOf("abcdefghijklmnopqrstuvwxyzABCDEFGHIJKLMNOPQRSTUVWXYZ0123456789")
  const Alpha: seq<int32> := RunesOf("abcdefghijklmnopqrstuvwxyzABCDEFGHIJKLMNOPQRSTUVWXYZ")
  const AlphaLowerNum: seq<int32> := RunesOf("abcdefghijklmnopqrstuvwxyz0123456789")
  const AlphaUpperNum: seq<int32> := RunesOf("ABCDEFGHIJKLMNOPQRSTUVWXYZ0123456789")

  /** The alphabets have 62, 52, 36, 36, 26, 26 and 10 runes. */
  lemma AlphabetSizes()
    ensures |AlphaNum| == 62 && |Alpha| == 52 && |AlphaLowerNum| == 36 && |AlphaUpperNum| == 36
    ensures |AlphaLower| == 26 && |AlphaUpper| == 26 && |Numeric| == 10
  {
  }

  /** The combined alphabets are concatenations of the lower-case letters,
      the upper-case letters and the digits. */
  lemma AlphaCombines()
    ensures Alpha == AlphaLower + AlphaUpper
  {
    AlphaTextSplits();
    RunesOfConcat("abcdefghijklmnopqrstuvwxyz", "ABCDEFGHIJKLMNOPQRSTUVWXYZ");
  }

  lemma AlphaTextSplits()
    ensures "abcdefghijklmnopqrstuvwxyzABCDEFGHIJKLMNOPQRSTUVWXYZ" ==
            "abcdefghijklmnopqrstuvwxyz" + "ABCDEFGHIJKLMNOPQRSTUVWXYZ"
  {
  }

  lemma AlphaNumCombines()
    ensures AlphaNum == AlphaLower + AlphaUpper + Numeric
  {
    RunesOfConcat("abcdefghijklmnopqrstuvwxyzABCDEFGHIJKLMNOPQRSTUVWXYZ", "0123456789");
    AlphaCombines();
  }

  lemma AlphaLowerNumCombines()
    ensures AlphaLowerNum == AlphaLower + Numeric
  {
    RunesOfConcat("abcdefghijklmnopqrstuvwxyz", "0123456789");
  }

  lemma AlphaUpperNumCombines()
    ensures AlphaUpperNum == AlphaUpper + Numeric
  {
    RunesOfConcat("ABCDEFGHIJKLMNOPQRSTUVWXYZ", "0123456789");
  }

  /** `runes[i]` is `first + i` for a contiguous range of runes. */
  predicate Contiguous(runes: seq<int32>, first: int)
  {
    forall i :: 0 <= i < |runes| ==> runes[i] as int == first + i
  }

  /** The base alphabets are the ranges a-z, A-Z and 0-9 in order. */
  lemma BaseAlphabetsContiguous()
    ensures Contiguous(AlphaLower, 'a' as int) && Contiguous(AlphaUpper, 'A' as int)
    ensures Contiguous(Numeric, '0' as int)
  {
  }

  /** A contiguous alphabet holds exactly its range, each rune once. */
  lemma ContiguousMembers(runes: seq<int32>, first: int, c: int32)
    requires Contiguous(runes, first)
    ensures c in runes <==> first <= c as int < first + |runes|
    ensures forall i, j :: 0 <= i < j < |runes| ==> runes[i] != runes[j]
  {
    if first <= c as int < first + |runes| {
      assert runes[c as int - first] == c;
    }
  }

  /** Every rune of the alphabet is ASCII, so it is one byte of UTF-8. */
  predicate AllAscii(runes: seq<int32>)
  {
    forall i :: 0 <= i < |runes| ==> 0 <= runes[i] < 0x80
  }

  lemma ContiguousAscii(runes: seq<int32>, first: int)
    requires Contiguous(runes, first) && 0 <= first && first + |runes| <= 0x80
    ensures AllAscii(runes)
  {
  }

  lemma AsciiConcat(a: seq<int32>, b: seq<int32>)
    requires AllAscii(a) && AllAscii(b)
    ensures AllAscii(a + b)
  {
  }

  lemma AlphabetsAscii()
    ensures AllAscii(AlphaNum) && AllAscii(Alpha) && AllAscii(AlphaLowerNum)
    ensures AllAscii(AlphaUpperNum) && AllAscii(AlphaLower) && AllAscii(AlphaUpper)
    ensures AllAscii(Numeric)
  {
    BaseAlphabetsContiguous();
    AlphabetSizes();
    ContiguousAscii(AlphaLower, 'a' as int);
    ContiguousAscii(AlphaUpper, 'A' as int);
    ContiguousAscii(Numeric, '0' as int);
    AsciiConcat(AlphaLower, AlphaUpper);
    AsciiConcat(AlphaLower, Numeric);
    AsciiConcat(AlphaUpper, Numeric);
    AsciiConcat(AlphaLower + AlphaUpper, Numeric);
    AlphaCombines();
    AlphaNumCombines();
    AlphaLowerNumCombines();
    AlphaUpperNumCombines();
  }

  /** The runes `RuneSequence(n, runes)` produces from the reads starting
      at `pos`, one Uint64N draw per rune, and the position after them. */
  function Runes(n: nat, runes: seq<int32>, draws: seq<Draw>, pos: nat): (r: (seq<int32>, nat))
    requires 0 < |runes| < TWO64
    ensures |r.0| == n && r.1 >= pos
    ensures forall i :: 0 <= i < n ==> r.0[i] in runes
    ensures n == 0 ==> r.1 == pos
  {
    if n == 0 then ([], pos)
    else
      var (prefix, p) := Runes(n - 1, runes, draws, pos);
      var (k, p') := Reduction(|runes| as uint64, draws, p);
      (prefix + [runes[k]], p')
  }

  const MakeLenOutOfRange: string := "runtime error: makeslice: len out of range"

  /** The largest single allocation Go's runtime makes on linux/amd64
      (`maxAlloc`, 2^48 bytes); `make` panics on a larger one. */
  const MaxAlloc: int := 0x1_0000_0000_0000

  /** `make([]rune, l)` of 4-byte runes panics exactly for these `l`. */
  predicate MakeRunesPanics(l: int64)
  {
    l < 0 || 4 * l as int > MaxAlloc
  }

  /** `randx.RuneSequence(l, allowedRunes)`: `make([]rune, l)` panics for
      a negative `l` or one too large to allocate; each rune is
      `allowedRunes[Uint64N(len(allowedRunes))]`, so an empty alphabet
      panics as soon as a rune is needed. Uint64N never fails, so the error
      return of sequence.go:36-38 is never taken and is not modelled. */
  method RuneSequence(l: int64, runes: seq<int32>, draws: seq<Draw>, pos: nat)
    returns (r: Outcome<(seq<int32>, Error)>, next: nat)
    requires |runes| < TWO64
    ensures MakeRunesPanics(l) ==> r == Panicked(MakeLenOutOfRange) && next == pos
    ensures l == 0 ==> r == Returned(([], Nil)) && next == pos
    ensures !MakeRunesPanics(l) && l > 0 && |runes| == 0 ==> r == Panicked(MaxNotPositive)
    ensures !MakeRunesPanics(l) && |runes| > 0 ==>
              r == Returned((Runes(l as nat, runes, draws, pos).0, Nil)) &&
              next == Runes(l as nat, runes, draws, pos).1
  {
    if MakeRunesPanics(l) {
      return Panicked(MakeLenOutOfRange), pos;
    }
    var a := new int32[l](_ => 0);
    var i := 0;
    next := pos;
    while i < l
      invariant 0 <= i <= l
      invariant i > 0 ==> |runes| > 0
      invariant |runes| > 0 ==> (a[..i], next) == Runes(i as nat, runes, draws, pos)
      invariant i == 0 ==> next == pos
    {
      var res, nx := Uint64N(|runes| as uint64, draws, next);
      if res.Panicked? {
        return Panicked(res.msg), nx;
      }
      a[i] := runes[res.value.0];
      assert a[..i + 1] == a[..i] + [a[i]];
      next := nx;
      i := i + 1;
    }
    assert a[..] == a[..i];
    r := Returned((a[..], Nil));
  }

  /** `utf8.MaxRune` and `utf8.RuneError`. */
  const MaxRune: int := 0x10FFFF
  const RuneError: int := 0xFFFD

  /** A rune that is a Unicode scalar value: not negative, not a
      surrogate, not above MaxRune. */
  predicate ValidRune(r: int)
  {
    0 <= r < 0xD800 || 0xDFFF < r <= MaxRune
  }

  /** The UTF-8 encoding Go's `string(seq)` appends for one rune; a rune
      that is not a Unicode scalar value becomes RuneError. */
  function EncodeRune(r: int32): (b: GoString)
    ensures 1 <= |b| <= 4
    ensures 0 <= r < 0x80 <==> |b| == 1
    ensures 0 <= r < 0x80 ==> b == [r as int as byte]
    ensures !ValidRune(r as int) ==> b == [0xEF, 0xBF, 0xBD]
  {
    var x := r as int;
    if 0 <= x < 0x80 then [x as byte]
    else if 0 <= x < 0x800 then [(0xC0 + x / 64) as byte, (0x80 + x % 64) as byte]
    else if !ValidRune(x) then [0xEF, 0xBF, 0xBD]
    else if x < 0x10000 then
      [(0xE0 + x / 4096) as byte, (0x80 + x / 64 % 64) as byte, (0x80 + x % 64) as byte]
    else
      [(0xF0 + x / 262144) as byte, (0x80 + x / 4096 % 64) as byte,
       (0x80 + x / 64 % 64) as byte, (0x80 + x % 64) as byte]
  }

  /** `string(seq)`: the runes' encodings one after the other. */
  function EncodeRunes(rs: seq<int32>): (b: GoString)
    ensures |rs| <= |b| <= 4 * |rs|
    ensures AllAscii(rs) ==> |b| == |rs| && forall i :: 0 <= i < |rs| ==> b[i] as int == rs[i] as int
  {
    if |rs| == 0 then [] else EncodeRune(rs[0]) + EncodeRunes(rs[1..])
  }

  /** A reference decoder of well-formed UTF-8, as `[]rune(s)` reads it:
      the first code point and how many bytes it takes, the length told by
      the leading byte. A truncated sequence reads as RuneError. */
  function DecodeFirst(b: GoString): (r: (int, nat))
    requires |b| >= 1
    ensures 1 <= r.1 <= |b|
  {
    var b0 := b[0] as int;
    if b0 < 0xC0 then (b0, 1)
    else if b0 < 0xE0 then
      if |b| < 2 then (RuneError, 1) else ((b0 - 0xC0) * 64 + (b[1] as int - 0x80), 2)
    else if b0 < 0xF0 then
      if |b| < 3 then (RuneError, 1)
      else ((b0 - 0xE0) * 4096 + (b[1] as int - 0x80) * 64 + (b[2] as int - 0x80), 3)
    else
      if |b| < 4 then (RuneError, 1)
      else ((b0 - 0xF0) * 262144 + (b[1] as int - 0x80) * 4096 +
            (b[2] as int - 0x80) * 64 + (b[3] as int - 0x80), 4)
  }

  /** The code points of well-formed UTF-8, one DecodeFirst at a time. */
  function DecodeAll(b: GoString): seq<int>
    decreases |b|
  {
    if |b| == 0 then [] else
      var (c, n) := DecodeFirst(b);
      [c] + DecodeAll(b[n..])
  }

  /** The code points `string(seq)` stands for: every rune that is not a
      Unicode scalar value replaced by RuneError. */
  function Sanitized(rs: seq<int32>): (r: seq<int>)
    ensures |r| == |rs|
    ensures forall i :: 0 <= i < |rs| ==>
              r[i] == if ValidRune(rs[i] as int) then rs[i] as int else RuneError
  {
    if |rs| == 0 then [] else
      [if ValidRune(rs[0] as int) then rs[0] as int else RuneError] + Sanitized(rs[1..])
  }

  /** Decoding the start of one rune's encoding gives the rune back, or
      RuneError for a rune that is not a Unicode scalar value, and uses up
      exactly the encoding, whatever follows it. */
  lemma DecodeEncodeRune(r: int32, rest: GoString)
    ensures DecodeFirst(EncodeRune(r) + rest) ==
              (if ValidRune(r as int) then r as int else RuneError, |EncodeRune(r)|)
  {
    var x := r as int;
    if 0 <= x < 0x80 {
    } else if 0 <= x < 0x800 {
      DecodeTwo(x, EncodeRune(r) + rest);
    } else if !ValidRune(x) {
      assert (EncodeRune(r) + rest)[..3] == [0xEF, 0xBF, 0xBD];
    } else if x < 0x10000 {
      DecodeThree(x, EncodeRune(r) + rest);
    } else {
      DecodeFour(x, EncodeRune(r) + rest);
    }
  }

  lemma DecodeTwo(x: int, b: GoString)
    requires 0x80 <= x < 0x800 && |b| >= 2
    requires b[0] as int == 0xC0 + x / 64 && b[1] as int == 0x80 + x % 64
    ensures DecodeFirst(b) == (x, 2)
  {
  }

  lemma DecodeThree(x: int, b: GoString)
    requires 0x800 <= x < 0x10000 && |b| >= 3
    requires b[0] as int == 0xE0 + x / 4096 && b[1] as int == 0x80 + x / 64 % 64
    requires b[2] as int == 0x80 + x % 64
    ensures DecodeFirst(b) == (x, 3)
  {
    DigitSplit(x / 64);
    DigitSplit(x);
  }

  lemma DecodeFour(x: int, b: GoString)
    requires 0x10000 <= x <= MaxRune && |b| >= 4
    requires b[0] as int == 0xF0 + x / 262144 && b[1] as int == 0x80 + x / 4096 % 64
    requires b[2] as int == 0x80 + x / 64 % 64 && b[3] as int == 0x80 + x % 64
    ensures DecodeFirst(b) == (x, 4)
  {
    DigitSplit(x / 4096);
    DigitSplit(x / 64);
    DigitSplit(x);
    assert x / 4096 / 64 == x / 262144;
    assert x / 64 / 64 == x / 4096;
  }

  /** One base-64 digit split off: `x == (x / 64) * 64 + x % 64`. */
  lemma DigitSplit(x: int)
    requires x >= 0
    ensures (x / 64) * 64 + x % 64 == x && 0 <= x % 64 < 64
  {
  }

  /** `[]rune(string(seq))` is `seq` with every invalid rune replaced by
      RuneError. */
  lemma {:induction false} DecodeEncodeRunes(rs: seq<int32>)
    ensures DecodeAll(EncodeRunes(rs)) == Sanitized(rs)
  {
    if |rs| > 0 {
      var e := EncodeRune(rs[0]);
      var tail := EncodeRunes(rs[1..]);
      DecodeEncodeRune(rs[0], tail);
      assert (e + tail)[|e|..] == tail;
      DecodeEncodeRunes(rs[1..]);
    }
  }

  /** `panic(err)` for a non-nil error, else `string(seq)`, on the result
      of RuneSequence. */
  function MustStringOf(res: Outcome<(seq<int32>, Error)>): (r: Outcome<GoString>)
    ensures r.Panicked? <==> res.Panicked? || res.value.1.Err?
    ensures r.Returned? ==> DecodeAll(r.value) == Sanitized(res.value.0)
    ensures r.Returned? ==> |res.value.0| <= |r.value| <= 4 * |res.value.0|
    ensures r.Returned? && AllAscii(res.value.0) ==>
              |r.value| == |res.value.0| &&
              forall i :: 0 <= i < |r.value| ==> r.value[i] as int == res.value.0[i] as int
  {
    match res
    case Panicked(msg) => Panicked(msg)
    case Returned((s, err)) =>
      if err.Err? then Panicked(err.msg)
      else
        DecodeEncodeRunes(s);
        Returned(EncodeRunes(s))
  }

  /** `randx.MustString(l, allowedRunes)`. */
  method MustString(l: int64, runes: seq<int32>, draws: seq<Draw>, pos: nat)
    returns (r: Outcome<GoString>, next: nat)
    requires |runes| < TWO64
    ensures r.Panicked? <==> MakeRunesPanics(l) || (l > 0 && |runes| == 0)
    ensures MakeRunesPanics(l) ==> r == Panicked(MakeLenOutOfRange)
    ensures l == 0 ==> r == Returned([]) && next == pos
    ensures !MakeRunesPanics(l) && |runes| > 0 ==>
              r == Returned(EncodeRunes(Runes(l as nat, runes, draws, pos).0)) &&
              next == Runes(l as nat, runes, draws, pos).1
    ensures r.Returned? && |runes| > 0 ==>
              DecodeAll(r.value) == Sanitized(Runes(l as nat, runes, draws, pos).0)
    ensures r.Returned? && AllAscii(runes) ==>
              |r.value| == l as int &&
              forall i :: 0 <= i < |r.value| ==> r.value[i] as int as int32 in runes
  {
    var res;
    res, next := RuneSequence(l, runes, draws, pos);
    r := MustStringOf(res);
  }
}
