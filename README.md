# typact in Dafny

A model of the core of `go.l0nax.org/typact`, a Go library of Rust-style
helpers, with proofs about it. The model covers these parts:

- **The `Option[T]` container** (`option.go`). It is modelled as the
  datatype `Options.Option`, a value paired with a presence flag.
  - The value-receiver combinators are functions on that datatype.
  - The pointer-receiver operations are methods of the class
    `Options.OptionVar`. These are `Insert`, `GetOrInsert(With)`,
    `Replace`, `Take`, `Scan`, `UnmarshalJSON` and `UnmarshalText`.
  - A `*T` handed out by `UnwrapAsRef` is the `OptionVar` itself, and a
    write through it is `Store`.
- **Code built on `Option`:**
  - the type-changing `Map`, `MapOr` and `MapOrElse` of `std/option`
    (`OptionMap`);
  - the range bounds of `std/exp/iterops` (`IterOps`);
  - the read-only list of `std/exp/immutable` (`Immutable`).
- **The copy dispatch** of `option_helper.go` and `copy_any.go`
  (`CloneDispatch`). It is modelled over:
  - a model of reflect kinds, Go types, dynamic types and values
    (`GoTypes`), which also covers `internal/types/scalar.go`;
  - a `Reflection` record that gives the dynamic type of a value and its
    `Copy() T` method, if it has one.
- **The zero predicates** of `std/exp/pred` (`Pred`).
- **Go slices** as the slice code uses them (`GoSlices`). A slice is a
  header over a shared, mutable `array`, and `nil` is a separate value.
  The builtins `make`, `copy`, `clear` and `append`, and reslicing, are
  part of this model.
- **The doubling fills:**
  - `xslices.Fill` (`XSlices.Fill`);
  - the `repeat` helper of the xslices test suite (`XSlices.Repeat`).
- **The vector wrappers** of `std/vector.go` (`Vectors`).
- **The pooled map-key buffer and its sort** of `std/xhash/strings.go`
  (`XHashStrings`).
- **Random integers and rune sequences** of `std/randx` (`RandNum`,
  `RandSequence`). The random source is an input: a sequence of 8-byte
  read outcomes, read from a position that each operation moves forward.

Panics are results, as `Outcome.Panicked(message)`. Go's `error` is
`Base.Error`. A Go `string` is `Base.GoString`, its bytes; a Dafny
`string` is used only for the text of messages and for names. A `rune`
is an `int32`, so it may be negative or a surrogate, as in Go.

A 64-bit platform is assumed: `int` is `int64` and `uint` is `uint64`.
Dafny has no per-type zero value, so the zero value of a type parameter is
passed in as `zero`.

## Model

| member | source | states |
|---|---|---|
| Base.WrapError | std/randx/num.go:106 | fmt.Errorf with %w gives a non-nil error made of the prefix and the wrapped message, or the prefix and %!w(<nil>) for a nil error |
| Base.Mul64 | testing/std/exp/xslices/fill_test.go:188 | bits.Mul64: the high word times 2^64 plus the low word is the exact product |
| Options.WrapDeconstruct | option.go:44-96 | Wrap and Deconstruct are inverses; TryWrap wraps the two results of its function |
| Options.PresenceTests | option.go:28-89 | Some is present, None is absent, IsNone is the negation of IsSome, and the deprecated IsZero is IsNone |
| Options.Expect | option.go:110-116 | a panic of Expect carries the caller's message |
| Options.Unwrap | option.go:122-128 | a panic of Unwrap carries "option does not contain a value" |
| Options.UnwrapSome | option.go:102-170 | on Some(v), every unwrapping accessor returns v and none panics |
| Options.UnwrapNone | option.go:110-170 | on None, Unwrap and Expect panic; UnwrapOr, UnwrapOrZero and UnwrapOrElse return the default, the zero value and fn() |
| Options.UnwrapFallbacks | option.go:134-170 | the lenient accessors are Unwrap with a fallback in place of its panic |
| Options.MapLaws | option.go:218-224 | the same-type Map keeps presence, returns None unchanged (stale value included), gives Some(f(v)) on Some, and composes |
| Options.MapOrViaMap | option.go:229-247 | MapOr and MapOrElse equal Map followed by UnwrapOr and UnwrapOrElse |
| Options.FilterLaws | option.go:252-258 | Filter is Some iff the option is Some and fn holds, and a Some result is the option itself; a filter that rejects everything gives the fresh None; it is idempotent; IsSomeAnd is the presence of the filtered option |
| Options.AndOrLaws | option.go:270-305 | And is present iff both are, Or iff either is; Or is idempotent and associative, and None(zero) is a right identity for its presence; AndThen on None is None; And, Map and OrElse are instances of AndThen and Or |
| Options.ParseBool | option.go:671-681 | the bool case of unmarshalText accepts exactly "true" and "false", inverts the bool formatting, and on every other input errors with "invalid boolean value: " followed by the quoted input |
| Options.BoolTextRoundTrip | option.go:517-522 | parsing the text MarshalText writes for a bool gives that bool back |
| Options.MarshalText | option.go:445-526 | None marshals to (nil, nil); a custom marshaler's result is returned as is; otherwise there is no error exactly when the scalar switch formats the value, which is then the text, and the error names the value's type with "does not implement encoding.TextMarshaler" |
| Options.MarshalJSON | option.go:408-414 | None marshals to null; Some marshals its value |
| Options.OptionVar.constructor | option.go:22-25 | a variable initialised with an option holds that option |
| Options.OptionVar.UnwrapAsRef | option.go:154-160 | a reference to the held value when present, otherwise a panic with "option does not contain a value" |
| Options.OptionVar.Store | option.go:156 | a write through the reference changes the value and keeps the presence flag |
| Options.OptionVar.Insert | option.go:186-190 | afterwards the option is Some(x) and the returned reference is to it |
| Options.OptionVar.GetOrInsert | option.go:197-203 | a None becomes Some(x); a Some is unchanged; the result references the held value |
| Options.OptionVar.GetOrInsertWith | option.go:207-213 | a None becomes Some(fn()); a Some is unchanged; the result references the held value |
| Options.OptionVar.Replace | option.go:262-267 | returns the previous option and leaves Some(x) |
| Options.OptionVar.Take | option.go:310-319 | on Some, returns Some(old value) and leaves a fresh None; on None, returns a fresh None and leaves the option as it was |
| Options.OptionVar.Scan | option.go:342-388 | a nil source leaves None with the zero value and no error; otherwise the option is present exactly when there is no error; the custom scanner, converter-failure, wrong-type and success cases set the value as the code does |
| Options.OptionVar.UnmarshalJSON | option.go:417-440 | "null" leaves None with the zero value and no error; otherwise the decoder's error is returned, the option is present iff there is none, and a failure resets the value to zero |
| Options.OptionVar.UnmarshalText | option.go:531-569 | present iff no error; an error resets the value to zero; a missing unmarshaler gives the error naming the zero value's type; a custom unmarshaler's error is returned and on success the value is kept; a scalar parse succeeds iff the parse does, stores the parsed value, and wraps a parse error with "error unmarshaling data: " |
| Options.InsertThenWrite | testing/option/option_test.go:209-219 | after Insert(5), Unwrap gives 5, and after a write of 3 through the returned reference, Unwrap gives 3 |
| Options.GetOrInsertOnSome | testing/option/option_test.go:234-243 | GetOrInsert(5) on Some(10) keeps 10, and a write through the reference changes the option |
| Options.ReplaceThenTake | testing/option/option_test.go:246-253 | Replace hands back the old Some, and Take then returns the new value and leaves None |
| Options.ScanNull | testing/option/option_test.go:548-554 | Scan(nil) gives no error and leaves None with the zero value, whatever the option held before |
| Options.BoolTextOptionRoundTrip | option.go:531-569 | a bool option written by MarshalText and read by UnmarshalText is the same Some with no error |
| Options.NullJSONRoundTrip | option.go:408-440 | a None written by MarshalJSON reads back through UnmarshalJSON as None holding the zero value, without error |
| OptionMap.Map | std/option/map.go:7-13 | the result is present exactly when the source is |
| OptionMap.MapSomeNone | std/option/map.go:7-13 | Map(Some(v), f) is Some(f(v)); a None, whatever its stale value, maps to a fresh None of the new type |
| OptionMap.MapOrViaMap | std/option/map.go:17-35 | MapOr and MapOrElse equal Map followed by UnwrapOr and UnwrapOrElse; MapOr is f(v) on Some and MapOrElse is valueFn() on None |
| OptionMap.MapCompose | std/option/map.go:7-13 | mapping twice is mapping once by the composition |
| OptionMap.MapAgreesWithMethod | std/option/map.go:7-13 | on Some the type-changing Map agrees with the same-type Map method; on None it is a fresh None |
| IterOps.BoundTagsDistinct | std/exp/iterops/bound.go:11-22 | the three bound tags are distinct and none is zero |
| IterOps.Included | std/exp/iterops/bound.go:31-36 | the key is Some(key) and the type is BoundIncluded |
| IterOps.Excluded | std/exp/iterops/bound.go:39-44 | the key is Some(key) and the type is BoundExcluded |
| IterOps.Unbounded | std/exp/iterops/bound.go:47-51 | the key is None and the type is BoundUnbounded |
| IterOps.KeyPresentIffBounded | std/exp/iterops/bound.go:53-63 | for a constructed bound, the key is present iff the type is Included or Excluded, and the type is one of the three tags |
| Immutable.FromSlice | std/exp/immutable/list.go:7-11 | the list has the slice's length and Get returns each element |
| Immutable.Get | std/exp/immutable/list.go:20-26 | None iff the index is negative or at least Len; otherwise Some of that element |
| Immutable.Iter | std/exp/immutable/list.go:34-40 | yield is called with (i, value[i]) for i = 0, 1, … in order; the calls stop right after the first false answer, and reach every element when every answer is true |
| GoTypes.ZeroDyn | internal/types/scalar.go:6-8 | any of a zero value is a nil interface exactly for interface types, and otherwise keeps its type |
| GoTypes.IsScalarExactly | internal/types/scalar.go:5-20 | IsScalar[T] holds exactly for the predeclared int, uint, float, complex, bool and string types, and not for uintptr, defined types or interface types |
| GoTypes.ZeroValueHasType | internal/types/scalar.go:23-25 | the zero value of every type is a value of that type |
| CloneDispatch.ReflectIsScalarRejects | option_helper.go:5-24 | reflectIsScalar is false exactly for slice, map, pointer, struct, array, chan and interface kinds |
| CloneDispatch.Copy | option_helper.go:26-50 | None gives None; a kind accepted by the kind test gives Some of the same value; otherwise the value's Copy method is called, and without one Copy panics with "unknown" |
| CloneDispatch.NewCopy | copy_any.go:36-60 | None gives None; it panics exactly when the value is present, its kind is not scalar and it has no Copy method |
| CloneDispatch.NewCopyIsCopy | copy_any.go:36-60 | NewCopy follows the same sequence as Copy and gives the same result on every input |
| CloneDispatch.CopyAny | copy_any.go:5-24 | None gives None; a listed predeclared dynamic type (uintptr included) gives Some of the same value; otherwise Some of the Copy method's result, or None when there is no such method |
| CloneDispatch.ScalarTestsNested | copy_any.go:26-34 | IsScalar[T] is isScalar of the zero value minus uintptr, and whatever isScalar accepts, reflectIsScalar accepts too |
| CloneDispatch.NamedScalarFallsThrough | internal/types/scalar.go:8-19 | a defined type over a scalar fails IsScalar[T] and isScalar, yet reflectIsScalar accepts its kind |
| CloneDispatch.CopyScalarType | option_helper.go:31-34 | with reflectIsScalar as the kind test, Copy and CopyAny return a scalar value itself |
| CloneDispatch.CopyStructWithoutMethod | option_helper.go:44-49 | a struct without a Copy method makes Copy panic with "unknown" (never a shallow copy) and makes CopyAny return None |
| CloneDispatch.CopyAnyVersusCopy | copy_any.go:18-23 | where Copy panics, CopyAny gives None; where CopyAny gives a value, Copy does not panic; they differ only on kinds reflectIsScalar accepts but isScalar does not |
| CloneDispatch.CopyAnyNoneIff | copy_any.go:10-23 | for a present value, CopyAny loses it exactly when the dynamic type is not a listed scalar and there is no Copy method |
| Pred.NotZeroIsOpposite | std/exp/pred/zero.go:4-14 | IsNotZero is the negation of IsZero, and the zero value is zero |
| Pred.ZeroByKind | std/exp/pred/zero.go:4-7 | for non-array, non-struct types (behind any defined names), IsZero means false, 0, 0.0, "" or nil according to the kind |
| Pred.StructZeroIffFieldsZero | std/exp/pred/zero.go:4-7 | a struct is zero exactly when every field is zero for its own type |
| Pred.ArrayZeroIffElemsZero | std/exp/pred/zero.go:4-7 | an array is zero exactly when every element is zero |
| Pred.ZeroSamples | testing/std/exp/pred/zero_test.go:12-24 | "", 0, false and a nil *string are zero |
| Pred.NonZeroSamples | testing/std/exp/pred/zero_test.go:26-38 | "Hello, World!", 12, true and a non-nil *string are not zero |
| GoSlices.Sub | std/exp/xslices/fill.go:17-20 | s[lo:hi] shares the backing array, starts lo further in, and has length hi-lo and capacity cap-lo |
| GoSlices.SubElems | std/exp/xslices/fill.go:17-20 | the elements of s[lo:hi] are elements lo to hi-1 of s |
| GoSlices.Make | testing/std/exp/xslices/fill_test.go:192 | make gives a fresh slice of the requested length and capacity holding zero values |
| GoSlices.Copy | testing/std/exp/xslices/fill_test.go:193-195 | copy moves min(len(dst), len(src)) elements as if through a buffer (so overlapping slices work), returns that count and writes nothing else |
| GoSlices.Clear | std/exp/xslices/fill.go:17 | every element becomes the zero value and nothing outside the slice is written |
| GoSlices.Append | std/vector.go:25 | appending gives old elements followed by the new ones; an empty tail returns the slice itself; within capacity it writes in place after the old length, otherwise it allocates a fresh array and leaves the old one untouched |
| XSlices.Fill | std/exp/xslices/fill.go:3-22 | every element becomes value and nothing outside slice[0:len] is written; the call panics with the slice-bounds message exactly when the length exceeds 2^62, where the 64-bit counter wraps |
| XSlices.DoubleInt | std/exp/xslices/fill.go:19 | i *= 2 on a 64-bit int is 2i modulo 2^64, within the int64 range |
| XSlices.DoubleStep | std/exp/xslices/fill.go:19 | the counter runs through the powers of two up to 2^62 and wraps to math.MinInt only when the length exceeds 2^62 |
| XSlices.FillHugeSlicePanics | std/exp/xslices/fill.go:19-20 | Fill on 1<<62+1 elements of a zero-size type panics |
| XSlices.FillSafe | std/exp/xslices/fill.go:3-22 | the same rounds with a counter that cannot wrap fill every slice with value, write nothing outside it, and return |
| XSlices.FillRound | std/exp/xslices/fill.go:19-21 | one round of the loop doubles the filled prefix, within the length |
| XSlices.RepeatedIndex | testing/std/exp/xslices/fill_test.go:174-176 | a repetition of xs has length len(xs)·count, and element k is xs[k mod len(xs)] |
| XSlices.OverflowTest | testing/std/exp/xslices/fill_test.go:187-190 | the 128-bit product test fails exactly when len(x)·count exceeds maxInt |
| XSlices.Repeat | testing/std/exp/xslices/fill_test.go:182-198 | panics for a negative count or an overflowing product; otherwise a fresh slice of length and capacity len(x)·count whose element k is x[k mod len(x)] |
| XSlices.RepeatInto | testing/std/exp/xslices/fill_test.go:192-196 | after the first copy and the loop, every element k of newslice is x[k mod len(x)] |
| XSlices.RepeatPrefix | testing/std/exp/xslices/fill_test.go:194-196 | the loop keeps newslice[0:n] a run of whole copies of x and ends with all of newslice filled |
| XSlices.RepeatRound | testing/std/exp/xslices/fill_test.go:195 | one round copies min(n, len-n) elements and extends the periodic prefix by that much |
| XSlices.RepeatIsRepeated | testing/std/exp/xslices/fill_test.go:174-176 | a result of Repeat equals the repetition of x |
| Vectors.VectorFromSlice | std/vector.go:18-20 | the vector is the slice itself, sharing its backing array |
| Vectors.VectorVar.AppendVector | std/vector.go:24-26 | the new length is the old plus other's and the elements are the old ones followed by other's; appending nothing keeps the header; within capacity the old backing array is reused and only the appended cells are written; otherwise a fresh array of exactly the new length holds the result and the old one is unchanged |
| Vectors.Copy | std/vector.go:29-35 | same elements in fresh storage; nil for a nil or empty input |
| Vectors.Clone | std/vector.go:38-40 | same elements (a shallow, element-wise copy) in fresh storage; nil for an empty input |
| XHashStrings.Compare | std/xhash/strings.go:47-49 | cmp.Compare on strings is -1, 0 or 1 |
| XHashStrings.CompareZeroIff | std/xhash/strings.go:47-49 | Compare is 0 exactly for equal keys |
| XHashStrings.CompareAntisymmetric | std/xhash/strings.go:47-49 | swapping the keys negates Compare |
| XHashStrings.CompareTransitive | std/xhash/strings.go:47-49 | Compare(a, b) ≤ 0 and Compare(b, c) ≤ 0 give Compare(a, c) ≤ 0 |
| XHashStrings.CompareCommonPrefix | std/xhash/strings.go:47-49 | a shared prefix does not change the comparison (the order is byte-wise lexicographic) |
| XHashStrings.MapKeySlice.constructor | std/xhash/strings.go:13-15 | the pool's New gives a nil slice |
| XHashStrings.MapKeySlice.GetMapKeys | std/xhash/strings.go:26-36 | the buffer has length exactly n; a buffer with capacity below n is replaced by a fresh zeroed one of length n, otherwise the old backing array is resliced |
| XHashStrings.MapKeySlice.PutStrings | std/xhash/strings.go:38-43 | a buffer whose capacity exceeds 1024 is set to nil; any other is kept |
| XHashStrings.MapKeySlice.Sort | std/xhash/strings.go:46-50 | afterwards the entries are in ascending key order, they are a permutation of the entries before, and nothing outside the slice is written |
| XHashStrings.SortRange | std/xhash/strings.go:47 | sorts a[lo:hi] by key in place, keeps its multiset and leaves the rest of the array alone |
| XHashStrings.InsertDown | std/xhash/strings.go:47 | moving entry i down extends the sorted prefix by one, as a permutation |
| XHashStrings.SettledIsSorted | std/xhash/strings.go:47 | once the moving entry is not smaller than its predecessor, the range is sorted |
| XHashStrings.SwapDown | std/xhash/strings.go:47 | one swap keeps the multiset and moves the single out-of-order entry down by one |
| XHashStrings.SwapMultiset | std/xhash/strings.go:47 | exchanging two elements keeps the multiset |
| XHashStrings.SortedRangeIsSorted | std/xhash/strings.go:47 | a sorted array range, read as a sequence, is ascending by key |
| RandNum.DrawAt | std/randx/num.go:104-107 | a read past the end of the stream fails |
| RandNum.AssembleSplit | std/randx/num.go:109-116 | assembling the little-endian bytes of a number below 256^n gives it back |
| RandNum.SplitAssemble | std/randx/num.go:109-116 | splitting the assembled value gives the bytes back |
| RandNum.Uint64 | std/randx/num.go:101-117 | a successful read gives the little-endian value of its 8 bytes (the bytes are recovered from it) and no error; a failed read gives 0 and the error wrapped with "unable to read random data: " |
| RandNum.Threshold | std/randx/num.go:76 | -max % max in uint64 arithmetic is 2^64 mod max, which is below max |
| RandNum.HighBelow | std/randx/num.go:74-87 | the high word of num·max is below max |
| RandNum.Reduction | std/randx/num.go:25-88 | the value Uint64N computes is below max and takes at least one read |
| RandNum.Uint64N | std/randx/num.go:25-88 | panics for max = 0; otherwise returns the value Reduction describes, which is below max, and a nil error (a failed read gives 0, nil) |
| RandNum.PowerOfTwoMasks | std/randx/num.go:35-37 | for a power of two, the mask test passes and the result is the first draw mod max |
| RandNum.ThresholdShortcut | std/randx/num.go:75-76 | a low word of at least max is never below the threshold, so the threshold is only needed when lo < max |
| RandNum.RejectionRule | std/randx/num.go:75-85 | outside the mask case, a draw is rejected (the next one decides) exactly when its low word is below 2^64 mod max |
| RandNum.WrapToUint64 | std/randx/num.go:15 | uint64(max) is max modulo 2^64 |
| RandNum.WrapToInt64 | std/randx/num.go:20 | int(num) is num modulo 2^64, and num itself below 2^63 |
| RandNum.IntN | std/randx/num.go:14-21 | panics for max = 0; for max > 0 the result is in [0, max) with a nil error; a negative max does not panic and gives int(Uint64N(uint64(max))) |
| RandNum.IntNNegativeMax | std/randx/num.go:14-21 | with eight 0xff bytes, IntN(-1) returns -2 |
| RandNum.IntNChecked | std/randx/num.go:12-13 | panics exactly when max ≤ 0; otherwise a result in [0, max) with a nil error |
| RandNum.OddAndEven | std/randx/num.go:35 | an odd number above 1 fails the power-of-two mask test |
| RandNum.AndSelf | std/randx/num.go:35 | x & x is x |
| RandNum.Uint32N | std/randx/num.go:121-128 | panics for max = 0; otherwise Uint64N of the widened bound, below max, with a nil error |
| RandNum.Int | std/randx/num.go:91-98 | the draw with its top bit cleared: non-negative and equal to the draw mod 2^63; a read error is passed on with 0 |
| RandNum.ShiftClearsTopBit | std/randx/num.go:97 | (x << 1) >> 1 on 64 bits is x mod 2^63 |
| RandNum.Uint32 | std/randx/num.go:131-138 | the top 32 bits of the draw; a read error is passed on with 0 |
| RandSequence.AlphabetSizes | std/randx/sequence.go:11-26 | the alphabets have 62, 52, 36, 36, 26, 26 and 10 runes |
| RandSequence.AlphaCombines | std/randx/sequence.go:15 | Alpha is the lower-case then the upper-case letters |
| RandSequence.AlphaNumCombines | std/randx/sequence.go:13 | AlphaNum is the lower-case letters, the upper-case letters, then the digits |
| RandSequence.AlphaLowerNumCombines | std/randx/sequence.go:17 | AlphaLowerNum is the lower-case letters then the digits |
| RandSequence.AlphaUpperNumCombines | std/randx/sequence.go:19 | AlphaUpperNum is the upper-case letters then the digits |
| RandSequence.BaseAlphabetsContiguous | std/randx/sequence.go:20-25 | AlphaLower, AlphaUpper and Numeric are the ranges a-z, A-Z and 0-9 in order |
| RandSequence.ContiguousMembers | std/randx/sequence.go:20-25 | a contiguous alphabet holds exactly its range, each rune once |
| RandSequence.RunesOf | std/randx/sequence.go:13-25 | []rune of a string literal has one rune per character, its code point |
| RandSequence.AlphabetsAscii | std/randx/sequence.go:11-26 | every rune of every alphabet is ASCII |
| RandSequence.Runes | std/randx/sequence.go:34-42 | l runes, each from the alphabet, one draw per rune; no draw when l is 0 |
| RandSequence.RuneSequence | std/randx/sequence.go:30-45 | a negative length, or one whose 4-byte runes exceed the runtime's 2^48-byte allocation limit, panics with makeslice's message before reading; length 0 gives an empty sequence without reading; an empty alphabet panics once a rune is needed; otherwise the l runes Runes describes and a nil error |
| RandSequence.MustStringOf | std/randx/sequence.go:51-58 | panics exactly when RuneSequence panics or errors; otherwise string(seq), whose decoding is seq with every invalid rune replaced by U+FFFD, which has between len(seq) and 4·len(seq) bytes, and which is seq itself for ASCII runes |
| RandSequence.MustString | std/randx/sequence.go:51-58 | panics exactly for a length make rejects or a non-empty request on an empty alphabet; otherwise the UTF-8 encoding of the l runes Runes draws, with the draw position Runes gives (unchanged and empty for l = 0); its decoding is those runes with invalid ones replaced by U+FFFD, and over an ASCII alphabet it is l bytes, each a rune of the alphabet |
| RandSequence.EncodeRune | std/randx/sequence.go:57 | one to four bytes, one exactly for an ASCII rune, which is its own byte; a rune that is not a Unicode scalar value is encoded as U+FFFD |
| RandSequence.EncodeRunes | std/randx/sequence.go:57 | n runes encode to between n and 4n bytes, and ASCII runes to themselves |
| RandSequence.DecodeEncodeRune | std/randx/sequence.go:57 | decoding the start of a rune's encoding gives the rune, or U+FFFD for an invalid one, and uses exactly its bytes |
| RandSequence.DecodeEncodeRunes | std/randx/sequence.go:57 | []rune(string(seq)) is seq with every invalid rune replaced by U+FFFD |

## Left out

- Foreign codecs in option.go are not modelled: `json.Marshal` and `json.Unmarshal`, `driver.DefaultParameterConverter`, custom scanners and text (un)marshalers. They are abstract functions passed in (`encode`, `decode`, `Scanning`, `TextEncoding`, `TextDecoding`). Only how the presence flag and the value are reset around them is modelled.
- `Option.Value` (`driver.Valuer`) is not modelled: it only delegates to a foreign converter.
- `Option.Inspect` is not modelled: it only calls a callback for its side effect and returns the option unchanged.
- The `strconv` formatting and parsing of integers and floats in MarshalText and unmarshalText, and `string2Bytes`/`bytes2String`, are not modelled. The scalar cases are the abstract `ScalarFormat` and `ScalarParse`; only the bool case is spelled out (`BoolTextEncoding`, `ParseBool`). The `%T` rendering of a type and the `%q` quoting of bytes are the parameters `typeOf` and `quote`. The `under/overflow` panic of the `*int` case cannot fire on a 64-bit platform.
- Options.OptionVar.Scan: the wrong-type error's message (with the source's dynamic type) is not fixed; the contract states only that there is an error.
- `Option.Clone` and the `copy[T]` interface and `IsScalar(kind)` function that the dispatch calls are not part of this model. The kind test is the parameter `isScalarKind`, and a value's `Copy` method is `Reflection.copyMethod`.
- Floating point is modelled by reals. NaN, which is unequal to itself under `==` in the zero predicates, is not modelled; signed zeros compare equal in Go, as they do as reals.
- `std/xhash/hasher.go` and `std/xhash/hash.go` (seeded `maphash`, reflection walk) are not part of this model.
- `sync.Pool` is not modelled. `MapKeySlice` is the buffer that `Get` would hand out and `Put` would take back.
- XHashStrings.MapKeySlice.GetMapKeys: `n` is a `nat`. The only callers pass a map length, so Go's `make` panic on a negative `n` cannot be reached.
- XHashStrings.MapKeySlice.Sort: the sort is modelled by insertion sort, not Go's pattern-defeating quicksort. Only the outcome Go promises is stated: ascending by key and a permutation. Which of several entries with equal keys comes first is not fixed. The comment cites section 3.2.3 of RFC 8785 (UTF-16 code-unit order), but the code compares bytes, and the model follows the code.
- GoSlices.Make and XHashStrings.MapKeySlice.GetMapKeys: the runtime's limit on the size of one allocation is not modelled, because element sizes are not part of the model; only RuneSequence, whose runes are 4 bytes, states it.
- GoSlices.Append, Vectors.Copy and Vectors.Clone: Go's growth policy is not modelled. A new backing array has exactly the needed capacity, whereas the runtime may round it up. `Append` also requires the combined length to fit an `int`.
- GoSlices.Make: `make` fills with the explicit `zero` argument, since Dafny has no zero values.
- Real randomness is not modelled. `crypto/rand.Read` is replaced by an input sequence of read outcomes, and reading past its end is a failed read with "EOF".
- RandNum.Uint64N: uniformity of the result is not proved, only its range, its value and the rejection rule.
- RandNum.Uint64: the `|` of the shifted bytes is modelled as their sum, which is the same number because the bytes occupy disjoint bits.
- RandNum.IntN, RandNum.Uint32N and RandSequence.RuneSequence: their `err != nil` branches are not modelled, because Uint64N always returns a nil error (a failed read gives `0, nil`). Those branches can never be taken.
- `MustNumeric` (math/big) in sequence.go is left out: it relies on `rand.Int` and big integers.
- `FillValues` is not part of this model: its source is not among the modelled files.
- `std/exp/xtypact/mutex.go` is left out: its behaviour is locking.
- The declaration-only files are left out, because they have no behaviour of their own. These are `std/clone.go`, `utils.go`, `std/option/doc.go`, `internal/features/arena.go`, `std/exp/cmpop/ordering.go` and the examples.

## Findings

| source | as written | input that shows it | evidently intended | confidence | as-written member | corrected member |
|---|---|---|---|---|---|---|
| std/exp/xslices/fill.go:19-20 | the counter `i` is a 64-bit `int`, so for a length above 2^62 `i *= 2` wraps from 2^62 to `math.MinInt`, which still passes `i < len(slice)`, and `slice[i:]` panics | `xslices.Fill(make([]struct{}, 1<<62+1), struct{}{})` panics with "slice bounds out of range [-9223372036854775808:]" | every slice is filled and the call returns | not executed | XSlices.Fill, XSlices.FillHugeSlicePanics | XSlices.FillSafe |
| std/randx/num.go:12-21 | `IntN` converts a negative `max` to a huge `uint64` bound instead of panicking, and converts the result back to `int`, which can be negative | `IntN(-1)` with the draw `ff ff ff ff ff ff ff ff` returns -2 | panic for every `max <= 0`, as the comment says, and a result in `[0, max)` | not executed | RandNum.IntN, RandNum.IntNNegativeMax | RandNum.IntNChecked |
