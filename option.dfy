/** `Option[T]` from option.go: a value together with a presence flag.
    The value-receiver combinators are functions on the datatype `Option`;
    the pointer-receiver operations, which overwrite `*o`, `o.some` and
    `o.val` in place, are methods of the class `OptionVar`, which stands for
    an addressable `Option[T]` variable. Dafny has no per-type zero value, so
    the zero value of `T` is passed in (`zero`) wherever Go writes
    `None[T]()` or `types.ZeroValue[T]()`. */
module Options {
  import opened Base

  /** Go compares options field by field, so two `None` options that keep
      different stale values are different values, here as there. */
  datatype Option<T> = Option(val: T, some: bool)

  /** `None[T]()`: absent, holding the zero value of `T`. */
  function None<T>(zero: T): Option<T>
  {
    Option(zero, false)
  }

  function Some<T>(v: T): Option<T>
  {
    Option(v, true)
  }

  function Wrap<T>(v: T, some: bool): Option<T>
  {
    Option(v, some)
  }

  /** `TryWrap(fn)`: evaluates `fn` and wraps its two results. */
  function TryWrap<T>(fn: () -> (T, bool)): Option<T>
  {
    Wrap(fn().0, fn().1)
  }

  function Deconstruct<T>(o: Option<T>): (T, bool)
  {
    (o.val, o.some)
  }

  /** Wrap and Deconstruct are inverse to each other. */
  lemma WrapDeconstruct<T>(o: Option<T>, v: T, some: bool)
    ensures Wrap(Deconstruct(o).0, Deconstruct(o).1) == o
    ensures Deconstruct(Wrap(v, some)) == (v, some)
    ensures TryWrap(() => (v, some)) == Wrap(v, some)
  {
  }

  predicate IsSome<T>(o: Option<T>)
  {
    o.some
  }

  predicate IsNone<T>(o: Option<T>)
  {
    !o.some
  }

  /** The deprecated `IsZero` method: an alias of `IsNone`. */
  predicate IsZero<T>(o: Option<T>)
  {
    !o.some
  }

  predicate IsSomeAnd<T>(o: Option<T>, fn: T -> bool)
  {
    o.some && fn(o.val)
  }

  /** The presence tests agree with the constructors and with each other. */
  lemma PresenceTests<T>(v: T, zero: T, o: Option<T>)
    ensures IsSome(Some(v)) && !IsNone(Some(v))
    ensures IsNone(None(zero)) && !IsSome(None(zero))
    ensures IsNone(o) == !IsSome(o) && IsZero(o) == IsNone(o)
  {
  }

  function UnsafeUnwrap<T>(o: Option<T>): T
  {
    o.val
  }

  const NoValue: string := "option does not contain a value"

  function Expect<T>(o: Option<T>, msg: string): (r: Outcome<T>)
    ensures r.Panicked? ==> r.msg == msg
  {
    if o.some then Returned(UnsafeUnwrap(o)) else Panicked(msg)
  }

  function Unwrap<T>(o: Option<T>): (r: Outcome<T>)
    ensures r.Panicked? ==> r.msg == NoValue
  {
    if o.some then Returned(o.val) else Panicked(NoValue)
  }

  function UnwrapOr<T>(o: Option<T>, value: T): T
  {
    if o.some then o.val else value
  }

  function UnwrapOrZero<T>(o: Option<T>, zero: T): T
  {
    if o.some then o.val else zero
  }

  function UnwrapOrElse<T>(o: Option<T>, fn: () -> T): T
  {
    if o.some then o.val else fn()
  }

  /** `Some(v)` holds `v`; every unwrapping accessor hands it back. */
  lemma {:induction false} UnwrapSome<T>(v: T, msg: string, d: T, zero: T, fn: () -> T)
    ensures Unwrap(Some(v)) == Returned(v) && Expect(Some(v), msg) == Returned(v)
    ensures UnwrapOr(Some(v), d) == v && UnwrapOrZero(Some(v), zero) == v
    ensures UnwrapOrElse(Some(v), fn) == v && UnsafeUnwrap(Some(v)) == v
  {
  }

  /** Unwrapping `None` panics; the lenient accessors fall back to the
      default, the zero value and `fn()` respectively. */
  lemma UnwrapNone<T>(zero: T, msg: string, d: T, fn: () -> T)
    ensures Unwrap(None(zero)) == Panicked(NoValue)
    ensures Expect(None(zero), msg) == Panicked(msg)
    ensures UnwrapOr(None(zero), d) == d && UnwrapOrZero(None(zero), zero) == zero
    ensures UnwrapOrElse(None(zero), fn) == fn()
  {
  }

  /** The lenient accessors are Unwrap with a fallback for its panic. */
  lemma UnwrapFallbacks<T>(o: Option<T>, d: T, zero: T, fn: () -> T)
    ensures UnwrapOr(o, d) == (if Unwrap(o).Returned? then Unwrap(o).value else d)
    ensures UnwrapOrZero(o, zero) == UnwrapOr(o, zero)
    ensures UnwrapOrElse(o, fn) == UnwrapOr(o, fn())
    ensures Expect(o, NoValue) == Unwrap(o)
  {
  }

  /** `o.Map(fn)`: same-type Map. On `None` it returns `o` itself, stale
      value included, not a fresh `None`. */
  function Map<T>(o: Option<T>, fn: T -> T): Option<T>
  {
    if o.some then Some(fn(UnsafeUnwrap(o))) else o
  }

  function MapOr<T>(o: Option<T>, fn: T -> T, value: T): T
  {
    if o.some then fn(UnsafeUnwrap(o)) else value
  }

  function MapOrElse<T>(o: Option<T>, mapFn: T -> T, valueFn: () -> T): T
  {
    if o.some then mapFn(UnsafeUnwrap(o)) else valueFn()
  }

  /** Map keeps presence, is the identity on `None`, and composes. */
  lemma MapLaws<T>(o: Option<T>, f: T -> T, g: T -> T)
    ensures Map(o, f).some == o.some
    ensures !o.some ==> Map(o, f) == o
    ensures o.some ==> Map(o, f) == Some(f(o.val))
    ensures Map(Map(o, f), g) == Map(o, x => g(f(x)))
  {
  }

  /** MapOr and MapOrElse are Map followed by UnwrapOr and UnwrapOrElse. */
  lemma MapOrViaMap<T>(o: Option<T>, f: T -> T, value: T, valueFn: () -> T)
    ensures MapOr(o, f, value) == UnwrapOr(Map(o, f), value)
    ensures MapOrElse(o, f, valueFn) == UnwrapOrElse(Map(o, f), valueFn)
  {
  }

  function Filter<T>(o: Option<T>, fn: T -> bool, zero: T): Option<T>
  {
    if o.some && fn(UnsafeUnwrap(o)) then o else None(zero)
  }

  /** Filter keeps `o` exactly when it is `Some` and `fn` accepts its value;
      otherwise the result is a fresh `None`. Filtering twice is filtering
      once, and IsSomeAnd is the presence of the filtered option. */
  lemma FilterLaws<T>(o: Option<T>, fn: T -> bool, zero: T)
    ensures Filter(o, fn, zero).some <==> o.some && fn(o.val)
    ensures Filter(o, fn, zero).some ==> Filter(o, fn, zero) == o
    ensures Filter(o, _ => false, zero) == None(zero)
    ensures Filter(Filter(o, fn, zero), fn, zero) == Filter(o, fn, zero)
    ensures IsSomeAnd(o, fn) == IsSome(Filter(o, fn, zero))
  {
  }

  function And<T>(o: Option<T>, opt: Option<T>, zero: T): Option<T>
  {
    if o.some then opt else None(zero)
  }

  function AndThen<T>(o: Option<T>, fn: T -> Option<T>, zero: T): Option<T>
  {
    if o.some then fn(o.val) else None(zero)
  }

  function Or<T>(o: Option<T>, value: Option<T>): Option<T>
  {
    if o.some then o else value
  }

  function OrElse<T>(o: Option<T>, valueFn: () -> Option<T>): Option<T>
  {
    if o.some then o else valueFn()
  }

  /** The boolean structure of And and Or, and how And, Map and OrElse are
      instances of AndThen and Or. */
  lemma AndOrLaws<T>(o: Option<T>, p: Option<T>, q: Option<T>, f: T -> T,
                     fn: T -> Option<T>, valueFn: () -> Option<T>, zero: T)
    ensures And(o, p, zero).some == (o.some && p.some)
    ensures Or(o, p).some == (o.some || p.some)
    ensures Or(o, o) == o
    ensures Or(o, None(zero)).some == o.some
    ensures Or(Or(o, p), q) == Or(o, Or(p, q))
    ensures !o.some ==> AndThen(o, fn, zero) == None(zero)
    ensures And(o, p, zero) == AndThen(o, _ => p, zero)
    ensures o.some ==> AndThen(o, x => Some(f(x)), zero) == Map(o, f)
    ensures OrElse(o, valueFn) == Or(o, valueFn())
  {
  }

  /** A Go byte slice where `nil` and empty are told apart. */
  datatype Bytes = NilBytes | Bytes(data: seq<byte>)

  const NullText: seq<byte> := Ascii("null")
  const TrueText: seq<byte> := Ascii("true")
  const FalseText: seq<byte> := Ascii("false")

  /** The `bool` case of MarshalText. */
  function FormatBool(b: bool): seq<byte>
  {
    if b then TrueText else FalseText
  }

  /** The `*bool` case of unmarshalText: exactly "true" and "false" are
      accepted, every other input is an error that quotes the input.
      `quote` is the `%q` rendering of a byte slice (`strconv.Quote`). */
  function ParseBool(data: seq<byte>, quote: seq<byte> -> string): (r: Result<bool>)
    ensures r.Ok? <==> data == TrueText || data == FalseText
    ensures r.Ok? ==> FormatBool(r.value) == data
    ensures r.Failure? ==> r.err == Err("invalid boolean value: " + quote(data))
  {
    if data == TrueText then Ok(true)
    else if data == FalseText then Ok(false)
    else Failure(Err("invalid boolean value: " + quote(data)))
  }

  lemma {:induction false} BoolTextRoundTrip(b: bool, quote: seq<byte> -> string)
    ensures ParseBool(FormatBool(b), quote) == Ok(b)
  {
    assert TrueText != FalseText by {
      assert |TrueText| == 4 && |FalseText| == 5;
    }
  }

  /** `o.MarshalJSON()`: `encode` is `json.Marshal` of the held value;
      `None` is `json.Marshal(nil)`, the text `null`. */
  function MarshalJSON<T>(o: Option<T>, encode: T -> (seq<byte>, Error)): (r: (seq<byte>, Error))
    ensures !o.some ==> r == (NullText, Nil)
    ensures o.some ==> r == encode(o.val)
  {
    if o.some then encode(o.val) else (NullText, Nil)
  }

  /** How MarshalText treats a `T`: a non-scalar `T` whose value implements
      `encoding.TextMarshaler` (or does not), or a scalar `T` whose type
      switch case formats the value (`Nothing` for a scalar type the switch
      has no case for, such as `complex64`). */
  datatype TextEncoding<!T> =
    | NoTextMarshaler
    | TextMarshaler(marshal: T -> (Bytes, Error))
    | ScalarFormat(format: T -> Maybe<Bytes>)

  /** The error for a value whose type, rendered by `%T` as `typeName`,
      has no text marshaler. */
  function NoMarshaler(typeName: string): string
  {
    "type " + typeName + " does not implement encoding.TextMarshaler"
  }

  /** `o.MarshalText()`: `(nil, nil)` for `None`. `typeOf` is the `%T`
      rendering of a value's dynamic type. */
  function MarshalText<T>(o: Option<T>, enc: TextEncoding<T>, typeOf: T -> string): (r: (Bytes, Error))
    ensures !o.some ==> r == (NilBytes, Nil)
    ensures o.some && enc.TextMarshaler? ==> r == enc.marshal(o.val)
    ensures o.some && !enc.TextMarshaler? ==>
              (r.1 == Nil <==> enc.ScalarFormat? && enc.format(o.val).Just?)
    ensures o.some && !enc.TextMarshaler? && r.1 != Nil ==>
              r == (NilBytes, Err(NoMarshaler(typeOf(o.val))))
    ensures o.some && enc.ScalarFormat? && r.1 == Nil ==> r.0 == enc.format(o.val).value
  {
    if !o.some then (NilBytes, Nil)
    else match enc
      case NoTextMarshaler => (NilBytes, Err(NoMarshaler(typeOf(o.val))))
      case TextMarshaler(marshal) => marshal(o.val)
      case ScalarFormat(format) =>
        match format(o.val)
        case Just(b) => (b, Nil)
        case Nothing => (NilBytes, Err(NoMarshaler(typeOf(o.val))))
  }

  /** The bool branch of MarshalText's type switch. */
  const BoolTextEncoding: TextEncoding<bool> := ScalarFormat(b => Just(Bytes(FormatBool(b))))

  /** How UnmarshalText treats a `T`: a non-scalar `T` whose value implements
      `encoding.TextUnmarshaler` (its method writes through the value, which
      therefore stays the same here) or does not, or a scalar `T` parsed by
      unmarshalText. */
  datatype TextDecoding<T> =
    | NoTextUnmarshaler
    | TextUnmarshaler(unmarshal: seq<byte> -> Error)
    | ScalarParse(parse: seq<byte> -> Result<T>)

  /** The error for a value whose type, rendered by `%T` as `typeName`,
      has no text unmarshaler. */
  function NoUnmarshaler(typeName: string): string
  {
    "type " + typeName + " does not implement encoding.TextUnmarshaler"
  }

  /** Where a non-nil SQL source goes: to `(*T).Scan` when `*T` implements
      `sql.Scanner` (it decodes into the zero value and reports an error), or
      to `driver.DefaultParameterConverter` followed by the assertion
      `av.(T)`. */
  datatype Scanning<T, !S> =
    | CustomScanner(scan: S -> (T, Error))
    | DefaultConverter(convert: S -> Conversion<T>)

  datatype Conversion<T> = ConvertFailed(msg: string) | NotOfType | Converted(v: T)

  /** A source handed to Scan: SQL NULL (`nil`) or a value. */
  datatype ScanSource<S> = NilSource | Source(src: S)

  /** An addressable `Option[T]` variable: the receiver of the
      pointer-receiver methods. A pointer `&o.val` handed out by
      UnwrapAsRef, Insert or GetOrInsert is modelled by the variable itself;
      writing through it is Store. */
  class OptionVar<T> {
    var val: T
    var some: bool
    /** The zero value of `T`. */
    const zero: T

    function Value(): Option<T>
      reads this
    {
      Option(val, some)
    }

    /** `var o Option[T] = init`. */
    constructor (init: Option<T>, zero: T)
      ensures Value() == init && this.zero == zero
    {
      val := init.val;
      some := init.some;
      this.zero := zero;
    }

    /** `o.UnwrapAsRef()`: a reference to the held value, or a panic. */
    method UnwrapAsRef() returns (r: Outcome<OptionVar<T>>)
      ensures r == if some then Returned(this) else Panicked(NoValue)
    {
      if some {
        return Returned(this);
      }
      return Panicked(NoValue);
    }

    /** `*ref = x` for a reference `ref == &o.val`. */
    method Store(x: T)
      modifies this
      ensures val == x && some == old(some)
    {
      val := x;
    }

    method Insert(x: T) returns (ref: OptionVar<T>)
      modifies this
      ensures Value() == Some(x) && ref == this
    {
      val, some := x, true;
      var r := UnwrapAsRef();
      assert r.Returned?;
      ref := r.value;
    }

    /** Inserts only into `None`; a `Some` keeps its value. */
    method GetOrInsert(x: T) returns (ref: OptionVar<T>)
      modifies this
      ensures Value() == if old(some) then old(Value()) else Some(x)
      ensures ref == this && some
    {
      if !some {
        val, some := x, true;
      }
      var r := UnwrapAsRef();
      assert r.Returned?;
      ref := r.value;
    }

    method GetOrInsertWith(fn: () -> T) returns (ref: OptionVar<T>)
      modifies this
      ensures Value() == if old(some) then old(Value()) else Some(fn())
      ensures ref == this && some
    {
      if !some {
        val, some := fn(), true;
      }
      var r := UnwrapAsRef();
      assert r.Returned?;
      ref := r.value;
    }

    method Replace(x: T) returns (prev: Option<T>)
      modifies this
      ensures prev == old(Value()) && Value() == Some(x)
    {
      prev := Value();
      val, some := x, true;
    }

    /** On `None` it returns a fresh `None` and leaves `o` as it was; on
        `Some` it returns the value and leaves a fresh `None` behind. */
    method Take() returns (prev: Option<T>)
      modifies this
      ensures prev == if old(some) then Some(old(val)) else None(zero)
      ensures Value() == if old(some) then None(zero) else old(Value())
    {
      if !some {
        return None(zero);
      }
      prev := Some(UnsafeUnwrap(Value()));
      val, some := zero, false;
    }

    /** `o.Scan(src)` of `sql.Scanner`. */
    method Scan<S>(src: ScanSource<S>, scanning: Scanning<T, S>) returns (err: Error)
      modifies this
      ensures src.NilSource? ==> err == Nil && Value() == None(zero)
      ensures src.Source? ==> (some <==> err == Nil)
      ensures src.Source? && scanning.CustomScanner? ==>
                (val, err) == scanning.scan(src.src)
      ensures src.Source? && scanning.DefaultConverter? ==>
                match scanning.convert(src.src)
                case ConvertFailed(msg) => err == Err(msg) && val == zero
                case NotOfType => err.Err? && val == old(val)
                case Converted(v) => err == Nil && val == v
    {
      some := false;
      if src.NilSource? {
        val := zero;
        return Nil;
      }
      match scanning
      case CustomScanner(scan) =>
        val := zero;
        var (v, e) := scan(src.src);
        val := v;
        some := e == Nil;
        return e;
      case DefaultConverter(convert) =>
        match convert(src.src)
        case ConvertFailed(msg) =>
          val := zero;
          return Err(msg);
        case NotOfType =>
          return Err("got unexpected type");
        case Converted(v) =>
          some, val := true, v;
          return Nil;
    }

    /** `o.UnmarshalJSON(data)`; `decode` is `json.Unmarshal` into the
        current value. */
    method UnmarshalJSON(data: seq<byte>, decode: (T, seq<byte>) -> (T, Error))
      returns (err: Error)
      modifies this
      ensures data == NullText ==> err == Nil && Value() == None(zero)
      ensures data != NullText ==> err == decode(old(val), data).1
      ensures data != NullText ==> (some <==> err == Nil)
      ensures data != NullText ==>
                val == if err == Nil then decode(old(val), data).0 else zero
    {
      some := false;
      if data == NullText {
        val := zero;
        return Nil;
      }
      var (v, e) := decode(val, data);
      val := v;
      if e != Nil {
        val := zero;
        return e;
      }
      some := true;
      return Nil;
    }

    /** `o.UnmarshalText(data)`. `typeOf` is the `%T` rendering of a
        value's dynamic type; the missing-unmarshaler error names the type
        of the zero value, which is in place by then. */
    method UnmarshalText(data: seq<byte>, dec: TextDecoding<T>, typeOf: T -> string) returns (err: Error)
      modifies this
      ensures some <==> err == Nil
      ensures err != Nil ==> val == zero
      ensures dec.NoTextUnmarshaler? ==> err == Err(NoUnmarshaler(typeOf(zero)))
      ensures dec.TextUnmarshaler? ==> err == dec.unmarshal(data)
      ensures dec.TextUnmarshaler? && err == Nil ==> val == old(val)
      ensures dec.ScalarParse? ==> (err == Nil <==> dec.parse(data).Ok?)
      ensures dec.ScalarParse? && err == Nil ==> val == dec.parse(data).value
      ensures dec.ScalarParse? && dec.parse(data).Failure? ==>
                err == WrapError("error unmarshaling data: ", dec.parse(data).err)
    {
      some := false;
      match dec
      case NoTextUnmarshaler =>
        val := zero;
        return Err(NoUnmarshaler(typeOf(zero)));
      case TextUnmarshaler(unmarshal) =>
        var e := unmarshal(data);
        if e != Nil {
          val := zero;
          return e;
        }
        some := true;
        return Nil;
      case ScalarParse(parse) =>
        match parse(data)
        case Failure(e) =>
          val := zero;
          return WrapError("error unmarshaling data: ", e);
        case Ok(v) =>
          val := v;
          some := true;
          return Nil;
    }
  }

  /** A write through the reference Insert returns changes the option
      (testing/option/option_test.go, "Insert"). */
  method InsertThenWrite() returns (inserted: Outcome<int>, written: Outcome<int>)
    ensures inserted == Returned(5) && written == Returned(3)
  {
    var opt := new OptionVar(None(0), 0);
    var ref := opt.Insert(5);
    inserted := Unwrap(opt.Value());
    ref.Store(3);
    written := Unwrap(opt.Value());
  }

  /** GetOrInsert on `Some(10)` keeps 10 and hands out a reference to it. */
  method GetOrInsertOnSome() returns (kept: Outcome<int>, written: Outcome<int>)
    ensures kept == Returned(10) && written == Returned(3)
  {
    var opt := new OptionVar(Some(10), 0);
    var ref := opt.GetOrInsert(5);
    kept := Unwrap(opt.Value());
    ref.Store(3);
    written := Unwrap(opt.Value());
  }

  /** Replace hands back the old option and Take leaves `None`. */
  method ReplaceThenTake(v: int, w: int) returns (replaced: Option<int>, taken: Option<int>, left: Option<int>)
    ensures replaced == Some(v) && taken == Some(w) && left == None(0)
  {
    var opt := new OptionVar(Some(v), 0);
    replaced := opt.Replace(w);
    taken := opt.Take();
    left := opt.Value();
  }

  /** Scan(nil) leaves `None` holding the zero value, whatever was there. */
  method ScanNull<T, S>(init: Option<T>, zero: T, scanning: Scanning<T, S>)
    returns (r: Option<T>, err: Error)
    ensures r == None(zero) && err == Nil
  {
    var opt := new OptionVar(init, zero);
    err := opt.Scan(NilSource, scanning);
    r := opt.Value();
  }

  /** A bool option survives MarshalText followed by UnmarshalText. */
  method BoolTextOptionRoundTrip(b: bool, typeOf: bool -> string, quote: seq<byte> -> string)
    returns (r: Option<bool>, err: Error)
    ensures r == Some(b) && err == Nil
  {
    var (text, merr) := MarshalText(Some(b), BoolTextEncoding, typeOf);
    assert merr == Nil && text == Bytes(FormatBool(b));
    var opt := new OptionVar(None(false), false);
    BoolTextRoundTrip(b, quote);
    err := opt.UnmarshalText(text.data, ScalarParse(d => ParseBool(d, quote)), typeOf);
    r := opt.Value();
  }

  /** `None` written by MarshalJSON reads back through UnmarshalJSON as
      `None` holding the zero value, whatever the stale value was. */
  method NullJSONRoundTrip<T>(stale: T, zero: T, encode: T -> (seq<byte>, Error),
                              decode: (T, seq<byte>) -> (T, Error))
    returns (r: Option<T>, err: Error)
    ensures r == None(zero) && err == Nil
  {
    var (text, _) := MarshalJSON(Option(stale, false), encode);
    var opt := new OptionVar(Some(stale), zero);
    err := opt.UnmarshalJSON(text, decode);
    r := opt.Value();
  }
}
