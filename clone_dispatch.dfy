/** The copy dispatch of option_helper.go and copy_any.go: how
    `Option.Copy`, `Option.CopyAny` and `Option.NewCopy` decide between
    returning the value itself, calling the value's `Copy() T` method, and
    giving up. Reflection is modelled by `Reflection`; the kind predicate
    `IsScalar(kind)` these methods call is not part of this model and is a
    parameter `isScalarKind`. */
module CloneDispatch {
  import opened Base
  import opened Options
  import opened GoTypes

  /** `reflectIsScalar(kind)`. */
  predicate ReflectIsScalar(kind: Kind)
  {
    match kind
    case Bool | Int | Int8 | Int16 | Int32 | Int64
       | Uint | Uint8 | Uint16 | Uint32 | Uint64 | Uintptr
       | Float32 | Float64 | Complex64 | Complex128
       | Func | UnsafePointer | Invalid => true
    case String => true
    case _ => false
  }

  /** The classifier rejects exactly the kinds that own or share storage. */
  lemma ReflectIsScalarRejects(kind: Kind)
    ensures !ReflectIsScalar(kind) <==>
              kind in {Slice, Map, Pointer, Struct, Array, Chan, Interface}
  {
  }

  /** What reflection tells about values of a type `T`: the dynamic type of
      `any(v)`, and, per dynamic type, its method `Copy() T` (the interface
      `copy[T]`), if it has one. */
  datatype Reflection<!T> = Reflection(dynOf: T -> Dyn, copyMethod: GoType -> Maybe<T -> T>)

  /** `anyVal.(copy[T])`: a nil interface has no methods. */
  function Capability<T>(refl: Reflection<T>, v: T): Maybe<T -> T>
  {
    match refl.dynOf(v)
    case NilInterface => Nothing
    case Dynamic(t) => refl.copyMethod(t)
  }

  const Unknown: string := "unknown"

  /** `o.Copy()`. */
  function Copy<T>(o: Option<T>, zero: T, refl: Reflection<T>, isScalarKind: Kind -> bool)
    : (r: Outcome<Option<T>>)
    ensures !o.some ==> r == Returned(None(zero))
    ensures r.Returned? ==> r.value.some == o.some
    ensures o.some && isScalarKind(ReflectKind(refl.dynOf(o.val))) ==> r == Returned(Some(o.val))
    ensures o.some && !isScalarKind(ReflectKind(refl.dynOf(o.val))) ==>
              match Capability(refl, o.val)
              case Just(copy) => r == Returned(Some(copy(o.val)))
              case Nothing => r == Panicked(Unknown)
  {
    if IsNone(o) then Returned(None(zero))
    else if isScalarKind(ReflectKind(refl.dynOf(o.val))) then Returned(Some(o.val))
    else match Capability(refl, o.val)
      case Just(copy) => Returned(Some(copy(o.val)))
      case Nothing => Panicked(Unknown)
  }

  /** `o.NewCopy()`: the same sequence of checks as Copy. */
  function NewCopy<T>(o: Option<T>, zero: T, refl: Reflection<T>, isScalarKind: Kind -> bool)
    : (r: Outcome<Option<T>>)
    ensures !o.some ==> r == Returned(None(zero))
    ensures r.Panicked? <==>
              o.some && !isScalarKind(ReflectKind(refl.dynOf(o.val))) && Capability(refl, o.val).Nothing?
  {
    if IsNone(o) then Returned(None(zero))
    else
      var kind := ReflectKind(refl.dynOf(o.val));
      if isScalarKind(kind) then Returned(Some(o.val))
      else match Capability(refl, o.val)
        case Just(copy) => Returned(Some(copy(o.val)))
        case Nothing => Panicked(Unknown)
  }

  lemma NewCopyIsCopy<T>(o: Option<T>, zero: T, refl: Reflection<T>, isScalarKind: Kind -> bool)
    ensures NewCopy(o, zero, refl, isScalarKind) == Copy(o, zero, refl, isScalarKind)
  {
  }

  /** `isScalar(vv)` of copy_any.go: the dynamic type is one of the listed
      predeclared types, `uintptr` included. */
  predicate IsScalarDyn(d: Dyn)
  {
    match d
    case Dynamic(Basic(k)) =>
      k in {Int, Int8, Int16, Int32, Int64, Uint, Uint8, Uint16, Uint32, Uint64,
            Float32, Float64, String, Bool, Complex64, Complex128, Uintptr}
    case _ => false
  }

  /** `o.CopyAny()`: like Copy, but a value it cannot copy gives `None`
      instead of a panic. */
  function CopyAny<T>(o: Option<T>, zero: T, refl: Reflection<T>): (r: Option<T>)
    ensures !o.some ==> r == None(zero)
    ensures o.some && IsScalarDyn(refl.dynOf(o.val)) ==> r == Some(o.val)
    ensures o.some && !IsScalarDyn(refl.dynOf(o.val)) ==>
              r == match Capability(refl, o.val)
                   case Just(copy) => Some(copy(o.val))
                   case Nothing => None(zero)
  {
    if IsNone(o) then None(zero)
    else if IsScalarDyn(refl.dynOf(o.val)) then Some(o.val)
    else match Capability(refl, o.val)
      case Just(copy) => Some(copy(o.val))
      case Nothing => None(zero)
  }

  /** The three scalar tests are nested: IsScalar[T] accepts fewer types
      than isScalar (which adds `uintptr`), and every dynamic type isScalar
      accepts has a kind reflectIsScalar accepts. */
  lemma {:induction false} ScalarTestsNested(t: GoType, d: Dyn)
    ensures IsScalar(t) <==> IsScalarDyn(ZeroDyn(t)) && t != Basic(Uintptr)
    ensures IsScalarDyn(d) ==> ReflectIsScalar(ReflectKind(d))
    ensures IsScalar(t) ==> ReflectIsScalar(KindOf(t))
  {
    IsScalarExactly(t);
    if IsScalarDyn(ZeroDyn(t)) {
      assert t.Basic?;
    }
  }

  /** A defined type based on a scalar misses the static test but is still
      a scalar for the reflective classifier. */
  lemma NamedScalarFallsThrough(name: string, k: Kind)
    requires IsScalarBasicKind(k)
    ensures !IsScalar(Named(name, Basic(k)))
    ensures !IsScalarDyn(Dynamic(Named(name, Basic(k))))
    ensures ReflectIsScalar(KindOf(Named(name, Basic(k))))
  {
    IsScalarExactly(Basic(k));
    ScalarTestsNested(Basic(k), NilInterface);
    IsScalarExactly(Named(name, Basic(k)));
  }

  /** With reflectIsScalar as the kind test, a `Some` holding a value of a
      scalar (non-interface) type `t` copies to itself. */
  lemma {:induction false} CopyScalarType<T>(t: GoType, refl: Reflection<T>, v: T, zero: T)
    requires refl.dynOf(v) == Dynamic(t) && IsScalar(t)
    ensures Copy(Some(v), zero, refl, ReflectIsScalar) == Returned(Some(v))
    ensures CopyAny(Some(v), zero, refl) == Some(v)
  {
    IsScalarExactly(t);
    ScalarTestsNested(t, Dynamic(t));
  }

  /** A struct without a `Copy` method cannot be copied: Copy panics, it
      never falls back to a shallow copy, and CopyAny gives `None`. */
  lemma {:induction false} CopyStructWithoutMethod<T>(fields: seq<GoType>, refl: Reflection<T>, v: T, zero: T)
    requires refl.dynOf(v) == Dynamic(StructOf(fields)) && refl.copyMethod(StructOf(fields)).Nothing?
    ensures Copy(Some(v), zero, refl, ReflectIsScalar) == Panicked(Unknown)
    ensures CopyAny(Some(v), zero, refl) == None(zero)
  {
  }

  /** Where Copy (with reflectIsScalar) panics, CopyAny yields `None`; where
      CopyAny yields a value, Copy returns a value too; and when both
      return, they differ only for kinds reflectIsScalar accepts whose
      dynamic type is not a listed predeclared type (defined scalar types,
      functions, `unsafe.Pointer`, a nil interface), where Copy returns the
      value itself and CopyAny asks for the `Copy` method. */
  lemma {:induction false} CopyAnyVersusCopy<T>(o: Option<T>, zero: T, refl: Reflection<T>)
    ensures Copy(o, zero, refl, ReflectIsScalar).Panicked? ==>
              o.some && CopyAny(o, zero, refl) == None(zero)
    ensures CopyAny(o, zero, refl).some ==> Copy(o, zero, refl, ReflectIsScalar).Returned?
    ensures Copy(o, zero, refl, ReflectIsScalar).Returned? &&
            Copy(o, zero, refl, ReflectIsScalar).value != CopyAny(o, zero, refl) ==>
              o.some && !IsScalarDyn(refl.dynOf(o.val)) &&
              ReflectIsScalar(ReflectKind(refl.dynOf(o.val)))
  {
    if o.some {
      ScalarTestsNested(Basic(Bool), refl.dynOf(o.val));
    }
  }

  /** CopyAny loses the value exactly when there is neither a listed scalar
      dynamic type nor a `Copy` method. */
  lemma CopyAnyNoneIff<T>(o: Option<T>, zero: T, refl: Reflection<T>)
    requires o.some
    ensures !CopyAny(o, zero, refl).some <==>
              !IsScalarDyn(refl.dynOf(o.val)) && Capability(refl, o.val).Nothing?
  {
  }
}
