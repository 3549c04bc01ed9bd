/** The part of Go's type system the copy dispatch and the zero predicates
    look at: `reflect.Kind`, types, the dynamic type held by an `any`, and
    values with their zero values; plus internal/types/scalar.go
    (`IsScalar[T]`, `ZeroValue[T]`). A 64-bit platform is assumed. */
module GoTypes {
  import Base

  /** `reflect.Kind`, in the order of the `reflect` package. */
  datatype Kind =
    | Invalid | Bool
    | Int | Int8 | Int16 | Int32 | Int64
    | Uint | Uint8 | Uint16 | Uint32 | Uint64 | Uintptr
    | Float32 | Float64 | Complex64 | Complex128
    | Array | Chan | Func | Interface | Map | Pointer | Slice | String | Struct
    | UnsafePointer

  predicate IsIntKind(k: Kind)
  {
    k == Int || k == Int8 || k == Int16 || k == Int32 || k == Int64
  }

  predicate IsUintKind(k: Kind)
  {
    k == Uint || k == Uint8 || k == Uint16 || k == Uint32 || k == Uint64 || k == Uintptr
  }

  /** A Go type. `Basic` is a predeclared type (`bool`, `int8`, `uintptr`,
      `string`, `unsafe.Pointer`, ...) named by its kind; `Named` is a
      defined type such as `type Meters float64`. */
  datatype GoType =
    | Basic(kind: Kind)
    | Named(name: string, underlying: GoType)
    | PointerTo(elem: GoType)
    | SliceOf(elem: GoType)
    | ArrayOf(length: nat, elem: GoType)
    | MapOf(key: GoType, elem: GoType)
    | ChanOf(elem: GoType)
    | FuncType
    | StructOf(fields: seq<GoType>)
    | InterfaceType

  /** `reflect.Type.Kind()`. */
  function KindOf(t: GoType): Kind
  {
    match t
    case Basic(k) => k
    case Named(_, u) => KindOf(u)
    case PointerTo(_) => Pointer
    case SliceOf(_) => Slice
    case ArrayOf(_, _) => Array
    case MapOf(_, _) => Map
    case ChanOf(_) => Chan
    case FuncType => Func
    case StructOf(_) => Struct
    case InterfaceType => Interface
  }

  /** What an `any` holds: nothing (`nil`), or a value of a dynamic type,
      which is never an interface type. */
  datatype Dyn = NilInterface | Dynamic(t: GoType)

  /** `reflect.ValueOf(x).Kind()`: `Invalid` for a nil interface. */
  function ReflectKind(d: Dyn): Kind
  {
    match d
    case NilInterface => Invalid
    case Dynamic(t) => KindOf(t)
  }

  /** `any(v)` for the zero value `v` of `t`: the zero value of an interface
      type is a nil interface, every other zero value keeps its type. */
  function ZeroDyn(t: GoType): (d: Dyn)
    ensures d.NilInterface? <==> KindOf(t) == Interface
    ensures d.Dynamic? ==> d.t == t
  {
    if KindOf(t) == Interface then NilInterface else Dynamic(t)
  }

  /** The predeclared types listed by `types.IsScalar` (no `uintptr`). */
  predicate IsScalarBasicKind(k: Kind)
  {
    IsIntKind(k) || (IsUintKind(k) && k != Uintptr) ||
    k == Float32 || k == Float64 || k == Complex64 || k == Complex128 ||
    k == Bool || k == String
  }

  /** `types.IsScalar[T]()`: a type switch on `any` of the zero value of
      `T`, so only the predeclared scalar types themselves match. */
  predicate IsScalar(t: GoType)
  {
    match ZeroDyn(t)
    case Dynamic(Basic(k)) => IsScalarBasicKind(k)
    case _ => false
  }

  /** IsScalar accepts exactly the predeclared numeric, bool and string
      types: never `uintptr`, a defined type based on a scalar, or an
      interface type. */
  lemma {:induction false} IsScalarExactly(t: GoType)
    ensures IsScalar(t) <==> t.Basic? && IsScalarBasicKind(t.kind)
    ensures !IsScalar(Basic(Uintptr))
    ensures forall name, u :: !IsScalar(Named(name, u))
    ensures !IsScalar(InterfaceType)
  {
    if t.Basic? && IsScalarBasicKind(t.kind) {
      assert KindOf(t) != Interface;
    }
  }

  /** Go values, enough for zero values and `==`. Pointers, slices, maps,
      channels, functions, `unsafe.Pointer` and interfaces are `NilV` or an
      opaque reference `RefV`. Floating point is modelled by reals (no NaN,
      no signed zero). */
  datatype Value =
    | BoolV(b: bool)
    | IntV(i: int)
    | FloatV(f: real)
    | ComplexV(re: real, im: real)
    | StringV(s: Base.GoString)
    | NilV
    | RefV(addr: nat)
    | ArrayV(elems: seq<Value>)
    | StructV(fields: seq<Value>)

  predicate IntFits(k: Kind, i: int)
  {
    match k
    case Int8 => -0x80 <= i < 0x80
    case Int16 => -0x8000 <= i < 0x8000
    case Int32 => -0x8000_0000 <= i < 0x8000_0000
    case Int | Int64 => -0x8000_0000_0000_0000 <= i < 0x8000_0000_0000_0000
    case Uint8 => 0 <= i < 0x100
    case Uint16 => 0 <= i < 0x1_0000
    case Uint32 => 0 <= i < 0x1_0000_0000
    case _ => 0 <= i < 0x1_0000_0000_0000_0000
  }

  /** `v` is a value of type `t`. */
  predicate HasType(v: Value, t: GoType)
    decreases t
  {
    match t
    case Basic(k) =>
      if k == Bool then v.BoolV?
      else if IsIntKind(k) || IsUintKind(k) then v.IntV? && IntFits(k, v.i)
      else if k == Float32 || k == Float64 then v.FloatV?
      else if k == Complex64 || k == Complex128 then v.ComplexV?
      else if k == String then v.StringV?
      else v.NilV? || v.RefV?
    case Named(_, u) => HasType(v, u)
    case ArrayOf(n, e) =>
      v.ArrayV? && |v.elems| == n && forall i :: 0 <= i < n ==> HasType(v.elems[i], e)
    case StructOf(fs) =>
      v.StructV? && |v.fields| == |fs| &&
      forall i :: 0 <= i < |fs| ==> HasType(v.fields[i], fs[i])
    case _ => v.NilV? || v.RefV?
  }

  /** The zero value of a predeclared type. */
  function BasicZero(k: Kind): Value
  {
    if k == Bool then BoolV(false)
    else if IsIntKind(k) || IsUintKind(k) then IntV(0)
    else if k == Float32 || k == Float64 then FloatV(0.0)
    else if k == Complex64 || k == Complex128 then ComplexV(0.0, 0.0)
    else if k == String then StringV([])
    else NilV
  }

  /** `types.ZeroValue[T]()`, i.e. `var t T`. */
  function ZeroValue(t: GoType): Value
    decreases t
  {
    match t
    case Basic(k) => BasicZero(k)
    case Named(_, u) => ZeroValue(u)
    case ArrayOf(n, e) => ArrayV(seq(n, _ => ZeroValue(e)))
    case StructOf(fs) => StructV(seq(|fs|, i requires 0 <= i < |fs| => ZeroValue(fs[i])))
    case _ => NilV
  }

  /** The zero value of a type is a value of that type. */
  lemma {:induction false} ZeroValueHasType(t: GoType)
    ensures HasType(ZeroValue(t), t)
    decreases t
  {
    match t
    case Basic(k) =>
    case Named(_, u) =>
      ZeroValueHasType(u);
    case ArrayOf(n, e) =>
      ZeroValueHasType(e);
    case StructOf(fs) =>
      forall i | 0 <= i < |fs|
        ensures HasType(ZeroValue(t).fields[i], fs[i])
      {
        ZeroValueHasType(fs[i]);
      }
    case _ =>
  }

  /** Types whose values Go can compare with `==` (a `comparable` type
      argument). */
  predicate Comparable(t: GoType)
    decreases t
  {
    match t
    case Basic(_) => true
    case Named(_, u) => Comparable(u)
    case SliceOf(_) => false
    case MapOf(_, _) => false
    case FuncType => false
    case ArrayOf(_, e) => Comparable(e)
    case StructOf(fs) => forall i :: 0 <= i < |fs| ==> Comparable(fs[i])
    case _ => true
  }
}
