/** std/exp/pred/zero.go: `IsZero` and `IsNotZero` on a `comparable` type
    argument, in terms of the Go types and values of GoTypes. Go's `==` is
    structural equality of values (the model has no NaN). */
module Pred {
  import Base
  import opened GoTypes

  /** `pred.IsZero[T](val)`: `val == zero` where `var zero T`. */
  predicate IsZero(t: GoType, v: Value)
    requires Comparable(t)
  {
    v == ZeroValue(t)
  }

  /** `pred.IsNotZero[T](val)`: `val != zero` where `var zero T`. */
  predicate IsNotZero(t: GoType, v: Value)
    requires Comparable(t)
  {
    v != ZeroValue(t)
  }

  /** IsNotZero is the opposite of IsZero, and the zero value itself is
      zero. */
  lemma NotZeroIsOpposite(t: GoType, v: Value)
    requires Comparable(t)
    ensures IsNotZero(t, v) <==> !IsZero(t, v)
    ensures IsZero(t, ZeroValue(t)) && !IsNotZero(t, ZeroValue(t))
  {
  }

  /** What "zero" means for a value whose kind is neither array nor struct:
      a test on the value alone. */
  predicate IsZeroOfKind(k: Kind, v: Value)
  {
    if k == Bool then v.BoolV? && !v.b
    else if IsIntKind(k) || IsUintKind(k) then v.IntV? && v.i == 0
    else if k == Float32 || k == Float64 then v.FloatV? && v.f == 0.0
    else if k == Complex64 || k == Complex128 then v.ComplexV? && v.re == 0.0 && v.im == 0.0
    else if k == String then v.StringV? && v.s == []
    else v.NilV?
  }

  /** For a value of a type that is not an array or a struct (possibly
      behind defined names), IsZero is false, 0, 0.0, "" or nil according
      to its kind. */
  lemma {:induction false} ZeroByKind(t: GoType, v: Value)
    requires Comparable(t) && HasType(v, t)
    requires KindOf(t) != Array && KindOf(t) != Struct
    ensures IsZero(t, v) <==> IsZeroOfKind(KindOf(t), v)
    decreases t
  {
    match t
    case Named(_, u) =>
      ZeroByKind(u, v);
    case _ =>
  }

  /** A struct value is zero exactly when every field is zero for its own
      type. */
  lemma StructZeroIffFieldsZero(fs: seq<GoType>, v: Value)
    requires Comparable(StructOf(fs)) && HasType(v, StructOf(fs))
    ensures IsZero(StructOf(fs), v) <==>
              forall i :: 0 <= i < |fs| ==> IsZero(fs[i], v.fields[i])
  {
    var z := ZeroValue(StructOf(fs));
    if forall i :: 0 <= i < |fs| ==> IsZero(fs[i], v.fields[i]) {
      assert v.fields == z.fields;
    }
    if IsZero(StructOf(fs), v) {
      forall i | 0 <= i < |fs|
        ensures IsZero(fs[i], v.fields[i])
      {
        assert v.fields[i] == z.fields[i];
      }
    }
  }

  /** An array value is zero exactly when every element is zero. */
  lemma ArrayZeroIffElemsZero(n: nat, e: GoType, v: Value)
    requires Comparable(ArrayOf(n, e)) && HasType(v, ArrayOf(n, e))
    ensures IsZero(ArrayOf(n, e), v) <==>
              forall i :: 0 <= i < n ==> IsZero(e, v.elems[i])
  {
    var z := ZeroValue(ArrayOf(n, e));
    if forall i :: 0 <= i < n ==> IsZero(e, v.elems[i]) {
      assert v.elems == z.elems;
    }
    if IsZero(ArrayOf(n, e), v) {
      forall i | 0 <= i < n
        ensures IsZero(e, v.elems[i])
      {
        assert v.elems[i] == z.elems[i];
      }
    }
  }

  /** The empty string, 0, false and a nil `*string` are zero. */
  lemma ZeroSamples()
    ensures IsZero(Basic(String), StringV([]))
    ensures IsZero(Basic(Int), IntV(0))
    ensures IsZero(Basic(Bool), BoolV(false))
    ensures IsZero(PointerTo(Basic(String)), NilV)
  {
  }

  /** "Hello, World!", 12, true and a non-nil `*string` are not zero. */
  lemma NonZeroSamples(addr: nat)
    ensures IsNotZero(Basic(String), StringV(Base.Ascii("Hello, World!")))
    ensures IsNotZero(Basic(Int), IntV(12))
    ensures IsNotZero(Basic(Bool), BoolV(true))
    ensures IsNotZero(PointerTo(Basic(String)), RefV(addr))
  {
  }
}
