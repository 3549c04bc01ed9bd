/** std/option/map.go: the type-changing Map, MapOr and MapOrElse over
    `Option[T]`. */
module OptionMap {
  import opened Options

  /** `option.Map(src, mapFn)`; `zero` is the zero value of `K`. */
  function Map<T, K>(src: Option<T>, mapFn: T -> K, zero: K): (r: Option<K>)
    ensures IsSome(r) == IsSome(src)
  {
    if IsSome(src) then Some(mapFn(UnsafeUnwrap(src))) else None(zero)
  }

  function MapOr<T, K>(src: Option<T>, mapFn: T -> K, value: K): K
  {
    if IsSome(src) then mapFn(UnsafeUnwrap(src)) else value
  }

  function MapOrElse<T, K>(src: Option<T>, mapFn: T -> K, valueFn: () -> K): K
  {
    if IsSome(src) then mapFn(UnsafeUnwrap(src)) else valueFn()
  }

  /** Map applies `mapFn` to a present value and otherwise yields a fresh
      `None[K]`, whatever stale value `src` held. */
  lemma MapSomeNone<T, K>(v: T, stale: T, mapFn: T -> K, zero: K)
    ensures Map(Some(v), mapFn, zero) == Some(mapFn(v))
    ensures Map(Option(stale, false), mapFn, zero) == None(zero)
  {
  }

  /** MapOr and MapOrElse are Map followed by an unwrapping accessor. */
  lemma MapOrViaMap<T, K>(src: Option<T>, mapFn: T -> K, value: K, valueFn: () -> K, zero: K)
    ensures MapOr(src, mapFn, value) == UnwrapOr(Map(src, mapFn, zero), value)
    ensures MapOrElse(src, mapFn, valueFn) == UnwrapOrElse(Map(src, mapFn, zero), valueFn)
    ensures IsSome(src) ==> MapOr(src, mapFn, value) == mapFn(src.val)
    ensures !IsSome(src) ==> MapOrElse(src, mapFn, valueFn) == valueFn()
  {
  }

  /** Mapping composes, and on `Some` agrees with the same-type Map of
      option.go. */
  lemma MapCompose<T, K, L>(src: Option<T>, f: T -> K, g: K -> L, zk: K, zl: L)
    ensures Map(Map(src, f, zk), g, zl) == Map(src, x => g(f(x)), zl)
  {
  }

  lemma MapAgreesWithMethod<T>(src: Option<T>, f: T -> T, zero: T)
    ensures IsSome(src) ==> Map(src, f, zero) == Options.Map(src, f)
    ensures !IsSome(src) ==> Map(src, f, zero) == None(zero)
  {
  }
}
