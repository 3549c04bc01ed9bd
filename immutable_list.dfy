/** std/exp/immutable/list.go: a read-only list over a slice. */
module Immutable {
  import opened Options

  datatype List<E> = List(value: seq<E>)

  /** `FromSlice(s)` wraps the slice; it copies nothing. */
  function FromSlice<E>(s: seq<E>): (l: List<E>)
    ensures Len(l) == |s| && forall i :: 0 <= i < |s| ==> Get(l, i, l.value[i]) == Some(s[i])
  {
    List(s)
  }

  function Len<E>(l: List<E>): int
  {
    |l.value|
  }

  /** `l.Get(index)`; `zero` is the zero value of `E`. */
  function Get<E>(l: List<E>, index: int, zero: E): (r: Option<E>)
    ensures !IsSome(r) <==> index < 0 || index >= Len(l)
    ensures IsSome(r) ==> r == Some(l.value[index])
    ensures !IsSome(r) ==> r == None(zero)
  {
    if index < 0 || index >= |l.value| then None(zero) else Some(l.value[index])
  }

  /** `l.Iter(yield)`: the calls it makes, `(index, value)` in order. The
      callback is a pure function here; what it does besides answering is
      outside the model. */
  method Iter<E>(l: List<E>, visit: (int, E) -> bool) returns (calls: seq<(int, E)>)
    ensures |calls| <= Len(l)
    ensures forall j :: 0 <= j < |calls| ==> calls[j] == (j, l.value[j])
    ensures forall j :: 0 <= j < |calls| - 1 ==> visit(j, l.value[j])
    ensures |calls| < Len(l) ==> |calls| > 0 && !visit(|calls| - 1, l.value[|calls| - 1])
    ensures (forall j :: 0 <= j < Len(l) ==> visit(j, l.value[j])) ==> |calls| == Len(l)
  {
    calls := [];
    var i := 0;
    while i < |l.value|
      invariant 0 <= i <= |l.value| && |calls| == i
      invariant forall j :: 0 <= j < i ==> calls[j] == (j, l.value[j]) && visit(j, l.value[j])
    {
      var v := l.value[i];
      calls := calls + [(i, v)];
      if !visit(i, v) {
        break;
      }
      i := i + 1;
    }
  }
}
