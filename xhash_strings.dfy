/** std/xhash/strings.go: the pooled buffer of map-key entries the hasher
    uses to visit string-keyed maps in a fixed order. The `sync.Pool` is
    replaced by the buffer object itself (the object `Get` would return and
    `Put` receives). */
module XHashStrings {
  import opened Base
  import opened GoSlices

  /** `cmp.Compare(a, b)` on Go strings: lexicographic on bytes, a proper
      prefix sorting first. */
  function Compare(a: GoString, b: GoString): (r: int)
    ensures -1 <= r <= 1
  {
    if |a| == 0 && |b| == 0 then 0
    else if |a| == 0 then -1
    else if |b| == 0 then 1
    else if a[0] < b[0] then -1
    else if a[0] > b[0] then 1
    else Compare(a[1..], b[1..])
  }

  /** Compare reports equality exactly for equal strings. */
  lemma {:induction false} CompareZeroIff(a: GoString, b: GoString)
    ensures Compare(a, b) == 0 <==> a == b
  {
    if |a| > 0 && |b| > 0 && a[0] == b[0] {
      CompareZeroIff(a[1..], b[1..]);
      assert a == [a[0]] + a[1..] && b == [b[0]] + b[1..];
    }
  }

  /** Swapping the arguments negates the result. */
  lemma {:induction false} CompareAntisymmetric(a: GoString, b: GoString)
    ensures Compare(a, b) == -Compare(b, a)
  {
    if |a| > 0 && |b| > 0 && a[0] == b[0] {
      CompareAntisymmetric(a[1..], b[1..]);
    }
  }

  /** "At most" is transitive, so Compare is a total preorder. */
  lemma {:induction false} CompareTransitive(a: GoString, b: GoString, c: GoString)
    requires Compare(a, b) <= 0 && Compare(b, c) <= 0
    ensures Compare(a, c) <= 0
  {
    if |a| > 0 && |b| > 0 && |c| > 0 && a[0] == b[0] == c[0] {
      CompareTransitive(a[1..], b[1..], c[1..]);
    }
  }

  /** A common prefix does not decide the order. */
  lemma {:induction false} CompareCommonPrefix(p: GoString, a: GoString, b: GoString)
    ensures Compare(p + a, p + b) == Compare(a, b)
  {
    if |p| > 0 {
      var pa, pb := p + a, p + b;
      assert pa[0] == p[0] == pb[0];
      assert pa[1..] == p[1..] + a;
      assert pb[1..] == p[1..] + b;
      assert Compare(pa, pb) == Compare(pa[1..], pb[1..]);
      CompareCommonPrefix(p[1..], a, b);
    } else {
      assert p + a == a && p + b == b;
    }
  }

  /** `mapKeyEntry`: a key and the reflected map value, opaque here. */
  datatype MapKeyEntry<V> = MapKeyEntry(key: GoString, val: V)

  /** Ascending by key. */
  predicate KeysSorted<V>(es: seq<MapKeyEntry<V>>)
  {
    forall i, j :: 0 <= i < j < |es| ==> Compare(es[i].key, es[j].key) <= 0
  }

  /** `a[lo:hi]` is ascending by key. */
  predicate SortedBetween<V>(a: array<MapKeyEntry<V>>, lo: int, hi: int)
    reads a
    requires 0 <= lo <= hi <= a.Length
  {
    forall p, q :: lo <= p < q < hi ==> Compare(a[p].key, a[q].key) <= 0
  }

  /** `a[lo:hi]` is ascending by key except that the entry at `j` may be
      smaller than entries before it. */
  predicate SortedExcept<V>(a: array<MapKeyEntry<V>>, lo: int, hi: int, j: int)
    reads a
    requires 0 <= lo <= hi <= a.Length
  {
    forall p, q :: lo <= p < q < hi && q != j ==> Compare(a[p].key, a[q].key) <= 0
  }

  /** Limit above which `putStrings` drops the backing array (`1<<10`). */
  const PoolCapLimit: nat := 1024

  /** A `*mapKeySlice` taken from, or given back to, the pool. */
  class MapKeySlice<V> {
    var s: Slice<MapKeyEntry<V>>

    /** The pool's `New`: `new(mapKeySlice)`, a nil slice. */
    constructor ()
      ensures s == NilSlice
    {
      s := NilSlice;
    }

    /** `getMapKeys(n)` on the buffer the pool returned: a buffer whose
        capacity is below `n` is replaced by `make([]mapKeyEntry, n)`;
        then the slice is cut to length `n`, keeping the backing array
        (and whatever entries it still holds). */
    method GetMapKeys(n: nat, zero: MapKeyEntry<V>)
      requires Valid(s) && n <= MaxInt
      modifies this
      ensures Valid(s) && Len(s) == n
      ensures old(Cap(s)) < n ==>
                s.Slice? && fresh(s.arr) && s.cap == n && Elems(s) == seq(n, _ => zero)
      ensures old(Cap(s)) >= n ==> s == Sub(old(s), 0, n)
    {
      if Cap(s) < n {
        s := NilSlice;
        s := Make(n, zero);
      }
      s := Sub(s, 0, n);
    }

    /** `putStrings(s)`: a buffer of capacity above 1024 is released before
        it goes back to the pool. */
    method PutStrings()
      modifies this
      ensures old(Cap(s)) > PoolCapLimit ==> s == NilSlice
      ensures old(Cap(s)) <= PoolCapLimit ==> s == old(s)
    {
      if Cap(s) > PoolCapLimit {
        s := NilSlice;
      }
    }

    /** `ss.Sort()`: the entries, in place, in ascending order of their
        keys. */
    method Sort()
      requires Valid(s)
      modifies Repr(s)
      ensures KeysSorted(Elems(s))
      ensures multiset(Elems(s)) == old(multiset(Elems(s)))
      ensures OnlyWritten(s, 0, Len(s))
    {
      if s.Slice? {
        SortRange(s.arr, s.off, s.off + s.len);
        SortedRangeIsSorted(s.arr, s.off, s.off + s.len);
      }
    }
  }

  /** Orders `a[lo:hi]` by key in place: an insertion sort that swaps each
      new entry down to its place. */
  method SortRange<V>(a: array<MapKeyEntry<V>>, lo: nat, hi: nat)
    requires lo <= hi <= a.Length
    modifies a
    ensures SortedBetween(a, lo, hi)
    ensures multiset(a[lo..hi]) == old(multiset(a[lo..hi]))
    ensures forall k :: 0 <= k < a.Length && !(lo <= k < hi) ==> a[k] == old(a[k])
  {
    if hi - lo < 2 {
      return;
    }
    var i := lo + 1;
    while i < hi
      invariant lo + 1 <= i <= hi
      invariant SortedBetween(a, lo, i)
      invariant multiset(a[lo..hi]) == old(multiset(a[lo..hi]))
      invariant forall k :: 0 <= k < a.Length && !(lo <= k < hi) ==> a[k] == old(a[k])
    {
      InsertDown(a, lo, i, hi);
      i := i + 1;
    }
  }

  /** One round of SortRange: entry `i` moves down past every larger
      entry before it. */
  method InsertDown<V>(a: array<MapKeyEntry<V>>, lo: nat, i: nat, hi: nat)
    requires lo < i < hi <= a.Length
    requires SortedBetween(a, lo, i)
    modifies a
    ensures SortedBetween(a, lo, i + 1)
    ensures multiset(a[lo..hi]) == old(multiset(a[lo..hi]))
    ensures forall k :: 0 <= k < a.Length && !(lo <= k <= i) ==> a[k] == old(a[k])
  {
    var j := i;
    while j > lo && Compare(a[j].key, a[j - 1].key) < 0
      invariant lo <= j <= i
      invariant SortedExcept(a, lo, i + 1, j)
      invariant multiset(a[lo..hi]) == old(multiset(a[lo..hi]))
      invariant forall k :: 0 <= k < a.Length && !(lo <= k <= i) ==> a[k] == old(a[k])
    {
      SwapDown(a, lo, i, hi, j);
      j := j - 1;
    }
    SettledIsSorted(a, lo, i, j);
  }

  /** Once entry `j` is not smaller than entry `j-1` (or is first), a range
      sorted except at `j` is sorted. */
  lemma SettledIsSorted<V>(a: array<MapKeyEntry<V>>, lo: nat, i: nat, j: nat)
    requires lo <= j <= i < a.Length
    requires SortedExcept(a, lo, i + 1, j)
    requires j > lo ==> Compare(a[j].key, a[j - 1].key) >= 0
    ensures SortedBetween(a, lo, i + 1)
  {
    if j > lo {
      CompareAntisymmetric(a[j].key, a[j - 1].key);
      forall p | lo <= p < j
        ensures Compare(a[p].key, a[j].key) <= 0
      {
        if p < j - 1 {
          CompareTransitive(a[p].key, a[j - 1].key, a[j].key);
        }
      }
    }
  }

  /** Swaps entries `j-1` and `j` of a range that is sorted except at `j`,
      where entry `j` is smaller than entry `j-1`. */
  method SwapDown<V>(a: array<MapKeyEntry<V>>, lo: nat, i: nat, hi: nat, j: nat)
    requires lo < j <= i < hi <= a.Length
    requires SortedExcept(a, lo, i + 1, j)
    requires Compare(a[j].key, a[j - 1].key) < 0
    modifies a
    ensures SortedExcept(a, lo, i + 1, j - 1)
    ensures multiset(a[lo..hi]) == old(multiset(a[lo..hi]))
    ensures forall k :: 0 <= k < a.Length && k != j - 1 && k != j ==> a[k] == old(a[k])
  {
    ghost var before := a[lo..hi];
    CompareAntisymmetric(a[j].key, a[j - 1].key);
    a[j - 1], a[j] := a[j], a[j - 1];
    assert a[lo..hi] == before[j - 1 - lo := before[j - lo]][j - lo := before[j - 1 - lo]];
    SwapMultiset(before, j - 1 - lo, j - lo);
  }

  /** Exchanging two elements keeps the multiset of a sequence. */
  lemma SwapMultiset<T>(s: seq<T>, x: nat, y: nat)
    requires x < y < |s|
    ensures multiset(s[x := s[y]][y := s[x]]) == multiset(s)
  {
    var t := s[x := s[y]][y := s[x]];
    assert s == s[..x] + [s[x]] + s[x + 1..y] + [s[y]] + s[y + 1..];
    assert t == s[..x] + [s[y]] + s[x + 1..y] + [s[x]] + s[y + 1..];
  }

  /** A sorted range, read as a sequence, is ascending by key. */
  lemma SortedRangeIsSorted<V>(a: array<MapKeyEntry<V>>, lo: nat, hi: nat)
    requires lo <= hi <= a.Length && SortedBetween(a, lo, hi)
    ensures KeysSorted(a[lo..hi])
  {
  }
}
