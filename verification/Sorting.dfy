/** In-place sorting by a comparator (api/dashboard.go, sortByBps), also standing for `sort.Slice`. */
module Sorting {
  /** A comparator whose "not after" relation is transitive: what a sort needs of its `less`. */
  ghost predicate Comparator<T(!new)>(less: (T, T) -> bool) {
    && (forall a, b :: less(a, b) ==> !less(b, a))
    && (forall a, b, c :: !less(b, a) && !less(c, b) ==> !less(c, a))
  }

  ghost predicate Sorted<T>(s: seq<T>, less: (T, T) -> bool) {
    forall i, j :: 0 <= i < j < |s| ==> !less(s[j], s[i])
  }

  lemma SwapKeepsElements<T>(s: seq<T>, j: nat)
    requires 0 < j < |s|
    ensures multiset(s[j := s[j - 1]][j - 1 := s[j]]) == multiset(s)
  {
  }

  method Insert<T(!new)>(a: array<T>, less: (T, T) -> bool, i: nat)
    requires Comparator(less) && i < a.Length && Sorted(a[..i], less)
    modifies a
    ensures Sorted(a[..i + 1], less)
    ensures a[i + 1..] == old(a[i + 1..])
    ensures multiset(a[..]) == multiset(old(a[..]))
  {
    var j := i;
    while j > 0 && less(a[j], a[j - 1])
      invariant 0 <= j <= i
      invariant a[i + 1..] == old(a[i + 1..])
      invariant multiset(a[..]) == multiset(old(a[..]))
      invariant forall p, q :: 0 <= p < q <= i && q != j ==> !less(a[q], a[p])
    {
      SwapKeepsElements(a[..], j);
      ghost var before := a[..];
      a[j], a[j - 1] := a[j - 1], a[j];
      assert a[..] == before[j := before[j - 1]][j - 1 := before[j]];
      j := j - 1;
    }
    assert forall p :: 0 <= p < j ==> !less(a[j], a[p]) by {
      forall p | 0 <= p < j ensures !less(a[j], a[p]) {
        assert !less(a[j], a[j - 1]);
      }
    }
  }

  method InsertionSort<T(!new)>(a: array<T>, less: (T, T) -> bool)
    requires Comparator(less)
    modifies a
    ensures Sorted(a[..], less)
    ensures multiset(a[..]) == multiset(old(a[..]))
  {
    for i := 0 to a.Length
      invariant Sorted(a[..i], less)
      invariant multiset(a[..]) == multiset(old(a[..]))
    {
      Insert(a, less, i);
    }
    assert a[..a.Length] == a[..];
  }
}
