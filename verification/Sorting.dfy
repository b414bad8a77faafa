/** Go's sort.Sort over a slice, by its promise: a sorted permutation, made by swaps in place.
    Ties may come out in any order, so nothing is said about them. */
module Sorting {
  ghost predicate TotalPreorder<T(!new)>(leq: (T, T) -> bool) {
    && (forall a, b :: leq(a, b) || leq(b, a))
    && (forall a, b, c :: leq(a, b) && leq(b, c) ==> leq(a, c))
  }

  ghost predicate Sorted<T>(leq: (T, T) -> bool, s: seq<T>) {
    forall i, j :: 0 <= i < j < |s| ==> leq(s[i], s[j])
  }

  // Sorted up to `n`, but for the element at `j`, which belongs at `j` or further left.
  ghost predicate SortedBut<T>(leq: (T, T) -> bool, s: seq<T>, n: int, j: int)
    requires 0 <= j < n <= |s|
  {
    && (forall p, q :: 0 <= p < q < n && p != j && q != j ==> leq(s[p], s[q]))
    && (forall q :: j < q < n ==> leq(s[j], s[q]))
  }

  method Swap<T>(a: array<T>, i: int, j: int)
    requires 0 <= i < a.Length && 0 <= j < a.Length
    modifies a
    ensures a[..] == old(a[..])[i := old(a[j])][j := old(a[i])]
    ensures multiset(a[..]) == multiset(old(a[..]))
  {
    a[i], a[j] := a[j], a[i];
  }

  lemma SwapDown<T(!new)>(leq: (T, T) -> bool, s: seq<T>, n: int, j: int)
    requires TotalPreorder(leq) && 0 < j < n <= |s| && SortedBut(leq, s, n, j) && !leq(s[j - 1], s[j])
    ensures SortedBut(leq, s[j - 1 := s[j]][j := s[j - 1]], n, j - 1)
  {
  }

  lemma InPlace<T(!new)>(leq: (T, T) -> bool, s: seq<T>, n: int, j: int)
    requires TotalPreorder(leq) && 0 <= j < n <= |s| && SortedBut(leq, s, n, j)
    requires j == 0 || leq(s[j - 1], s[j])
    ensures Sorted(leq, s[..n])
  {
  }

  method Sort<T(!new)>(leq: (T, T) -> bool, a: array<T>)
    requires TotalPreorder(leq)
    modifies a
    ensures Sorted(leq, a[..]) && multiset(a[..]) == multiset(old(a[..]))
  {
    var i := 0;
    while i < a.Length
      invariant 0 <= i <= a.Length
      invariant Sorted(leq, a[..i]) && multiset(a[..]) == multiset(old(a[..]))
    {
      assert SortedBut(leq, a[..], i + 1, i) by {
        assert forall p :: 0 <= p < i ==> a[..][p] == a[..i][p];
      }
      var j := i;
      while j > 0 && !leq(a[j - 1], a[j])
        invariant 0 <= j <= i
        invariant SortedBut(leq, a[..], i + 1, j) && multiset(a[..]) == multiset(old(a[..]))
      {
        SwapDown(leq, a[..], i + 1, j);
        Swap(a, j - 1, j);
        j := j - 1;
      }
      InPlace(leq, a[..], i + 1, j);
      assert a[..][..i + 1] == a[..i + 1];
      i := i + 1;
    }
    assert a[..i] == a[..];
  }
}
