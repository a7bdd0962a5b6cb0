/** Three-way comparators of the v1 `types` package: a negative result means
    "left before right", zero "equal", positive "left after right". */
module Comparators {
  import opened ListOps

  newtype int64 = x: int | -0x8000_0000_0000_0000 <= x < 0x8000_0000_0000_0000

  /** The comparator for `int` values: -1, 0 or 1 by numeric order. */
  function IntComparator(left: int, right: int): (r: int)
    ensures -1 <= r <= 1
    ensures r < 0 <==> left < right
    ensures r == 0 <==> left == right
  {
    if left < right then -1
    else if left > right then 1
    else 0
  }

  /** The comparator for `int64` values; it tests "greater" first, with the same outcome. */
  function Int64Comparator(left: int64, right: int64): (r: int)
    ensures -1 <= r <= 1
    ensures r < 0 <==> left < right
    ensures r == 0 <==> left == right
  {
    if left > right then 1
    else if left < right then -1
    else 0
  }

  /** The comparator that orders `cmp`'s arguments the other way round. */
  function ReverseOrder<T>(cmp: (T, T) -> int): (T, T) -> int
  {
    (left: T, right: T) => cmp(right, left)
  }

  /** Reversing swaps the roles of the two arguments. */
  lemma ReverseOrderSwaps<T>(cmp: (T, T) -> int, left: T, right: T)
    ensures ReverseOrder(cmp)(left, right) == cmp(right, left)
    ensures Less(ReverseOrder(cmp), left, right) <==> Less(cmp, right, left)
  {
  }

  /** Reversing twice gives back the original order on every pair. */
  lemma ReverseTwice<T>(cmp: (T, T) -> int, left: T, right: T)
    ensures ReverseOrder(ReverseOrder(cmp))(left, right) == cmp(left, right)
  {
  }

  /** A reversed strict weak order is again a strict weak order. */
  lemma ReverseKeepsStrictWeakOrder<T(!new)>(cmp: (T, T) -> int)
    requires StrictWeakOrder(cmp)
    ensures StrictWeakOrder(ReverseOrder(cmp))
  {
    var rev := ReverseOrder(cmp);
    forall a
      ensures !Less(rev, a, a)
    {
      assert !Less(cmp, a, a);
    }
    forall a, b, c | Less(rev, a, b) && Less(rev, b, c)
      ensures Less(rev, a, c)
    {
      assert Less(cmp, c, b) && Less(cmp, b, a);
    }
    forall a, b, c | Equivalent(rev, a, b) && Equivalent(rev, b, c)
      ensures Equivalent(rev, a, c)
    {
      assert Equivalent(cmp, a, b) && Equivalent(cmp, b, c);
    }
  }

  /** `IntComparator` is a strict weak order, so sorting by it is well defined. */
  lemma IntComparatorOrders()
    ensures StrictWeakOrder(IntComparator)
  {
    assert forall a: int, b: int :: Less(IntComparator, a, b) <==> a < b;
  }

  /** Sorting by the reversed int comparator yields descending order. */
  lemma SortedReverseIsDescending(xs: seq<int>)
    ensures var s := Sort(ReverseOrder(IntComparator), xs);
      multiset(s) == multiset(xs) && forall i, j :: 0 <= i < j < |s| ==> s[i] >= s[j]
  {
    IntComparatorOrders();
    ReverseKeepsStrictWeakOrder(IntComparator);
    var s := Sort(ReverseOrder(IntComparator), xs);
    SortSorted(ReverseOrder(IntComparator), xs);
    forall i, j | 0 <= i < j < |s|
      ensures s[i] >= s[j]
    {
      assert !Less(ReverseOrder(IntComparator), s[j], s[i]);
    }
  }

  function Reversed<T>(xs: seq<T>): (r: seq<T>)
    ensures |r| == |xs|
    ensures forall i :: 0 <= i < |xs| ==> r[i] == xs[|xs| - 1 - i]
  {
    if xs == [] then [] else [xs[|xs| - 1]] + Reversed(xs[..|xs| - 1])
  }

  /** Sorting strictly ascending ints by the reversed comparator reverses them. */
  lemma {:induction false} SortAscendingReversed(xs: seq<int>)
    requires forall i, j :: 0 <= i < j < |xs| ==> xs[i] < xs[j]
    ensures Sort(ReverseOrder(IntComparator), xs) == Reversed(xs)
  {
    if xs != [] {
      var n := |xs| - 1;
      SortAscendingReversed(xs[..n]);
      if n > 0 {
        assert Reversed(xs[..n])[0] == xs[n - 1];
        assert Less(ReverseOrder(IntComparator), xs[n], xs[n - 1]);
      }
    }
  }

  /** Sorting 1..9 by the reversed int comparator gives 9..1. */
  lemma SortOneToNine(xs: seq<int>)
    requires xs == seq(9, i => i + 1)
    ensures Sort(ReverseOrder(IntComparator), xs) == seq(9, i => 9 - i)
  {
    SortAscendingReversed(xs);
  }
}
