/** The v1 stream factories: each allocates a source iterator, makes it the head of a
    stream and, for RepeatN and the ranges, adds a Limit or an unboxing Map node. */
module Factory {
  import opened ListOps
  import opened Chain
  import opened Iterators
  import opened Pipeline
  import opened Pulls
  import Comparators

  /** Repeat's supplier: the same element on every call. */
  function Constant<T>(e: T): nat -> T {
    i => e
  }

  /** `Of(elements...)`: a stream of the given elements. */
  method Of<T>(elements: seq<T>) returns (s: Stream<T>)
    ensures fresh(s.source) && s.source.cursor == SliceCursor(elements, 0)
    ensures OpsOf(s) == [] && SharesSource(s)
  {
    var source := new SourceIterator(SliceCursor(elements, 0));
    s := NewHead(source);
  }

  /** `Iterate(seed, operator)`: `seed, operator(seed), ...` without end. */
  method Iterate<T>(seed: T, operator: T -> T) returns (s: Stream<T>)
    ensures fresh(s.source) && s.source.cursor == SeedCursor(seed, operator, true)
    ensures OpsOf(s) == [] && SharesSource(s)
  {
    var source := new SourceIterator(SeedCursor(seed, operator, true));
    s := NewHead(source);
  }

  /** `Generate(get)`: the supplier's results without end; call `i` is `get(i)`. */
  method Generate<T>(get: nat -> T) returns (s: Stream<T>)
    ensures fresh(s.source) && s.source.cursor == SupplierCursor(get, 0)
    ensures OpsOf(s) == [] && SharesSource(s)
  {
    var source := new SourceIterator(SupplierCursor(get, 0));
    s := NewHead(source);
  }

  /** `Repeat(e)`: `e` without end. */
  method Repeat<T>(e: T) returns (s: Stream<T>)
    ensures fresh(s.source) && s.source.cursor == SupplierCursor(Constant(e), 0)
    ensures OpsOf(s) == [] && SharesSource(s)
  {
    s := Generate(Constant(e));
  }

  /** `RepeatN(e, count)`: `Repeat(e).Limit(count)`. */
  method RepeatN<T>(e: T, count: int) returns (s: Stream<T>)
    ensures fresh(s.source) && s.source.cursor == SupplierCursor(Constant(e), 0)
    ensures |OpsOf(s)| == 1 && OpsOf(s)[0].Limit? && OpsOf(s)[0].maxSize == count && SharesSource(s)
  {
    s := Repeat(e);
    s := NewNode(s, Limit(count));
  }

  /** `IntRangeStep(from, to, step)`: a range source, then a Map back from endpoints to ints. */
  method IntRangeStep(fromInclude: int, toExclude: int, step: int) returns (s: Stream<int>)
    ensures fresh(s.source) && s.source.cursor == RangeCursor(toExclude, step, fromInclude, Identity())
    ensures |OpsOf(s)| == 1 && OpsOf(s)[0].Map? && OpsOf(s)[0].apply == Identity() && SharesSource(s)
  {
    var source := new SourceIterator(RangeCursor(toExclude, step, fromInclude, Identity()));
    s := NewHead(source);
    s := NewNode(s, Map(Identity()));
  }

  /** `IntRange(from, to)`: `IntRangeStep(from, to, 1)`. */
  method IntRange(fromInclude: int, toExclude: int) returns (s: Stream<int>)
    ensures fresh(s.source) && s.source.cursor == RangeCursor(toExclude, 1, fromInclude, Identity())
    ensures |OpsOf(s)| == 1 && OpsOf(s)[0].Map? && OpsOf(s)[0].apply == Identity() && SharesSource(s)
  {
    s := IntRangeStep(fromInclude, toExclude, 1);
  }

  /** `Int64RangeStep(from, to, step)`: as IntRangeStep, from 64-bit endpoints. */
  method Int64RangeStep(fromInclude: Comparators.int64, toExclude: Comparators.int64, step: int) returns (s: Stream<int>)
    ensures fresh(s.source) && s.source.cursor == RangeCursor(toExclude as int, step, fromInclude as int, Identity())
    ensures |OpsOf(s)| == 1 && OpsOf(s)[0].Map? && OpsOf(s)[0].apply == Identity() && SharesSource(s)
  {
    s := IntRangeStep(fromInclude as int, toExclude as int, step);
  }

  /** `Int64Range(from, to)`: `Int64RangeStep(from, to, 1)`. */
  method Int64Range(fromInclude: Comparators.int64, toExclude: Comparators.int64) returns (s: Stream<int>)
    ensures fresh(s.source) && s.source.cursor == RangeCursor(toExclude as int, 1, fromInclude as int, Identity())
    ensures |OpsOf(s)| == 1 && OpsOf(s)[0].Map? && OpsOf(s)[0].apply == Identity() && SharesSource(s)
  {
    s := Int64RangeStep(fromInclude, toExclude, 1);
  }

  // ---------------------------------------------------------------------
  // What the factories' streams yield

  /** `Of(xs...)` streams exactly `xs`, in order, once enough is pulled. */
  lemma OfYields<T>(xs: seq<T>, fuel: nat)
    requires fuel >= |xs|
    ensures Ref([], Pending(SliceCursor(xs, 0), fuel)) == xs
  {
    SliceYields(xs, 0, fuel);
    assert xs[0..] == xs;
  }

  /** `RepeatN(e, n)` yields `n` copies of `e` (none for a negative `n`). */
  lemma RepeatNYields<T>(e: T, n: int, fuel: nat)
    requires fuel >= n
    ensures Ref([Limit(n)], Pending(SupplierCursor(Constant(e), 0), fuel)) == seq(if n < 0 then 0 else n, i => e)
  {
    SupplierYields(Constant(e), 0, fuel);
    var xs := Pending(SupplierCursor(Constant(e), 0), fuel);
    assert Ref([Limit(n)], xs) == Take(xs, n);
    if n > 0 {
      assert Take(xs, n) == xs[..n];
    }
  }

  /** As written, `RepeatN(e, n)` with `n < 0` is never stopped: after any number of
      pulls the Limit's test `count == n` still fails, so `RepeatN(e, n).Count()` does
      not return. The corrected test stops it before the first pull. */
  lemma RepeatNegativeNeverStopsAsWritten<T, R>(e: T, n: int, down: Chain<T, R>, pulls: nat)
    requires n < 0
    ensures LimitPullsAsWritten(n, 0, Pending(SupplierCursor(Constant(e), 0), pulls)) == pulls
    ensures DrivePulls(Chained(Limit(n), InitState(), down), Pending(SupplierCursor(Constant(e), 0), pulls)) == 0
  {
    SupplierYields(Constant(e), 0, pulls);
    NegativeLimitPulls(n, down, Pending(SupplierCursor(Constant(e), 0), pulls));
  }

  lemma {:induction false} DistinctOfCopies<T, K>(key: T -> K, e: T, k: nat)
    ensures DistinctFrom(key, {key(e)}, seq(k, i => e)) == []
  {
    if k > 0 {
      assert seq(k, i => e)[1..] == seq(k - 1, i => e);
      DistinctOfCopies(key, e, k - 1);
    }
  }

  /** `RepeatN(e, 10).Distinct(key)` yields `e` once, so it counts 1. */
  lemma RepeatNDistinctYieldsOne<T>(e: T, key: T -> int, fuel: nat)
    requires fuel >= 10
    ensures Ref([Limit(10), Distinct(key)], Pending(SupplierCursor(Constant(e), 0), fuel)) == [e]
  {
    RepeatNYields(e, 10, fuel);
    var copies := seq(10, i => e);
    assert Ref([Limit(10), Distinct(key)], Pending(SupplierCursor(Constant(e), 0), fuel))
        == Ref([Distinct(key)], copies);
    assert copies[1..] == seq(9, i => e);
    DistinctOfCopies(key, e, 9);
    assert DistinctFrom(key, {}, copies) == [e] + DistinctFrom(key, {} + {key(e)}, copies[1..]);
    assert {} + {key(e)} == {key(e)};
    assert Ref([Distinct(key)], copies) == Ref([], ListOps.Distinct(key, copies));
  }

  lemma MapIdentity(xs: seq<int>)
    ensures ListOps.Map(Identity(), xs) == xs
  {
  }

  /** A step-1 range from `a` below `b` yields `a, a+1, ..., b-1`. */
  lemma UnitRange(a: int, b: int, fuel: nat)
    requires a <= b && fuel >= b - a
    ensures Pending(RangeCursor(b, 1, a, Identity()), fuel) == seq(b - a, i => a + i)
  {
    RangeYields(b, 1, a, Identity(), fuel);
    var r := Pending(RangeCursor(b, 1, a, Identity()), fuel);
    if |r| > 0 {
      assert InRange(a + (|r| - 1) * 1, b, 1);
    }
    assert |r| < fuel ==> !InRange(a + |r| * 1, b, 1);
    assert |r| == b - a;
    forall i | 0 <= i < |r|
      ensures r[i] == a + i
    {
      assert r[i] == Identity()(a + i * 1);
    }
  }

  /** `IntRange(a, b)` yields `a, a+1, ..., b-1`. */
  lemma IntRangeYields(a: int, b: int, fuel: nat)
    requires a <= b && fuel >= b - a
    ensures Ref([Map(Identity())], Pending(RangeCursor(b, 1, a, Identity()), fuel)) == seq(b - a, i => a + i)
  {
    UnitRange(a, b, fuel);
    var r := Pending(RangeCursor(b, 1, a, Identity()), fuel);
    MapIdentity(r);
    assert Ref([Map(Identity())], r) == ListOps.Map(Identity(), r);
  }

  /** `IntRange(1, 10).Sorted(ReverseOrder(IntComparator))` yields `9` down to `1`. */
  lemma SortedRangeOneToNine(fuel: nat)
    requires fuel >= 9
    ensures Ref([Map(Identity()), Sorted(Comparators.ReverseOrder(Comparators.IntComparator))],
                Pending(RangeCursor(10, 1, 1, Identity()), fuel))
         == seq(9, i => 9 - i)
  {
    IntRangeYields(1, 10, fuel);
    var r := Pending(RangeCursor(10, 1, 1, Identity()), fuel);
    var cmp := Comparators.ReverseOrder(Comparators.IntComparator);
    assert Ref([Map(Identity()), Sorted(cmp)], r) == Ref([Sorted(cmp)], Ref([Map(Identity())], r));
    Comparators.SortOneToNine(seq(9, i => 1 + i));
  }

  /** `IntRangeStep(5, 0, -1)` yields `5, 4, 3, 2, 1`. */
  lemma CountDownYields(fuel: nat)
    requires fuel >= 5
    ensures Ref([Map(Identity())], Pending(RangeCursor(0, -1, 5, Identity()), fuel)) == [5, 4, 3, 2, 1]
  {
    CountDownExample(fuel);
    MapIdentity([5, 4, 3, 2, 1]);
  }

  /** `Int64RangeStep(0, 10, 3)` yields `0, 3, 6, 9`. */
  lemma StepThreeYields(fuel: nat)
    requires fuel >= 4
    ensures Ref([Map(Identity())], Pending(RangeCursor(10, 3, 0, Identity()), fuel)) == [0, 3, 6, 9]
  {
    StepThreeExample(fuel);
    MapIdentity([0, 3, 6, 9]);
  }
}
