/** The v2 generators. A generator loops, yielding values to the consumer until the
    consumer refuses one (or, for `Of` and `RangeStep`, until it runs out). The
    infinite ones (`CountFrom`, `Repeat`, `Generate`, a zero-step range) only return
    when the consumer refuses, so they are given one that does. */
module V2Factory {
  import opened V2Iter
  import Iterators

  /** Of: yields the elements in order and stops at the first refusal. */
  method Of<T>(elements: seq<T>, c: Consumer) returns (out: seq<T>)
    ensures out == Received(elements, c)
  {
    out := [];
    var refused := false;
    var i := 0;
    while i < |elements| && !refused
      invariant i <= |elements| && out == elements[..i]
      invariant Yielded(c, |out|, refused)
    {
      refused := !Continues(c, |out|);
      out := out + [elements[i]];
      i := i + 1;
    }
    if !refused {
      assert elements[..i] == elements;
    }
    ReceivedExactly(elements, c, out, refused);
  }

  /** CountFrom: `from, from + 1, ...` until the consumer refuses. */
  method CountFrom(from: int, c: Consumer) returns (out: seq<int>)
    requires c.Upto?
    ensures out == seq(c.last + 1, k => from + k)
  {
    out := [];
    var i := from;
    var refused := false;
    while !refused
      invariant i == from + |out| && out == seq(|out|, k => from + k)
      invariant Yielded(c, |out|, refused)
      decreases c.last + 1 - |out|
    {
      refused := !Continues(c, |out|);
      out := out + [i];
      i := i + 1;
    }
  }

  /** Repeat: `e` on every yield until the consumer refuses. */
  method Repeat<T>(e: T, c: Consumer) returns (out: seq<T>)
    requires c.Upto?
    ensures out == seq(c.last + 1, _ => e)
  {
    out := [];
    var refused := false;
    while !refused
      invariant out == seq(|out|, _ => e)
      invariant Yielded(c, |out|, refused)
      decreases c.last + 1 - |out|
    {
      refused := !Continues(c, |out|);
      out := out + [e];
    }
  }

  /** Generate: one call of the supplier per yielded value; call number `k` returns
      `get(k)`. */
  method Generate<T>(get: nat -> T, c: Consumer) returns (out: seq<T>, calls: nat)
    requires c.Upto?
    ensures |out| == c.last + 1 && forall k: nat :: k < |out| ==> out[k] == get(k)
    ensures calls == |out|
  {
    out, calls := [], 0;
    var refused := false;
    while !refused
      invariant calls == |out| && forall k: nat :: k < |out| ==> out[k] == get(k)
      invariant Yielded(c, |out|, refused)
      decreases c.last + 1 - |out|
    {
      var v := get(calls);
      calls := calls + 1;
      refused := !Continues(c, |out|);
      out := out + [v];
    }
  }

  /** The values of the range from `from` towards `to` by `step`, as the v1 range
      cursor yields them, at most `n` of them. */
  function RangeValues(from: int, to: int, step: int, n: nat): (r: seq<int>)
    ensures |r| <= n
  {
    Iterators.Pending(Iterators.RangeCursor(to, step, from, Iterators.Identity()), n)
  }

  /** Extending a range prefix by the next in-range value. */
  lemma {:induction false} RangeValuesSnoc(from: int, to: int, step: int, n: nat)
    requires |RangeValues(from, to, step, n)| == n
    requires Iterators.InRange(from + n * step, to, step)
    ensures RangeValues(from, to, step, n + 1) == RangeValues(from, to, step, n) + [from + n * step]
    decreases n
  {
    var c := Iterators.RangeCursor(to, step, from, Iterators.Identity());
    if n == 0 {
    } else {
      assert Iterators.InRange(from, to, step) by {
        Iterators.RangeYields(to, step, from, Iterators.Identity(), n);
      }
      assert Iterators.NextOf(c).1 == Iterators.RangeCursor(to, step, from + step, Iterators.Identity());
      assert from + step + (n - 1) * step == from + n * step;
      RangeValuesSnoc(from + step, to, step, n - 1);
    }
  }

  /** The loop of RangeStep for a non-negative step: counts up while below `to`. */
  method RangeUp(from: int, to: int, step: int, c: Consumer) returns (out: seq<int>)
    requires step >= 0 && (c.Upto? || step != 0 || from >= to)
    ensures out == RangeValues(from, to, step, |out|)
    ensures c.Upto? ==> |out| <= c.last + 1
    ensures (c.Upto? && |out| == c.last + 1) || !Iterators.InRange(from + |out| * step, to, step)
  {
    out := [];
    var i := from;
    var refused := false;
    while i < to && !refused
      invariant i == from + |out| * step
      invariant out == RangeValues(from, to, step, |out|)
      invariant Yielded(c, |out|, refused)
      decreases if c.Upto? then c.last + 1 - |out| else 0, to - i
    {
      RangeValuesSnoc(from, to, step, |out|);
      refused := !Continues(c, |out|);
      out := out + [i];
      i := i + step;
    }
  }

  /** The loop of RangeStep for a negative step: counts down while above `to`. */
  method RangeDown(from: int, to: int, step: int, c: Consumer) returns (out: seq<int>)
    requires step < 0
    ensures out == RangeValues(from, to, step, |out|)
    ensures c.Upto? ==> |out| <= c.last + 1
    ensures (c.Upto? && |out| == c.last + 1) || !Iterators.InRange(from + |out| * step, to, step)
  {
    out := [];
    var i := from;
    var refused := false;
    while i > to && !refused
      invariant i == from + |out| * step
      invariant out == RangeValues(from, to, step, |out|)
      invariant Yielded(c, |out|, refused)
      decreases i - to
    {
      RangeValuesSnoc(from, to, step, |out|);
      refused := !Continues(c, |out|);
      out := out + [i];
      i := i + step;
    }
  }

  /** RangeStep: counts from `from` by `step` while below `to` (step >= 0) or above
      `to` (step < 0), stopping early at the consumer's refusal. A zero step in a
      non-empty range never ends on its own. */
  method RangeStep(from: int, to: int, step: int, c: Consumer) returns (out: seq<int>)
    requires c.Upto? || step != 0 || !Iterators.InRange(from, to, step)
    ensures out == RangeValues(from, to, step, |out|)
    ensures c.Upto? ==> |out| <= c.last + 1
    ensures (c.Upto? && |out| == c.last + 1) || !Iterators.InRange(from + |out| * step, to, step)
  {
    if step >= 0 {
      out := RangeUp(from, to, step, c);
    } else {
      out := RangeDown(from, to, step, c);
    }
  }

  /** Range: `RangeStep` with step 1. */
  method Range(from: int, to: int, c: Consumer) returns (out: seq<int>)
    ensures out == RangeValues(from, to, 1, |out|)
    ensures c.Upto? ==> |out| <= c.last + 1
    ensures (c.Upto? && |out| == c.last + 1) || from + |out| >= to
  {
    out := RangeStep(from, to, 1, c);
  }

  // ---------------------------------------------------------------------
  // Generators under Limit. `Limit(n)` pulls n values and then stops its upstream,
  // so a generator feeding it sees the consumer `Upto(n - 1)`.

  /** The first `n` values of a descending range. */
  lemma CountDownValues(n: nat)
    requires n <= 5
    ensures RangeValues(5, 0, -1, n) == seq(n, k => 5 - k)
  {
    Iterators.RangeYields(0, -1, 5, Iterators.Identity(), n);
  }

  /** `RangeStep(5, 0, -1).Limit(4)` yields `5, 4, 3, 2`. */
  method RangeStepThenLimit() returns (xs: seq<int>)
    ensures xs == [5, 4, 3, 2]
  {
    var r := RangeStep(5, 0, -1, Upto(3));
    assert |r| == 4 by {
      Iterators.RangeYields(0, -1, 5, Iterators.Identity(), |r|);
    }
    CountDownValues(4);
    var pulls;
    xs, pulls := Limit(r, 4, Drain);
  }

  /** `Range(0, 10).Limit(9).Count()` is 9. */
  method RangeThenLimitCount() returns (count: int)
    ensures count == 9
  {
    var r := Range(0, 10, Upto(8));
    var xs, pulls := Limit(r, 9, Drain);
    count := Count(xs);
  }

  /** `Repeat(e).Limit(5)` yields five copies of `e`. */
  method RepeatThenLimit<T>(e: T) returns (xs: seq<T>)
    ensures xs == [e, e, e, e, e]
  {
    var r := Repeat(e, Upto(4));
    var pulls;
    xs, pulls := Limit(r, 5, Drain);
  }

  /** `Generate(get).Limit(n)` calls the supplier exactly `n` times, for a positive `n`. */
  method GenerateThenLimit<T>(get: nat -> T, n: nat) returns (xs: seq<T>, calls: nat)
    requires n > 0
    ensures calls == n && |xs| == n
    ensures forall k: nat :: k < n ==> xs[k] == get(k)
  {
    var g;
    g, calls := Generate(get, Upto(n - 1));
    var pulls;
    xs, pulls := Limit(g, n, Drain);
  }
}
