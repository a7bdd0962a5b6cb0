/** How many source elements the v1 engine pulls, and how the operators' own
    slots relate to the protocol (which calls fall through to downstream). */
module Pulls {
  import opened ListOps
  import opened Stage
  import opened Chain
  import opened ChainProofs

  // ---------------------------------------------------------------------
  // Slots: an operator that does not set a slot passes the call downstream

  /** Every operator sets its own action; only Limit sets CanFinish; only Distinct and
      Sorted set End; Map and Peek leave Begin to downstream. */
  lemma SlotsOfOperators<T>(op: Op<T>)
    ensures SlotsOf(op).action == Own
    ensures SlotsOf(op).canFinish == Own <==> op.Limit?
    ensures SlotsOf(op).end == Own <==> op.Distinct? || op.Sorted?
    ensures SlotsOf(op).begin == Own <==> !op.Map? && !op.Peek?
  {
    var d := ChainedDefaults();
    match op
    case Filter(_) => ApplyAllTwo(d, SetBegin(Own), SetAction(Own));
    case Map(_) => ApplyAllOne(d, SetAction(Own));
    case FlatMap(_) => ApplyAllTwo(d, SetBegin(Own), SetAction(Own));
    case Peek => ApplyAllOne(d, SetAction(Own));
    case Distinct(_) => ApplyAllThree(d, SetBegin(Own), SetAction(Own), SetEnd(Own));
    case Sorted(_) => ApplyAllThree(d, SetBegin(Own), SetAction(Own), SetEnd(Own));
    case Limit(_) => ApplyAllThree(d, SetBegin(Own), SetAction(Own), SetCanFinish(Own));
    case Skip(_) => ApplyAllTwo(d, SetBegin(Own), SetAction(Own));
  }

  /** Where a slot is left to downstream, the protocol call is downstream's call. */
  lemma DownSlotsForward<T, R>(op: Op<T>, st: StageState<T>, down: Chain<T, R>, size: int)
    ensures SlotsOf(op).begin == Down ==> Begin(Chained(op, st, down), size) == Chained(op, st, Begin(down, size))
    ensures SlotsOf(op).canFinish == Down ==> CanFinish(Chained(op, st, down)) == CanFinish(down)
    ensures SlotsOf(op).end == Down ==> End(Chained(op, st, down)) == Chained(op, st, End(down))
  {
    SlotsOfOperators(op);
  }

  // ---------------------------------------------------------------------
  // Pull counts

  /** A Limit stage stops the source after `maxSize - count` more elements, whatever is below it. */
  lemma {:induction false} LimitPulls<T, R>(maxSize: int, st: StageState<T>, down: Chain<T, R>, xs: seq<T>)
    ensures DrivePulls(Chained(Limit(maxSize), st, down), xs)
         == if LimitDone(st.count, maxSize) then 0 else Min(|xs|, maxSize - st.count)
    decreases |xs|
  {
    var c := Chained(Limit(maxSize), st, down);
    if xs != [] && !LimitDone(st.count, maxSize) {
      var a := Accept(c, xs[0]);
      assert a.st == st.(count := st.count + 1);
      LimitPulls(maxSize, a.st, a.down, xs[1..]);
    }
  }

  /** Map passes CanFinish up and forwards one element per element. */
  lemma {:induction false} MapPulls<T, R>(apply: T -> T, st: StageState<T>, down: Chain<T, R>, xs: seq<T>)
    ensures DrivePulls(Chained(Map(apply), st, down), xs) == DrivePulls(down, ListOps.Map(apply, xs))
    decreases |xs|
  {
    if xs != [] {
      var m := ListOps.Map(apply, xs);
      assert m[0] == apply(xs[0]) && m[1..] == ListOps.Map(apply, xs[1..]);
      ForwardOne(down, apply(xs[0]));
      MapPulls(apply, st, Accept(down, apply(xs[0])), xs[1..]);
    }
  }

  /** Peek passes CanFinish up, forwards every element, and its consumer sees exactly the pulled ones. */
  lemma {:induction false} PeekPulls<T, R>(st: StageState<T>, down: Chain<T, R>, xs: seq<T>)
    ensures DrivePulls(Chained(Peek, st, down), xs) == DrivePulls(down, xs)
    ensures Drive(Chained(Peek, st, down), xs).st.peeked == st.peeked + xs[..DrivePulls(down, xs)]
    decreases |xs|
  {
    if xs != [] && !CanFinish(down) {
      var st' := st.(peeked := st.peeked + [xs[0]]);
      ForwardOne(down, xs[0]);
      PeekPulls(st', Accept(down, xs[0]), xs[1..]);
      var k := DrivePulls(Accept(down, xs[0]), xs[1..]);
      assert st'.peeked + xs[1..][..k] == st.peeked + xs[..k + 1];
    }
  }

  lemma ForwardOne<T, R>(c: Chain<T, R>, t: T)
    ensures ForwardAll(c, [t]) == Accept(c, t)
  {
    assert [t][1..] == [];
  }

  /** `Repeat(e).Peek(f).Limit(10)`: the source is pulled exactly 10 times and the
      consumer sees exactly those 10 elements. */
  lemma PeekThenLimitPullsTen<T, R>(t: Chain<T, R>, xs: seq<T>)
    requires |xs| >= 10
    ensures var c := Chained(Peek, InitState(), Chained(Limit(10), InitState(), t));
      DrivePulls(c, xs) == 10 && Drive(c, xs).st.peeked == xs[..10]
  {
    PeekPulls(InitState(), Chained(Limit(10), InitState(), t), xs);
    LimitPulls(10, InitState(), t, xs);
  }

  // ---------------------------------------------------------------------
  // Limit's CanFinish as written

  /** The source's Limit test, `count == maxSize`. */
  predicate LimitDoneAsWritten(count: int, maxSize: int) {
    count == maxSize
  }

  /** Pulls of the source loop over a stage whose first operator is a Limit that tests
      `count == maxSize`: Limit sets its own CanFinish, so the loop goes on while that
      test fails, whatever is below. */
  function LimitPullsAsWritten<T>(maxSize: int, count: int, xs: seq<T>): (r: nat)
    ensures r <= |xs|
    decreases |xs|
  {
    if xs == [] || LimitDoneAsWritten(count, maxSize) then 0
    else 1 + LimitPullsAsWritten(maxSize, count + 1, xs[1..])
  }

  /** As written, a Limit that has not passed `maxSize` stops after `maxSize - count`
      pulls, and one that has passed it never stops: the loop pulls the whole source. */
  lemma {:induction false} LimitPullsAsWrittenCount<T>(maxSize: int, count: int, xs: seq<T>)
    ensures count <= maxSize ==> LimitPullsAsWritten(maxSize, count, xs) == Min(|xs|, maxSize - count)
    ensures count > maxSize ==> LimitPullsAsWritten(maxSize, count, xs) == |xs|
    decreases |xs|
  {
    if xs != [] && count != maxSize {
      LimitPullsAsWrittenCount(maxSize, count + 1, xs[1..]);
    }
  }

  /** Up to `maxSize`, the two tests agree: the engine's pulls are the pulls as written. */
  lemma LimitAsWrittenAgrees<T, R>(maxSize: int, st: StageState<T>, down: Chain<T, R>, xs: seq<T>)
    requires st.count <= maxSize
    ensures DrivePulls(Chained(Limit(maxSize), st, down), xs) == LimitPullsAsWritten(maxSize, st.count, xs)
  {
    LimitPulls(maxSize, st, down, xs);
    LimitPullsAsWrittenCount(maxSize, st.count, xs);
  }

  /** A fresh `Limit(maxSize)` with `maxSize < 0`: as written, `count` starts at 0 and
      only grows, so `count == maxSize` never holds and every source element is pulled
      (an endless source is never stopped); with `count >= maxSize` nothing is pulled. */
  lemma NegativeLimitPulls<T, R>(maxSize: int, down: Chain<T, R>, xs: seq<T>)
    requires maxSize < 0
    ensures forall k: nat :: !LimitDoneAsWritten(k, maxSize)
    ensures LimitPullsAsWritten(maxSize, 0, xs) == |xs|
    ensures DrivePulls(Chained(Limit(maxSize), InitState(), down), xs) == 0
  {
    LimitPullsAsWrittenCount(maxSize, 0, xs);
    LimitPulls(maxSize, InitState(), down, xs);
  }

  function Twice<T>(): T -> seq<T> {
    x => [x, x]
  }

  lemma {:induction false} FlatMapTwiceLength<T>(xs: seq<T>)
    ensures |ListOps.FlatMap(Twice(), xs)| == 2 * |xs|
  {
    if xs != [] {
      FlatMapTwiceLength(xs[1..]);
    }
  }

  /** Below `FlatMap(x -> [x, x])`, a `Limit(1)` has counted `2n` elements after `n`
      source elements: the test as written (`count == 1`) never holds once an element
      has arrived, so the source is never stopped, while `count >= 1` stops it after one. */
  lemma FlatMapOvershootsLimit<T(!new), R(!new)>(t: Chain<T, R>, xs: seq<T>)
    requires xs != []
    ensures var c := ForwardAll(Chained(FlatMap(Twice()), InitState(), Chained(Limit(1), InitState(), t)), xs);
      && c.down.st.count == 2 * |xs|
      && !LimitDoneAsWritten(c.down.st.count, 1)
      && LimitDone(c.down.st.count, 1)
      && CanFinish(c)
  {
    var lim := Chained(Limit(1), InitState(), t);
    ForwardChained(FlatMap(Twice()), InitState(), lim, xs);
    StepsFlatMap(Twice(), InitState(), xs);
    var flat := ListOps.FlatMap(Twice(), xs);
    ForwardChained(Limit(1), InitState(), t, flat);
    StepsLimit(1, InitState(), flat);
    FlatMapTwiceLength(xs);
  }

  /** With `count >= maxSize`, the same chain pulls one element and stops. */
  lemma FlatMapThenLimitPullsOne<T(!new), R(!new)>(t: Chain<T, R>, xs: seq<T>)
    requires xs != []
    ensures DrivePulls(Chained(FlatMap(Twice()), InitState(), Chained(Limit(1), InitState(), t)), xs) == 1
  {
    var c := Chained(FlatMap(Twice()), InitState(), Chained(Limit(1), InitState(), t));
    FlatMapOvershootsLimit(t, [xs[0]]);
    ForwardOne(c, xs[0]);
    assert !CanFinish(c);
    assert CanFinish(Accept(c, xs[0]));
    assert DrivePulls(Accept(c, xs[0]), xs[1..]) == 0;
  }
}
