/** The v1 engine computes the reference composition of the operators: for a finite
    source, a run of a freshly wrapped chain yields the fold of the terminal's action
    over `Ref(ops, xs)`, whether or not the run stopped pulling early. */
module ChainProofs {
  import opened ListOps
  import opened Stage
  import opened Chain

  // ---------------------------------------------------------------------
  // Conditions on the terminal stage

  /** Once the terminal says it can finish, no element changes its result. */
  ghost predicate Stable<T(!new), R(!new)>(h: TerminalHandlers<T, R>) {
    h.canFinish.When? ==> forall r: R, t: T :: h.canFinish.done(r) ==> h.action(r, t) == r
  }

  /** The terminal's Begin does not depend on the announced size. */
  ghost predicate HintFree<T(!new), R(!new)>(h: TerminalHandlers<T, R>) {
    h.begin.Build? ==> forall size: int :: h.begin.build(size) == h.begin.build(0)
  }

  ghost predicate WellBehaved<T(!new), R(!new)>(c: Chain<T, R>) {
    Stable(TerminalOf(c).h) && HintFree(TerminalOf(c).h)
  }

  /** The result the terminal starts from once begun. */
  function InitialResult<T(!new), R(!new)>(h: TerminalHandlers<T, R>, r: R): R {
    if h.begin.Build? then h.begin.build(0) else r
  }

  // ---------------------------------------------------------------------
  // Chain states

  predicate Clean<T>(st: StageState<T>) {
    st.seen == {} && st.list == [] && st.count == 0
  }

  /** Every operator stage is as freshly wrapped (up to Peek's record). */
  predicate Fresh<T(!new), R(!new)>(c: Chain<T, R>) {
    match c
    case Terminal(_, _) => true
    case Chained(_, st, down) => Clean(st) && Fresh(down)
  }

  /** Begun and not fed since: beginning again changes nothing. */
  ghost predicate Idle<T(!new), R(!new)>(c: Chain<T, R>) {
    Begin(c, 0) == c
  }

  /** Below every Sorted stage the chain is idle: it receives nothing before Sorted's End. */
  ghost predicate Inv<T(!new), R(!new)>(c: Chain<T, R>) {
    match c
    case Terminal(_, _) => true
    case Chained(op, _, down) => (op.Sorted? ==> Idle(down)) && Inv(down)
  }

  // ---------------------------------------------------------------------
  // Feeding

  lemma {:induction false} ForwardAllAppend<T(!new), R(!new)>(c: Chain<T, R>, a: seq<T>, b: seq<T>)
    ensures ForwardAll(c, a + b) == ForwardAll(ForwardAll(c, a), b)
    decreases |a|
  {
    if a != [] {
      assert (a + b)[1..] == a[1..] + b;
      ForwardAllAppend(Accept(c, a[0]), a[1..], b);
    } else {
      assert a + b == b;
    }
  }

  /** The terminal stage folds its action over what it is fed. */
  lemma {:induction false} ForwardTerminal<T(!new), R(!new)>(h: TerminalHandlers<T, R>, r: R, xs: seq<T>)
    ensures ForwardAll(Terminal(h, r), xs) == Terminal(h, Fold(h.action, r, xs))
    decreases |xs|
  {
    if xs != [] {
      ForwardTerminal(h, h.action(r, xs[0]), xs[1..]);
    }
  }

  /** An operator's action over a whole sequence: final state and everything handed down. */
  function Steps<T>(op: Op<T>, st: StageState<T>, xs: seq<T>): (r: (StageState<T>, seq<T>))
    decreases |xs|
  {
    if xs == [] then (st, [])
    else
      var first := Step(op, st, xs[0]);
      var rest := Steps(op, first.0, xs[1..]);
      (rest.0, first.1 + rest.1)
  }

  /** Feeding an operator stage feeds its downstream with what the operator hands down. */
  lemma {:induction false} ForwardChained<T(!new), R(!new)>(op: Op<T>, st: StageState<T>, down: Chain<T, R>, xs: seq<T>)
    ensures ForwardAll(Chained(op, st, down), xs)
         == Chained(op, Steps(op, st, xs).0, ForwardAll(down, Steps(op, st, xs).1))
    decreases |xs|
  {
    if xs != [] {
      var first := Step(op, st, xs[0]);
      ForwardChained(op, first.0, ForwardAll(down, first.1), xs[1..]);
      ForwardAllAppend(down, first.1, Steps(op, first.0, xs[1..]).1);
    }
  }

  // ---------------------------------------------------------------------
  // Each operator over a whole sequence

  lemma {:induction false} StepsFilter<T>(test: T -> bool, st: StageState<T>, xs: seq<T>)
    ensures Steps(Filter(test), st, xs) == (st, ListOps.Filter(test, xs))
    decreases |xs|
  {
    if xs != [] {
      StepsFilter(test, st, xs[1..]);
    }
  }

  lemma {:induction false} StepsMap<T>(apply: T -> T, st: StageState<T>, xs: seq<T>)
    ensures Steps(Map(apply), st, xs) == (st, ListOps.Map(apply, xs))
    decreases |xs|
  {
    if xs != [] {
      StepsMap(apply, st, xs[1..]);
      assert ListOps.Map(apply, xs) == [apply(xs[0])] + ListOps.Map(apply, xs[1..]);
    }
  }

  lemma {:induction false} StepsFlatMap<T>(flatten: T -> seq<T>, st: StageState<T>, xs: seq<T>)
    ensures Steps(FlatMap(flatten), st, xs) == (st, ListOps.FlatMap(flatten, xs))
    decreases |xs|
  {
    if xs != [] {
      StepsFlatMap(flatten, st, xs[1..]);
    }
  }

  /** Peek hands every element down unchanged and records one consumer call per element. */
  lemma {:induction false} StepsPeek<T>(st: StageState<T>, xs: seq<T>)
    ensures Steps(Peek, st, xs) == (st.(peeked := st.peeked + xs), xs)
    decreases |xs|
  {
    if xs != [] {
      var s1 := st.(peeked := st.peeked + [xs[0]]);
      assert Step(Peek, st, xs[0]) == (s1, [xs[0]]);
      StepsPeek(s1, xs[1..]);
      assert s1.peeked + xs[1..] == st.peeked + xs;
      assert [xs[0]] + xs[1..] == xs;
    } else {
      assert st.peeked + xs == st.peeked;
    }
  }

  lemma {:induction false} StepsDistinct<T>(distincter: T -> int, st: StageState<T>, xs: seq<T>)
    ensures Steps(Distinct(distincter), st, xs)
         == (st.(seen := st.seen + Keys(distincter, xs)), DistinctFrom(distincter, st.seen, xs))
    decreases |xs|
  {
    if xs != [] {
      var k := distincter(xs[0]);
      assert xs == [xs[0]] + xs[1..];
      KeysCons(distincter, xs[0], xs[1..]);
      if k in st.seen {
        assert Step(Distinct(distincter), st, xs[0]) == (st, []);
        StepsDistinct(distincter, st, xs[1..]);
        var rest := Steps(Distinct(distincter), st, xs[1..]);
        assert Steps(Distinct(distincter), st, xs) == (rest.0, [] + rest.1);
        assert [] + rest.1 == rest.1;
        assert st.seen + Keys(distincter, xs) == st.seen + Keys(distincter, xs[1..]);
      } else {
        var s1 := st.(seen := st.seen + {k});
        assert Step(Distinct(distincter), st, xs[0]) == (s1, [xs[0]]);
        StepsDistinct(distincter, s1, xs[1..]);
        assert s1.seen + Keys(distincter, xs[1..]) == st.seen + Keys(distincter, xs);
      }
    } else {
      assert st.seen + Keys(distincter, xs) == st.seen;
    }
  }

  lemma {:induction false} StepsSorted<T>(cmp: (T, T) -> int, st: StageState<T>, xs: seq<T>)
    ensures Steps(Sorted(cmp), st, xs) == (st.(list := st.list + xs), [])
    decreases |xs|
  {
    if xs != [] {
      var s1 := st.(list := st.list + [xs[0]]);
      assert Step(Sorted(cmp), st, xs[0]) == (s1, []);
      StepsSorted(cmp, s1, xs[1..]);
      var rest := Steps(Sorted(cmp), s1, xs[1..]);
      assert Steps(Sorted(cmp), st, xs) == (rest.0, [] + rest.1);
      assert s1.list + xs[1..] == st.list + xs;
      assert rest.0 == st.(list := st.list + xs);
      assert [] + rest.1 == [];
    } else {
      assert st.list + xs == st.list;
    }
  }

  /** Limit hands down the elements that arrive while fewer than `maxSize` have arrived. */
  lemma {:induction false} StepsLimit<T>(maxSize: int, st: StageState<T>, xs: seq<T>)
    ensures Steps(Limit(maxSize), st, xs)
         == (st.(count := st.count + |xs|), Take(xs, maxSize - st.count))
    decreases |xs|
  {
    if xs != [] {
      var s1 := st.(count := st.count + 1);
      var n := maxSize - st.count;
      assert Step(Limit(maxSize), st, xs[0]) == (s1, if n > 0 then [xs[0]] else []);
      StepsLimit(maxSize, s1, xs[1..]);
      assert s1.count + |xs[1..]| == st.count + |xs|;
      if n > 0 {
        TakeCons(xs, n);
      }
    }
  }

  /** Once `n` elements have arrived, Skip hands down everything. */
  lemma {:induction false} StepsSkipPast<T>(n: int, st: StageState<T>, xs: seq<T>)
    requires st.count >= n
    ensures Steps(Skip(n), st, xs) == (st.(count := st.count + |xs|), xs)
    decreases |xs|
  {
    if xs != [] {
      var s1 := st.(count := st.count + 1);
      assert Step(Skip(n), st, xs[0]) == (s1, [xs[0]]);
      StepsSkipPast(n, s1, xs[1..]);
      assert [xs[0]] + xs[1..] == xs;
    }
  }

  /** Skip hands down the elements that arrive once `n` have arrived. */
  lemma {:induction false} StepsSkip<T>(n: int, st: StageState<T>, xs: seq<T>)
    ensures Steps(Skip(n), st, xs) == (st.(count := st.count + |xs|), Drop(xs, n - st.count))
    decreases |xs|
  {
    if n - st.count <= 0 {
      StepsSkipPast(n, st, xs);
    } else if xs == [] {
      assert st.(count := st.count + 0) == st;
    } else {
      var s1 := st.(count := st.count + 1);
      assert Step(Skip(n), st, xs[0]) == (s1, []);
      StepsSkip(n, s1, xs[1..]);
      DropCons(xs, n - st.count);
      var rest := Steps(Skip(n), s1, xs[1..]);
      assert Steps(Skip(n), st, xs) == (rest.0, [] + rest.1);
      assert [] + rest.1 == rest.1;
    }
  }

  /** From a clean state, an operator hands down exactly its reference result;
      Sorted hands down nothing and buffers everything. */
  lemma StepsClean<T>(op: Op<T>, st: StageState<T>, xs: seq<T>)
    requires Clean(st)
    ensures !op.Sorted? ==> Steps(op, st, xs).1 == RefOp(op, xs)
    ensures op.Sorted? ==> Steps(op, st, xs).1 == [] && Steps(op, st, xs).0.list == xs
  {
    match op
    case Filter(test) => StepsFilter(test, st, xs);
    case Map(apply) => StepsMap(apply, st, xs);
    case FlatMap(flatten) => StepsFlatMap(flatten, st, xs);
    case Peek => StepsPeek(st, xs);
    case Distinct(distincter) => StepsDistinct(distincter, st, xs);
    case Sorted(cmp) => StepsSorted(cmp, st, xs);
    case Limit(maxSize) => StepsLimit(maxSize, st, xs);
    case Skip(n) => StepsSkip(n, st, xs);
  }

  // ---------------------------------------------------------------------
  // Begin

  /** Beginning twice is beginning once with the second size. */
  lemma {:induction false} BeginTwice<T(!new), R(!new)>(c: Chain<T, R>, x: int, y: int)
    ensures Begin(Begin(c, x), y) == Begin(c, y)
  {
    match c
    case Terminal(_, _) =>
    case Chained(op, st, down) =>
      match op
      case Filter(_) => BeginTwice(down, Iterators.UnknownSize, Iterators.UnknownSize);
      case Map(_) => BeginTwice(down, x, y);
      case FlatMap(_) => BeginTwice(down, Iterators.UnknownSize, Iterators.UnknownSize);
      case Peek => BeginTwice(down, x, y);
      case Distinct(_) => BeginTwice(down, Iterators.UnknownSize, Iterators.UnknownSize);
      case Sorted(_) => BeginTwice(down, x, y);
      case Limit(m) => BeginTwice(down, LimitHint(x, m), LimitHint(y, m));
      case Skip(n) => BeginTwice(down, SkipHint(x, n), SkipHint(y, n));
  }

  /** With a size-independent terminal, the announced size does not matter. */
  lemma {:induction false} BeginIgnoresSize<T(!new), R(!new)>(c: Chain<T, R>, x: int, y: int)
    requires HintFree(TerminalOf(c).h)
    ensures Begin(c, x) == Begin(c, y)
  {
    match c
    case Terminal(h, _) =>
    case Chained(op, st, down) =>
      match op
      case Filter(_) =>
      case Map(_) => BeginIgnoresSize(down, x, y);
      case FlatMap(_) =>
      case Peek => BeginIgnoresSize(down, x, y);
      case Distinct(_) =>
      case Sorted(_) => BeginIgnoresSize(down, x, y);
      case Limit(m) => BeginIgnoresSize(down, LimitHint(x, m), LimitHint(y, m));
      case Skip(n) => BeginIgnoresSize(down, SkipHint(x, n), SkipHint(y, n));
  }

  lemma IdleBegin<T(!new), R(!new)>(c: Chain<T, R>, size: int)
    requires Idle(c) && HintFree(TerminalOf(c).h)
    ensures Begin(c, size) == c
  {
    BeginIgnoresSize(c, size, 0);
  }

  /** Begin leaves every Sorted stage above an idle chain. */
  lemma {:induction false} InvBegin<T(!new), R(!new)>(c: Chain<T, R>, size: int)
    requires HintFree(TerminalOf(c).h)
    ensures Inv(Begin(c, size))
  {
    match c
    case Terminal(_, _) =>
    case Chained(op, st, down) =>
      match op
      case Filter(_) => InvBegin(down, Iterators.UnknownSize);
      case Map(_) => InvBegin(down, size);
      case FlatMap(_) => InvBegin(down, Iterators.UnknownSize);
      case Peek => InvBegin(down, size);
      case Distinct(_) => InvBegin(down, Iterators.UnknownSize);
      case Sorted(_) =>
        InvBegin(down, size);
        BeginTwice(down, size, 0);
        BeginIgnoresSize(down, size, 0);
      case Limit(m) => InvBegin(down, LimitHint(size, m));
      case Skip(n) => InvBegin(down, SkipHint(size, n));
  }

  lemma {:induction false} FreshBegin<T(!new), R(!new)>(c: Chain<T, R>, size: int)
    requires Fresh(c)
    ensures Fresh(Begin(c, size))
  {
    match c
    case Terminal(_, _) =>
    case Chained(op, st, down) =>
      match op
      case Filter(_) => FreshBegin(down, Iterators.UnknownSize);
      case Map(_) => FreshBegin(down, size);
      case FlatMap(_) => FreshBegin(down, Iterators.UnknownSize);
      case Peek => FreshBegin(down, size);
      case Distinct(_) => FreshBegin(down, Iterators.UnknownSize);
      case Sorted(_) => FreshBegin(down, size);
      case Limit(m) => FreshBegin(down, LimitHint(size, m));
      case Skip(n) => FreshBegin(down, SkipHint(size, n));
  }

  /** Once begun, the terminal holds its initial result. */
  lemma {:induction false} BeginResult<T(!new), R(!new)>(c: Chain<T, R>, size: int)
    requires HintFree(TerminalOf(c).h)
    ensures Result(Begin(c, size)) == InitialResult(TerminalOf(c).h, Result(c))
  {
    match c
    case Terminal(_, _) =>
    case Chained(op, st, down) =>
      match op
      case Filter(_) => BeginResult(down, Iterators.UnknownSize);
      case Map(_) => BeginResult(down, size);
      case FlatMap(_) => BeginResult(down, Iterators.UnknownSize);
      case Peek => BeginResult(down, size);
      case Distinct(_) => BeginResult(down, Iterators.UnknownSize);
      case Sorted(_) => BeginResult(down, size);
      case Limit(m) => BeginResult(down, LimitHint(size, m));
      case Skip(n) => BeginResult(down, SkipHint(size, n));
  }

  // ---------------------------------------------------------------------
  // The invariant under Accept

  lemma {:induction false} InvAccept<T(!new), R(!new)>(c: Chain<T, R>, t: T)
    requires Inv(c)
    ensures Inv(Accept(c, t))
    decreases Depth(c), 0
  {
    match c
    case Terminal(_, _) =>
    case Chained(op, st, down) =>
      var (st', out) := Step(op, st, t);
      InvForwardAll(down, out);
  }

  lemma {:induction false} InvForwardAll<T(!new), R(!new)>(c: Chain<T, R>, xs: seq<T>)
    requires Inv(c)
    ensures Inv(ForwardAll(c, xs))
    decreases Depth(c), 1, |xs|
  {
    if xs != [] {
      InvAccept(c, xs[0]);
      InvForwardAll(Accept(c, xs[0]), xs[1..]);
    }
  }

  // ---------------------------------------------------------------------
  // Stopping early changes nothing

  /** Once a chain can finish, feeding it more does not change the final result. */
  lemma {:induction false} FinishedIgnoresInput<T(!new), R(!new)>(c: Chain<T, R>, ys: seq<T>)
    requires Inv(c) && WellBehaved(c) && CanFinish(c)
    ensures Result(End(ForwardAll(c, ys))) == Result(End(c))
    decreases Depth(c)
  {
    match c
    case Terminal(h, r) =>
      ForwardTerminal(h, r, ys);
      FoldFixpoint(h.action, r, ys);
    case Chained(op, st, down) =>
      ForwardChained(op, st, down, ys);
      if op.Limit? {
        FinishedLimit(op.maxSize, st, down, ys);
      } else if op.Sorted? {
        FinishedSorted(op.cmp, st, down, ys);
      } else {
        FinishedIgnoresInput(down, Steps(op, st, ys).1);
        EndPassesResult(op, Steps(op, st, ys).0, ForwardAll(down, Steps(op, st, ys).1));
        EndPassesResult(op, st, down);
      }
  }

  /** Below any operator but Sorted, End's result is downstream End's result. */
  lemma EndPassesResult<T, R>(op: Op<T>, st: StageState<T>, down: Chain<T, R>)
    requires !op.Sorted?
    ensures Result(End(Chained(op, st, down))) == Result(End(down))
  {
  }

  /** A Limit that has let `maxSize` elements through hands nothing more down. */
  lemma FinishedLimit<T(!new), R(!new)>(maxSize: int, st: StageState<T>, down: Chain<T, R>, ys: seq<T>)
    requires LimitDone(st.count, maxSize)
    ensures Result(End(ForwardAll(Chained(Limit(maxSize), st, down), ys)))
         == Result(End(Chained(Limit(maxSize), st, down)))
  {
    ForwardChained(Limit(maxSize), st, down, ys);
    StepsLimit(maxSize, st, ys);
  }

  /** A Sorted stage whose idle downstream can finish flushes nothing, whatever it buffered. */
  lemma FinishedSorted<T(!new), R(!new)>(cmp: (T, T) -> int, st: StageState<T>, down: Chain<T, R>, ys: seq<T>)
    requires Idle(down) && HintFree(TerminalOf(down).h) && CanFinish(down)
    ensures Result(End(ForwardAll(Chained(Sorted(cmp), st, down), ys)))
         == Result(End(Chained(Sorted(cmp), st, down)))
  {
    ForwardChained(Sorted(cmp), st, down, ys);
    StepsSorted(cmp, st, ys);
    IdleBegin(down, |Sort(cmp, st.list + ys)|);
    IdleBegin(down, |Sort(cmp, st.list)|);
  }

  /** A run that stops pulling early ends with the result of feeding everything. */
  lemma {:induction false} DriveMatchesFullFeed<T(!new), R(!new)>(c: Chain<T, R>, xs: seq<T>)
    requires Inv(c) && WellBehaved(c)
    ensures Result(End(Drive(c, xs))) == Result(End(ForwardAll(c, xs)))
    decreases |xs|
  {
    if xs != [] {
      if CanFinish(c) {
        FinishedIgnoresInput(c, xs);
      } else {
        InvAccept(c, xs[0]);
        DriveMatchesFullFeed(Accept(c, xs[0]), xs[1..]);
      }
    }
  }

  /** Feeding everything to a fresh, begun chain folds the terminal action over the reference result. */
  lemma {:induction false} FullFeedMatchesReference<T(!new), R(!new)>(c: Chain<T, R>, ys: seq<T>)
    requires Fresh(c) && Inv(c) && WellBehaved(c)
    ensures Result(End(ForwardAll(c, ys))) == Fold(TerminalOf(c).h.action, Result(c), Ref(Ops(c), ys))
    decreases Depth(c)
  {
    match c
    case Terminal(h, r) =>
      ForwardTerminal(h, r, ys);
    case Chained(op, st, down) =>
      ForwardChained(op, st, down, ys);
      StepsClean(op, st, ys);
      assert Ops(c)[1..] == Ops(down);
      if op.Sorted? {
        var s := Sort(op.cmp, ys);
        IdleBegin(down, |s|);
        DriveMatchesFullFeed(down, s);
        FullFeedMatchesReference(down, s);
      } else {
        FullFeedMatchesReference(down, RefOp(op, ys));
      }
  }

  /** Wrapping fresh stages around a fresh chain gives a fresh chain. */
  lemma {:induction false} WrapAllFresh<T(!new), R(!new)>(ops: seq<Op<T>>, down: Chain<T, R>)
    requires Fresh(down)
    ensures Fresh(WrapAll(ops, down))
  {
    if ops != [] {
      WrapAllFresh(ops[1..], down);
    }
  }

  /** Wrapping the last operator first, as `wrapStage` does, builds the same chain. */
  lemma {:induction false} WrapAllSnoc<T(!new), R(!new)>(ops: seq<Op<T>>, op: Op<T>, down: Chain<T, R>)
    ensures WrapAll(ops + [op], down) == WrapAll(ops, Chained(op, InitState(), down))
  {
    if ops != [] {
      assert (ops + [op])[1..] == ops[1..] + [op];
      WrapAllSnoc(ops[1..], op, down);
    } else {
      assert [op][1..] == [];
    }
  }

  /** The engine's main property: a run of a freshly wrapped chain over a finite source,
      stopping early or not, yields the terminal's fold over the reference result. */
  lemma RunMatchesReference<T(!new), R(!new)>(c: Chain<T, R>, size: int, xs: seq<T>)
    requires Fresh(c) && WellBehaved(c)
    ensures Result(Run(c, size, xs))
         == Fold(TerminalOf(c).h.action, InitialResult(TerminalOf(c).h, Result(c)), Ref(Ops(c), xs))
  {
    var b := Begin(c, size);
    InvBegin(c, size);
    FreshBegin(c, size);
    BeginResult(c, size);
    DriveMatchesFullFeed(b, xs);
    FullFeedMatchesReference(b, xs);
  }
}
