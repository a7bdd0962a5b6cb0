/** The v1 stream nodes and the terminal call: a stream is a back-linked list of
    nodes sharing one source iterator; a terminal operation wraps the nodes' stages
    around its terminal stage, begins the wrapped stage with the source's size, feeds
    it while the source has elements and the stage cannot finish, and ends it. */
module Pipeline {
  import opened ListOps
  import opened Stage
  import opened Chain
  import Engine = Chain
  import opened ChainProofs
  import opened Terminals
  import opened Iterators
  import Optional

  /** A stream node: the shared source, and for every node but the head, the previous
      node and the operator whose stage its `wrap` function builds. */
  datatype Stream<!T> =
    | Head(source: SourceIterator<T>)
    | Node(source: SourceIterator<T>, prev: Stream<T>, op: Op<T>)

  /** The operators from the head onwards, in the order they were added. */
  function OpsOf<T>(s: Stream<T>): seq<Op<T>> {
    match s
    case Head(_) => []
    case Node(_, prev, op) => OpsOf(prev) + [op]
  }

  /** Every node refers to the head's source. */
  predicate SharesSource<T>(s: Stream<T>) {
    s.Node? ==> s.prev.source == s.source && SharesSource(s.prev)
  }

  /** `newHead(source)`: a stream of the source with no operator. */
  function NewHead<T>(source: SourceIterator<T>): (s: Stream<T>)
    ensures s.source == source && OpsOf(s) == [] && SharesSource(s)
  {
    Head(source)
  }

  /** `newNode(prev, wrap)`: one more operator, on the same source. */
  function NewNode<T>(prev: Stream<T>, op: Op<T>): (s: Stream<T>)
    ensures s.source == prev.source && OpsOf(s) == OpsOf(prev) + [op]
    ensures SharesSource(s) <==> SharesSource(prev)
  {
    Node(prev.source, prev, op)
  }

  // ---------------------------------------------------------------------
  // The wrapped stage as an object

  /** The stage `wrapStage` returns: its protocol calls update the stages' captured
      variables (and the terminal's result) in place. */
  class WrappedStage<T, R> {
    var chain: Chain<T, R>

    constructor (c: Chain<T, R>)
      ensures chain == c
    {
      chain := c;
    }

    method Begin(size: int)
      modifies this
      ensures chain == Engine.Begin(old(chain), size)
    {
      chain := Engine.Begin(chain, size);
    }

    method Accept(t: T)
      modifies this
      ensures chain == Engine.Accept(old(chain), t)
    {
      chain := Engine.Accept(chain, t);
    }

    method CanFinish() returns (b: bool)
      ensures b == Engine.CanFinish(chain)
    {
      b := Engine.CanFinish(chain);
    }

    method End()
      modifies this
      ensures chain == Engine.End(old(chain))
    {
      chain := Engine.End(chain);
    }
  }

  /** `wrapStage`: from the last node back to the head, wrap each node's stage around
      the stages built so far; the first operator ends up outermost. */
  method WrapStage<T(!new), R(!new)>(s: Stream<T>, terminal: Chain<T, R>) returns (w: WrappedStage<T, R>)
    ensures fresh(w)
    ensures w.chain == WrapAll(OpsOf(s), terminal)
  {
    var stage := terminal;
    var i := s;
    while i.Node?
      invariant WrapAll(OpsOf(i), stage) == WrapAll(OpsOf(s), terminal)
      decreases i
    {
      WrapAllSnoc(OpsOf(i.prev), i.op, stage);
      stage := Chained(i.op, InitState(), stage);
      i := i.prev;
    }
    w := new WrappedStage(stage);
  }

  // ---------------------------------------------------------------------
  // The source loop

  /** The cursor after `n` pulls (fewer if the source runs out). */
  function Advance<T>(c: Cursor<T>, n: nat): Cursor<T>
    decreases n
  {
    if n == 0 || !HasNextOf(c) then c else Advance(NextOf(c).1, n - 1)
  }

  /** The source loop on stage `c` and source `cur` stops within `fuel` pulls: the
      source runs out or the stage can finish. */
  function Halts<T, R>(c: Chain<T, R>, cur: Cursor<T>, fuel: nat): (r: bool)
    ensures r ==> DrivePulls(c, Pending(cur, fuel + 1)) <= fuel
    decreases fuel
  {
    if !HasNextOf(cur) || Engine.CanFinish(c) then
      assert Pending(cur, fuel + 1) == [] || Engine.CanFinish(c);
      true
    else
      var (e, cur') := NextOf(cur);
      assert Pending(cur, fuel + 1) == [e] + Pending(cur', fuel);
      fuel > 0 && Halts(Engine.Accept(c, e), cur', fuel - 1)
  }

  /** The wrapped stage of stream operators `ops` around terminal stage `h`, begun
      with the size of source `cur`. */
  function Started<T, R>(ops: seq<Op<T>>, h: TerminalHandlers<T, R>, r0: R, cur: Cursor<T>): Chain<T, R> {
    Engine.Begin(WrapAll(ops, Engine.Terminal(h, r0)), SizeIfKnown(cur))
  }

  /** One more pull of a loop that goes on: the elements still to come lose their head. */
  lemma PullOne<T(!new), R(!new)>(c: Chain<T, R>, cur: Cursor<T>, m: nat)
    requires HasNextOf(cur) && !Engine.CanFinish(c) && m > 0
    ensures var (e, cur') := NextOf(cur);
      && Drive(Engine.Accept(c, e), Pending(cur', m - 1)) == Drive(c, Pending(cur, m))
      && Advance(cur', DrivePulls(Engine.Accept(c, e), Pending(cur', m - 1)))
         == Advance(cur, DrivePulls(c, Pending(cur, m)))
  {
    var (e, cur') := NextOf(cur);
    var xs := Pending(cur, m);
    assert xs == [e] + Pending(cur', m - 1);
    assert xs[0] == e && xs[1..] == Pending(cur', m - 1);
  }

  /** The loop's progress: feeding the rest of `cur` to `c` ends where feeding all of
      `cur0` to `b` does, with the source advanced as far. */
  ghost predicate Tracks<T, R>(c: Chain<T, R>, cur: Cursor<T>, m: nat, b: Chain<T, R>, cur0: Cursor<T>, n: nat) {
    && Drive(c, Pending(cur, m)) == Drive(b, Pending(cur0, n))
    && Advance(cur, DrivePulls(c, Pending(cur, m))) == Advance(cur0, DrivePulls(b, Pending(cur0, n)))
  }

  /** A pull keeps the loop on track and within its fuel. */
  lemma PullStep<T(!new), R(!new)>(c: Chain<T, R>, cur: Cursor<T>, m: nat, b: Chain<T, R>, cur0: Cursor<T>, n: nat)
    requires Tracks(c, cur, m, b, cur0, n) && Halts(c, cur, m)
    requires HasNextOf(cur) && !Engine.CanFinish(c)
    ensures m > 0
    ensures Tracks(Engine.Accept(c, NextOf(cur).0), NextOf(cur).1, m - 1, b, cur0, n)
    ensures Halts(Engine.Accept(c, NextOf(cur).0), NextOf(cur).1, m - 1)
  {
    PullOne(c, cur, m);
  }

  /** When the loop stops, the stage and the source are where the whole drive ends. */
  lemma Stopped<T, R>(c: Chain<T, R>, cur: Cursor<T>, m: nat, b: Chain<T, R>, cur0: Cursor<T>, n: nat)
    requires Tracks(c, cur, m, b, cur0, n)
    requires !HasNextOf(cur) || Engine.CanFinish(c)
    ensures Drive(b, Pending(cur0, n)) == c
    ensures Advance(cur0, DrivePulls(b, Pending(cur0, n))) == cur
  {
    if !HasNextOf(cur) {
      assert Pending(cur, m) == [];
    }
  }

  /** With no operators and a terminal without a Begin handler, starting is a no-op. */
  lemma StartedBare<T, R>(ops: seq<Op<T>>, h: TerminalHandlers<T, R>, r0: R, cur: Cursor<T>)
    requires ops == [] && h.begin.NoBegin?
    ensures Started(ops, h, r0, cur) == Engine.Terminal(h, r0)
  {
  }

  /** `terminal`: wrap, Begin with the source's size, pull while the source has an
      element and the stage cannot finish, then End. The loop stops within `fuel` pulls. */
  method RunTerminal<T(!new), R(!new)>(s: Stream<T>, h: TerminalHandlers<T, R>, r0: R, ghost fuel: nat)
    returns (w: WrappedStage<T, R>)
    requires Halts(Started(OpsOf(s), h, r0, s.source.cursor), s.source.cursor, fuel)
    modifies s.source
    ensures fresh(w)
    ensures var b := Started(OpsOf(s), h, r0, old(s.source.cursor));
            var xs := Pending(old(s.source.cursor), fuel);
      && w.chain == Engine.End(Drive(b, xs))
      && s.source.cursor == Advance(old(s.source.cursor), DrivePulls(b, xs))
  {
    w := WrapStage(s, Engine.Terminal(h, r0));
    var source := s.source;
    ghost var cur0 := source.cursor;
    var size := source.GetSizeIfKnown();
    w.Begin(size);
    ghost var b := w.chain;
    ghost var m := fuel;
    var more := source.HasNext();
    var done := w.CanFinish();
    while more && !done
      invariant Halts(w.chain, source.cursor, m)
      invariant Tracks(w.chain, source.cursor, m, b, cur0, fuel)
      invariant more == HasNextOf(source.cursor) && done == Engine.CanFinish(w.chain)
      decreases m
    {
      PullStep(w.chain, source.cursor, m, b, cur0, fuel);
      var e := source.Next();
      w.Accept(e);
      m := m - 1;
      more := source.HasNext();
      done := w.CanFinish();
    }
    Stopped(w.chain, source.cursor, m, b, cur0, fuel);
    w.End();
  }


  /** A Limit stage stops the loop after `maxSize - count` pulls, whatever the source. */
  lemma {:induction false} LimitHalts<T, R>(maxSize: int, st: StageState<T>, down: Chain<T, R>, cur: Cursor<T>, fuel: nat)
    requires fuel >= maxSize - st.count
    ensures Halts(Chained(Limit(maxSize), st, down), cur, fuel)
    decreases fuel
  {
    var c := Chained(Limit(maxSize), st, down);
    if HasNextOf(cur) && !Engine.CanFinish(c) {
      var a := Engine.Accept(c, NextOf(cur).0);
      assert a.st == st.(count := st.count + 1);
      LimitHalts(maxSize, a.st, a.down, NextOf(cur).1, fuel - 1);
    }
  }

  /** A stream whose first operator is `Limit(n)` ends after at most `n` pulls, even on
      an endless source (Generate, Repeat, Iterate). */
  lemma LimitedStreamHalts<T, R>(ops: seq<Op<T>>, h: TerminalHandlers<T, R>, r0: R, cur: Cursor<T>)
    requires ops != [] && ops[0].Limit?
    ensures Halts(Started(ops, h, r0, cur), cur, if ops[0].maxSize < 0 then 0 else ops[0].maxSize)
  {
    var down := WrapAll(ops[1..], Engine.Terminal(h, r0));
    var b := Started(ops, h, r0, cur);
    assert b == Chained(ops[0], InitState(), Engine.Begin(down, LimitHint(SizeIfKnown(cur), ops[0].maxSize)));
    LimitHalts(ops[0].maxSize, InitState(), b.down, cur, if ops[0].maxSize < 0 then 0 else ops[0].maxSize);
  }

  // ---------------------------------------------------------------------
  // Terminal operations

  /** What the stream's operators make of the first `fuel` source elements. */
  function Elements<T>(s: Stream<T>, cur: Cursor<T>, fuel: nat): seq<T> {
    Ref(OpsOf(s), Pending(cur, fuel))
  }

  /** A terminal run yields the terminal's fold over the reference elements. */
  lemma RunFolds<T(!new), R(!new)>(s: Stream<T>, h: TerminalHandlers<T, R>, r0: R, cur: Cursor<T>, fuel: nat)
    requires Stable(h) && HintFree(h)
    ensures Result(Engine.End(Drive(Started(OpsOf(s), h, r0, cur), Pending(cur, fuel))))
         == Fold(h.action, InitialResult(h, r0), Elements(s, cur, fuel))
  {
    var c := WrapAll(OpsOf(s), Engine.Terminal(h, r0));
    WrapAllFresh(OpsOf(s), Engine.Terminal(h, r0));
    assert Ops(c) == OpsOf(s) + [] == OpsOf(s);
    assert TerminalOf(c) == Engine.Terminal(h, r0);
    assert Run(c, SizeIfKnown(cur), Pending(cur, fuel)) == Engine.End(Drive(Started(OpsOf(s), h, r0, cur), Pending(cur, fuel)));
    RunMatchesReference(c, SizeIfKnown(cur), Pending(cur, fuel));
  }

  /** ForEach: the consumer is called with the elements, in order. */
  method ForEach<T(!new)>(s: Stream<T>, ghost fuel: nat) returns (calls: seq<T>)
    requires Halts(Started(OpsOf(s), ForEachStage(), [], s.source.cursor), s.source.cursor, fuel)
    modifies s.source
    ensures calls == Elements(s, old(s.source.cursor), fuel)
  {
    ghost var cur0 := s.source.cursor;
    var b := new BaseStage.Terminal(AppendAction(), NoBegin, Never, (), []);
    var w := RunTerminal(s, b.Current(), [], fuel);
    calls := Result(w.chain);
    ForEachWellBehaved<T>();
    assert b.Current() == ForEachStage();
    RunFolds(s, ForEachStage(), [], cur0, fuel);
    AppendFold([], Elements(s, cur0, fuel));
    assert [] + Elements(s, cur0, fuel) == Elements(s, cur0, fuel);
  }

  /** ToSlice: the elements, in order. */
  method ToSlice<T(!new)>(s: Stream<T>, ghost fuel: nat) returns (slice: seq<T>)
    requires Halts(Started(OpsOf(s), ToSliceStage(), [], s.source.cursor), s.source.cursor, fuel)
    modifies s.source
    ensures slice == Elements(s, old(s.source.cursor), fuel)
  {
    ghost var cur0 := s.source.cursor;
    var b := new BaseStage.Terminal(AppendAction(), NoBegin, Never, (), ToSliceOptions());
    var w := RunTerminal(s, b.Current(), [], fuel);
    slice := Result(w.chain);
    ToSliceWellBehaved<T>();
    RunFolds(s, ToSliceStage(), [], cur0, fuel);
    AppendFold([], Elements(s, cur0, fuel));
  }

  /** AllMatch: whether every element passes; with no operator, it pulls up to the
      first failing element only. */
  method AllMatch<T(!new)>(s: Stream<T>, test: T -> bool, ghost fuel: nat) returns (result: bool)
    requires Halts(Started(OpsOf(s), AllMatchStage(test), true, s.source.cursor), s.source.cursor, fuel)
    modifies s.source
    ensures var ys := Elements(s, old(s.source.cursor), fuel);
      result <==> forall i :: 0 <= i < |ys| ==> test(ys[i])
    ensures var xs := Pending(old(s.source.cursor), fuel);
      OpsOf(s) == [] ==> s.source.cursor == Advance(old(s.source.cursor), Min(FirstPassing(x => !test(x), xs) + 1, |xs|))
  {
    ghost var cur0 := s.source.cursor;
    var b := new BaseStage.Terminal(AllMatchAction(test), NoBegin, Never, (), UntilFalse());
    var w := RunTerminal(s, b.Current(), true, fuel);
    result := Result(w.chain);
    AllMatchWellBehaved(test);
    RunFolds(s, AllMatchStage(test), true, cur0, fuel);
    AllMatchFold(test, true, Elements(s, cur0, fuel));
    if OpsOf(s) == [] {
      StartedBare(OpsOf(s), AllMatchStage(test), true, cur0);
      AllMatchPulls(test, Pending(cur0, fuel));
      assert DrivePulls(Started(OpsOf(s), AllMatchStage(test), true, cur0), Pending(cur0, fuel))
          == Min(FirstPassing(x => !test(x), Pending(cur0, fuel)) + 1, |Pending(cur0, fuel)|);
    }
  }

  /** NoneMatch: whether no element passes. */
  method NoneMatch<T(!new)>(s: Stream<T>, test: T -> bool, ghost fuel: nat) returns (result: bool)
    requires Halts(Started(OpsOf(s), NoneMatchStage(test), true, s.source.cursor), s.source.cursor, fuel)
    modifies s.source
    ensures var ys := Elements(s, old(s.source.cursor), fuel);
      result <==> forall i :: 0 <= i < |ys| ==> !test(ys[i])
    ensures var xs := Pending(old(s.source.cursor), fuel);
      OpsOf(s) == [] ==> s.source.cursor == Advance(old(s.source.cursor), Min(FirstPassing(test, xs) + 1, |xs|))
  {
    ghost var cur0 := s.source.cursor;
    var b := new BaseStage.Terminal(NoneMatchAction(test), NoBegin, Never, (), UntilFalse());
    var w := RunTerminal(s, b.Current(), true, fuel);
    result := Result(w.chain);
    NoneMatchWellBehaved(test);
    RunFolds(s, NoneMatchStage(test), true, cur0, fuel);
    NoneMatchFold(test, true, Elements(s, cur0, fuel));
    if OpsOf(s) == [] {
      StartedBare(OpsOf(s), NoneMatchStage(test), true, cur0);
      NoneMatchPulls(test, Pending(cur0, fuel));
      assert DrivePulls(Started(OpsOf(s), NoneMatchStage(test), true, cur0), Pending(cur0, fuel))
          == Min(FirstPassing(test, Pending(cur0, fuel)) + 1, |Pending(cur0, fuel)|);
    }
  }

  /** AnyMatch: whether some element passes; with no operator, it pulls up to the
      first passing element only. */
  method AnyMatch<T(!new)>(s: Stream<T>, test: T -> bool, ghost fuel: nat) returns (result: bool)
    requires Halts(Started(OpsOf(s), AnyMatchStage(test), false, s.source.cursor), s.source.cursor, fuel)
    modifies s.source
    ensures var ys := Elements(s, old(s.source.cursor), fuel);
      result <==> exists i :: 0 <= i < |ys| && test(ys[i])
    ensures var xs := Pending(old(s.source.cursor), fuel);
      OpsOf(s) == [] ==> s.source.cursor == Advance(old(s.source.cursor), Min(FirstPassing(test, xs) + 1, |xs|))
  {
    ghost var cur0 := s.source.cursor;
    var b := new BaseStage.Terminal(AnyMatchAction(test), NoBegin, Never, (), UntilTrue());
    var w := RunTerminal(s, b.Current(), false, fuel);
    result := Result(w.chain);
    AnyMatchWellBehaved(test);
    RunFolds(s, AnyMatchStage(test), false, cur0, fuel);
    AnyMatchFold(test, false, Elements(s, cur0, fuel));
    if OpsOf(s) == [] {
      StartedBare(OpsOf(s), AnyMatchStage(test), false, cur0);
      AnyMatchPulls(test, Pending(cur0, fuel));
      assert DrivePulls(Started(OpsOf(s), AnyMatchStage(test), false, cur0), Pending(cur0, fuel))
          == Min(FirstPassing(test, Pending(cur0, fuel)) + 1, |Pending(cur0, fuel)|);
    }
  }

  /** Reduce: absent on no element; otherwise `Of` the fold from the first element. */
  method Reduce<T(!new)>(s: Stream<T>, isNil: T -> bool, accumulator: (T, T) -> T, ghost fuel: nat)
    returns (r: Optional.Outcome<Optional.Optional<T>, string>)
    requires Halts(Started(OpsOf(s), ReduceStage(accumulator), None, s.source.cursor), s.source.cursor, fuel)
    modifies s.source
    ensures var ys := Elements(s, old(s.source.cursor), fuel);
      r == if ys == [] then Optional.Return(Optional.Absent) else Optional.Of(isNil, Fold(accumulator, ys[0], ys[1..]))
  {
    ghost var cur0 := s.source.cursor;
    var b := new BaseStage.Terminal(ReduceAction(accumulator), NoBegin, Never, (), []);
    var w := RunTerminal(s, b.Current(), None, fuel);
    r := ReduceResult(isNil, Result(w.chain));
    ReduceWellBehaved<T, T>(accumulator, accumulator);
    RunFolds(s, ReduceStage(accumulator), None, cur0, fuel);
    ReduceFold(accumulator, Elements(s, cur0, fuel));
  }

  /** ReduceFrom: the fold from the initial value, of the element type. */
  method ReduceFrom<T(!new)>(s: Stream<T>, initValue: T, accumulator: (T, T) -> T, ghost fuel: nat) returns (r: T)
    requires Halts(Started(OpsOf(s), ReduceWithStage(accumulator), initValue, s.source.cursor), s.source.cursor, fuel)
    modifies s.source
    ensures r == Fold(accumulator, initValue, Elements(s, old(s.source.cursor), fuel))
  {
    r := ReduceWith(s, initValue, accumulator, fuel);
  }

  /** ReduceWith: the fold from the initial value, of any type. */
  method ReduceWith<T(!new), R(!new)>(s: Stream<T>, initValue: R, accumulator: (R, T) -> R, ghost fuel: nat) returns (r: R)
    requires Halts(Started(OpsOf(s), ReduceWithStage(accumulator), initValue, s.source.cursor), s.source.cursor, fuel)
    modifies s.source
    ensures r == Fold(accumulator, initValue, Elements(s, old(s.source.cursor), fuel))
  {
    ghost var cur0 := s.source.cursor;
    var b := new BaseStage.Terminal(accumulator, NoBegin, Never, (), []);
    var w := RunTerminal(s, b.Current(), initValue, fuel);
    r := Result(w.chain);
    ReduceWellBehaved<T, R>((x, y) => x, accumulator);
    RunFolds(s, ReduceWithStage(accumulator), initValue, cur0, fuel);
  }

  /** ReduceBy: Begin builds the initial value from the size; for a builder that
      ignores the size, the result is the fold from the built value. */
  method ReduceBy<T(!new), R(!new)>(s: Stream<T>, zero: R, buildInitValue: int -> R, accumulator: (R, T) -> R,
                                    ghost fuel: nat) returns (r: R)
    requires Halts(Started(OpsOf(s), ReduceByStage(buildInitValue, accumulator), zero, s.source.cursor), s.source.cursor, fuel)
    modifies s.source
    ensures (forall size: int :: buildInitValue(size) == buildInitValue(0))
      ==> r == Fold(accumulator, buildInitValue(0), Elements(s, old(s.source.cursor), fuel))
  {
    ghost var cur0 := s.source.cursor;
    var b := new BaseStage.Terminal(accumulator, NoBegin, Never, (), ReduceByOptions(buildInitValue));
    var w := RunTerminal(s, b.Current(), zero, fuel);
    r := Result(w.chain);
    if forall size: int :: buildInitValue(size) == buildInitValue(0) {
      ReduceByWellBehaved(buildInitValue, accumulator);
      RunFolds(s, ReduceByStage(buildInitValue, accumulator), zero, cur0, fuel);
    }
  }

  /** FindFirst: `OfNullable` of the first element, absent when there is none; with no
      operator, it pulls at most one element. */
  method FindFirst<T(!new)>(s: Stream<T>, isNil: T -> bool, ghost fuel: nat) returns (r: Optional.Optional<T>)
    requires Halts(Started(OpsOf(s), FindFirstStage(), None, s.source.cursor), s.source.cursor, fuel)
    modifies s.source
    ensures var ys := Elements(s, old(s.source.cursor), fuel);
      r == if ys == [] then Optional.Absent else Optional.OfNullable(isNil, ys[0])
    ensures OpsOf(s) == [] ==> s.source.cursor == Advance(old(s.source.cursor), Min(1, |Pending(old(s.source.cursor), fuel)|))
  {
    ghost var cur0 := s.source.cursor;
    var b := new BaseStage.Terminal(FindFirstAction(), NoBegin, Never, (), UntilFound());
    var w := RunTerminal(s, b.Current(), None, fuel);
    r := FindFirstResult(isNil, Result(w.chain));
    FindFirstWellBehaved<T>();
    RunFolds(s, FindFirstStage(), None, cur0, fuel);
    FindFirstFold(None, Elements(s, cur0, fuel));
    if OpsOf(s) == [] {
      StartedBare(OpsOf(s), FindFirstStage(), None, cur0);
      FindFirstPulls(Pending(cur0, fuel));
    }
  }

  /** Count: the number of elements (ReduceWith from 0, adding one per element). */
  method Count<T(!new)>(s: Stream<T>, ghost fuel: nat) returns (n: int)
    requires Halts(Started(OpsOf(s), ReduceWithStage(CountAction()), 0, s.source.cursor), s.source.cursor, fuel)
    modifies s.source
    ensures n == |Elements(s, old(s.source.cursor), fuel)|
  {
    ghost var cur0 := s.source.cursor;
    n := ReduceWith(s, 0, CountAction(), fuel);
    CountFold(0, Elements(s, cur0, fuel));
  }
}
