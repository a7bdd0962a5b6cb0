/** The v1 push engine: the stage chain that a terminal operation builds by wrapping
    every operator around the terminal stage, and the stage protocol on it.
    Each operator stage keeps the variables its closures capture (`StageState`); the
    protocol calls are functions from the old chain to the new one. The downstream
    behaviour a stage falls back to when an operator does not set a slot is given
    by the options of the operator (`OptionsOf`), as in module Stage. */
module Chain {
  import opened ListOps
  import opened Stage
  import Iterators

  /** The intermediate operators. Peek's consumer calls are recorded in the stage
      state instead of being performed. */
  datatype Op<!T> =
    | Filter(test: T -> bool)
    | Map(apply: T -> T)
    | FlatMap(flatten: T -> seq<T>)
    | Peek
    | Distinct(distincter: T -> int)
    | Sorted(cmp: (T, T) -> int)
    | Limit(maxSize: int)
    | Skip(n: int)

  /** The captured variables of one operator stage: the Distinct set, the Sorted
      buffer, the Limit/Skip counter and the elements Peek's consumer was called with. */
  datatype StageState<T> = StageState(seen: set<int>, list: seq<T>, count: int, peeked: seq<T>)

  /** The state of a freshly wrapped stage. */
  function InitState<T>(): (st: StageState<T>)
    ensures st.seen == {} && st.list == [] && st.count == 0 && st.peeked == []
  {
    StageState({}, [], 0, [])
  }

  datatype Option<T> = None | Some(value: T)

  /** A terminal stage's Begin: the no-op default, or (re)building the result from the size. */
  datatype TerminalBegin<R> = NoBegin | Build(build: int -> R)

  /** A terminal stage's CanFinish: the "never" default, or a test of the result. */
  datatype TerminalFinish<!R> = Never | When(done: R -> bool)

  /** A terminal stage's slots; its End is always the no-op default. */
  type TerminalHandlers<!T, !R> = Handlers<TerminalBegin<R>, (R, T) -> R, TerminalFinish<R>, ()>

  /** The wrapped stage: operator stages around the terminal stage, outermost first. */
  datatype Chain<!T, !R> =
    | Terminal(h: TerminalHandlers<T, R>, result: R)
    | Chained(op: Op<T>, st: StageState<T>, down: Chain<T, R>)

  /** The options each operator passes to `newChainedStage`. */
  function OptionsOf<T>(op: Op<T>): (r: seq<StageOption<Slot, Slot, Slot, Slot>>)
    ensures forall i :: 0 <= i < |r| ==>
      r[i] in {SetBegin(Own), SetAction(Own), SetCanFinish(Own), SetEnd(Own)}
  {
    match op
    case Filter(_) => [SetBegin(Own), SetAction(Own)]
    case Map(_) => [SetAction(Own)]
    case FlatMap(_) => [SetBegin(Own), SetAction(Own)]
    case Peek => [SetAction(Own)]
    case Distinct(_) => [SetBegin(Own), SetAction(Own), SetEnd(Own)]
    case Sorted(_) => [SetBegin(Own), SetAction(Own), SetEnd(Own)]
    case Limit(_) => [SetBegin(Own), SetAction(Own), SetCanFinish(Own)]
    case Skip(_) => [SetBegin(Own), SetAction(Own)]
  }

  /** Which slots of an operator's stage are its own and which fall back to downstream. */
  function SlotsOf<T>(op: Op<T>): Handlers<Slot, Slot, Slot, Slot> {
    ApplyAll(ChainedDefaults(), OptionsOf(op))
  }

  function Depth<T, R>(c: Chain<T, R>): nat {
    match c
    case Terminal(_, _) => 0
    case Chained(_, _, down) => 1 + Depth(down)
  }

  /** The operators of the chain, outermost first. */
  function Ops<T, R>(c: Chain<T, R>): (r: seq<Op<T>>)
    ensures |r| == Depth(c)
  {
    match c
    case Terminal(_, _) => []
    case Chained(op, _, down) => [op] + Ops(down)
  }

  function TerminalOf<T, R>(c: Chain<T, R>): (r: Chain<T, R>)
    ensures r.Terminal?
  {
    match c
    case Terminal(_, _) => c
    case Chained(_, _, down) => TerminalOf(down)
  }

  /** The terminal stage's result variable. */
  function Result<T, R>(c: Chain<T, R>): R {
    TerminalOf(c).result
  }

  /** The chain `wrapStage` builds: the operators, first one outermost, each freshly
      wrapped around the stages below it. */
  function WrapAll<T, R>(ops: seq<Op<T>>, down: Chain<T, R>): (r: Chain<T, R>)
    ensures Ops(r) == ops + Ops(down)
    ensures TerminalOf(r) == TerminalOf(down)
  {
    if ops == [] then down else
      var r := Chained(ops[0], InitState(), WrapAll(ops[1..], down));
      assert Ops(r) == [ops[0]] + (ops[1..] + Ops(down)) == ops + Ops(down);
      r
  }

  // ---------------------------------------------------------------------
  // Begin

  /** The size Limit announces: a positive size is clamped to `maxSize`. */
  function LimitHint(size: int, maxSize: int): (r: int)
    ensures size > 0 ==> r == if size > maxSize then maxSize else size
    ensures size <= 0 ==> r == size
  {
    if size > 0 && size > maxSize then maxSize else size
  }

  /** The size Skip announces: a positive size loses `n`, but not below zero. */
  function SkipHint(size: int, n: int): (r: int)
    ensures size > 0 ==> r == if size - n < 0 then 0 else size - n
    ensures size <= 0 ==> r == size
  {
    if size > 0 then (if size - n < 0 then 0 else size - n) else size
  }

  function Begin<T, R>(c: Chain<T, R>, size: int): (r: Chain<T, R>)
    ensures Depth(r) == Depth(c) && Ops(r) == Ops(c) && TerminalOf(r).h == TerminalOf(c).h
  {
    match c
    case Terminal(h, result) =>
      (match h.begin
       case NoBegin => c
       case Build(build) => Terminal(h, build(size)))
    case Chained(op, st, down) =>
      match op
      case Filter(_) => Chained(op, st, Begin(down, Iterators.UnknownSize))
      case Map(_) => Chained(op, st, Begin(down, size))
      case FlatMap(_) => Chained(op, st, Begin(down, Iterators.UnknownSize))
      case Peek => Chained(op, st, Begin(down, size))
      case Distinct(_) => Chained(op, st.(seen := {}), Begin(down, Iterators.UnknownSize))
      case Sorted(_) => Chained(op, st.(list := []), Begin(down, size))
      case Limit(maxSize) => Chained(op, st, Begin(down, LimitHint(size, maxSize)))
      case Skip(n) => Chained(op, st, Begin(down, SkipHint(size, n)))
  }

  // ---------------------------------------------------------------------
  // Accept

  /** One operator's action on one element: its new captured state and the
      elements it hands to `down.Accept`, in order. */
  function Step<T>(op: Op<T>, st: StageState<T>, t: T): (r: (StageState<T>, seq<T>))
    ensures !op.Peek? && !op.Distinct? && !op.Sorted? && !op.Limit? && !op.Skip? ==> r.0 == st
  {
    match op
    case Filter(test) => (st, if test(t) then [t] else [])
    case Map(apply) => (st, [apply(t)])
    case FlatMap(flatten) => (st, flatten(t))
    case Peek => (st.(peeked := st.peeked + [t]), [t])
    case Distinct(distincter) =>
      var hash := distincter(t);
      if hash in st.seen then (st, []) else (st.(seen := st.seen + {hash}), [t])
    case Sorted(_) => (st.(list := st.list + [t]), [])
    case Limit(maxSize) => (st.(count := st.count + 1), if st.count < maxSize then [t] else [])
    case Skip(n) => (st.(count := st.count + 1), if st.count >= n then [t] else [])
  }

  function Accept<T, R>(c: Chain<T, R>, t: T): (r: Chain<T, R>)
    ensures Depth(r) == Depth(c) && Ops(r) == Ops(c) && TerminalOf(r).h == TerminalOf(c).h
    decreases Depth(c), 0
  {
    match c
    case Terminal(h, result) => Terminal(h, h.action(result, t))
    case Chained(op, st, down) =>
      var (st', out) := Step(op, st, t);
      Chained(op, st', ForwardAll(down, out))
  }

  /** `Accept` of every element of `xs`, in order, with no `CanFinish` check in between
      (how FlatMap feeds its inner stream to downstream). */
  function ForwardAll<T, R>(c: Chain<T, R>, xs: seq<T>): (r: Chain<T, R>)
    ensures Depth(r) == Depth(c) && Ops(r) == Ops(c) && TerminalOf(r).h == TerminalOf(c).h
    decreases Depth(c), 1, |xs|
  {
    if xs == [] then c else ForwardAll(Accept(c, xs[0]), xs[1..])
  }

  // ---------------------------------------------------------------------
  // CanFinish and End

  /** Whether a Limit stage has let `maxSize` elements through. Until `count` passes
      `maxSize` this is the source's `count == maxSize`; once past it (a FlatMap upstream
      feeds several elements per pull, and a negative `maxSize` starts past it) it holds. */
  function LimitDone(count: int, maxSize: int): (r: bool)
    ensures count <= maxSize ==> (r <==> count == maxSize)
    ensures count > maxSize ==> r
  {
    count >= maxSize
  }

  /** No operator of the chain is a Limit. */
  predicate NoLimit<T>(ops: seq<Op<T>>) {
    forall i | 0 <= i < |ops| :: !ops[i].Limit?
  }

  /** A chained stage asks the first Limit below it, or the terminal when there is none:
      with no Limit, the chain can finish exactly when the terminal's own test says so. */
  function CanFinish<T, R>(c: Chain<T, R>): (r: bool)
    ensures NoLimit(Ops(c)) ==>
      (r <==> TerminalOf(c).h.canFinish.When? && TerminalOf(c).h.canFinish.done(TerminalOf(c).result))
  {
    match c
    case Terminal(h, result) =>
      (match h.canFinish
       case Never => false
       case When(done) => done(result))
    case Chained(op, st, down) =>
      if op.Limit? then
        assert Ops(c)[0] == op;
        LimitDone(st.count, op.maxSize)
      else
        assert NoLimit(Ops(c)) ==> NoLimit(Ops(down)) by {
          forall i | 0 <= i < |Ops(down)| ensures Ops(down)[i] == Ops(c)[i + 1] { }
        }
        CanFinish(down)
  }

  /** The source loop: `Accept` the elements of `xs` in order while `!CanFinish`. */
  function Drive<T, R>(c: Chain<T, R>, xs: seq<T>): (r: Chain<T, R>)
    ensures Depth(r) == Depth(c) && Ops(r) == Ops(c) && TerminalOf(r).h == TerminalOf(c).h
    decreases |xs|
  {
    if xs == [] || CanFinish(c) then c else Drive(Accept(c, xs[0]), xs[1..])
  }

  /** How many elements `Drive` takes from `xs`. */
  function DrivePulls<T, R>(c: Chain<T, R>, xs: seq<T>): (n: nat)
    ensures n <= |xs|
    decreases |xs|
  {
    if xs == [] || CanFinish(c) then 0 else 1 + DrivePulls(Accept(c, xs[0]), xs[1..])
  }

  function End<T, R>(c: Chain<T, R>): (r: Chain<T, R>)
    ensures Depth(r) == Depth(c) && Ops(r) == Ops(c) && TerminalOf(r).h == TerminalOf(c).h
    decreases Depth(c)
  {
    match c
    case Terminal(_, _) => c
    case Chained(op, st, down) =>
      match op
      case Distinct(_) => Chained(op, st.(seen := {}), End(down))
      case Sorted(cmp) =>
        var sorted := Sort(cmp, st.list);
        var flushed := Drive(Begin(down, |sorted|), sorted);
        Chained(op, st.(list := []), End(flushed))
      case _ => Chained(op, st, End(down))
  }

  /** A whole run over a finite source: Begin(size), the source loop, End. */
  function Run<T, R>(c: Chain<T, R>, size: int, xs: seq<T>): (r: Chain<T, R>)
    ensures Ops(r) == Ops(c) && TerminalOf(r).h == TerminalOf(c).h
  {
    End(Drive(Begin(c, size), xs))
  }

  // ---------------------------------------------------------------------
  // Reference semantics

  /** What an operator does to a whole finite sequence. */
  function RefOp<T>(op: Op<T>, xs: seq<T>): seq<T> {
    match op
    case Filter(test) => ListOps.Filter(test, xs)
    case Map(apply) => ListOps.Map(apply, xs)
    case FlatMap(flatten) => ListOps.FlatMap(flatten, xs)
    case Peek => xs
    case Distinct(distincter) => ListOps.Distinct(distincter, xs)
    case Sorted(cmp) => Sort(cmp, xs)
    case Limit(maxSize) => Take(xs, maxSize)
    case Skip(n) => Drop(xs, n)
  }

  /** The composition of the operators, first operator applied first. */
  function Ref<T>(ops: seq<Op<T>>, xs: seq<T>): seq<T> {
    if ops == [] then xs else Ref(ops[1..], RefOp(ops[0], xs))
  }
}
