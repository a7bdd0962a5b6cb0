/** The v1 terminal operations as terminal stages: each one's action on its result
    variable, its options, and what folding that action over a sequence computes. */
module Terminals {
  import opened ListOps
  import opened Stage
  import opened Chain
  import opened ChainProofs
  import Optional

  type TerminalOption<!T, !R> = StageOption<TerminalBegin<R>, (R, T) -> R, TerminalFinish<R>, ()>

  /** `newTerminalStage(action, opts...)` on values: the terminal defaults, then the options. */
  function NewTerminalStage<T, R>(onAction: (R, T) -> R, opts: seq<TerminalOption<T, R>>): (h: TerminalHandlers<T, R>)
    ensures h.end == ()
    ensures (forall i :: 0 <= i < |opts| ==> !opts[i].SetBegin?) ==> h.begin == NoBegin
    ensures (forall i :: 0 <= i < |opts| ==> !opts[i].SetAction?) ==> h.action == onAction
    ensures (forall i :: 0 <= i < |opts| ==> !opts[i].SetCanFinish?) ==> h.canFinish == Never
  {
    UntouchedSlotsKeepDefaults(Handlers(NoBegin, onAction, Never, ()), opts);
    ApplyAll(Handlers(NoBegin, onAction, Never, ()), opts)
  }

  // ---------------------------------------------------------------------
  // ForEach and ToSlice: the elements in arrival order

  /** ForEach's consumer calls, recorded in order. */
  function AppendAction<T>(): (seq<T>, T) -> seq<T> {
    (calls, t) => calls + [t]
  }

  /** ForEach's stage: the consumer on every element, no Begin, never finishing early. */
  function ForEachStage<T>(): (h: TerminalHandlers<T, seq<T>>)
    ensures h.begin == NoBegin && h.action == AppendAction() && h.canFinish == Never
  {
    NewTerminalStage(AppendAction(), [])
  }

  /** ToSlice is ReduceBy with an empty slice (of capacity `size`) and append. */
  function ToSliceOptions<T>(): seq<TerminalOption<T, seq<T>>> {
    [SetBegin(Build(size => []))]
  }

  /** ToSlice's stage: Begin starts an empty slice whatever the size, every element is
      appended, and it never finishes early. */
  function ToSliceStage<T>(): (h: TerminalHandlers<T, seq<T>>)
    ensures h.begin.Build? && forall size :: h.begin.build(size) == []
    ensures h.action == AppendAction() && h.canFinish == Never
  {
    ApplyAllOne(Handlers(NoBegin, AppendAction<T>(), Never, ()), ToSliceOptions<T>()[0]);
    NewTerminalStage(AppendAction(), ToSliceOptions())
  }

  lemma {:induction false} AppendFold<T>(calls: seq<T>, ys: seq<T>)
    ensures Fold(AppendAction(), calls, ys) == calls + ys
    decreases |ys|
  {
    if ys != [] {
      var f := AppendAction<T>();
      assert f(calls, ys[0]) == calls + [ys[0]];
      assert Fold(f, calls, ys) == Fold(f, calls + [ys[0]], ys[1..]);
      AppendFold(calls + [ys[0]], ys[1..]);
      assert (calls + [ys[0]]) + ys[1..] == calls + ys;
    }
  }

  lemma ForEachWellBehaved<T(!new)>()
    ensures Stable(ForEachStage<T>()) && HintFree(ForEachStage<T>())
  {
  }

  lemma ToSliceWellBehaved<T(!new)>()
    ensures Stable(ToSliceStage<T>()) && HintFree(ToSliceStage<T>())
    ensures ToSliceStage<T>().begin.Build? && ToSliceStage<T>().begin.build(0) == []
  {
    ApplyAllOne(Handlers(NoBegin, AppendAction<T>(), Never, ()), ToSliceOptions<T>()[0]);
  }

  // ---------------------------------------------------------------------
  // AllMatch, NoneMatch, AnyMatch: a flag that, once decided, stops the source

  /** The flag stays true only while every element passes. */
  function AllMatchAction<T>(test: T -> bool): (bool, T) -> bool {
    (result, t) => if !test(t) then false else result
  }

  /** The stage can finish once the flag is false. */
  function UntilFalse<T>(): seq<TerminalOption<T, bool>> {
    [SetCanFinish(When(result => !result))]
  }

  function AllMatchStage<T>(test: T -> bool): (h: TerminalHandlers<T, bool>)
    ensures h.begin == NoBegin && h.action == AllMatchAction(test)
    ensures h.canFinish.When? && forall result :: h.canFinish.done(result) <==> !result
  {
    ApplyAllOne(Handlers(NoBegin, AllMatchAction(test), Never, ()), UntilFalse<T>()[0]);
    NewTerminalStage(AllMatchAction(test), UntilFalse())
  }

  /** The flag stays true only while no element passes. */
  function NoneMatchAction<T>(test: T -> bool): (bool, T) -> bool {
    (result, t) => if test(t) then false else result
  }

  function NoneMatchStage<T>(test: T -> bool): (h: TerminalHandlers<T, bool>)
    ensures h.begin == NoBegin && h.action == NoneMatchAction(test)
    ensures h.canFinish.When? && forall result :: h.canFinish.done(result) <==> !result
  {
    ApplyAllOne(Handlers(NoBegin, NoneMatchAction(test), Never, ()), UntilFalse<T>()[0]);
    NewTerminalStage(NoneMatchAction(test), UntilFalse())
  }

  /** The flag turns true at the first passing element and stays true. */
  function AnyMatchAction<T>(test: T -> bool): (bool, T) -> bool {
    (result, t) => if test(t) then true else result
  }

  /** The stage can finish once the flag is true. */
  function UntilTrue<T>(): seq<TerminalOption<T, bool>> {
    [SetCanFinish(When(result => result))]
  }

  function AnyMatchStage<T>(test: T -> bool): (h: TerminalHandlers<T, bool>)
    ensures h.begin == NoBegin && h.action == AnyMatchAction(test)
    ensures h.canFinish.When? && forall result :: h.canFinish.done(result) <==> result
  {
    ApplyAllOne(Handlers(NoBegin, AnyMatchAction(test), Never, ()), UntilTrue<T>()[0]);
    NewTerminalStage(AnyMatchAction(test), UntilTrue())
  }

  lemma {:induction false} AllMatchFold<T>(test: T -> bool, r: bool, ys: seq<T>)
    ensures Fold(AllMatchAction(test), r, ys) <==> r && forall i :: 0 <= i < |ys| ==> test(ys[i])
    decreases |ys|
  {
    if ys != [] {
      AllMatchFold(test, AllMatchAction(test)(r, ys[0]), ys[1..]);
      assert forall i :: 1 <= i < |ys| ==> ys[i] == ys[1..][i - 1];
    }
  }

  lemma {:induction false} NoneMatchFold<T>(test: T -> bool, r: bool, ys: seq<T>)
    ensures Fold(NoneMatchAction(test), r, ys) <==> r && forall i :: 0 <= i < |ys| ==> !test(ys[i])
    decreases |ys|
  {
    if ys != [] {
      NoneMatchFold(test, NoneMatchAction(test)(r, ys[0]), ys[1..]);
      assert forall i :: 1 <= i < |ys| ==> ys[i] == ys[1..][i - 1];
    }
  }

  lemma {:induction false} AnyMatchFold<T>(test: T -> bool, r: bool, ys: seq<T>)
    ensures Fold(AnyMatchAction(test), r, ys) <==> r || exists i :: 0 <= i < |ys| && test(ys[i])
    decreases |ys|
  {
    if ys != [] {
      AnyMatchFold(test, AnyMatchAction(test)(r, ys[0]), ys[1..]);
      assert forall i :: 1 <= i < |ys| ==> ys[i] == ys[1..][i - 1];
      if exists i :: 0 <= i < |ys| && test(ys[i]) {
        var i :| 0 <= i < |ys| && test(ys[i]);
        if i > 0 {
          assert test(ys[1..][i - 1]);
        }
      }
    }
  }

  lemma AllMatchWellBehaved<T(!new)>(test: T -> bool)
    ensures Stable(AllMatchStage(test)) && HintFree(AllMatchStage(test))
    ensures AllMatchStage(test).canFinish == When(result => !result)
  {
    ApplyAllOne(Handlers(NoBegin, AllMatchAction(test), Never, ()), UntilFalse<T>()[0]);
  }

  lemma NoneMatchWellBehaved<T(!new)>(test: T -> bool)
    ensures Stable(NoneMatchStage(test)) && HintFree(NoneMatchStage(test))
    ensures NoneMatchStage(test).canFinish == When(result => !result)
  {
    ApplyAllOne(Handlers(NoBegin, NoneMatchAction(test), Never, ()), UntilFalse<T>()[0]);
  }

  lemma AnyMatchWellBehaved<T(!new)>(test: T -> bool)
    ensures Stable(AnyMatchStage(test)) && HintFree(AnyMatchStage(test))
    ensures AnyMatchStage(test).canFinish == When(result => result)
  {
    ApplyAllOne(Handlers(NoBegin, AnyMatchAction(test), Never, ()), UntilTrue<T>()[0]);
  }

  // ---------------------------------------------------------------------
  // Reduce, ReduceFrom, ReduceWith, ReduceBy, Count

  /** Reduce's `hasElement` and `result` variables, as one optional accumulator. */
  function ReduceAction<T>(accumulator: (T, T) -> T): (Option<T>, T) -> Option<T> {
    (acc: Option<T>, t) => if acc.None? then Some(t) else Some(accumulator(acc.value, t))
  }

  function ReduceStage<T>(accumulator: (T, T) -> T): (h: TerminalHandlers<T, Option<T>>)
    ensures h.begin == NoBegin && h.action == ReduceAction(accumulator) && h.canFinish == Never
  {
    NewTerminalStage(ReduceAction(accumulator), [])
  }

  /** ReduceFrom and ReduceWith: the accumulator itself is the action. */
  function ReduceWithStage<T, R>(accumulator: (R, T) -> R): (h: TerminalHandlers<T, R>)
    ensures h.begin == NoBegin && h.action == accumulator && h.canFinish == Never
  {
    NewTerminalStage(accumulator, [])
  }

  /** ReduceBy: Begin builds the initial value from the announced size. */
  function ReduceByOptions<T, R>(buildInitValue: int -> R): seq<TerminalOption<T, R>> {
    [SetBegin(Build(buildInitValue))]
  }

  function ReduceByStage<T, R>(buildInitValue: int -> R, accumulator: (R, T) -> R): (h: TerminalHandlers<T, R>)
    ensures h.begin == Build(buildInitValue) && h.action == accumulator && h.canFinish == Never
  {
    ApplyAllOne(Handlers(NoBegin, accumulator, Never, ()), ReduceByOptions<T, R>(buildInitValue)[0]);
    NewTerminalStage(accumulator, ReduceByOptions(buildInitValue))
  }

  /** Count's accumulator: one more per element, whatever the element. */
  function CountAction<T>(): (int, T) -> int {
    (count, t) => count + 1
  }

  /** Reduce's result: the optional of the final accumulator (a nil result panics). */
  function ReduceResult<T>(isNil: T -> bool, acc: Option<T>): (r: Optional.Outcome<Optional.Optional<T>, string>)
    ensures acc.None? ==> r == Optional.Return(Optional.Absent)
    ensures acc.Some? ==> r == Optional.Of(isNil, acc.value)
  {
    if acc.Some? then Optional.Of(isNil, acc.value) else Optional.Return(Optional.Empty())
  }

  lemma {:induction false} ReduceFoldSome<T>(accumulator: (T, T) -> T, a: T, ys: seq<T>)
    ensures Fold(ReduceAction(accumulator), Some(a), ys) == Some(Fold(accumulator, a, ys))
    decreases |ys|
  {
    if ys != [] {
      ReduceFoldSome(accumulator, accumulator(a, ys[0]), ys[1..]);
    }
  }

  /** Reduce on no element is empty; otherwise it folds from the first element. */
  lemma ReduceFold<T>(accumulator: (T, T) -> T, ys: seq<T>)
    ensures Fold(ReduceAction(accumulator), None, ys)
         == if ys == [] then None else Some(Fold(accumulator, ys[0], ys[1..]))
  {
    if ys != [] {
      ReduceFoldSome(accumulator, ys[0], ys[1..]);
    }
  }

  lemma {:induction false} CountFold<T>(count: int, ys: seq<T>)
    ensures Fold(CountAction(), count, ys) == count + |ys|
    decreases |ys|
  {
    if ys != [] {
      CountFold(count + 1, ys[1..]);
    }
  }

  lemma ReduceWellBehaved<T(!new), R(!new)>(accumulator: (T, T) -> T, acc: (R, T) -> R)
    ensures Stable(ReduceStage(accumulator)) && HintFree(ReduceStage(accumulator))
    ensures Stable(ReduceWithStage(acc)) && HintFree(ReduceWithStage(acc))
  {
  }

  /** ReduceBy with a builder that ignores the size. */
  lemma ReduceByWellBehaved<T(!new), R(!new)>(buildInitValue: int -> R, accumulator: (R, T) -> R)
    requires forall size: int :: buildInitValue(size) == buildInitValue(0)
    ensures Stable(ReduceByStage(buildInitValue, accumulator)) && HintFree(ReduceByStage(buildInitValue, accumulator))
    ensures ReduceByStage(buildInitValue, accumulator).begin == Build(buildInitValue)
  {
    ApplyAllOne(Handlers(NoBegin, accumulator, Never, ()), ReduceByOptions<T, R>(buildInitValue)[0]);
  }

  // ---------------------------------------------------------------------
  // FindFirst

  /** FindFirst's `find` and `result` variables: the first element, kept once found. */
  function FindFirstAction<T>(): (Option<T>, T) -> Option<T> {
    (found: Option<T>, t) => if found.None? then Some(t) else found
  }

  function UntilFound<T>(): seq<TerminalOption<T, Option<T>>> {
    [SetCanFinish(When((found: Option<T>) => found.Some?))]
  }

  /** FindFirst's stage: keeps the first element and can finish once it has one. */
  function FindFirstStage<T>(): (h: TerminalHandlers<T, Option<T>>)
    ensures h.begin == NoBegin && h.action == FindFirstAction()
    ensures h.canFinish == When((found: Option<T>) => found.Some?)
  {
    ApplyAllOne(Handlers(NoBegin, FindFirstAction<T>(), Never, ()), UntilFound<T>()[0]);
    NewTerminalStage(FindFirstAction(), UntilFound())
  }

  /** FindFirst's result: `OfNullable` of what was found; absent when nothing was. */
  function FindFirstResult<T>(isNil: T -> bool, found: Option<T>): (r: Optional.Optional<T>)
    ensures found.None? ==> r == Optional.Absent
    ensures found.Some? ==> r == Optional.OfNullable(isNil, found.value)
  {
    if found.Some? then Optional.OfNullable(isNil, found.value) else Optional.Empty()
  }

  lemma {:induction false} FindFirstFold<T>(found: Option<T>, ys: seq<T>)
    ensures Fold(FindFirstAction(), found, ys)
         == if found.Some? then found else if ys == [] then None else Some(ys[0])
    decreases |ys|
  {
    if ys != [] {
      FindFirstFold(FindFirstAction()(found, ys[0]), ys[1..]);
    }
  }

  lemma FindFirstWellBehaved<T(!new)>()
    ensures Stable(FindFirstStage<T>()) && HintFree(FindFirstStage<T>())
    ensures FindFirstStage<T>().canFinish == When((found: Option<T>) => found.Some?)
  {
    ApplyAllOne(Handlers(NoBegin, FindFirstAction<T>(), Never, ()), UntilFound<T>()[0]);
  }

  // ---------------------------------------------------------------------
  // Early stop: how many elements the short-circuiting terminals pull

  /** The index of the first element passing `test`, or `|ys|` when none does. */
  function FirstPassing<T>(test: T -> bool, ys: seq<T>): (i: nat)
    ensures i <= |ys|
    ensures forall j :: 0 <= j < i ==> !test(ys[j])
    ensures i < |ys| ==> test(ys[i])
  {
    if ys == [] then 0 else if test(ys[0]) then 0 else 1 + FirstPassing(test, ys[1..])
  }

  /** AnyMatch pulls up to and including the first passing element, and no further. */
  lemma {:induction false} AnyMatchPulls<T(!new)>(test: T -> bool, ys: seq<T>)
    ensures DrivePulls(Terminal(AnyMatchStage(test), false), ys) == Min(FirstPassing(test, ys) + 1, |ys|)
  {
    AnyMatchWellBehaved(test);
    if ys != [] && !test(ys[0]) {
      AnyMatchPulls(test, ys[1..]);
    }
  }

  /** AllMatch pulls up to and including the first failing element, and no further. */
  lemma {:induction false} AllMatchPulls<T(!new)>(test: T -> bool, ys: seq<T>)
    ensures DrivePulls(Terminal(AllMatchStage(test), true), ys) == Min(FirstPassing(x => !test(x), ys) + 1, |ys|)
  {
    AllMatchWellBehaved(test);
    if ys != [] && test(ys[0]) {
      AllMatchPulls(test, ys[1..]);
    }
  }

  /** NoneMatch pulls up to and including the first passing element, and no further. */
  lemma {:induction false} NoneMatchPulls<T(!new)>(test: T -> bool, ys: seq<T>)
    ensures DrivePulls(Terminal(NoneMatchStage(test), true), ys) == Min(FirstPassing(test, ys) + 1, |ys|)
  {
    NoneMatchWellBehaved(test);
    if ys != [] && !test(ys[0]) {
      NoneMatchPulls(test, ys[1..]);
    }
  }

  /** FindFirst pulls one element when there is one. */
  lemma FindFirstPulls<T(!new)>(ys: seq<T>)
    ensures DrivePulls(Terminal(FindFirstStage(), None), ys) == Min(1, |ys|)
  {
    FindFirstWellBehaved<T>();
    if ys != [] {
      var c := Accept(Terminal(FindFirstStage(), None), ys[0]);
      assert CanFinish(c);
    }
  }
}
