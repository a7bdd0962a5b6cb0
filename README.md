# A verified model of the `stream` library

`stream` is a Go library of lazy, Java-style streams. It comes in two generations:

- **v1, a push engine.** A stream is a back-linked list of nodes that share one source iterator. Each intermediate operator adds a node. A terminal operation works in four steps:
  1. It wraps every node's stage around its own terminal stage, with the first operator outermost.
  2. It calls `Begin` with the source's size.
  3. It feeds elements to the wrapped stage while the source has one and the stage cannot finish.
  4. It calls `End`.

  Stages keep their state in captured variables: Distinct's seen-set, Sorted's buffer, Limit's and Skip's counters.
- **v2, on Go 1.23 iterators.** Every operator is a function from one `iter.Seq` to another. Elements are yielded to a consumer, which may refuse further elements. The package has generators (`Of`, `CountFrom`, `Range`, `RangeStep`, `Repeat`, `Generate`) and a small value-typed optional.

This project models both engines, the v1 `optional` package, the v1 comparators and the v2 optional, and proves the properties the library promises.

## How the model is built

- **ListOps: the reference meaning.** Filter, Map, FlatMap, Distinct by key, a stable insertion Sort, Take, Drop and a left Fold on finite sequences. Every engine is proved against these.
- **The v1 stage protocol.** It is modelled twice:
  - as the mutable `Stage.BaseStage` class, whose option setters overwrite one of the four slots;
  - as the `Chain` datatype, for the behaviour of each operator.

  Each operator stage's captured variables become an explicit `StageState`. The protocol calls (`Begin`, `Accept`, `CanFinish`, `End`) are functions from the old chain to the new one.
- **`Pipeline.WrappedStage`.** A class that holds that chain and updates it in place.
- **`Pipeline.RunTerminal`.** The `terminal` loop: a `while` loop that pulls from a mutable `Iterators.SourceIterator`.
- **`ChainProofs.RunMatchesReference`.** The main theorem. A run of a freshly wrapped chain over a finite source ends with the terminal's fold over `Ref(ops, xs)`. This holds whether or not the run stopped pulling early, provided the terminal ignores input once it can finish.
- **v2.** Each operator is a method with a loop. Its caller is a `Consumer`:
  - `Drain` takes every element;
  - `Upto(last)` refuses to continue after element number `last`. This is how `Limit(last + 1)` or an early-returning terminal behaves.

  Each operator's contract gives what the consumer receives as `Received(reference result, consumer)`. It also bounds how many input elements are pulled.

Elements that the source puts behind `any` (v1) become a type parameter. Closures with side effects are modelled as follows:

- Peek's and ForEach's consumer calls are recorded as sequences.
- A supplier is a function of its call index.
- Reflective nil tests are the predicate parameter `isNil`.

## Model

| member | source | states |
|---|---|---|
| ListOps.Filter | impl.go:82-93 | the kept elements are among the input and pass the test, never more than the input |
| ListOps.FilterExactly | impl.go:82-93 | an element is kept exactly when it is in the input and passes the test |
| ListOps.FilterAppend | impl.go:82-93 | filtering distributes over concatenation, so filtering element by element is filtering the whole |
| ListOps.Map | impl.go:96-102 | one result per element, each the function of the element at the same position |
| ListOps.MapAppend | impl.go:96-102 | mapping distributes over concatenation |
| ListOps.FlatMap | impl.go:105-114 | the result is the first element's flattening followed by the rest's |
| ListOps.FlatMapAppend | impl.go:105-114 | flattening distributes over concatenation |
| ListOps.DistinctFrom | impl.go:132-150 | the survivors are input elements whose key was not already seen, never more than the input |
| ListOps.DistinctFromAppend | impl.go:132-150 | deduplicating a concatenation continues from the keys of the first part |
| ListOps.DistinctFromUnique | impl.go:132-150 | no two survivors share a key |
| ListOps.DistinctFromKeys | impl.go:132-150 | the survivors' keys are exactly the input's keys minus those already seen |
| ListOps.Keys | impl.go:138-144 | the set of keys of the sequence, both inclusions |
| ListOps.KeysCons | impl.go:138-144 | the keys of a cons are the head's key plus the tail's keys |
| ListOps.Take | impl.go:184-203 | a prefix of length `n` clamped to 0 and the input length |
| ListOps.TakeAppend | impl.go:184-203 | taking no more than the length of `a` from `a + b` only looks at `a` |
| ListOps.TakeCons | impl.go:184-203 | taking from a cons keeps the head and takes one fewer from the tail |
| ListOps.Drop | impl.go:206-224 | the suffix after `n` elements (all for `n <= 0`, none past the end), position by position |
| ListOps.DropCons | impl.go:206-224 | dropping from a cons drops one fewer from the tail |
| ListOps.Fold | impl.go:327-334 | the left fold: the accumulator applied to the first element, then to the rest |
| ListOps.FoldAppend | impl.go:327-334 | folding a concatenation folds the second part from the first part's result |
| ListOps.FoldFixpoint | impl.go:271-282 | a result the action no longer changes stays put whatever follows |
| ListOps.Insert | impl.go:153-181 | inserting adds exactly the element: same multiset plus one, length plus one |
| ListOps.SortedCons | impl.go:153-181 | a value no element of a sorted list comes before can head it and keep it sorted |
| ListOps.InsertSorted | impl.go:153-181 | inserting into a sorted sequence keeps it sorted under a strict order |
| ListOps.Sort | impl.go:153-181 | sorting is a permutation of the input |
| ListOps.SortSorted | impl.go:153-181 | the result is sorted under any strict order |
| ListOps.SortOfSorted | impl.go:153-181 | an already sorted input is returned unchanged |
| ListOps.SortIdempotent | impl.go:153-181 | sorting twice is sorting once |
| ListOps.InsertLast | impl.go:153-181 | an element no smaller than every other goes last |
| ListOps.EquivalentTo | v2/iter.go:122-134 | the elements equivalent to `y`, in their order of appearance |
| ListOps.EquivalentToAppend | v2/iter.go:122-134 | picking out the equivalent elements distributes over concatenation |
| ListOps.InsertStable | v2/iter.go:122-134 | inserting keeps the relative order of equivalent elements, the new one after older equivalents |
| ListOps.SortStable | v2/iter.go:122-134 | under a strict weak order, equivalent elements keep their input order |
| ListOps.InsertAt | iterator.go:136-155 | inserting puts the element just before the first element it is before, so any such position found by scanning gives the same result |
| ListOps.MovedDown | iterator.go:153-155 | moving element `i` down to `k` keeps the length, puts it at `k`, shifts the elements in between up by one and keeps the rest |
| ListOps.MovedDownInserts | iterator.go:136-155 | with the sorted prefix in front, moving the next element down to where it belongs is inserting it |
| ListOps.SortSnoc | impl.go:153-181 | sorting one more element inserts it into the sorted prefix |
| ListOps.SortSortedIfStrict | impl.go:153-181 | under a strict order the sort is sorted |
| Comparators.IntComparator | types/type.go:40-48 | -1, 0 or 1, negative exactly when left < right, zero exactly when equal |
| Comparators.Int64Comparator | types/type.go:50-58 | the same three-way result, tested in the other order |
| Comparators.ReverseOrderSwaps | types/type.go:62-66 | the reversed comparator is the original with its arguments swapped; "before" is reversed |
| Comparators.ReverseTwice | types/type.go:62-66 | reversing twice gives back the original on every pair |
| Comparators.ReverseKeepsStrictWeakOrder | types/type.go:62-66 | a reversed strict weak order is a strict weak order |
| Comparators.IntComparatorOrders | types/type.go:40-48 | the int comparator is a strict weak order |
| Comparators.SortedReverseIsDescending | types/type.go:62-66 | sorting by the reversed int comparator is a descending permutation |
| Comparators.SortAscendingReversed | types/type.go:62-66 | sorting a strictly ascending sequence by the reversed comparator reverses it |
| Comparators.SortOneToNine | types/type.go:62-66 | sorting the sequence 1..9 by the reversed int comparator gives 9..1 |
| Factory.SortedRangeOneToNine | example_test.go:273-280 | the stream `IntRange(1, 10).Sorted(ReverseOrder(IntComparator))`, its unboxing Map and Sorted stage included, yields 9 down to 1 |
| Optional.Empty | optional/optional.go:33-35 | the absent value is not present |
| Optional.Of | optional/optional.go:38-43 | panics with ErrNil exactly for nil; otherwise present, and Get returns the value |
| Optional.OfNullable | optional/optional.go:46-51 | present exactly for a non-nil value, equal to `Of`; the result is well formed |
| Optional.Get | optional/present.go:9-11 | returns exactly when present; the absent value panics with ErrAbsent |
| Optional.IsPresent | optional/present.go:13-15 | true exactly for a present optional; the absent one answers false |
| Optional.IfPresent | optional/present.go:17-19 | the action is called once, with the value, exactly when present |
| Optional.Filter | optional/present.go:21-26 | present exactly when present and passing the test, and then unchanged |
| Optional.Map | optional/present.go:28-30 | present exactly when present and the mapped value is not nil, holding the mapped value |
| Optional.FlatMap | optional/present.go:32-34 | a present value becomes exactly the mapper's result on its value; absent stays absent (absent.go:29-31) |
| Optional.FlatMapAssociative | optional/present.go:32-34 | flat-mapping by `f` then `g` is flat-mapping once by `f` followed by `g` |
| Optional.OrElse | optional/present.go:36-38 | the value when present, the default otherwise |
| Optional.OrElseGet | optional/absent.go:37-39 | OrElse with the supplier's result |
| Optional.OrPanic | optional/absent.go:41-43 | returns exactly when present; absent panics with the given argument |
| Optional.OrPanicGet | optional/absent.go:45-47 | OrPanic with the supplier's result |
| Optional.OperationsKeepWellFormed | optional/optional.go:38-51 | no factory or operation makes a present value that holds nil |
| Optional.AbsentIgnoresFunctions | optional/absent.go:11-47 | the absent value: Filter, Map and FlatMap give absent, IfPresent calls nothing, Get panics |
| Optional.PresentIgnoresDefaults | optional/present.go:36-50 | a present value ignores every default and every panic argument |
| Optional.FlatMapOfNullableIsMap | optional/present.go:28-34 | FlatMap with OfNullable of a function is Map with that function |
| Optional.FlatMapOfNullableIdentity | optional/present.go:32-34 | FlatMap with OfNullable gives back every well-formed optional |
| Optional.FilterFilter | optional/present.go:21-26 | filtering twice is filtering by both tests |
| Stage.Apply | stage.go:46-67 | each option overwrites exactly its one slot |
| Stage.ApplyAllOne | stage.go:90-96 | applying a list of one option is applying that option |
| Stage.ApplyAllTwo | stage.go:90-96 | applying two options applies them in order |
| Stage.ApplyAllThree | stage.go:90-96 | applying three options applies them in order |
| Stage.UntouchedSlotsKeepDefaults | stage.go:90-96 | a slot no option sets keeps its default |
| Stage.LastOptionWins | stage.go:90-96 | the last option setting a slot decides it |
| Stage.OptionsOnDifferentSlotsCommute | stage.go:46-67 | options on different slots commute |
| Stage.ChainedDefaults | stage.go:79-88 | every slot of a chained stage defaults to the downstream stage's method |
| Stage.BaseStage.ApplyOption | stage.go:44-67 | the option assigns its slot in place |
| Stage.BaseStage.Chained | stage.go:90-96 | the new stage holds the downstream defaults with the options applied in order; it stands alone, since the engine builds chained stages as `Chain` values from the same `OptionsOf`/`ApplyAll` |
| Stage.BaseStage.Terminal | stage.go:106-121 | the new stage holds no-op Begin/End and never-finish around the action, with the options applied |
| Iterators.EpCompareTo | iterator.go:169-171 | the sign of the difference is the order of the endpoints |
| Iterators.EpAdd | iterator.go:173-175 | adding a step moves the endpoint by exactly that step |
| Iterators.SizeIfKnown | iterator.go:45-47 | only a slice knows its size, its length; the others report -1 |
| Iterators.HasNextOf | iterator.go:121-126 | slices run out at their end; seeds and suppliers never do; a range runs while before `to` in the step's direction |
| Iterators.NextOf | iterator.go:53-57 | each cursor's element and its advanced cursor |
| Iterators.Pending | iterator.go:7-11 | the first `n` elements a cursor yields, never more than `n` |
| Iterators.SliceYields | iterator.go:40-57 | a slice cursor yields the rest of its slice, in order, once each |
| Iterators.SeedYields | iterator.go:77-84 | a seed cursor yields `seed, f(seed), f(f(seed)), ...` without end |
| Iterators.SupplierYields | iterator.go:98-104 | a supplier cursor never runs out and yields its results in call order |
| Iterators.RangeValuesInRange | iterator.go:121-132 | every value a range cursor yields is `from + i*step` and lies in range |
| Iterators.RangeStops | iterator.go:121-126 | a range cursor that yields fewer values than asked stops at the first value out of range |
| Iterators.RangeYields | iterator.go:121-132 | a range yields `from + i*step` while in range and stops only at the first value out of range |
| Iterators.ZeroStepNeverEnds | example_test.go:189-196 | a non-empty range with step 0 repeats its start forever |
| Iterators.CountDownExample | example_test.go:182-188 | `IntRangeStep(5, 0, -1)` yields 5, 4, 3, 2, 1 |
| Iterators.StepThreeExample | example_test.go:204-210 | `Int64RangeStep(0, 10, 3)` yields 0, 3, 6, 9 |
| Iterators.SourceIterator.GetSizeIfKnown | iterator.go:45-47 | the size of the current cursor |
| Iterators.SourceIterator.HasNext | iterator.go:121-126 | whether the cursor has an element |
| Iterators.SourceIterator.Next | iterator.go:128-132 | returns the cursor's next element and advances the cursor in place |
| Iterators.Sortable.Len | iterator.go:145-147 | the list's length |
| Iterators.Sortable.Less | iterator.go:149-151 | "before" by the comparator |
| Iterators.Sortable.Swap | iterator.go:153-155 | exchanges two positions, leaves the others and keeps the multiset |
| Iterators.Sortable.FirstAfter | iterator.go:149-151 | the first position before `i` whose element `list[i]` is before, or `i`, scanning with `Less` |
| Iterators.Sortable.MoveDown | iterator.go:153-155 | adjacent `Swap`s move `list[i]` down to `p`, shift the elements in between up by one and keep the rest |
| Iterators.Sortable.Sort | impl.go:166-170 | sorting through `Len`, `Less` and `Swap` leaves exactly `ListOps.Sort` of the old list: a permutation, sorted under a strict order |
| Chain.InitState | impl.go:132-150 | a freshly wrapped stage has seen nothing, buffered nothing and counted zero |
| Chain.OptionsOf | impl.go:82-224 | the options each operator passes to `newChainedStage` |
| Chain.WrapAll | impl.go:68-74 | wrapping puts the operators, first outermost, around the stages below and keeps the terminal |
| Chain.LimitHint | impl.go:187-193 | a positive size is clamped to `maxSize`; other sizes pass unchanged |
| Chain.SkipHint | impl.go:209-216 | a positive size loses `n` but not below zero; other sizes pass unchanged |
| Chain.Begin | impl.go:57-65 | Begin keeps the chain's operators and terminal handlers |
| Chain.Step | impl.go:82-102 | stateless operators keep their state |
| Chain.ForwardAll | impl.go:105-114 | feeding a whole inner stream keeps the chain's depth, operators and terminal handlers |
| Chain.Accept | impl.go:57-65 | Accept keeps the chain's operators and terminal handlers |
| Chain.Drive | impl.go:61-63 | the source loop keeps the chain's operators and terminal handlers |
| Chain.DrivePulls | impl.go:61-63 | the loop never pulls more than the source has |
| Chain.LimitDone | impl.go:199-201 | up to `maxSize` it is the source's `count == maxSize`; past `maxSize` it holds (see Findings) |
| Chain.CanFinish | stage.go:36-38 | with no Limit in the chain, the chain can finish exactly when the terminal's own test holds on its result |
| Chain.End | impl.go:64 | End keeps the chain's operators and terminal handlers |
| Chain.Run | impl.go:57-65 | a whole run keeps the chain's operators and terminal handlers |
| ChainProofs.ForwardTerminal | stage.go:106-121 | the terminal stage folds its action over what it is fed |
| ChainProofs.ForwardChained | stage.go:90-96 | feeding an operator stage feeds downstream with what the operator hands down |
| ChainProofs.ForwardAllAppend | impl.go:105-114 | feeding a concatenation is feeding one part, then the other |
| ChainProofs.StepsFilter | impl.go:82-93 | Filter hands down exactly the passing elements |
| ChainProofs.StepsMap | impl.go:96-102 | Map hands down exactly the mapped elements |
| ChainProofs.StepsFlatMap | impl.go:105-114 | FlatMap hands down exactly the flattening |
| ChainProofs.StepsPeek | impl.go:117-124 | Peek hands everything down unchanged and calls its consumer once per element |
| ChainProofs.StepsDistinct | impl.go:132-150 | Distinct hands down the unseen-key elements and adds their keys to the set |
| ChainProofs.StepsSorted | impl.go:153-164 | Sorted hands down nothing while accepting and buffers everything |
| ChainProofs.StepsLimit | impl.go:194-198 | Limit hands down what arrives while fewer than `maxSize` have arrived, counting every arrival |
| ChainProofs.StepsSkipPast | impl.go:217-222 | once `n` elements have arrived, Skip hands down every later arrival and keeps counting |
| ChainProofs.StepsSkip | impl.go:217-222 | Skip hands down what arrives once `n` have arrived, counting every arrival |
| ChainProofs.StepsClean | impl.go:82-224 | from a fresh state each operator hands down its reference result; Sorted buffers all |
| ChainProofs.BeginTwice | impl.go:153-181 | beginning twice is beginning once with the second size |
| ChainProofs.BeginIgnoresSize | impl.go:347-355 | with a size-independent terminal, the announced size does not matter |
| ChainProofs.InvBegin | impl.go:165-179 | after Begin, the chain below every Sorted stage is idle |
| ChainProofs.FreshBegin | impl.go:133-137 | Begin keeps freshly wrapped stages fresh |
| ChainProofs.BeginResult | impl.go:347-355 | once begun, the terminal holds its initial result |
| ChainProofs.FinishedIgnoresInput | impl.go:57-65 | once a chain can finish, more input does not change the final result |
| ChainProofs.FinishedLimit | impl.go:195-200 | a Limit that has let `maxSize` through hands nothing more down |
| ChainProofs.FinishedSorted | impl.go:171-178 | a Sorted stage whose idle downstream can finish flushes nothing |
| ChainProofs.DriveMatchesFullFeed | impl.go:61-63 | stopping the source early ends with the same result as feeding everything |
| ChainProofs.FullFeedMatchesReference | impl.go:57-65 | feeding everything to a fresh chain folds the terminal over the reference composition |
| ChainProofs.WrapAllSnoc | impl.go:68-74 | wrapping from the last node back to the head builds the first-outermost chain |
| ChainProofs.WrapAllFresh | impl.go:68-74 | wrapping fresh stages keeps the chain fresh |
| ChainProofs.RunMatchesReference | impl.go:57-65 | a run of a freshly wrapped chain yields the terminal's fold over the reference result, early stop or not |
| Pulls.SlotsOfOperators | impl.go:82-224 | every operator sets its action; only Limit sets CanFinish; only Distinct and Sorted set End; Map and Peek leave Begin |
| Pulls.DownSlotsForward | stage.go:79-88 | an unset slot is the downstream stage's call |
| Pulls.LimitPulls | impl.go:184-203 | a Limit stops the source after `maxSize - count` more pulls, whatever is below it, and pulls nothing once `count >= maxSize`; the original `count == maxSize` differs only past the bound (see Findings) |
| Pulls.MapPulls | impl.go:96-102 | Map passes CanFinish up and pulls as its downstream does |
| Pulls.PeekPulls | impl.go:117-124 | Peek pulls as downstream does and its consumer sees exactly the pulled elements |
| Pulls.PeekThenLimitPullsTen | example_test.go:143-151 | `Repeat.Peek.Limit(10)` pulls exactly 10 and the consumer sees those 10 |
| Pulls.FlatMapTwiceLength | impl.go:105-114 | doubling every element doubles the length |
| Pulls.FlatMapOvershootsLimit | impl.go:199-201 | below a doubling FlatMap, Limit(1) counts 2n, so `count == 1` never holds |
| Pulls.FlatMapThenLimitPullsOne | impl.go:184-203 | with `count >= maxSize` the same stream pulls one element and stops |
| Pulls.LimitPullsAsWrittenCount | impl.go:194-201 | with the original `count == maxSize` test, a Limit not yet past its bound pulls `maxSize - count` more (or the whole source if shorter), one past its bound pulls the whole source |
| Pulls.LimitAsWrittenAgrees | impl.go:194-201 | while `count <= maxSize`, the original and the corrected test pull the same number of elements |
| Pulls.NegativeLimitPulls | impl.go:194-201 | for negative `maxSize` the original test never holds and the whole source is pulled; the corrected test pulls nothing |
| Terminals.NewTerminalStage | stage.go:106-121 | terminal defaults: no Begin, the action, never finish, no End, unless an option sets them |
| Terminals.AppendFold | impl.go:231-234 | recording calls appends every element in order |
| Terminals.ForEachStage | impl.go:231-233 | no Begin, an action that records each element, never finishes early |
| Terminals.ToSliceStage | impl.go:236-247 | Begin builds an empty slice for every size, the action appends, never finishes early |
| Terminals.ForEachWellBehaved | impl.go:231-234 | ForEach's terminal ignores the size and never finishes early |
| Terminals.ToSliceWellBehaved | impl.go:236-248 | ToSlice's terminal starts from an empty slice whatever the size |
| Terminals.AllMatchFold | impl.go:271-282 | the flag stays true exactly when every element passes |
| Terminals.AllMatchStage | impl.go:271-281 | the AllMatch action, no Begin; it can finish exactly when the flag is false |
| Terminals.NoneMatchFold | impl.go:284-295 | the flag stays true exactly when no element passes |
| Terminals.NoneMatchStage | impl.go:284-294 | the NoneMatch action, no Begin; it can finish exactly when the flag is false |
| Terminals.AnyMatchFold | impl.go:297-307 | the flag becomes true exactly when some element passes |
| Terminals.AnyMatchStage | impl.go:297-307 | the AnyMatch action, no Begin; it can finish exactly when the flag is true |
| Terminals.AllMatchWellBehaved | impl.go:277-279 | AllMatch can finish once the flag is false, and stays stable |
| Terminals.NoneMatchWellBehaved | impl.go:290-292 | NoneMatch can finish once the flag is false, and stays stable |
| Terminals.AnyMatchWellBehaved | impl.go:303-305 | AnyMatch can finish once the flag is true, and stays stable |
| Terminals.ReduceFoldSome | impl.go:309-324 | after the first element, Reduce folds the accumulator |
| Terminals.ReduceFold | impl.go:309-324 | Reduce is empty on no element, otherwise the fold from the first element |
| Terminals.ReduceStage | impl.go:309-319 | Reduce's action, no Begin, never finishes early |
| Terminals.ReduceWithStage | impl.go:327-342 | the accumulator itself is the action; no Begin, never finishes early |
| Terminals.ReduceByStage | impl.go:347-355 | Begin builds the initial value from the size; the accumulator is the action; never finishes early |
| Terminals.ReduceResult | impl.go:320-323 | no element gives Empty; otherwise `Of` the result (which panics on nil) |
| Terminals.CountFold | impl.go:372-376 | counting adds one per element |
| Terminals.ReduceWellBehaved | impl.go:309-345 | Reduce, ReduceFrom and ReduceWith never finish early and ignore the size |
| Terminals.ReduceByWellBehaved | impl.go:347-355 | ReduceBy's Begin builds the initial value |
| Terminals.FindFirstFold | impl.go:357-367 | FindFirst keeps the first element and ignores the rest |
| Terminals.FindFirstStage | impl.go:357-369 | FindFirst's action, no Begin; it can finish exactly once an element is found |
| Terminals.FindFirstResult | impl.go:368 | `OfNullable` of the found element, absent when nothing was found |
| Terminals.FindFirstWellBehaved | impl.go:365-367 | FindFirst can finish once something is found |
| Terminals.FirstPassing | impl.go:297-307 | the index of the first passing element: all before fail, it passes |
| Terminals.AnyMatchPulls | impl.go:297-307 | AnyMatch pulls up to and including the first passing element, no further |
| Terminals.AllMatchPulls | impl.go:271-282 | AllMatch pulls up to and including the first failing element, no further |
| Terminals.NoneMatchPulls | impl.go:284-295 | NoneMatch pulls up to and including the first passing element, no further |
| Terminals.FindFirstPulls | impl.go:357-370 | FindFirst pulls one element when there is one |
| Pipeline.NewHead | impl.go:43-45 | a head node has the source and no operator |
| Pipeline.NewNode | impl.go:48-54 | a new node adds one operator and shares the previous node's source |
| Pipeline.WrappedStage.Begin | stage.go:28-30 | Begin updates the stages in place |
| Pipeline.WrappedStage.Accept | stage.go:32-34 | Accept updates the stages in place |
| Pipeline.WrappedStage.CanFinish | stage.go:36-38 | whether the wrapped stage can finish |
| Pipeline.WrappedStage.End | stage.go:40-42 | End updates the stages in place |
| Pipeline.WrapStage | impl.go:68-74 | the loop from the last node to the head builds the first-outermost chain around the terminal |
| Pipeline.PullStep | impl.go:61-63 | one pull keeps the loop on track to the whole drive and within its bound |
| Pipeline.Stopped | impl.go:61-63 | when the loop stops, stage and source are where the whole drive ends |
| Pipeline.RunTerminal | impl.go:57-65 | the final stage is End of the drive over the pending elements, and the source is advanced by exactly the pulls |
| Pipeline.LimitHalts | impl.go:184-203 | a Limit stops the loop within `maxSize - count` pulls, whatever the source, using the corrected `count >= maxSize` test (see Findings) |
| Pipeline.LimitedStreamHalts | factory.go:162-164 | a stream starting with `Limit(n)` ends within `n` pulls, even on an endless source; for negative `n` it pulls nothing under the corrected test (see Findings) |
| Pipeline.Halts | impl.go:61-63 | when the loop halts within `fuel`, the source is pulled at most `fuel` times |
| Pipeline.RunFolds | impl.go:57-65 | a terminal run folds the terminal action over the reference elements |
| Pipeline.ForEach | impl.go:231-234 | the consumer is called with the elements, in order |
| Pipeline.ToSlice | impl.go:236-248 | the slice of the elements, in order |
| Pipeline.AllMatch | impl.go:271-282 | whether every element passes; with no operator, the source stops right after the first failure |
| Pipeline.NoneMatch | impl.go:284-295 | whether no element passes; with no operator, the source stops right after the first match |
| Pipeline.AnyMatch | impl.go:297-307 | whether some element passes; with no operator, the source stops right after the first match |
| Pipeline.Reduce | impl.go:309-324 | Empty on no element, otherwise `Of` the fold from the first element |
| Pipeline.ReduceFrom | impl.go:327-333 | the fold from the initial value |
| Pipeline.ReduceWith | impl.go:336-342 | the fold from the initial value of the result type |
| Pipeline.ReduceBy | impl.go:347-355 | for a size-independent builder, the fold from the built value |
| Pipeline.FindFirst | impl.go:357-370 | `OfNullable` of the first element, absent when none; with no operator, at most one pull |
| Pipeline.Count | impl.go:372-376 | the number of elements |
| Factory.Of | factory.go:53-55 | a head over a slice cursor at the start of the elements |
| Factory.Iterate | factory.go:145-147 | a head over a seed cursor |
| Factory.Generate | factory.go:150-152 | a head over a supplier cursor |
| Factory.Repeat | factory.go:155-159 | a head over a constant supplier |
| Factory.RepeatN | factory.go:162-164 | Repeat followed by one `Limit(count)` |
| Factory.IntRangeStep | factory.go:172-178 | a head over a range cursor followed by one unboxing Map |
| Factory.IntRange | factory.go:167-169 | IntRangeStep with step 1 |
| Factory.Int64RangeStep | factory.go:186-190 | the same from 64-bit endpoints |
| Factory.Int64Range | factory.go:181-183 | Int64RangeStep with step 1 |
| Factory.OfYields | factory.go:53-55 | `Of(xs...)` yields exactly `xs` |
| Factory.RepeatNYields | factory.go:162-164 | the reference meaning of `RepeatN(e, n)` is `n` copies of `e`, none for negative `n` (where the loop as written does not stop; see Findings) |
| Factory.RepeatNegativeNeverStopsAsWritten | factory.go:162-164 | `RepeatN(e, n)` with `n < 0`: under the original test every pull of the endless source passes the loop, however many; the corrected test pulls none |
| Factory.RepeatNDistinctYieldsOne | example_test.go:266-272 | `RepeatN(e, 10).Distinct` yields `e` once |
| Factory.UnitRange | factory.go:167-169 | a range cursor from `a` to `b` with step 1 yields `a, a+1, ..., b-1` |
| Factory.IntRangeYields | factory.go:167-169 | `IntRange(a, b)` yields `a, a+1, ..., b-1` |
| Factory.CountDownYields | example_test.go:182-188 | `IntRangeStep(5, 0, -1)` streams 5, 4, 3, 2, 1 |
| Factory.StepThreeYields | example_test.go:204-210 | `Int64RangeStep(0, 10, 3)` streams 0, 3, 6, 9 |
| V2Optional.Of | v2/optional/optional.go:12-14 | present with the value, no nil check |
| V2Optional.Nil | v2/optional/optional.go:16-18 | absent, holding the zero value |
| V2Optional.OfPtr | v2/optional/optional.go:20-25 | present exactly for a non-nil pointer, holding its target |
| V2Optional.Get | v2/optional/optional.go:32 | the flag is the presence |
| V2Optional.IsPresent | v2/optional/optional.go:41 | true exactly when the record holds a value |
| V2Optional.Must | v2/optional/optional.go:34-39 | returns the value exactly when present, else panics with ErrAbsent |
| V2Optional.IsAbsent | v2/optional/optional.go:43 | the negation of presence |
| V2Optional.IfPresent | v2/optional/optional.go:45-48 | the consumer is called once with the value when present, never otherwise |
| V2Optional.IfAbsent | v2/optional/optional.go:50-54 | the function is called once exactly when absent |
| V2Optional.Value | v2/optional/optional.go:56 | the stored value, present or not |
| V2Optional.Or | v2/optional/optional.go:58-63 | the value when present, the default otherwise |
| V2Optional.OrZero | v2/optional/optional.go:65-70 | the value when present, the zero value otherwise |
| V2Optional.OrGet | v2/optional/optional.go:72-77 | the value when present, else the supplier's result; the supplier is called exactly when absent |
| V2Optional.PtrOf | v2/optional/optional.go:79-84 | nil exactly when absent, else a pointer to a copy of the value (see Left out) |
| V2Optional.Filter | v2/optional/optional.go:86-93 | present exactly when present and passing, then unchanged, else Nil |
| V2Optional.Map | v2/optional/optional.go:95-104 | present exactly when present and the mapped value is not nil, holding it, else Nil |
| V2Optional.FlatMap | v2/optional/optional.go:106-111 | the function's result when present, Nil otherwise |
| V2Optional.OperationsKeepWellFormed | v2/optional/optional.go:12-111 | every factory and operation builds absent records that hold the zero value |
| V2Optional.PtrRoundTrip | v2/optional/optional.go:20-25 | `OfPtr(o.Ptr())` gives back `o` |
| V2Optional.PresentIgnoresDefaults | v2/optional/optional.go:58-77 | a present value ignores every default, and Must returns it |
| V2Optional.AbsentFallsBack | v2/optional/optional.go:58-77 | an absent value returns the defaults, calls the supplier, and Must panics |
| V2Optional.FlatMapUnits | v2/optional/optional.go:106-111 | `Of` is a unit of FlatMap on both sides |
| V2Optional.FilterFilter | v2/optional/optional.go:86-93 | filtering twice is filtering by both tests |
| V2Iter.Received | v2/iter.go:13-27 | what a consumer receives is a prefix: all for Drain, at most `last + 1` for Upto |
| V2Iter.ReceivedExactly | v2/iter.go:13-27 | a prefix yielded until exhaustion or the consumer's refusal is exactly what it receives |
| V2Iter.Filter | v2/iter.go:13-27 | the consumer receives the passing elements; pulling stops only right after the passing element it refused |
| V2Iter.Map | v2/iter.go:31-42 | the consumer receives the mapped elements, one pull per element received |
| V2Iter.YieldEach | v2/iter.go:62-66 | yields the inner sequence until the consumer refuses |
| V2Iter.FlatMap | v2/iter.go:53-69 | the consumer receives the flattening; an early stop happens inside the last pulled element's flattening |
| V2Iter.Peek | v2/iter.go:81-96 | the consumer receives the input; the peek function sees exactly the pulled elements |
| V2Iter.Distinct | v2/iter.go:100-118 | the consumer receives the first element of each key, and they are the distinct elements of the pulled prefix |
| V2Iter.DistinctPrefix | v2/iter.go:100-118 | deduplicating a prefix gives a prefix of deduplicating the whole |
| V2Iter.Sorted | v2/iter.go:122-134 | the whole input is pulled and the consumer receives it sorted |
| V2Iter.Limit | v2/iter.go:138-153 | the consumer receives the first `limit` elements; no pull for `limit <= 0`, at most `limit` pulls |
| V2Iter.Skip | v2/iter.go:157-171 | the consumer receives the input after `skip` elements; early stop only when the consumer refuses |
| V2Iter.DropPulled | v2/iter.go:157-171 | what Skip yields from the pulled prefix is a prefix of what it yields from the whole input, and all of it once the input is used up |
| V2Iter.DropNext | v2/iter.go:161-168 | pulling one more element adds it to Skip's output exactly when `skip` values have already been pulled |
| V2Iter.ForEach | v2/iter.go:175-179 | the consumer is called with every element, in order |
| V2Iter.Collect | v2/iter.go:183-188 | the slice of all elements |
| V2Iter.AllMatch | v2/iter.go:192-199 | whether all pass; pulls stop right after the first failure |
| V2Iter.NoneMatch | v2/iter.go:203-210 | whether none pass; pulls stop right after the first match |
| V2Iter.AnyMatch | v2/iter.go:214-221 | whether some pass; pulls stop right after the first match |
| V2Iter.Reduce | v2/iter.go:226-241 | Nil on no element, otherwise `Of` the fold from the first element |
| V2Iter.ReduceFrom | v2/iter.go:246-252 | the fold from the initial value |
| V2Iter.ReduceWith | v2/iter.go:257-263 | the fold from the initial value of the result type |
| V2Iter.FindFirst | v2/iter.go:267-272 | `Of` the first element, Nil when none, at most one pull |
| V2Iter.Count | v2/iter.go:276-281 | the number of elements |
| V2Factory.Of | v2/factory.go:11-19 | the consumer receives the elements, in order |
| V2Factory.CountFrom | v2/factory.go:29-37 | `from, from+1, ...` until the consumer refuses |
| V2Factory.Repeat | v2/factory.go:70-78 | `e` again and again until the consumer refuses |
| V2Factory.Generate | v2/factory.go:83-91 | the supplier's results in call order, one call per element received |
| V2Factory.RangeValues | v2/factory.go:48-65 | the range values, the same as the v1 range cursor's |
| V2Factory.RangeValuesSnoc | v2/factory.go:48-65 | one more in-range step appends `from + n*step` |
| V2Factory.RangeUp | v2/factory.go:50-55 | with a non-negative step, the values from `from` stepping up while below `to`, until refused |
| V2Factory.RangeDown | v2/factory.go:56-62 | with a negative step, the values stepping down while above `to`, until refused |
| V2Factory.RangeStep | v2/factory.go:48-65 | the range values, stopping at the first value out of range or at the consumer's refusal |
| V2Factory.Range | v2/factory.go:41-43 | `from, from+1, ...` below `to`, until refused |
| V2Factory.CountDownValues | v2/factory.go:48-65 | `RangeStep(5, 0, -1)` counts 5, 4, 3, ... |
| V2Factory.RangeStepThenLimit | v2/example_test.go:38-43 | `RangeStep(5, 0, -1).Limit(4)` yields 5, 4, 3, 2 |
| V2Factory.RangeThenLimitCount | v2/example_test.go:37-42 | `Range(0, 10).Limit(9).Count()` is 9 |
| V2Factory.RepeatThenLimit | v2/example_test.go:46-50 | `Repeat(e).Limit(5)` collects five `e` |
| V2Factory.GenerateThenLimit | v2/example_test.go:62-68 | `Generate(get).Limit(n)` calls the supplier `n` times and yields its results |

## Left out

- The source iterators over typed slices and maps (`OfInts`, `OfSlice`, `OfMap`, ...) and `ToElementSlice`/`ToSliceOf`. They rest on reflection. Only the generic slice iterator is modelled.
- `IsNil`, in both packages, is reflective. It is the predicate parameter `isNil`.
- 64-bit overflow is not modelled: ints are unbounded.
  - `Count`'s int64 counter cannot wrap here.
  - The v1 endpoints' `CompareTo` returns a difference that could overflow `int`. Here it is exact.
  - The v2 `Number` type parameters and their unsigned instantiations are modelled as `int`.
- `sort.Sort`'s algorithm (pattern-defeating quicksort) is not modelled. `Iterators.Sortable.Sort` sorts through the same `Len`/`Less`/`Swap` adapter by insertion, and v1 `Sorted` is specified by that stable insertion sort. `sort.Sort` is not stable, so for elements the comparator deems equal the model fixes one order the Go code does not promise.
- Suppliers, consumers and peek functions with side effects:
  - a supplier is a function of its call index;
  - ForEach's and Peek's calls are recorded in order instead of performed, each kind in its own sequence, so how Peek's calls interleave with ForEach's (all peeks first behind a Sorted stage, alternating without one) is not modelled;
  - the v2 `fib` example is covered by `GenerateThenLimit` for any supplier.
- `iter.Pull` and its deferred `stop`: the v2 loops that pull from their input are modelled as index loops over a finite input. Releasing the pulled iterator is not modelled.
- The v2 `Seq` method wrappers (`Maps`, `FlatMaps`, `OfSeq`) only restate the free functions.
- Pipeline.RunTerminal and the v1 terminal operations: each requires that the source loop stops within `fuel` pulls. An endless source with no Limit never returns in the library, so it is not modelled.
- Pipeline.ReduceBy: the result is stated only for a builder that ignores the announced size. With a Sorted stage the terminal's Begin is called twice, first with the upstream size and then with the sorted count. A size-dependent builder is rebuilt on the second call, which the main theorem does not cover.
- Pipeline.AllMatch, Pipeline.AnyMatch, Pipeline.NoneMatch and Pipeline.FindFirst: the number of pulls is stated only for a stream with no operator. Below operators, the count is what `DrivePulls` computes.
- V2Factory.CountFrom, V2Factory.Repeat and V2Factory.Generate require an `Upto` consumer. With a consumer that never refuses, these generators never return.
- V2Factory.RangeStep requires the same for a zero step over a non-empty range, which never ends.
- The inner stream of FlatMap, in both generations, is a finite sequence.
  - In v1, the inner stream is consumed by `ForEach(down.Accept)`, which never consults downstream's CanFinish.
- V2Optional.PtrOf: the model returns a copy of the stored value. Go's `Ptr()` returns `&o.val`, a pointer into the record, so a write through it changes what `Get` and `Must` return later. That aliasing is not modelled.
- v2 `Distinct` keys are any type with equality. v1's are `int` hash codes, as in the source.
- v2 composition is shown by the example methods (`RangeStepThenLimit`, `RepeatThenLimit`, `GenerateThenLimit`, `RangeThenLimitCount`), which feed one operator's output to the next. There is no general composition theorem for consumers.

## Findings

| source | as written | input that shows it | evidently intended | confidence | as-written member | corrected member |
|---|---|---|---|---|---|---|
| impl.go:199-201 | Limit can finish when `count == maxSize` | `Repeat(e).FlatMap(x -> [x, x]).Limit(1).Count()`: after one source element Limit has counted 2, so `count == 1` never holds and the endless source is pulled forever | Limit can finish once `count >= maxSize`, stopping the source after one element | not executed | Pulls.FlatMapOvershootsLimit | Pulls.FlatMapThenLimitPullsOne |
| impl.go:199-201 | Limit can finish only when `count == maxSize`, and `count` starts at 0 and only grows | `RepeatN(e, -1).Count()`: `count == -1` never holds, so the endless source behind it is pulled forever; on a finite source a negative Limit lets nothing through but still pulls every element | a negative limit lets nothing through and stops at once, as `count >= maxSize` does and as v2 `Limit` does for `limit <= 0` (v2/iter.go:138-153) | not executed | Factory.RepeatNegativeNeverStopsAsWritten | Pipeline.LimitedStreamHalts |

The rest of the model uses the corrected test: `Chain.CanFinish` uses `Chain.LimitDone(count, maxSize)`, which is `count >= maxSize`. `Pulls.LimitDoneAsWritten` keeps the original test.
