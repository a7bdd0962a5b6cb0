/** The v1 `optional` package: an Optional is either the single absent value or a
    present value that never holds nil. Whether a value is nil is decided by the
    reflective `IsNil`, taken here as the predicate parameter `isNil`. Operations
    that panic return `Panic(cause)` instead of a value. */
module Optional {

  datatype Optional<T> = Absent | Present(value: T)

  /** Either a returned value or a panic with its argument. */
  datatype Outcome<X, E> = Return(value: X) | Panic(cause: E)

  /** The messages of the two package errors. */
  const ErrAbsent: string := "absent value"
  const ErrNil: string := "nil value"

  /** Present values never hold nil: every factory and operation keeps this. */
  predicate WellFormed<T>(isNil: T -> bool, o: Optional<T>) {
    o.Present? ==> !isNil(o.value)
  }

  /** The absent value. */
  function Empty<T>(): (r: Optional<T>)
    ensures !IsPresent(r)
  {
    Absent
  }

  /** A present value holding `v`; panics with ErrNil when `v` is nil. */
  function Of<T>(isNil: T -> bool, v: T): (r: Outcome<Optional<T>, string>)
    ensures r.Panic? <==> isNil(v)
    ensures r.Panic? ==> r.cause == ErrNil
    ensures r.Return? ==> IsPresent(r.value) && Get(r.value) == Return(v)
  {
    if isNil(v) then Panic(ErrNil) else Return(Present(v))
  }

  /** Absent for nil, present otherwise; it never panics. */
  function OfNullable<T>(isNil: T -> bool, v: T): (r: Optional<T>)
    ensures WellFormed(isNil, r)
    ensures IsPresent(r) <==> !isNil(v)
    ensures !isNil(v) ==> Of(isNil, v) == Return(r)
  {
    if isNil(v) then Empty() else
      var o := Of(isNil, v);
      o.value
  }

  /** The stored value, or a panic with ErrAbsent. */
  function Get<T>(o: Optional<T>): (r: Outcome<T, string>)
    ensures r.Return? <==> IsPresent(o)
    ensures r.Panic? ==> r.cause == ErrAbsent
  {
    match o
    case Present(v) => Return(v)
    case Absent => Panic(ErrAbsent)
  }

  /** `present.IsPresent` answers true and `absent.IsPresent` false. */
  function IsPresent<T>(o: Optional<T>): (r: bool)
    ensures r <==> o != Absent
  {
    o.Present?
  }

  /** The arguments `action` is called with: the value once when present, nothing when absent. */
  function IfPresent<T>(o: Optional<T>): (calls: seq<T>)
    ensures |calls| == if IsPresent(o) then 1 else 0
    ensures IsPresent(o) ==> Get(o) == Return(calls[0])
  {
    match o
    case Present(v) => [v]
    case Absent => []
  }

  /** Keeps a present value that passes `test`; `test` is only called on a present value. */
  function Filter<T>(o: Optional<T>, test: T -> bool): (r: Optional<T>)
    ensures IsPresent(r) <==> IsPresent(o) && test(o.value)
    ensures IsPresent(r) ==> r == o
  {
    match o
    case Present(v) => if test(v) then o else Empty()
    case Absent => o
  }

  /** `OfNullable(mapper(value))` when present, absent otherwise. */
  function Map<T>(isNil: T -> bool, o: Optional<T>, mapper: T -> T): (r: Optional<T>)
    ensures WellFormed(isNil, r)
    ensures IsPresent(r) <==> IsPresent(o) && !isNil(mapper(o.value))
    ensures IsPresent(r) ==> r.value == mapper(o.value)
  {
    match o
    case Present(v) => OfNullable(isNil, mapper(v))
    case Absent => o
  }

  /** `mapper(value)` unchanged when present, absent otherwise. */
  function FlatMap<T>(o: Optional<T>, mapper: T -> Optional<T>): (r: Optional<T>)
    ensures IsPresent(o) ==> r == mapper(o.value)
    ensures !IsPresent(o) ==> r == Empty()
  {
    match o
    case Present(v) => mapper(v)
    case Absent => o
  }

  /** The value when present, `other` when absent. */
  function OrElse<T>(o: Optional<T>, other: T): (r: T)
    ensures IsPresent(o) ==> Get(o) == Return(r)
    ensures !IsPresent(o) ==> r == other
  {
    match o
    case Present(v) => v
    case Absent => other
  }

  /** The value when present (the supplier is not called), `get()` when absent. */
  function OrElseGet<T>(o: Optional<T>, get: () -> T): (r: T)
    ensures r == OrElse(o, get())
  {
    match o
    case Present(v) => v
    case Absent => get()
  }

  /** The value when present, a panic with `panicArg` when absent. */
  function OrPanic<T, E>(o: Optional<T>, panicArg: E): (r: Outcome<T, E>)
    ensures r.Return? <==> IsPresent(o)
    ensures r.Return? ==> Get(o) == Return(r.value)
    ensures r.Panic? ==> r.cause == panicArg
  {
    match o
    case Present(v) => Return(v)
    case Absent => Panic(panicArg)
  }

  /** The value when present, a panic with `getPanicArg()` when absent. */
  function OrPanicGet<T, E>(o: Optional<T>, getPanicArg: () -> E): (r: Outcome<T, E>)
    ensures r == OrPanic(o, getPanicArg())
  {
    match o
    case Present(v) => Return(v)
    case Absent => Panic(getPanicArg())
  }

  // ---------------------------------------------------------------------
  // Laws

  /** Every operation that builds an optional keeps present values non-nil. */
  lemma OperationsKeepWellFormed<T>(isNil: T -> bool, o: Optional<T>, test: T -> bool, mapper: T -> T, v: T)
    requires WellFormed(isNil, o)
    ensures WellFormed(isNil, Empty<T>())
    ensures Of(isNil, v).Return? ==> WellFormed(isNil, Of(isNil, v).value)
    ensures WellFormed(isNil, Filter(o, test))
    ensures WellFormed(isNil, Map(isNil, o, mapper))
  {
  }

  /** The absent value ignores every function argument and every default but the one returned. */
  lemma AbsentIgnoresFunctions<T, E>(test: T -> bool, f: T -> T, g: T -> Optional<T>, isNil: T -> bool, d: T, e: E)
    ensures Filter(Absent, test) == Absent
    ensures Map(isNil, Absent, f) == Absent
    ensures FlatMap(Absent, g) == Absent
    ensures IfPresent<T>(Absent) == []
    ensures OrElse(Absent, d) == d
    ensures OrPanic<T, E>(Absent, e) == Panic(e)
    ensures Get<T>(Absent) == Panic(ErrAbsent)
  {
  }

  /** A present value ignores every default. */
  lemma PresentIgnoresDefaults<T, E>(v: T, d: T, get: () -> T, e: E, getE: () -> E)
    ensures OrElse(Present(v), d) == v
    ensures OrElseGet(Present(v), get) == v
    ensures OrPanic(Present(v), e) == Return(v)
    ensures OrPanicGet(Present(v), getE) == Return(v)
  {
  }

  /** FlatMap with OfNullable of a function is Map with that function. */
  lemma FlatMapOfNullableIsMap<T>(isNil: T -> bool, o: Optional<T>, f: T -> T)
    ensures FlatMap(o, v => OfNullable(isNil, f(v))) == Map(isNil, o, f)
  {
  }

  /** FlatMap with OfNullable gives back every well-formed optional. */
  lemma FlatMapOfNullableIdentity<T>(isNil: T -> bool, o: Optional<T>)
    requires WellFormed(isNil, o)
    ensures FlatMap(o, v => OfNullable(isNil, v)) == o
  {
  }

  /** Chained FlatMaps associate: flat-mapping by `f` then `g` is flat-mapping by
      "`f`, then `g` on a present result". */
  lemma FlatMapAssociative<T>(o: Optional<T>, f: T -> Optional<T>, g: T -> Optional<T>)
    ensures FlatMap(FlatMap(o, f), g) == FlatMap(o, v => FlatMap(f(v), g))
  {
  }

  /** Filtering twice is filtering by both tests. */
  lemma FilterFilter<T>(o: Optional<T>, p: T -> bool, q: T -> bool)
    ensures Filter(Filter(o, p), q) == Filter(o, v => p(v) && q(v))
  {
  }
}
