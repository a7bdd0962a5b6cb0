/** The v2 optional: an immutable record of a value and a presence flag. The zero
    value of the element type is the parameter `zero`; an absent record built by the
    package holds it. Nil-ness of a mapped value is the predicate parameter `isNil`. */
module V2Optional {
  import Optional

  datatype Opt<T> = Opt(val: T, ok: bool)

  /** A Go pointer: nil, or the address of a value. */
  datatype Ptr<T> = NilPtr | Addr(target: T)

  const ErrAbsent: string := "value is absent"

  /** The records the package builds: an absent one holds the zero value. */
  ghost predicate WellFormed<T>(zero: T, o: Opt<T>) {
    !o.ok ==> o.val == zero
  }

  /** `Of(v)`: present with `v`, whatever `v` is (no nil check). */
  function Of<T>(v: T): (r: Opt<T>)
    ensures IsPresent(r) && Get(r) == (v, true)
  {
    Opt(v, true)
  }

  /** `Nil()`: absent, holding the zero value. */
  function Nil<T>(zero: T): (r: Opt<T>)
    ensures !IsPresent(r) && Get(r) == (zero, false)
  {
    Opt(zero, false)
  }

  /** `OfPtr(p)`: absent for a nil pointer, present with `*p` otherwise. */
  function OfPtr<T>(zero: T, p: Ptr<T>): (r: Opt<T>)
    ensures IsPresent(r) <==> p.Addr?
    ensures p.Addr? ==> Get(r) == (p.target, true)
    ensures p.NilPtr? ==> r == Nil(zero)
  {
    if p.NilPtr? then Nil(zero) else Of(p.target)
  }

  /** `Get()`: the value and the flag. */
  function Get<T>(o: Opt<T>): (r: (T, bool))
    ensures r.1 <==> IsPresent(o)
  {
    (o.val, o.ok)
  }

  /** `Must()`: the value, or a panic with ErrAbsent. */
  function Must<T>(o: Opt<T>): (r: Optional.Outcome<T, string>)
    ensures r.Return? <==> IsPresent(o)
    ensures r.Return? ==> (r.value, true) == Get(o)
    ensures r.Panic? ==> r.cause == ErrAbsent
  {
    if o.ok then Optional.Return(o.val) else Optional.Panic(ErrAbsent)
  }

  /** The record's presence flag. */
  function IsPresent<T>(o: Opt<T>): (r: bool)
    ensures r <==> o.ok
  {
    o.ok
  }

  function IsAbsent<T>(o: Opt<T>): (r: bool)
    ensures r <==> !IsPresent(o)
  {
    !o.ok
  }

  /** The values `IfPresent`'s consumer is called with. */
  function IfPresent<T>(o: Opt<T>): (calls: seq<T>)
    ensures IsPresent(o) ==> calls == [Get(o).0]
    ensures !IsPresent(o) ==> calls == []
  {
    if o.ok then [o.val] else []
  }

  /** How many times `IfAbsent`'s callback runs. */
  function IfAbsent<T>(o: Opt<T>): (calls: nat)
    ensures calls == if IsPresent(o) then 0 else 1
  {
    if !o.ok then 1 else 0
  }

  /** `Value()`: the stored value, present or not. */
  function Value<T>(o: Opt<T>): (r: T)
    ensures r == Get(o).0
  {
    o.val
  }

  function Or<T>(o: Opt<T>, t: T): (r: T)
    ensures IsPresent(o) ==> r == Get(o).0
    ensures !IsPresent(o) ==> r == t
  {
    if o.ok then o.val else t
  }

  function OrZero<T>(zero: T, o: Opt<T>): (r: T)
    ensures IsPresent(o) ==> r == Get(o).0
    ensures !IsPresent(o) ==> r == zero
  {
    if o.ok then o.val else zero
  }

  /** `OrGet(get)`: the result, and whether the supplier was called. */
  function OrGet<T>(o: Opt<T>, get: () -> T): (r: (T, bool))
    ensures r.1 <==> !IsPresent(o)
    ensures r.0 == if IsPresent(o) then Get(o).0 else get()
  {
    if o.ok then (o.val, false) else (get(), true)
  }

  /** `Ptr()`: nil exactly when absent; otherwise the address of the value. */
  function PtrOf<T>(o: Opt<T>): (r: Ptr<T>)
    ensures r.NilPtr? <==> !IsPresent(o)
    ensures r.Addr? ==> r.target == Get(o).0
  {
    if o.ok then Addr(o.val) else NilPtr
  }

  /** Keeps a present value that passes `test`; `test` sees only a present value. */
  function Filter<T>(zero: T, o: Opt<T>, test: T -> bool): (r: Opt<T>)
    ensures IsPresent(r) <==> IsPresent(o) && test(o.val)
    ensures IsPresent(r) ==> r == o
    ensures !IsPresent(r) ==> r == Nil(zero)
  {
    if o.ok && test(o.val) then o else Nil(zero)
  }

  /** Maps a present value; a nil-like result turns into absent. */
  function Map<T>(zero: T, isNil: T -> bool, o: Opt<T>, f: T -> T): (r: Opt<T>)
    ensures IsPresent(r) <==> IsPresent(o) && !isNil(f(o.val))
    ensures IsPresent(r) ==> Get(r) == (f(o.val), true)
    ensures !IsPresent(r) ==> r == Nil(zero)
  {
    if o.ok then
      var v := f(o.val);
      if isNil(v) then Nil(zero) else Opt(v, true)
    else Nil(zero)
  }

  /** `f(val)` when present; absent otherwise. */
  function FlatMap<T>(zero: T, o: Opt<T>, f: T -> Opt<T>): (r: Opt<T>)
    ensures IsPresent(o) ==> r == f(Get(o).0)
    ensures !IsPresent(o) ==> r == Nil(zero)
  {
    if o.ok then f(o.val) else Nil(zero)
  }

  // ---------------------------------------------------------------------
  // Properties

  /** Every constructor and operation builds a well-formed record. */
  lemma OperationsKeepWellFormed<T>(zero: T, isNil: T -> bool, o: Opt<T>, v: T, p: Ptr<T>,
                                        test: T -> bool, f: T -> T, g: T -> Opt<T>)
    requires WellFormed(zero, o)
    requires forall x :: WellFormed(zero, g(x))
    ensures WellFormed(zero, Of(v)) && WellFormed(zero, Nil(zero)) && WellFormed(zero, OfPtr(zero, p))
    ensures WellFormed(zero, Filter(zero, o, test)) && WellFormed(zero, Map(zero, isNil, o, f))
    ensures WellFormed(zero, FlatMap(zero, o, g))
  {
  }

  /** `OfPtr(o.Ptr())` gives back a well-formed record. */
  lemma PtrRoundTrip<T>(zero: T, o: Opt<T>)
    requires WellFormed(zero, o)
    ensures OfPtr(zero, PtrOf(o)) == o
  {
  }

  /** On a present record, `Or`, `OrZero` and `OrGet` all return the value and ignore their argument. */
  lemma PresentIgnoresDefaults<T>(zero: T, o: Opt<T>, t: T, get: () -> T)
    requires IsPresent(o)
    ensures Or(o, t) == OrZero(zero, o) == OrGet(o, get).0 == Must(o).value
  {
  }

  /** On an absent record, `Or`, `OrZero`, `OrGet` and `Must` fall back. */
  lemma AbsentFallsBack<T>(zero: T, o: Opt<T>, t: T, get: () -> T)
    requires !IsPresent(o)
    ensures Or(o, t) == t && OrZero(zero, o) == zero && OrGet(o, get) == (get(), true)
    ensures Must(o) == Optional.Panic(ErrAbsent)
  {
  }

  /** `Of(v).FlatMap(f)` is `f(v)`; `o.FlatMap(Of)` is `o` for a well-formed `o`. */
  lemma FlatMapUnits<T>(zero: T, v: T, o: Opt<T>, f: T -> Opt<T>)
    requires WellFormed(zero, o)
    ensures FlatMap(zero, Of(v), f) == f(v)
    ensures FlatMap(zero, o, x => Of(x)) == o
  {
  }

  /** Two filters are one filter by the conjunction. */
  lemma FilterFilter<T>(zero: T, o: Opt<T>, p: T -> bool, q: T -> bool)
    ensures Filter(zero, Filter(zero, o, p), q) == Filter(zero, o, x => p(x) && q(x))
  {
  }
}
