/** The v1 data sources: small cursors advanced by `Next`. The four iterator kinds
    of the library (slice, seed, supplier, range) are the variants of `Cursor`, held
    by one mutable `SourceIterator`. A supplier may return a different value on
    every call; it is modelled by the function `get` of the call index. */
module Iterators {
  import ListOps

  /** The size announced when it is not known. */
  const UnknownSize: int := -1

  datatype Cursor<!T> =
    | SliceCursor(elements: seq<T>, current: nat)
    | SeedCursor(element: T, operator: T -> T, first: bool)
    | SupplierCursor(get: nat -> T, calls: nat)
    | RangeCursor(to: int, step: int, next: int, box: int -> T)

  // ---------------------------------------------------------------------
  // Range endpoints (`epInt`, `epInt64`): unbounded integers here

  /** `m.CompareTo(other)`: the difference, whose sign is the order. */
  function EpCompareTo(m: int, other: int): (r: int)
    ensures r < 0 <==> m < other
    ensures r > 0 <==> m > other
    ensures r == 0 <==> m == other
  {
    m - other
  }

  /** `m.Add(step)`. */
  function EpAdd(m: int, step: int): (r: int)
    ensures EpCompareTo(r, m) == step
  {
    m + step
  }

  /** Whether a range cursor at `next` still has elements. */
  predicate InRange(next: int, to: int, step: int) {
    if step >= 0 then EpCompareTo(next, to) < 0 else EpCompareTo(next, to) > 0
  }

  // ---------------------------------------------------------------------
  // The iterator protocol on cursors

  function SizeIfKnown<T>(c: Cursor<T>): (r: int)
    ensures r == UnknownSize <==> !c.SliceCursor?
    ensures c.SliceCursor? ==> r == |c.elements|
  {
    match c
    case SliceCursor(elements, _) => |elements|
    case _ => UnknownSize
  }

  function HasNextOf<T>(c: Cursor<T>): (r: bool)
    ensures c.SliceCursor? ==> (r <==> c.current < |c.elements|)
    ensures c.SeedCursor? || c.SupplierCursor? ==> r
    ensures c.RangeCursor? ==> (r <==> if c.step >= 0 then c.next < c.to else c.next > c.to)
  {
    match c
    case SliceCursor(elements, current) => current < |elements|
    case SeedCursor(_, _, _) => true
    case SupplierCursor(_, _) => true
    case RangeCursor(to, step, next, _) => InRange(next, to, step)
  }

  /** The next element and the advanced cursor. Only a slice can run out (its `Next`
      would index past the end), so only it needs `HasNext` first. */
  function NextOf<T>(c: Cursor<T>): (r: (T, Cursor<T>))
    requires c.SliceCursor? ==> c.current < |c.elements|
    ensures c.SliceCursor? ==> r.0 == c.elements[c.current] && r.1 == c.(current := c.current + 1)
    ensures c.SupplierCursor? ==> r.0 == c.get(c.calls) && r.1 == c.(calls := c.calls + 1)
    ensures c.RangeCursor? ==> r.0 == c.box(c.next) && r.1 == c.(next := c.next + c.step)
  {
    match c
    case SliceCursor(elements, current) => (elements[current], c.(current := current + 1))
    case SeedCursor(element, operator, first) =>
      if first then (element, c.(first := false))
      else var e := operator(element); (e, c.(element := e))
    case SupplierCursor(get, calls) => (get(calls), c.(calls := calls + 1))
    case RangeCursor(to, step, next, box) => (box(next), c.(next := EpAdd(next, step)))
  }

  /** The first `n` elements the cursor yields (fewer if it runs out). */
  function Pending<T>(c: Cursor<T>, n: nat): (r: seq<T>)
    ensures |r| <= n
    decreases n
  {
    if n == 0 || !HasNextOf(c) then [] else [NextOf(c).0] + Pending(NextOf(c).1, n - 1)
  }

  /** A slice cursor yields the rest of its slice, once each, in order. */
  lemma {:induction false} SliceYields<T>(elements: seq<T>, current: nat, n: nat)
    requires current <= |elements|
    ensures Pending(SliceCursor(elements, current), n) == ListOps.Take(elements[current..], n)
    decreases n
  {
    var c := SliceCursor(elements, current);
    if n == 0 {
      assert Pending(c, n) == [];
    } else if current == |elements| {
      assert !HasNextOf(c);
      assert elements[current..] == [];
    } else {
      var c' := SliceCursor(elements, current + 1);
      assert NextOf(c) == (elements[current], c');
      assert Pending(c, n) == [elements[current]] + Pending(c', n - 1);
      SliceYields(elements, current + 1, n - 1);
      var xs := elements[current..];
      assert xs[1..] == elements[current + 1..];
      ListOps.TakeCons(xs, n);
    }
  }

  /** `f` applied `k` times to `x`. */
  function Iterated<T>(f: T -> T, x: T, k: nat): (r: T)
    ensures k > 0 ==> r == f(Iterated(f, x, k - 1))
  {
    if k == 0 then x else f(Iterated(f, x, k - 1))
  }

  lemma {:induction false} SeedYieldsFrom<T>(seed: T, f: T -> T, k: nat, n: nat)
    ensures var r := Pending(SeedCursor(Iterated(f, seed, k), f, false), n);
      |r| == n && forall i :: 0 <= i < n ==> r[i] == Iterated(f, seed, k + 1 + i)
    decreases n
  {
    if n > 0 {
      var c := SeedCursor(Iterated(f, seed, k), f, false);
      var c' := SeedCursor(Iterated(f, seed, k + 1), f, false);
      assert NextOf(c) == (Iterated(f, seed, k + 1), c');
      SeedYieldsFrom(seed, f, k + 1, n - 1);
      var rest := Pending(c', n - 1);
      var r := Pending(c, n);
      assert r == [Iterated(f, seed, k + 1)] + rest;
      forall i | 0 <= i < n
        ensures r[i] == Iterated(f, seed, k + 1 + i)
      {
        if i > 0 {
          assert r[i] == rest[i - 1];
        }
      }
    }
  }

  /** A seed cursor yields `seed, f(seed), f(f(seed)), ...` without end. */
  lemma SeedYields<T>(seed: T, f: T -> T, n: nat)
    ensures var r := Pending(SeedCursor(seed, f, true), n);
      |r| == n && forall i :: 0 <= i < n ==> r[i] == Iterated(f, seed, i)
  {
    if n > 0 {
      SeedYieldsFrom(seed, f, 0, n - 1);
    }
  }

  /** A supplier cursor never runs out and yields the supplier's results in call order. */
  lemma {:induction false} SupplierYields<T>(get: nat -> T, calls: nat, n: nat)
    ensures var r := Pending(SupplierCursor(get, calls), n);
      |r| == n && forall i :: 0 <= i < n ==> r[i] == get(calls + i)
    decreases n
  {
    if n > 0 {
      SupplierYields(get, calls + 1, n - 1);
    }
  }

  lemma StepAhead(next: int, step: int, i: int)
    ensures next + step + (i - 1) * step == next + i * step
  {
  }

  /** The values of a range one step later, behind the current one, are the values of the range. */
  lemma RangeShift<T>(to: int, step: int, next: int, box: int -> T, rest: seq<T>)
    requires InRange(next, to, step)
    requires forall i :: 0 <= i < |rest| ==> rest[i] == box(next + step + i * step) && InRange(next + step + i * step, to, step)
    ensures var r := [box(next)] + rest;
      forall i :: 0 <= i < |r| ==> r[i] == box(next + i * step) && InRange(next + i * step, to, step)
  {
    var r := [box(next)] + rest;
    forall i | 0 <= i < |r|
      ensures r[i] == box(next + i * step) && InRange(next + i * step, to, step)
    {
      if i > 0 {
        assert r[i] == rest[i - 1];
        StepAhead(next, step, i);
      }
    }
  }

  /** Every value a range cursor yields is `next + i*step`, and in range. */
  lemma {:induction false} RangeValuesInRange<T>(to: int, step: int, next: int, box: int -> T, n: nat)
    ensures var r := Pending(RangeCursor(to, step, next, box), n);
      forall i :: 0 <= i < |r| ==> r[i] == box(next + i * step) && InRange(next + i * step, to, step)
    decreases n
  {
    var c := RangeCursor(to, step, next, box);
    if n > 0 && InRange(next, to, step) {
      RangeValuesInRange(to, step, next + step, box, n - 1);
      var rest := Pending(RangeCursor(to, step, next + step, box), n - 1);
      assert NextOf(c) == (box(next), RangeCursor(to, step, next + step, box));
      assert Pending(c, n) == [box(next)] + rest;
      RangeShift(to, step, next, box, rest);
    }
  }

  /** A range cursor stops early only at the first value out of range. */
  lemma {:induction false} RangeStops<T>(to: int, step: int, next: int, box: int -> T, n: nat)
    ensures var r := Pending(RangeCursor(to, step, next, box), n);
      |r| < n ==> !InRange(next + |r| * step, to, step)
    decreases n
  {
    var c := RangeCursor(to, step, next, box);
    var r := Pending(c, n);
    if n > 0 && InRange(next, to, step) {
      RangeStops(to, step, next + step, box, n - 1);
      var rest := Pending(RangeCursor(to, step, next + step, box), n - 1);
      assert NextOf(c) == (box(next), RangeCursor(to, step, next + step, box));
      assert |r| == |rest| + 1;
      StepAhead(next, step, |r|);
    } else {
      assert r == [];
      assert next + |r| * step == next;
    }
  }

  /** A range cursor yields `next, next+step, ...` while in range: every yielded value
      is in range, and it stops early only at the first value out of range. */
  lemma RangeYields<T>(to: int, step: int, next: int, box: int -> T, n: nat)
    ensures var r := Pending(RangeCursor(to, step, next, box), n);
      && (forall i :: 0 <= i < |r| ==> r[i] == box(next + i * step) && InRange(next + i * step, to, step))
      && (|r| < n ==> !InRange(next + |r| * step, to, step))
  {
    RangeValuesInRange(to, step, next, box, n);
    RangeStops(to, step, next, box, n);
  }

  /** With step 0 a non-empty range never ends: it yields `from` as often as asked. */
  lemma ZeroStepNeverEnds<T>(from: int, to: int, box: int -> T, n: nat)
    requires from < to
    ensures Pending(RangeCursor(to, 0, from, box), n) == seq(n, i => box(from))
  {
    RangeYields(to, 0, from, box, n);
  }

  /** The endpoint boxing of an int range: the element is the endpoint's value. */
  function Identity(): int -> int {
    x => x
  }

  /** `IntRangeStep(5, 0, -1)` counts down `5, 4, 3, 2, 1`. */
  lemma CountDownExample(n: nat)
    requires n >= 5
    ensures Pending(RangeCursor(0, -1, 5, Identity()), n) == [5, 4, 3, 2, 1]
  {
    RangeYields(0, -1, 5, Identity(), n);
    var r := Pending(RangeCursor(0, -1, 5, Identity()), n);
    if |r| > 0 {
      assert InRange(5 + (|r| - 1) * -1, 0, -1);
    }
    assert |r| < n ==> !InRange(5 + |r| * -1, 0, -1);
  }

  /** `Int64RangeStep(0, 10, 3)` yields `0, 3, 6, 9`. */
  lemma StepThreeExample(n: nat)
    requires n >= 4
    ensures Pending(RangeCursor(10, 3, 0, Identity()), n) == [0, 3, 6, 9]
  {
    RangeYields(10, 3, 0, Identity(), n);
    var r := Pending(RangeCursor(10, 3, 0, Identity()), n);
    if |r| > 0 {
      assert InRange(0 + (|r| - 1) * 3, 10, 3);
    }
    assert |r| < n ==> !InRange(0 + |r| * 3, 10, 3);
  }

  // ---------------------------------------------------------------------
  // The mutable iterator

  /** A source iterator: `Next` advances its cursor in place. */
  class SourceIterator<T> {
    var cursor: Cursor<T>

    constructor (c: Cursor<T>)
      ensures cursor == c
    {
      cursor := c;
    }

    method GetSizeIfKnown() returns (size: int)
      ensures size == SizeIfKnown(cursor)
    {
      size := SizeIfKnown(cursor);
    }

    method HasNext() returns (more: bool)
      ensures more == HasNextOf(cursor)
    {
      match cursor
      case SliceCursor(elements, current) =>
        more := current < |elements|;
      case SeedCursor(_, _, _) =>
        more := true;
      case SupplierCursor(_, _) =>
        more := true;
      case RangeCursor(to, step, next, _) =>
        if step >= 0 {
          more := EpCompareTo(next, to) < 0;
        } else {
          more := EpCompareTo(next, to) > 0;
        }
    }

    method Next() returns (e: T)
      requires cursor.SliceCursor? ==> cursor.current < |cursor.elements|
      modifies this
      ensures (e, cursor) == NextOf(old(cursor))
    {
      match cursor
      case SliceCursor(elements, current) =>
        e := elements[current];
        cursor := cursor.(current := current + 1);
      case SeedCursor(element, operator, first) =>
        if first {
          cursor := cursor.(first := false);
          e := element;
        } else {
          cursor := cursor.(element := operator(element));
          e := cursor.element;
        }
      case SupplierCursor(get, calls) =>
        e := get(calls);
        cursor := cursor.(calls := calls + 1);
      case RangeCursor(to, step, next, box) =>
        var curr := next;
        cursor := cursor.(next := EpAdd(curr, step));
        e := box(curr);
    }
  }

  // ---------------------------------------------------------------------
  // sort.Interface adapter

  /** A list and a comparator, as `sort.Sort` sees them. */
  class Sortable<T(!new)> {
    const list: array<T>
    const cmp: (T, T) -> int

    constructor (list: array<T>, cmp: (T, T) -> int)
      ensures this.list == list && this.cmp == cmp
    {
      this.list := list;
      this.cmp := cmp;
    }

    method Len() returns (n: int)
      ensures n == list.Length
    {
      n := list.Length;
    }

    method Less(i: int, j: int) returns (before: bool)
      requires 0 <= i < list.Length && 0 <= j < list.Length
      ensures before <==> ListOps.Less(cmp, list[i], list[j])
    {
      before := cmp(list[i], list[j]) < 0;
    }

    /** Exchanges two positions and leaves the others alone, so the contents stay the same multiset. */
    method Swap(i: int, j: int)
      requires 0 <= i < list.Length && 0 <= j < list.Length
      modifies list
      ensures list[i] == old(list[j]) && list[j] == old(list[i])
      ensures forall k :: 0 <= k < list.Length && k != i && k != j ==> list[k] == old(list[k])
      ensures multiset(list[..]) == multiset(old(list[..]))
    {
      list[i], list[j] := list[j], list[i];
    }

    /** The first position before `i` whose element `list[i]` is before, or `i`. */
    method FirstAfter(i: int) returns (p: int)
      requires 0 <= i < list.Length
      ensures 0 <= p <= i
      ensures forall j :: 0 <= j < p ==> !ListOps.Less(cmp, list[i], list[j])
      ensures p < i ==> ListOps.Less(cmp, list[i], list[p])
      ensures ListOps.InsertsAt(cmp, list[..], p, i)
    {
      p := 0;
      var stop := false;
      while p < i && !stop
        invariant 0 <= p <= i
        invariant forall j :: 0 <= j < p ==> !ListOps.Less(cmp, list[i], list[j])
        invariant stop ==> p < i && ListOps.Less(cmp, list[i], list[p])
        decreases i - p, if stop then 0 else 1
      {
        var before := Less(i, p);
        if before {
          stop := true;
        } else {
          p := p + 1;
        }
      }
    }

    /** Moves `list[i]` down to position `p` by adjacent swaps; the elements in between
        move up by one and the rest stay. */
    method MoveDown(p: int, i: int)
      requires 0 <= p <= i < list.Length
      modifies list
      ensures list[..] == ListOps.MovedDown(old(list[..]), p, i)
    {
      ghost var a := list[..];
      var k := i;
      while k > p
        invariant p <= k <= i
        invariant list[k] == a[i]
        invariant forall j :: 0 <= j < k || i < j < list.Length ==> list[j] == a[j]
        invariant forall j :: k < j <= i ==> list[j] == a[j - 1]
      {
        Swap(k - 1, k);
        k := k - 1;
      }
      assert list[..] == ListOps.MovedDown(a, p, i) by {
        forall j | 0 <= j < list.Length
          ensures list[j] == ListOps.MovedDown(a, p, i)[j]
        {
        }
      }
    }

    /** Sorts `list` in place through `Less` and `Swap` alone, as `sort.Sort` does with
        this adapter: each element in turn moves to just before the first element of the
        sorted prefix it is before. */
    method Sort()
      modifies list
      ensures list[..] == ListOps.Sort(cmp, old(list[..]))
      ensures multiset(list[..]) == multiset(old(list[..]))
      ensures ListOps.StrictOrder(cmp) ==> ListOps.SortedBy(cmp, list[..])
    {
      ghost var xs := list[..];
      ghost var sorted: seq<T> := [];
      var n := Len();
      var i := 0;
      while i < n
        invariant 0 <= i <= n == list.Length
        invariant sorted == ListOps.Sort(cmp, xs[..i])
        invariant list[..] == sorted + xs[i..]
      {
        var p := FirstAfter(i);
        MoveDown(p, i);
        ListOps.MovedDownInserts(cmp, sorted, xs, i, p);
        ListOps.SortSnoc(cmp, xs, i);
        sorted := ListOps.Insert(cmp, xs[i], sorted);
        i := i + 1;
      }
      assert xs[..n] == xs && xs[n..] == [];
      ListOps.SortSortedIfStrict(cmp, xs);
    }
  }
}
