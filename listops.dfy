/** Reference list semantics of the stream operators.
    The v2 generation implements these directly over its pulled values; the
    v1 push engine is proved to compute the same thing (module ChainProofs). */
module ListOps {

  /** Elements of `xs` that pass `test`, in their original order. */
  function Filter<T>(test: T -> bool, xs: seq<T>): (r: seq<T>)
    ensures |r| <= |xs|
    ensures forall x :: x in r ==> x in xs && test(x)
  {
    if xs == [] then [] else (if test(xs[0]) then [xs[0]] else []) + Filter(test, xs[1..])
  }

  /** `f` applied to every element, one result per element. */
  function Map<T, U>(f: T -> U, xs: seq<T>): (r: seq<U>)
    ensures |r| == |xs|
    ensures forall i :: 0 <= i < |xs| ==> r[i] == f(xs[i])
  {
    seq(|xs|, i requires 0 <= i < |xs| => f(xs[i]))
  }

  /** In-order concatenation of the sequences `flatten(x)` for every `x` of `xs`. */
  function FlatMap<T, U>(flatten: T -> seq<U>, xs: seq<T>): (r: seq<U>)
    ensures xs != [] ==> r == flatten(xs[0]) + FlatMap(flatten, xs[1..])
  {
    if xs == [] then [] else flatten(xs[0]) + FlatMap(flatten, xs[1..])
  }

  /** The elements of `xs` whose key is not in `seen` and not the key of an earlier element. */
  function DistinctFrom<T, K>(key: T -> K, seen: set<K>, xs: seq<T>): (r: seq<T>)
    ensures |r| <= |xs|
    ensures forall x :: x in r ==> x in xs && key(x) !in seen
    decreases |xs|
  {
    if xs == [] then []
    else if key(xs[0]) in seen then DistinctFrom(key, seen, xs[1..])
    else [xs[0]] + DistinctFrom(key, seen + {key(xs[0])}, xs[1..])
  }

  /** The first element for every key, in order. */
  function Distinct<T, K(==)>(key: T -> K, xs: seq<T>): (r: seq<T>)
  {
    DistinctFrom(key, {}, xs)
  }

  /** Keys of all elements of `xs`. */
  function Keys<T, K>(key: T -> K, xs: seq<T>): (r: set<K>)
    ensures forall i :: 0 <= i < |xs| ==> key(xs[i]) in r
    ensures forall k :: k in r ==> exists i :: 0 <= i < |xs| && key(xs[i]) == k
  {
    set i | 0 <= i < |xs| :: key(xs[i])
  }

  /** The first `n` elements (all of them when fewer, none when `n <= 0`). */
  function Take<T>(xs: seq<T>, n: int): (r: seq<T>)
    ensures |r| == if n <= 0 then 0 else if n < |xs| then n else |xs|
    ensures r <= xs
  {
    if n <= 0 then [] else if n < |xs| then xs[..n] else xs
  }

  /** Everything after the first `n` elements (everything when `n <= 0`). */
  function Drop<T>(xs: seq<T>, n: int): (r: seq<T>)
    ensures |r| == if n <= 0 then |xs| else if n < |xs| then |xs| - n else 0
    ensures forall i :: 0 <= i < |r| ==> r[i] == xs[|xs| - |r| + i]
  {
    if n <= 0 then xs else if n < |xs| then xs[n..] else []
  }

  function Min(a: int, b: int): int {
    if a < b then a else b
  }

  /** Left fold: `f(...f(f(a, xs[0]), xs[1])..., xs[|xs|-1])`. */
  function Fold<A, T>(f: (A, T) -> A, a: A, xs: seq<T>): (r: A)
    ensures xs != [] ==> r == Fold(f, f(a, xs[0]), xs[1..])
  {
    if xs == [] then a else Fold(f, f(a, xs[0]), xs[1..])
  }

  // ---------------------------------------------------------------------
  // Sorting by a three-way comparator (`cmp(a, b) < 0` means a before b)

  predicate Less<T>(cmp: (T, T) -> int, a: T, b: T) {
    cmp(a, b) < 0
  }

  /** No element is strictly before an element that precedes it. */
  predicate SortedBy<T>(cmp: (T, T) -> int, s: seq<T>) {
    forall i, j :: 0 <= i < j < |s| ==> !Less(cmp, s[j], s[i])
  }

  ghost predicate Transitive<T(!new)>(cmp: (T, T) -> int) {
    forall a, b, c :: Less(cmp, a, b) && Less(cmp, b, c) ==> Less(cmp, a, c)
  }

  /** Irreflexive and transitive "before" relation. */
  ghost predicate StrictOrder<T(!new)>(cmp: (T, T) -> int) {
    && (forall a :: !Less(cmp, a, a))
    && Transitive(cmp)
  }

  /** Neither is before the other. */
  predicate Equivalent<T>(cmp: (T, T) -> int, a: T, b: T) {
    !Less(cmp, a, b) && !Less(cmp, b, a)
  }

  /** The ordering `sort.SliceStable` and `sort.Sort` expect of `cmp`. */
  ghost predicate StrictWeakOrder<T(!new)>(cmp: (T, T) -> int) {
    && StrictOrder(cmp)
    && (forall a, b, c :: Equivalent(cmp, a, b) && Equivalent(cmp, b, c) ==> Equivalent(cmp, a, c))
  }

  /** Inserts `x` into `s` after every element that is not after `x`. */
  function Insert<T>(cmp: (T, T) -> int, x: T, s: seq<T>): (r: seq<T>)
    ensures multiset(r) == multiset(s) + multiset{x}
    ensures |r| == |s| + 1
  {
    if s == [] then [x]
    else if Less(cmp, x, s[0]) then [x] + s
    else
      assert s == [s[0]] + s[1..];
      [s[0]] + Insert(cmp, x, s[1..])
  }

  /** Stable insertion sort: every element is inserted after the equivalent ones before it. */
  /** Putting `x` at position `q` of the tail is putting it at `q + 1` of the whole. */
  lemma ConsSplice<T>(h: T, t: seq<T>, x: T, q: nat)
    requires q <= |t|
    ensures [h] + (t[..q] + [x] + t[q..]) == ([h] + t)[..q + 1] + [x] + ([h] + t)[q + 1..]
  {
    var s := [h] + t;
    assert s[..q + 1] == [h] + t[..q];
    assert s[q + 1..] == t[q..];
  }

  /** Insert puts `x` just before the first element it is before, or at the end. */
  lemma {:induction false} InsertAt<T>(cmp: (T, T) -> int, x: T, s: seq<T>, p: nat)
    requires p <= |s|
    requires forall j :: 0 <= j < p ==> !Less(cmp, x, s[j])
    requires p < |s| ==> Less(cmp, x, s[p])
    ensures Insert(cmp, x, s) == s[..p] + [x] + s[p..]
    decreases p
  {
    if p > 0 {
      var t := s[1..];
      assert s == [s[0]] + t;
      forall j | 0 <= j < p - 1
        ensures !Less(cmp, x, t[j])
      {
        assert t[j] == s[j + 1];
      }
      if p - 1 < |t| {
        assert t[p - 1] == s[p];
      }
      InsertAt(cmp, x, t, p - 1);
      ConsSplice(s[0], t, x, p - 1);
    } else if s != [] {
      assert s[p..] == s;
    }
  }

  function Sort<T>(cmp: (T, T) -> int, xs: seq<T>): (r: seq<T>)
    ensures multiset(r) == multiset(xs)
    ensures |r| == |xs|
  {
    if xs == [] then []
    else
      assert xs == xs[..|xs| - 1] + [xs[|xs| - 1]];
      Insert(cmp, xs[|xs| - 1], Sort(cmp, xs[..|xs| - 1]))
  }

  // ---------------------------------------------------------------------
  // Lemmas

  lemma {:induction false} FilterAppend<T>(test: T -> bool, a: seq<T>, b: seq<T>)
    ensures Filter(test, a + b) == Filter(test, a) + Filter(test, b)
  {
    if a == [] {
      assert a + b == b;
    } else {
      assert (a + b)[1..] == a[1..] + b;
      FilterAppend(test, a[1..], b);
    }
  }

  /** Filter keeps exactly the passing elements: membership both ways, and order. */
  lemma {:induction false} FilterExactly<T>(test: T -> bool, xs: seq<T>, x: T)
    ensures x in Filter(test, xs) <==> x in xs && test(x)
  {
    if xs != [] {
      FilterExactly(test, xs[1..], x);
      assert xs == [xs[0]] + xs[1..];
    }
  }

  lemma MapAppend<T, U>(f: T -> U, a: seq<T>, b: seq<T>)
    ensures Map(f, a + b) == Map(f, a) + Map(f, b)
  {
  }

  lemma {:induction false} FlatMapAppend<T, U>(flatten: T -> seq<U>, a: seq<T>, b: seq<T>)
    ensures FlatMap(flatten, a + b) == FlatMap(flatten, a) + FlatMap(flatten, b)
  {
    if a == [] {
      assert a + b == b;
    } else {
      assert (a + b)[1..] == a[1..] + b;
      FlatMapAppend(flatten, a[1..], b);
    }
  }

  lemma {:induction false} DistinctFromAppend<T, K>(key: T -> K, seen: set<K>, a: seq<T>, b: seq<T>)
    ensures DistinctFrom(key, seen, a + b)
         == DistinctFrom(key, seen, a) + DistinctFrom(key, seen + Keys(key, a), b)
    decreases |a|
  {
    if a == [] {
      assert a + b == b;
      assert Keys(key, a) == {};
      assert seen + Keys(key, a) == seen;
    } else {
      assert (a + b)[1..] == a[1..] + b;
      var k := key(a[0]);
      if k in seen {
        assert seen + Keys(key, a) == seen + Keys(key, a[1..]) by { KeysTail(key, a); }
        DistinctFromAppend(key, seen, a[1..], b);
      } else {
        assert seen + {k} + Keys(key, a[1..]) == seen + Keys(key, a) by { KeysTail(key, a); }
        DistinctFromAppend(key, seen + {k}, a[1..], b);
      }
    }
  }

  lemma KeysTail<T, K>(key: T -> K, a: seq<T>)
    requires a != []
    ensures Keys(key, a) == {key(a[0])} + Keys(key, a[1..])
  {
    assert forall i :: 1 <= i < |a| ==> a[i] == a[1..][i - 1];
  }

  /** Distinct never yields two elements with the same key, nor one whose key was seen. */
  lemma {:induction false} DistinctFromUnique<T, K>(key: T -> K, seen: set<K>, xs: seq<T>)
    ensures forall i, j :: 0 <= i < j < |DistinctFrom(key, seen, xs)| ==>
      key(DistinctFrom(key, seen, xs)[i]) != key(DistinctFrom(key, seen, xs)[j])
    decreases |xs|
  {
    if xs != [] {
      var k := key(xs[0]);
      if k in seen {
        DistinctFromUnique(key, seen, xs[1..]);
      } else {
        var rest := DistinctFrom(key, seen + {k}, xs[1..]);
        DistinctFromUnique(key, seen + {k}, xs[1..]);
        var r := DistinctFrom(key, seen, xs);
        assert r == [xs[0]] + rest;
        forall i, j | 0 <= i < j < |r|
          ensures key(r[i]) != key(r[j])
        {
          assert r[j] == rest[j - 1];
          assert rest[j - 1] in rest;
          if i > 0 {
            assert r[i] == rest[i - 1];
          }
        }
      }
    }
  }

  lemma KeysCons<T, K>(key: T -> K, x: T, xs: seq<T>)
    ensures Keys(key, [x] + xs) == {key(x)} + Keys(key, xs)
  {
    var l := [x] + xs;
    forall k | k in Keys(key, l)
      ensures k in {key(x)} + Keys(key, xs)
    {
      var i :| 0 <= i < |l| && key(l[i]) == k;
      if i > 0 {
        assert l[i] == xs[i - 1];
      }
    }
    forall k | k in {key(x)} + Keys(key, xs)
      ensures k in Keys(key, l)
    {
      if k == key(x) {
        assert l[0] == x;
      } else {
        var i :| 0 <= i < |xs| && key(xs[i]) == k;
        assert l[i + 1] == xs[i];
      }
    }
  }

  /** Distinct yields an element for every key of the input that was not seen before. */
  lemma {:induction false} DistinctFromKeys<T, K>(key: T -> K, seen: set<K>, xs: seq<T>)
    ensures Keys(key, DistinctFrom(key, seen, xs)) == Keys(key, xs) - seen
    decreases |xs|
  {
    if xs != [] {
      var k := key(xs[0]);
      assert xs == [xs[0]] + xs[1..];
      KeysCons(key, xs[0], xs[1..]);
      if k in seen {
        DistinctFromKeys(key, seen, xs[1..]);
      } else {
        var rest := DistinctFrom(key, seen + {k}, xs[1..]);
        DistinctFromKeys(key, seen + {k}, xs[1..]);
        KeysCons(key, xs[0], rest);
      }
    }
  }

  lemma TakeAppend<T>(a: seq<T>, b: seq<T>, n: int)
    requires n <= |a|
    ensures Take(a + b, n) == Take(a, n)
  {
    if 0 < n < |a| {
      assert (a + b)[..n] == a[..n];
    } else if n == |a| && n > 0 {
      assert (a + b)[..n] == a;
    }
  }

  lemma TakeCons<T>(xs: seq<T>, n: int)
    requires xs != [] && n > 0
    ensures Take(xs, n) == [xs[0]] + Take(xs[1..], n - 1)
  {
    if n - 1 <= 0 {
      assert Take(xs, n) == xs[..1];
    } else if n < |xs| {
      assert xs[..n] == [xs[0]] + xs[1..][..n - 1];
    } else {
      assert xs == [xs[0]] + xs[1..];
    }
  }

  lemma DropCons<T>(xs: seq<T>, n: int)
    requires xs != [] && n > 0
    ensures Drop(xs, n) == Drop(xs[1..], n - 1)
  {
    if n - 1 <= 0 {
      assert Drop(xs, n) == xs[1..];
    } else if n < |xs| {
      assert xs[n..] == xs[1..][n - 1..];
    }
  }

  lemma {:induction false} FoldAppend<A, T>(f: (A, T) -> A, a: A, xs: seq<T>, ys: seq<T>)
    ensures Fold(f, a, xs + ys) == Fold(f, Fold(f, a, xs), ys)
  {
    if xs == [] {
      assert xs + ys == ys;
    } else {
      assert (xs + ys)[1..] == xs[1..] + ys;
      FoldAppend(f, f(a, xs[0]), xs[1..], ys);
    }
  }

  /** Once `f` has a fixpoint `a` for every element, folding more elements keeps it. */
  lemma {:induction false} FoldFixpoint<A, T>(f: (A, T) -> A, a: A, xs: seq<T>)
    requires forall t :: f(a, t) == a
    ensures Fold(f, a, xs) == a
  {
    if xs != [] {
      FoldFixpoint(f, a, xs[1..]);
    }
  }

  /** An element that nothing in a sorted list is before can head that list. */
  lemma SortedCons<T>(cmp: (T, T) -> int, h: T, t: seq<T>)
    requires SortedBy(cmp, t)
    requires forall e | e in t :: !Less(cmp, e, h)
    ensures SortedBy(cmp, [h] + t)
  {
    var r := [h] + t;
    forall i, j | 0 <= i < j < |r|
      ensures !Less(cmp, r[j], r[i])
    {
      assert r[j] == t[j - 1];
      if i > 0 {
        assert r[i] == t[i - 1];
      } else {
        assert t[j - 1] in t;
      }
    }
  }

  lemma {:induction false} InsertSorted<T(!new)>(cmp: (T, T) -> int, x: T, s: seq<T>)
    requires StrictOrder(cmp)
    requires SortedBy(cmp, s)
    ensures SortedBy(cmp, Insert(cmp, x, s))
  {
    if s == [] {
    } else if Less(cmp, x, s[0]) {
      forall e | e in s
        ensures !Less(cmp, e, x)
      {
        var k :| 0 <= k < |s| && s[k] == e;
        if k > 0 {
          assert !Less(cmp, s[k], s[0]);
        }
      }
      SortedCons(cmp, x, s);
    } else {
      InsertSorted(cmp, x, s[1..]);
      var rest := Insert(cmp, x, s[1..]);
      forall e | e in rest
        ensures !Less(cmp, e, s[0])
      {
        assert e in multiset(rest);
        if e != x {
          assert e in multiset(s[1..]);
          var k :| 0 <= k < |s[1..]| && s[1..][k] == e;
          assert s[k + 1] == e;
        }
      }
      assert SortedBy(cmp, s[1..]) by {
        forall i, j | 0 <= i < j < |s[1..]|
          ensures !Less(cmp, s[1..][j], s[1..][i])
        {
          assert s[1..][j] == s[j + 1] && s[1..][i] == s[i + 1];
        }
      }
      SortedCons(cmp, s[0], rest);
    }
  }

  /** Sort orders its input whenever `cmp` is a strict order. */
  /** `a` with `a[i]` moved down to position `k`, the elements from `k` up shifted by one. */
  function MovedDown<T>(a: seq<T>, k: int, i: int): (r: seq<T>)
    requires 0 <= k <= i < |a|
    ensures |r| == |a|
    ensures r[k] == a[i]
    ensures forall j :: 0 <= j < k || i < j < |a| ==> r[j] == a[j]
    ensures forall j :: k < j <= i ==> r[j] == a[j - 1]
  {
    a[..k] + [a[i]] + a[k..i] + a[i + 1..]
  }

  /** `p` is where `a[i]` belongs in the prefix `a[..i]`: before the first element it
      is before. */
  predicate InsertsAt<T>(cmp: (T, T) -> int, a: seq<T>, p: int, i: int) {
    && 0 <= p <= i < |a|
    && (forall j :: 0 <= j < p ==> !Less(cmp, a[i], a[j]))
    && (p < i ==> Less(cmp, a[i], a[p]))
  }

  /** Moving the element just after a prefix `s` down to position `p` splices it into `s`. */
  lemma MovedDownSplice<T>(s: seq<T>, xs: seq<T>, i: nat, p: nat)
    requires i < |xs| && p <= |s|
    ensures MovedDown(s + xs[i..], p, |s|) == s[..p] + [xs[i]] + s[p..] + xs[i + 1..]
  {
    var a := s + xs[i..];
    assert a[..p] == s[..p] && a[p..|s|] == s[p..] && a[|s| + 1..] == xs[i + 1..];
  }


  /** One step of the in-place insertion sort: with the sorted prefix `s` in front of the
      rest of the input, moving the next element down to where it belongs inserts it. */
  lemma MovedDownInserts<T>(cmp: (T, T) -> int, s: seq<T>, xs: seq<T>, i: nat, p: nat)
    requires i < |xs| && InsertsAt(cmp, s + xs[i..], p, |s|)
    ensures MovedDown(s + xs[i..], p, |s|) == Insert(cmp, xs[i], s) + xs[i + 1..]
  {
    InsertsAtPrefix(cmp, s, xs[i..], p);
    InsertAt(cmp, xs[i], s, p);
    MovedDownSplice(s, xs, i, p);
  }

  /** Where the first element after the prefix `s` belongs, read off `s` itself. */
  lemma InsertsAtPrefix<T>(cmp: (T, T) -> int, s: seq<T>, u: seq<T>, p: nat)
    requires InsertsAt(cmp, s + u, p, |s|)
    ensures u != [] && p <= |s|
    ensures forall j :: 0 <= j < p ==> !Less(cmp, u[0], s[j])
    ensures p < |s| ==> Less(cmp, u[0], s[p])
  {
    var a := s + u;
    assert a[|s|] == u[0];
    forall j | 0 <= j < p
      ensures !Less(cmp, u[0], s[j])
    {
      assert s[j] == a[j];
    }
    if p < |s| {
      assert s[p] == a[p];
    }
  }

  /** Sorting one more element inserts it into the sorted prefix. */
  lemma SortSnoc<T>(cmp: (T, T) -> int, xs: seq<T>, i: nat)
    requires i < |xs|
    ensures Sort(cmp, xs[..i + 1]) == Insert(cmp, xs[i], Sort(cmp, xs[..i]))
  {
    assert xs[..i + 1][..i] == xs[..i];
  }

  lemma SortSortedIfStrict<T(!new)>(cmp: (T, T) -> int, xs: seq<T>)
    ensures StrictOrder(cmp) ==> SortedBy(cmp, Sort(cmp, xs))
  {
    if StrictOrder(cmp) {
      SortSorted(cmp, xs);
    }
  }

  lemma {:induction false} SortSorted<T(!new)>(cmp: (T, T) -> int, xs: seq<T>)
    requires StrictOrder(cmp)
    ensures SortedBy(cmp, Sort(cmp, xs))
  {
    if xs != [] {
      SortSorted(cmp, xs[..|xs| - 1]);
      InsertSorted(cmp, xs[|xs| - 1], Sort(cmp, xs[..|xs| - 1]));
    }
  }

  lemma {:induction false} InsertLast<T>(cmp: (T, T) -> int, x: T, s: seq<T>)
    requires forall e :: e in s ==> !Less(cmp, x, e)
    ensures Insert(cmp, x, s) == s + [x]
  {
    if s != [] {
      InsertLast(cmp, x, s[1..]);
      assert s == [s[0]] + s[1..];
    }
  }

  /** Sorting an ordered sequence leaves it as it is. */
  lemma {:induction false} SortOfSorted<T>(cmp: (T, T) -> int, s: seq<T>)
    requires SortedBy(cmp, s)
    ensures Sort(cmp, s) == s
  {
    if s != [] {
      var n := |s| - 1;
      assert SortedBy(cmp, s[..n]);
      SortOfSorted(cmp, s[..n]);
      forall e | e in s[..n]
        ensures !Less(cmp, s[n], e)
      {
        var i :| 0 <= i < n && s[..n][i] == e;
      }
      InsertLast(cmp, s[n], s[..n]);
      assert s[..n] + [s[n]] == s;
    }
  }

  /** Sorting twice is sorting once. */
  lemma SortIdempotent<T(!new)>(cmp: (T, T) -> int, xs: seq<T>)
    requires StrictOrder(cmp)
    ensures Sort(cmp, Sort(cmp, xs)) == Sort(cmp, xs)
  {
    SortSorted(cmp, xs);
    SortOfSorted(cmp, Sort(cmp, xs));
  }

  /** The elements of `s` equivalent to `y`, in order. */
  function EquivalentTo<T>(cmp: (T, T) -> int, y: T, s: seq<T>): (r: seq<T>)
    ensures forall e :: e in r ==> e in s && Equivalent(cmp, e, y)
  {
    if s == [] then []
    else (if Equivalent(cmp, s[0], y) then [s[0]] else []) + EquivalentTo(cmp, y, s[1..])
  }

  lemma {:induction false} EquivalentToAppend<T>(cmp: (T, T) -> int, y: T, a: seq<T>, b: seq<T>)
    ensures EquivalentTo(cmp, y, a + b) == EquivalentTo(cmp, y, a) + EquivalentTo(cmp, y, b)
  {
    if a == [] {
      assert a + b == b;
    } else {
      assert (a + b)[1..] == a[1..] + b;
      EquivalentToAppend(cmp, y, a[1..], b);
    }
  }

  lemma {:induction false} NoneEquivalent<T>(cmp: (T, T) -> int, y: T, s: seq<T>)
    requires forall e :: e in s ==> !Equivalent(cmp, e, y)
    ensures EquivalentTo(cmp, y, s) == []
  {
    if s != [] {
      NoneEquivalent(cmp, y, s[1..]);
    }
  }

  /** In a strict weak order, anything is after `a` or before `b` when `a` is before `b`. */
  lemma Between<T(!new)>(cmp: (T, T) -> int, a: T, b: T, c: T)
    requires StrictWeakOrder(cmp)
    requires Less(cmp, a, b)
    ensures Less(cmp, a, c) || Less(cmp, c, b)
  {
    if !Less(cmp, a, c) && !Less(cmp, c, b) {
      assert Equivalent(cmp, a, c);
      assert Equivalent(cmp, c, b);
    }
  }

  /** Every element of an ordered `s` is after an `x` that is before `s[0]`. */
  lemma AllAfter<T(!new)>(cmp: (T, T) -> int, x: T, s: seq<T>)
    requires StrictWeakOrder(cmp)
    requires SortedBy(cmp, s) && s != [] && Less(cmp, x, s[0])
    ensures forall e :: e in s ==> Less(cmp, x, e)
  {
    forall e | e in s
      ensures Less(cmp, x, e)
    {
      var i :| 0 <= i < |s| && s[i] == e;
      Between(cmp, x, s[0], e);
      if i > 0 {
        assert !Less(cmp, s[i], s[0]);
      }
    }
  }

  /** Nothing in an ordered `s` is equivalent to an `x` that is before `s[0]`. */
  lemma NoneEquivalentAfter<T(!new)>(cmp: (T, T) -> int, x: T, s: seq<T>, y: T)
    requires StrictWeakOrder(cmp)
    requires SortedBy(cmp, s) && s != [] && Less(cmp, x, s[0])
    requires Equivalent(cmp, x, y)
    ensures forall e :: e in s ==> !Equivalent(cmp, e, y)
  {
    AllAfter(cmp, x, s);
    forall e | e in s
      ensures !Equivalent(cmp, e, y)
    {
      assert Less(cmp, x, e);
      assert Equivalent(cmp, y, x);
    }
  }

  lemma {:induction false} InsertStable<T(!new)>(cmp: (T, T) -> int, x: T, s: seq<T>, y: T)
    requires StrictWeakOrder(cmp)
    requires SortedBy(cmp, s)
    ensures EquivalentTo(cmp, y, Insert(cmp, x, s))
         == EquivalentTo(cmp, y, s) + EquivalentTo(cmp, y, [x])
  {
    if s == [] {
    } else if Less(cmp, x, s[0]) {
      InsertStableFront(cmp, x, s, y);
    } else {
      assert SortedBy(cmp, s[1..]);
      InsertStable(cmp, x, s[1..], y);
      var rest := Insert(cmp, x, s[1..]);
      assert Insert(cmp, x, s) == [s[0]] + rest;
      InsertStableStep(cmp, y, s[0], s[1..], rest, EquivalentTo(cmp, y, [x]));
      assert [s[0]] + s[1..] == s;
    }
  }

  /** Inserting before the head: nothing in `s` is equivalent to `x`'s class. */
  lemma InsertStableFront<T(!new)>(cmp: (T, T) -> int, x: T, s: seq<T>, y: T)
    requires StrictWeakOrder(cmp)
    requires SortedBy(cmp, s) && s != [] && Less(cmp, x, s[0])
    ensures EquivalentTo(cmp, y, [x] + s) == EquivalentTo(cmp, y, s) + EquivalentTo(cmp, y, [x])
  {
    EquivalentToAppend(cmp, y, [x], s);
    if Equivalent(cmp, x, y) {
      NoneEquivalentAfter(cmp, x, s, y);
      NoneEquivalent(cmp, y, s);
    } else {
      assert EquivalentTo(cmp, y, [x]) == [] + EquivalentTo(cmp, y, []);
    }
  }

  lemma AppendAssoc<T>(a: seq<T>, b: seq<T>, c: seq<T>)
    ensures a + (b + c) == (a + b) + c
  {
  }

  lemma EquivalentToCons<T>(cmp: (T, T) -> int, y: T, h: T, t: seq<T>)
    ensures EquivalentTo(cmp, y, [h] + t) == (if Equivalent(cmp, h, y) then [h] else []) + EquivalentTo(cmp, y, t)
  {
    assert ([h] + t)[0] == h && ([h] + t)[1..] == t;
  }

  /** Prepending the same head keeps an "equivalents of `rest` are those of `t`,
      then `ex`" relation. */
  lemma InsertStableStep<T>(cmp: (T, T) -> int, y: T, h: T, t: seq<T>, rest: seq<T>, ex: seq<T>)
    requires EquivalentTo(cmp, y, rest) == EquivalentTo(cmp, y, t) + ex
    ensures EquivalentTo(cmp, y, [h] + rest) == EquivalentTo(cmp, y, [h] + t) + ex
  {
    var hs := if Equivalent(cmp, h, y) then [h] else [];
    EquivalentToCons(cmp, y, h, rest);
    EquivalentToCons(cmp, y, h, t);
    AppendAssoc(hs, EquivalentTo(cmp, y, t), ex);
  }

  /** Sort is stable: equivalent elements keep their relative input order. */
  lemma {:induction false} SortStable<T(!new)>(cmp: (T, T) -> int, xs: seq<T>, y: T)
    requires StrictWeakOrder(cmp)
    ensures EquivalentTo(cmp, y, Sort(cmp, xs)) == EquivalentTo(cmp, y, xs)
  {
    if xs != [] {
      var n := |xs| - 1;
      SortStable(cmp, xs[..n], y);
      SortSorted(cmp, xs[..n]);
      InsertStable(cmp, xs[n], Sort(cmp, xs[..n]), y);
      assert xs == xs[..n] + [xs[n]];
      EquivalentToAppend(cmp, y, xs[..n], [xs[n]]);
    }
  }
}
