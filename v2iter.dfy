/** The v2 sequence transformers and terminals. A v2 operator pulls values from its
    upstream sequence one at a time and yields them to a downstream `yield` callback,
    returning as soon as that callback returns false. The upstream is the finite
    sequence `input` (the values it would produce), `pulls` counts the values pulled
    from it, and the downstream callback's answers are given by a `Consumer`. */
module V2Iter {
  import opened ListOps
  import V2Optional
  import Terminals

  /** How the downstream `yield` answers: `Drain` always continues; `Upto(last)`
      returns false on the element numbered `last` (counting from 0). */
  datatype Consumer = Drain | Upto(last: nat)

  /** Whether `yield` of element number `k` returns true. */
  predicate Continues(c: Consumer, k: nat) {
    c.Drain? || k < c.last
  }

  /** The elements a consumer receives when offered `ys` in order. */
  function Received<T>(ys: seq<T>, c: Consumer): (r: seq<T>)
    ensures r <= ys
    ensures c.Drain? ==> r == ys
    ensures c.Upto? ==> |r| == if |ys| <= c.last then |ys| else c.last + 1
  {
    if c.Drain? then ys else Take(ys, c.last + 1)
  }

  /** After `n` yields, every one answered true except, when `refused`, the last:
      a draining consumer never refuses, and `Upto(last)` refuses exactly the yield
      numbered `last`. */
  predicate Yielded(c: Consumer, n: nat, refused: bool) {
    if c.Drain? then !refused else n <= c.last + 1 && (refused <==> n == c.last + 1)
  }

  /** A yield sequence that is a prefix of `ys`, ending either with a refusal or
      at the end of `ys`, is exactly what the consumer receives. */
  lemma ReceivedExactly<T>(ys: seq<T>, c: Consumer, out: seq<T>, refused: bool)
    requires out <= ys && Yielded(c, |out|, refused)
    requires !refused ==> out == ys
    ensures out == Received(ys, c)
  {
  }

  // ---------------------------------------------------------------------
  // Operators

  /** Filter: yields exactly the passing elements, in order; it stops pulling right
      after the element the consumer refuses. */
  method Filter<T>(input: seq<T>, test: T -> bool, c: Consumer) returns (out: seq<T>, pulls: nat)
    ensures out == Received(ListOps.Filter(test, input), c)
    ensures pulls <= |input| && out == ListOps.Filter(test, input[..pulls])
    ensures pulls < |input| ==> pulls > 0 && test(input[pulls - 1]) && c.Upto? && |out| == c.last + 1
  {
    out, pulls := [], 0;
    var refused := false;
    while pulls < |input| && !refused
      invariant pulls <= |input|
      invariant out == ListOps.Filter(test, input[..pulls])
      invariant Yielded(c, |out|, refused)
      invariant refused ==> pulls > 0 && test(input[pulls - 1])
    {
      var v := input[pulls];
      assert input[..pulls + 1] == input[..pulls] + [v];
      FilterAppend(test, input[..pulls], [v]);
      pulls := pulls + 1;
      if test(v) {
        refused := !Continues(c, |out|);
        out := out + [v];
      }
    }
    assert input == input[..pulls] + input[pulls..];
    FilterAppend(test, input[..pulls], input[pulls..]);
    ReceivedExactly(ListOps.Filter(test, input), c, out, refused);
  }

  /** Map: yields `f(v)` for each pulled value, one for one. */
  method Map<T, R>(input: seq<T>, f: T -> R, c: Consumer) returns (out: seq<R>, pulls: nat)
    ensures out == Received(ListOps.Map(f, input), c)
    ensures pulls == |out|
  {
    out, pulls := [], 0;
    var refused := false;
    while pulls < |input| && !refused
      invariant pulls <= |input|
      invariant out == ListOps.Map(f, input[..pulls])
      invariant Yielded(c, |out|, refused)
    {
      var v := input[pulls];
      refused := !Continues(c, |out|);
      out := out + [f(v)];
      pulls := pulls + 1;
    }
    assert ListOps.Map(f, input[..pulls]) <= ListOps.Map(f, input);
    if !refused {
      assert input[..pulls] == input;
    }
    ReceivedExactly(ListOps.Map(f, input), c, out, refused);
  }

  lemma FlatMapSnoc<T, R>(flatten: T -> seq<R>, xs: seq<T>, v: T)
    ensures ListOps.FlatMap(flatten, xs + [v]) == ListOps.FlatMap(flatten, xs) + flatten(v)
  {
    FlatMapAppend(flatten, xs, [v]);
    assert ListOps.FlatMap(flatten, [v]) == flatten(v) + ListOps.FlatMap(flatten, []);
  }

  /** The inner loop of FlatMap: yields `inner` in order after the `out` already
      yielded, and stops after `j` values at the first refusal. */
  method YieldEach<R>(out0: seq<R>, inner: seq<R>, c: Consumer) returns (out: seq<R>, j: nat, refused: bool)
    requires Yielded(c, |out0|, false)
    ensures j <= |inner| && out == out0 + inner[..j]
    ensures refused ==> j > 0
    ensures !refused ==> j == |inner|
    ensures Yielded(c, |out|, refused)
  {
    out, j, refused := out0, 0, false;
    while j < |inner| && !refused
      invariant j <= |inner|
      invariant out == out0 + inner[..j]
      invariant refused ==> j > 0
      invariant Yielded(c, |out|, refused)
    {
      refused := !Continues(c, |out|);
      out := out + [inner[j]];
      j := j + 1;
    }
  }

  /** FlatMap: yields the inner sequences' elements in order; a refusal stops the
      inner and the outer loop, within the last pulled value's inner sequence. */
  method FlatMap<T, R>(input: seq<T>, flatten: T -> seq<R>, c: Consumer) returns (out: seq<R>, pulls: nat)
    ensures out == Received(ListOps.FlatMap(flatten, input), c)
    ensures pulls <= |input| && out <= ListOps.FlatMap(flatten, input[..pulls])
    ensures pulls < |input| ==>
      pulls > 0 && c.Upto? && |out| == c.last + 1 && |ListOps.FlatMap(flatten, input[..pulls - 1])| < |out|
  {
    out, pulls := [], 0;
    var refused := false;
    while pulls < |input| && !refused
      invariant pulls <= |input|
      invariant out <= ListOps.FlatMap(flatten, input[..pulls])
      invariant !refused ==> out == ListOps.FlatMap(flatten, input[..pulls])
      invariant refused ==> pulls > 0 && |ListOps.FlatMap(flatten, input[..pulls - 1])| < |out|
      invariant Yielded(c, |out|, refused)
    {
      var v := input[pulls];
      ghost var before := out;
      assert input[..pulls + 1] == input[..pulls] + [v];
      FlatMapSnoc(flatten, input[..pulls], v);
      pulls := pulls + 1;
      var inner := flatten(v);
      var j;
      out, j, refused := YieldEach(out, inner, c);
      assert out == before + inner[..j] && inner[..j] <= inner;
      assert !refused ==> inner[..j] == inner;
    }
    assert input == input[..pulls] + input[pulls..];
    FlatMapAppend(flatten, input[..pulls], input[pulls..]);
    ReceivedExactly(ListOps.FlatMap(flatten, input), c, out, refused);
  }

  /** Peek: `accept` is called on each pulled value just before it is yielded, and on
      no other value. */
  method Peek<T>(input: seq<T>, c: Consumer) returns (out: seq<T>, accepted: seq<T>, pulls: nat)
    ensures out == Received(input, c)
    ensures pulls <= |input| && accepted == out == input[..pulls]
  {
    out, accepted, pulls := [], [], 0;
    var refused := false;
    while pulls < |input| && !refused
      invariant pulls <= |input|
      invariant accepted == out == input[..pulls]
      invariant Yielded(c, |out|, refused)
    {
      var v := input[pulls];
      accepted := accepted + [v];
      refused := !Continues(c, |out|);
      out := out + [v];
      pulls := pulls + 1;
    }
    if !refused {
      assert input[..pulls] == input;
    }
    ReceivedExactly(input, c, out, refused);
  }

  /** Distinct: yields the first element of each key, in order. */
  method Distinct<T, K(==)>(input: seq<T>, f: T -> K, c: Consumer) returns (out: seq<T>, pulls: nat)
    ensures out == Received(ListOps.Distinct(f, input), c)
    ensures pulls <= |input| && out == ListOps.Distinct(f, input[..pulls])
  {
    out, pulls := [], 0;
    var seen: set<K> := {};
    var refused := false;
    while pulls < |input| && !refused
      invariant pulls <= |input|
      invariant out == ListOps.Distinct(f, input[..pulls])
      invariant seen == Keys(f, input[..pulls])
      invariant Yielded(c, |out|, refused)
    {
      var v := input[pulls];
      var k := f(v);
      var had := k in seen;
      DistinctSnoc(f, input[..pulls], v);
      assert input[..pulls + 1] == input[..pulls] + [v];
      seen := seen + {k};
      pulls := pulls + 1;
      if !had {
        refused := !Continues(c, |out|);
        out := out + [v];
      }
    }
    DistinctPrefix(f, input, pulls);
    ReceivedExactly(ListOps.Distinct(f, input), c, out, refused);
  }

  lemma DistinctPrefix<T, K>(f: T -> K, xs: seq<T>, n: nat)
    requires n <= |xs|
    ensures ListOps.Distinct(f, xs[..n]) <= ListOps.Distinct(f, xs)
    ensures n == |xs| ==> xs[..n] == xs
  {
    assert xs == xs[..n] + xs[n..];
    DistinctFromAppend(f, {}, xs[..n], xs[n..]);
  }

  lemma DistinctSnoc<T, K>(f: T -> K, xs: seq<T>, v: T)
    ensures Keys(f, xs + [v]) == Keys(f, xs) + {f(v)}
    ensures ListOps.Distinct(f, xs + [v])
      == ListOps.Distinct(f, xs) + if f(v) in Keys(f, xs) then [] else [v]
  {
    DistinctFromAppend(f, {}, xs, [v]);
    assert {} + Keys(f, xs) == Keys(f, xs);
    KeysAppendOne(f, xs, v);
  }

  lemma KeysAppendOne<T, K>(f: T -> K, xs: seq<T>, v: T)
    ensures Keys(f, xs + [v]) == Keys(f, xs) + {f(v)}
    ensures DistinctFrom(f, Keys(f, xs), [v]) == if f(v) in Keys(f, xs) then [] else [v]
  {
    var l := xs + [v];
    forall k | k in Keys(f, l)
      ensures k in Keys(f, xs) + {f(v)}
    {
      var i :| 0 <= i < |l| && f(l[i]) == k;
      if i < |xs| {
        assert l[i] == xs[i];
      }
    }
    forall k | k in Keys(f, xs)
      ensures k in Keys(f, l)
    {
      var i :| 0 <= i < |xs| && f(xs[i]) == k;
      assert l[i] == xs[i];
    }
    assert l[|xs|] == v;
    assert [v][1..] == [];
  }

  /** Sorted: collects every value, sorts them stably by `cmp(a, b) < 0`, then yields. */
  method Sorted<T>(input: seq<T>, cmp: (T, T) -> int, c: Consumer) returns (out: seq<T>, pulls: nat)
    ensures out == Received(Sort(cmp, input), c)
    ensures pulls == |input|
  {
    var vals;
    vals, pulls := Collect(input);
    var sorted := Sort(cmp, vals);
    out := [];
    var i := 0;
    var refused := false;
    while i < |sorted| && !refused
      invariant i <= |sorted|
      invariant out == sorted[..i]
      invariant Yielded(c, |out|, refused)
    {
      refused := !Continues(c, |out|);
      out := out + [sorted[i]];
      i := i + 1;
    }
    if !refused {
      assert sorted[..i] == sorted;
    }
    ReceivedExactly(sorted, c, out, refused);
  }

  /** Limit: yields the first `limit` values and pulls no more than it yields; a
      non-positive limit pulls nothing. */
  method Limit<T>(input: seq<T>, limit: int, c: Consumer) returns (out: seq<T>, pulls: nat)
    ensures out == Received(Take(input, limit), c)
    ensures pulls == |out| && (limit <= 0 ==> pulls == 0) && (limit > 0 ==> pulls <= limit)
  {
    var n := limit;
    out, pulls := [], 0;
    var refused := false;
    var done := false;
    while !done
      invariant pulls <= |input| && out == input[..pulls] && pulls == |out|
      invariant !done ==> n == limit - pulls && !refused
      invariant done ==> refused || pulls == |input| || pulls >= limit
      invariant limit <= 0 ==> pulls == 0
      invariant limit > 0 ==> pulls <= limit
      invariant Yielded(c, |out|, refused)
      decreases !done, n
    {
      n := n - 1;
      if n < 0 {
        done := true;
      } else if pulls >= |input| {
        done := true;
      } else {
        var v := input[pulls];
        pulls := pulls + 1;
        refused := !Continues(c, |out|);
        out := out + [v];
        done := refused;
      }
    }
    ghost var ys := Take(input, limit);
    assert out <= ys;
    if !refused {
      assert pulls == |input| || pulls >= limit;
    }
    ReceivedExactly(ys, c, out, refused);
  }

  lemma DropSnoc<T>(xs: seq<T>, v: T, n: int)
    ensures Drop(xs + [v], n) == if |xs| >= n then Drop(xs, n) + [v] else Drop(xs, n)
  {
    if n <= 0 {
    } else if n < |xs| {
      assert (xs + [v])[n..] == xs[n..] + [v];
    } else if n == |xs| {
      assert (xs + [v])[n..] == [v];
    }
  }

  /** Skip: drops the first `skip` values and yields the rest. Every call of `next`
      counts down, including calls after the upstream has run out. */
  method Skip<T>(input: seq<T>, skip: int, c: Consumer) returns (out: seq<T>, pulls: nat)
    ensures out == Received(Drop(input, skip), c)
    ensures pulls <= |input| && out == Drop(input[..pulls], skip)
    ensures pulls < |input| ==> c.Upto? && |out| == c.last + 1
  {
    var s := skip;
    out, pulls := [], 0;
    var refused := false;
    var done := false;
    while !done
      invariant pulls <= |input| && out == Drop(input[..pulls], skip)
      invariant pulls < |input| ==> s == skip - pulls
      invariant pulls == |input| ==> s <= skip - pulls
      invariant !done ==> !refused
      invariant done ==> refused || pulls == |input|
      invariant Yielded(c, |out|, refused)
      decreases !done, |input| - pulls + (if s > 0 then s else 0)
    {
      var ok := pulls < |input|;
      if ok {
        var v := input[pulls];
        DropNext(input, pulls, skip);
        pulls := pulls + 1;
        s := s - 1;
        if s < 0 {
          refused := !Continues(c, |out|);
          out := out + [v];
          done := refused;
        }
      } else {
        s := s - 1;
        if s < 0 {
          done := true;
        }
      }
    }
    DropPulled(input, pulls, skip);
    ReceivedExactly(Drop(input, skip), c, out, refused);
  }

  /** Pulling one more input element extends the dropped prefix by it, once past `n`. */
  lemma DropNext<T>(input: seq<T>, pulls: nat, n: int)
    requires pulls < |input|
    ensures Drop(input[..pulls + 1], n)
         == if pulls >= n then Drop(input[..pulls], n) + [input[pulls]] else Drop(input[..pulls], n)
  {
    assert input[..pulls + 1] == input[..pulls] + [input[pulls]];
    DropSnoc(input[..pulls], input[pulls], n);
  }

  /** What Skip has yielded from the pulled prefix is a prefix of what it yields from
      the whole input, and all of it once the input is used up. */
  lemma DropPulled<T>(input: seq<T>, pulls: nat, n: int)
    requires pulls <= |input|
    ensures Drop(input[..pulls], n) <= Drop(input, n)
    ensures pulls == |input| ==> Drop(input[..pulls], n) == Drop(input, n)
  {
    var a, b := input[..pulls], input[pulls..];
    assert a + b == input;
    if pulls == |input| {
      assert a == input;
    }
    if 0 < n < |a| {
      assert input[n..] == a[n..] + b;
    } else if n >= |a| && n < |input| {
      assert Drop(a, n) == [];
    }
  }

  // ---------------------------------------------------------------------
  // Terminals

  /** ForEach: `accept` is called with every value, in order. */
  method ForEach<T>(input: seq<T>) returns (calls: seq<T>)
    ensures calls == input
  {
    calls := [];
    for i := 0 to |input|
      invariant calls == input[..i]
    {
      calls := calls + [input[i]];
    }
  }

  /** Collect: every value, in order; the whole input is pulled. */
  method Collect<T>(input: seq<T>) returns (result: seq<T>, pulls: nat)
    ensures result == input && pulls == |input|
  {
    result, pulls := [], 0;
    while pulls < |input|
      invariant pulls <= |input| && result == input[..pulls]
    {
      result := result + [input[pulls]];
      pulls := pulls + 1;
    }
  }

  /** AllMatch: true iff every value passes; it returns at the first failing value. */
  method AllMatch<T>(input: seq<T>, test: T -> bool) returns (result: bool, pulls: nat)
    ensures result <==> forall i :: 0 <= i < |input| ==> test(input[i])
    ensures pulls == Min(Terminals.FirstPassing(x => !test(x), input) + 1, |input|)
  {
    pulls := 0;
    while pulls < |input|
      invariant pulls <= |input|
      invariant forall i :: 0 <= i < pulls ==> test(input[i])
    {
      var v := input[pulls];
      pulls := pulls + 1;
      if !test(v) {
        FirstPassingIs(x => !test(x), input, pulls - 1);
        return false, pulls;
      }
    }
    FirstPassingIs(x => !test(x), input, |input|);
    return true, pulls;
  }

  /** NoneMatch: true iff no value passes; it returns at the first passing value. */
  method NoneMatch<T>(input: seq<T>, test: T -> bool) returns (result: bool, pulls: nat)
    ensures result <==> forall i :: 0 <= i < |input| ==> !test(input[i])
    ensures pulls == Min(Terminals.FirstPassing(test, input) + 1, |input|)
  {
    pulls := 0;
    while pulls < |input|
      invariant pulls <= |input|
      invariant forall i :: 0 <= i < pulls ==> !test(input[i])
    {
      var v := input[pulls];
      pulls := pulls + 1;
      if test(v) {
        FirstPassingIs(test, input, pulls - 1);
        return false, pulls;
      }
    }
    FirstPassingIs(test, input, |input|);
    return true, pulls;
  }

  /** AnyMatch: true iff some value passes; it returns at the first passing value. */
  method AnyMatch<T>(input: seq<T>, test: T -> bool) returns (result: bool, pulls: nat)
    ensures result <==> exists i :: 0 <= i < |input| && test(input[i])
    ensures pulls == Min(Terminals.FirstPassing(test, input) + 1, |input|)
  {
    pulls := 0;
    while pulls < |input|
      invariant pulls <= |input|
      invariant forall i :: 0 <= i < pulls ==> !test(input[i])
    {
      var v := input[pulls];
      pulls := pulls + 1;
      if test(v) {
        FirstPassingIs(test, input, pulls - 1);
        return true, pulls;
      }
    }
    FirstPassingIs(test, input, |input|);
    return false, pulls;
  }

  /** The first passing index is `i` when `i` passes (or is the end) and nothing before it does. */
  lemma FirstPassingIs<T>(test: T -> bool, xs: seq<T>, i: nat)
    requires i <= |xs| && (forall j :: 0 <= j < i ==> !test(xs[j])) && (i < |xs| ==> test(xs[i]))
    ensures Terminals.FirstPassing(test, xs) == i
  {
  }

  /** Reduce: absent on no value; otherwise the left fold from the first value. */
  method Reduce<T>(input: seq<T>, zero: T, acc: (T, T) -> T) returns (r: V2Optional.Opt<T>)
    ensures r == if input == [] then V2Optional.Nil(zero) else V2Optional.Of(Fold(acc, input[0], input[1..]))
  {
    var result := zero;
    var has := false;
    for i := 0 to |input|
      invariant has <==> i > 0
      invariant has ==> result == Fold(acc, input[0], input[1..i])
    {
      var v := input[i];
      if !has {
        result := v;
        has := true;
        assert input[1..1] == [];
      } else {
        assert input[1..i + 1] == input[1..i] + [v];
        FoldAppend(acc, input[0], input[1..i], [v]);
        result := acc(result, v);
      }
    }
    if has {
      assert input[1..|input|] == input[1..];
      return V2Optional.Of(result);
    }
    return V2Optional.Nil(zero);
  }

  /** ReduceFrom: the left fold from `initVal`, of the element type. */
  method ReduceFrom<T>(input: seq<T>, initVal: T, acc: (T, T) -> T) returns (result: T)
    ensures result == Fold(acc, initVal, input)
  {
    result := initVal;
    for i := 0 to |input|
      invariant result == Fold(acc, initVal, input[..i])
    {
      assert input[..i + 1] == input[..i] + [input[i]];
      FoldAppend(acc, initVal, input[..i], [input[i]]);
      result := acc(result, input[i]);
    }
    assert input[..|input|] == input;
  }

  /** ReduceWith: the left fold from `initVal`, of any type. */
  method ReduceWith<T, R>(input: seq<T>, initVal: R, acc: (R, T) -> R) returns (result: R)
    ensures result == Fold(acc, initVal, input)
  {
    result := initVal;
    for i := 0 to |input|
      invariant result == Fold(acc, initVal, input[..i])
    {
      assert input[..i + 1] == input[..i] + [input[i]];
      FoldAppend(acc, initVal, input[..i], [input[i]]);
      result := acc(result, input[i]);
    }
    assert input[..|input|] == input;
  }

  /** FindFirst: the first value, present, or absent; it pulls at most one value. */
  method FindFirst<T>(input: seq<T>, zero: T) returns (r: V2Optional.Opt<T>, pulls: nat)
    ensures r == if input == [] then V2Optional.Nil(zero) else V2Optional.Of(input[0])
    ensures pulls == Min(1, |input|)
  {
    if 0 < |input| {
      return V2Optional.Of(input[0]), 1;
    }
    return V2Optional.Nil(zero), 0;
  }

  /** Count: the number of values. */
  method Count<T>(input: seq<T>) returns (count: int)
    ensures count == |input|
  {
    count := 0;
    for i := 0 to |input|
      invariant count == i
    {
      count := count + 1;
    }
  }
}
