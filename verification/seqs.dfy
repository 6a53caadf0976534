/** Generic sequence combinators: the `flatMap` shape the text parsers share. */
module Seqs {

  /** Concatenation is associative. */
  lemma AppendAssoc<T>(a: seq<T>, b: seq<T>, c: seq<T>)
    ensures a + b + c == a + (b + c)
  {
  }

  /** `xs.flatMap(f)`: the pieces `f` gives for each element, in order. */
  function FlatMap<A, B>(f: A -> seq<B>, xs: seq<A>): seq<B>
  {
    if |xs| == 0 then [] else f(xs[0]) + FlatMap(f, xs[1..])
  }

  /** Flat-mapping distributes over concatenation. */
  lemma {:induction false} FlatMapAppend<A, B>(f: A -> seq<B>, a: seq<A>, b: seq<A>)
    ensures FlatMap(f, a + b) == FlatMap(f, a) + FlatMap(f, b)
    decreases |a|
  {
    if |a| > 0 {
      assert (a + b)[0] == a[0] && (a + b)[1..] == a[1..] + b;
      FlatMapAppend(f, a[1..], b);
      AppendAssoc(f(a[0]), FlatMap(f, a[1..]), FlatMap(f, b));
    } else {
      assert a + b == b;
    }
  }

  /** When every element maps to exactly one value, the result is those values. */
  lemma {:induction false} FlatMapSingletons<A, B>(f: A -> seq<B>, xs: seq<A>, ys: seq<B>)
    requires |xs| == |ys| && forall k :: 0 <= k < |xs| ==> f(xs[k]) == [ys[k]]
    ensures FlatMap(f, xs) == ys
    decreases |xs|
  {
    if |xs| > 0 {
      assert forall k :: 0 <= k < |xs| - 1 ==> xs[1..][k] == xs[k + 1] && ys[1..][k] == ys[k + 1];
      FlatMapSingletons(f, xs[1..], ys[1..]);
      assert [ys[0]] + ys[1..] == ys;
    }
  }

  /** A property every piece's elements have holds of the whole result. */
  lemma {:induction false} FlatMapAll<A, B>(f: A -> seq<B>, xs: seq<A>, p: B -> bool)
    requires forall a, k :: 0 <= k < |f(a)| ==> p(f(a)[k])
    ensures forall k :: 0 <= k < |FlatMap(f, xs)| ==> p(FlatMap(f, xs)[k])
    decreases |xs|
  {
    if |xs| > 0 {
      FlatMapAll(f, xs[1..], p);
      var head := f(xs[0]);
      var tail := FlatMap(f, xs[1..]);
      forall k | 0 <= k < |head + tail| ensures p((head + tail)[k]) {
        if k >= |head| {
          assert (head + tail)[k] == tail[k - |head|];
        }
      }
    }
  }

  /** `xs.filter(p)`: the elements satisfying `p`, in their original order. */
  function Filter<T(!new)>(p: T -> bool, xs: seq<T>): (r: seq<T>)
    ensures |r| <= |xs|
    ensures forall x :: x in r <==> x in xs && p(x)
  {
    if |xs| == 0 then []
    else if p(xs[0]) then [xs[0]] + Filter(p, xs[1..])
    else Filter(p, xs[1..])
  }

  /** Filtering distributes over concatenation. */
  lemma {:induction false} FilterAppend<T(!new)>(p: T -> bool, a: seq<T>, b: seq<T>)
    ensures Filter(p, a + b) == Filter(p, a) + Filter(p, b)
    decreases |a|
  {
    if |a| > 0 {
      var ab := a + b;
      assert ab[0] == a[0] && ab[1..] == a[1..] + b;
      FilterAppend(p, a[1..], b);
      if p(a[0]) {
        assert Filter(p, ab) == [a[0]] + Filter(p, ab[1..]);
        assert Filter(p, a) == [a[0]] + Filter(p, a[1..]);
        AppendAssoc([a[0]], Filter(p, a[1..]), Filter(p, b));
      } else {
        assert Filter(p, ab) == Filter(p, ab[1..]);
        assert Filter(p, a) == Filter(p, a[1..]);
      }
    } else {
      assert a + b == b;
    }
  }

  /** Filtering keeps each element's multiplicity when it passes, and drops it otherwise. */
  lemma {:induction false} FilterCount<T(!new)>(p: T -> bool, xs: seq<T>, x: T)
    ensures multiset(Filter(p, xs))[x] == if p(x) then multiset(xs)[x] else 0
    decreases |xs|
  {
    if |xs| > 0 {
      FilterCount(p, xs[1..], x);
      assert xs == [xs[0]] + xs[1..];
    }
  }

  /** No element occurs twice. */
  predicate NoDuplicates<T(==)>(xs: seq<T>)
  {
    forall i, j :: 0 <= i < j < |xs| ==> xs[i] != xs[j]
  }

  /** `xs` with repeats dropped, first occurrences kept in order: the
      iteration order of a `Set`, or of an object's keys, filled from `xs`. */
  function Distinct<T(==,!new)>(xs: seq<T>): (r: seq<T>)
    ensures forall x :: multiset(r)[x] == if x in xs then 1 else 0
  {
    if |xs| == 0 then []
    else
      var init := xs[..|xs| - 1];
      var last := xs[|xs| - 1];
      assert xs == init + [last];
      var p := Distinct(init);
      if last in p then p else p + [last]
  }

  /** Every element of `Distinct(xs)` occurs once. */
  lemma DistinctNoDuplicates<T(!new)>(xs: seq<T>)
    ensures NoDuplicates(Distinct(xs))
  {
  }

  /** `xs.map(g)`. */
  function Map<A, B>(g: A -> B, xs: seq<A>): (r: seq<B>)
    ensures |r| == |xs| && forall i :: 0 <= i < |xs| ==> r[i] == g(xs[i])
  {
    if |xs| == 0 then [] else [g(xs[0])] + Map(g, xs[1..])
  }

  /** Mapping with `g` and then flat-mapping with `f` is one flat-map with
      any `h` that agrees with their composition. */
  lemma {:induction false} FlatMapMap<A, B, C>(f: B -> seq<C>, g: A -> B, h: A -> seq<C>, xs: seq<A>)
    requires forall x :: f(g(x)) == h(x)
    ensures FlatMap(f, Map(g, xs)) == FlatMap(h, xs)
    decreases |xs|
  {
    if |xs| > 0 {
      FlatMapMap(f, g, h, xs[1..]);
      assert Map(g, xs)[1..] == Map(g, xs[1..]);
    }
  }

  /** A sequence whose every element occurs at most once has no duplicates. */
  lemma CountsNoDuplicates<T>(xs: seq<T>)
    requires forall x :: multiset(xs)[x] <= 1
    ensures NoDuplicates(xs)
  {
    forall i, j | 0 <= i < j < |xs| ensures xs[i] != xs[j] {
      assert xs == xs[..j] + [xs[j]] + xs[j + 1..];
      assert xs[i] == xs[..j][i];
      assert multiset(xs)[xs[j]] >= multiset(xs[..j])[xs[j]] + 1;
    }
  }

  /** Concatenating two duplicate-free sequences with nothing in common gives
      a duplicate-free sequence. */
  lemma AppendNoDuplicates<T>(a: seq<T>, b: seq<T>)
    requires NoDuplicates(a) && NoDuplicates(b)
    requires forall k :: 0 <= k < |b| ==> b[k] !in a
    ensures NoDuplicates(a + b)
  {
    var r := a + b;
    forall i, j | 0 <= i < j < |r| ensures r[i] != r[j] {
      if j >= |a| {
        assert r[j] == b[j - |a|];
        if i >= |a| {
          assert r[i] == b[i - |a|];
        }
      }
    }
  }

  /** Filtering keeps a sequence free of duplicates. */
  lemma {:induction false} FilterNoDuplicates<T(!new)>(p: T -> bool, xs: seq<T>)
    requires NoDuplicates(xs)
    ensures NoDuplicates(Filter(p, xs))
    decreases |xs|
  {
    if |xs| > 0 {
      FilterNoDuplicates(p, xs[1..]);
      var tail := Filter(p, xs[1..]);
      if p(xs[0]) {
        assert xs[0] !in xs[1..];
        assert [xs[0]] + tail == Filter(p, xs);
        AppendNoDuplicates([xs[0]], tail);
      }
    }
  }

  /** Mapping distributes over concatenation. */
  lemma {:induction false} MapAppend<A, B>(g: A -> B, a: seq<A>, b: seq<A>)
    ensures Map(g, a + b) == Map(g, a) + Map(g, b)
    decreases |a|
  {
    if |a| > 0 {
      assert (a + b)[0] == a[0] && (a + b)[1..] == a[1..] + b;
      MapAppend(g, a[1..], b);
      AppendAssoc([g(a[0])], Map(g, a[1..]), Map(g, b));
    } else {
      assert a + b == b;
    }
  }

  /** The sum of `f` over the elements. */
  function Sum<T>(f: T -> int, xs: seq<T>): int
  {
    if |xs| == 0 then 0 else f(xs[0]) + Sum(f, xs[1..])
  }

  lemma {:induction false} SumAppend<T>(f: T -> int, a: seq<T>, b: seq<T>)
    ensures Sum(f, a + b) == Sum(f, a) + Sum(f, b)
    decreases |a|
  {
    if |a| > 0 {
      assert (a + b)[0] == a[0] && (a + b)[1..] == a[1..] + b;
      SumAppend(f, a[1..], b);
    } else {
      assert a + b == b;
    }
  }

  /** The sum does not depend on the order of the elements. */
  lemma {:induction false} SumPermutation<T>(f: T -> int, xs: seq<T>, ys: seq<T>)
    requires multiset(xs) == multiset(ys)
    ensures Sum(f, xs) == Sum(f, ys)
    decreases |xs|
  {
    if |xs| > 0 {
      var x, tail := xs[0], xs[1..];
      assert x in multiset(ys);
      var k :| 0 <= k < |ys| && ys[k] == x;
      var rest := ys[..k] + ys[k + 1..];
      MultisetRemove(ys, k);
      assert xs == [x] + tail;
      assert multiset(tail) == multiset(rest);
      SumPermutation(f, tail, rest);
      SumRemove(f, ys, k);
    } else {
      assert |ys| == |multiset(ys)| == 0;
    }
  }

  /** Replacing one element changes the sum by the difference. */
  lemma SumUpdate<T>(f: T -> int, xs: seq<T>, k: nat, y: T)
    requires k < |xs|
    ensures Sum(f, xs[k := y]) == Sum(f, xs) - f(xs[k]) + f(y)
  {
    var before, after := xs[..k], xs[k + 1..];
    assert xs == before + [xs[k]] + after;
    assert xs[k := y] == before + [y] + after;
    SumAppend(f, before + [xs[k]], after);
    SumAppend(f, before, [xs[k]]);
    SumAppend(f, before + [y], after);
    SumAppend(f, before, [y]);
  }

  /** A sequence is the part before an index, the element there, and the
      part after. */
  lemma SplitAt<T>(ys: seq<T>, k: nat)
    requires k < |ys|
    ensures ys == (ys[..k] + [ys[k]]) + ys[k + 1..]
  {
    assert ys[..k + 1] == ys[..k] + [ys[k]];
    assert ys == ys[..k + 1] + ys[k + 1..];
  }

  /** Taking one element out of a sequence takes its value out of the sum. */
  lemma SumRemove<T>(f: T -> int, ys: seq<T>, k: nat)
    requires k < |ys|
    ensures Sum(f, ys) == Sum(f, ys[..k] + ys[k + 1..]) + f(ys[k])
  {
    var front, back := ys[..k], ys[k + 1..];
    SplitAt(ys, k);
    SumAppend(f, front + [ys[k]], back);
    SumAppend(f, front, [ys[k]]);
    SumAppend(f, front, back);
  }

  /** Taking one element out of a sequence takes its image out of the
      mapped sequence. */
  lemma MapRemove<A, B>(g: A -> B, ys: seq<A>, k: nat)
    requires k < |ys|
    ensures multiset(Map(g, ys)) == multiset(Map(g, ys[..k] + ys[k + 1..])) + multiset{g(ys[k])}
  {
    var front, back := ys[..k], ys[k + 1..];
    SplitAt(ys, k);
    MapAppend(g, front + [ys[k]], back);
    MapAppend(g, front, [ys[k]]);
    MapAppend(g, front, back);
    var m1, m2 := Map(g, front), Map(g, back);
    assert Map(g, [ys[k]]) == [g(ys[k])];
    assert Map(g, ys) == (m1 + [g(ys[k])]) + m2;
    assert Map(g, front + back) == m1 + m2;
    assert multiset((m1 + [g(ys[k])]) + m2) == multiset(m1) + multiset{g(ys[k])} + multiset(m2);
  }

  /** Taking one element out of a sequence takes it out of its multiset. */
  lemma MultisetRemove<T>(ys: seq<T>, k: nat)
    requires k < |ys|
    ensures multiset(ys[..k] + ys[k + 1..]) == multiset(ys) - multiset{ys[k]}
  {
    SplitAt(ys, k);
  }

  /** Where an element of the multiset sits in the sequence. */
  lemma IndexOfElement<T>(ys: seq<T>, x: T) returns (k: nat)
    requires x in multiset(ys)
    ensures k < |ys| && ys[k] == x
  {
    k :| 0 <= k < |ys| && ys[k] == x;
  }

  /** Two sequences with the same elements still have the same elements once
      the first of one and an equal element of the other are taken out. */
  lemma PermutationTail<T>(xs: seq<T>, ys: seq<T>, k: nat)
    requires multiset(xs) == multiset(ys) && |xs| > 0 && k < |ys| && ys[k] == xs[0]
    ensures multiset(xs[1..]) == multiset(ys[..k] + ys[k + 1..])
  {
    MultisetRemove(ys, k);
    assert xs == [xs[0]] + xs[1..];
  }

  /** The first element's image and the rest's images. */
  lemma MapCons<A, B>(g: A -> B, xs: seq<A>)
    requires |xs| > 0
    ensures multiset(Map(g, xs)) == multiset{g(xs[0])} + multiset(Map(g, xs[1..]))
  {
    assert Map(g, xs) == [g(xs[0])] + Map(g, xs[1..]);
  }

  /** Mapping two sequences with the same elements gives sequences with the
      same elements. */
  lemma {:induction false} MapPermutation<A, B>(g: A -> B, xs: seq<A>, ys: seq<A>)
    requires multiset(xs) == multiset(ys)
    ensures multiset(Map(g, xs)) == multiset(Map(g, ys))
    decreases |xs|
  {
    if |xs| > 0 {
      var k := IndexOfElement(ys, xs[0]);
      PermutationTail(xs, ys, k);
      MapPermutation(g, xs[1..], ys[..k] + ys[k + 1..]);
      MapRemove(g, ys, k);
      MapCons(g, xs);
    } else {
      assert |ys| == |multiset(ys)| == 0;
      assert ys == [];
    }
  }
}
