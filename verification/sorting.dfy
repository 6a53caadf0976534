/** `Array.prototype.sort` with a comparator, modelled as an insertion sort
    on sequences: `leq(a, b)` stands for "the comparator does not put `b`
    before `a`". */
module Sorting {
  import opened Seqs
  import opened Text

  /** Any two elements are comparable. */
  ghost predicate Total<T(!new)>(leq: (T, T) -> bool)
  {
    forall a, b :: leq(a, b) || leq(b, a)
  }

  /** The order is transitive. */
  ghost predicate Transitive<T(!new)>(leq: (T, T) -> bool)
  {
    forall a, b, c :: leq(a, b) && leq(b, c) ==> leq(a, c)
  }

  /** Each element is in order with its successor. */
  predicate Sorted<T>(xs: seq<T>, leq: (T, T) -> bool)
  {
    forall i :: 0 < i < |xs| ==> leq(xs[i - 1], xs[i])
  }

  /** Every earlier element is in order with every later one. */
  predicate SortedPairs<T>(xs: seq<T>, leq: (T, T) -> bool)
  {
    forall i, j :: 0 <= i < j < |xs| ==> leq(xs[i], xs[j])
  }

  /** `x` put into a sorted sequence in front of the first element it does
      not follow. */
  function Insert<T(!new)>(x: T, s: seq<T>, leq: (T, T) -> bool): (r: seq<T>)
    requires Total(leq) && Sorted(s, leq)
    ensures Sorted(r, leq)
    ensures multiset(r) == multiset(s) + multiset{x}
    ensures |r| == |s| + 1 && (r[0] == x || (|s| > 0 && r[0] == s[0]))
  {
    if |s| == 0 then [x]
    else if leq(x, s[0]) then [x] + s
    else
      var rest := Insert(x, s[1..], leq);
      assert s == [s[0]] + s[1..];
      [s[0]] + rest
  }

  /** The elements of `xs` in `leq` order. */
  function Sort<T(!new)>(xs: seq<T>, leq: (T, T) -> bool): (r: seq<T>)
    requires Total(leq)
    ensures Sorted(r, leq)
    ensures multiset(r) == multiset(xs)
  {
    if |xs| == 0 then []
    else
      assert xs == [xs[0]] + xs[1..];
      Insert(xs[0], Sort(xs[1..], leq), leq)
  }

  /** For a transitive order, neighbours in order means all pairs in order. */
  lemma {:induction false} SortedAllPairs<T(!new)>(xs: seq<T>, leq: (T, T) -> bool)
    requires Transitive(leq) && Sorted(xs, leq)
    ensures SortedPairs(xs, leq)
    decreases |xs|
  {
    if |xs| > 1 {
      SortedAllPairs(xs[1..], leq);
      forall i, j | 0 <= i < j < |xs| ensures leq(xs[i], xs[j]) {
        if i > 0 {
          assert xs[i] == xs[1..][i - 1] && xs[j] == xs[1..][j - 1];
        } else if j > 1 {
          assert leq(xs[1..][0], xs[1..][j - 1]);
        }
      }
    }
  }

  /** Dropping the first element of a sorted sequence leaves it sorted. */
  lemma SortedPairsTail<T>(xs: seq<T>, leq: (T, T) -> bool)
    requires |xs| > 0 && SortedPairs(xs, leq)
    ensures SortedPairs(xs[1..], leq)
  {
    forall i, j | 0 <= i < j < |xs| - 1 ensures leq(xs[1..][i], xs[1..][j]) {
      assert xs[1..][i] == xs[i + 1] && xs[1..][j] == xs[j + 1];
    }
  }

  /** Filtering a sorted sequence leaves it sorted. */
  lemma {:induction false} SortedPairsFilter<T(!new)>(xs: seq<T>, leq: (T, T) -> bool, p: T -> bool)
    requires SortedPairs(xs, leq)
    ensures SortedPairs(Filter(p, xs), leq)
    decreases |xs|
  {
    if |xs| > 0 {
      var tail := Filter(p, xs[1..]);
      SortedPairsTail(xs, leq);
      SortedPairsFilter(xs[1..], leq, p);
      if p(xs[0]) {
        forall k | 0 <= k < |tail| ensures leq(xs[0], tail[k]) {
          assert tail[k] in xs[1..];
          var m :| 0 <= m < |xs[1..]| && xs[1..][m] == tail[k];
          assert xs[m + 1] == tail[k];
        }
        assert Filter(p, xs) == [xs[0]] + tail;
      }
    }
  }

  /** The first elements of two sorted sequences with the same elements are
      equal when no two different elements tie. */
  lemma SortedHeads<T>(xs: seq<T>, ys: seq<T>, leq: (T, T) -> bool)
    requires |xs| > 0 && SortedPairs(xs, leq) && SortedPairs(ys, leq)
    requires multiset(xs) == multiset(ys)
    requires forall a, b :: a in xs && b in xs && leq(a, b) && leq(b, a) ==> a == b
    ensures |ys| > 0 && xs[0] == ys[0]
  {
    assert xs[0] in multiset(ys);
    var k :| 0 <= k < |ys| && ys[k] == xs[0];
    assert ys[0] in multiset(xs);
    var m :| 0 <= m < |xs| && xs[m] == ys[0];
  }

  /** Removing equal first elements from two sequences with the same elements
      leaves two sequences with the same elements. */
  lemma MultisetTail<T>(xs: seq<T>, ys: seq<T>)
    requires |xs| > 0 && |ys| > 0 && xs[0] == ys[0] && multiset(xs) == multiset(ys)
    ensures multiset(xs[1..]) == multiset(ys[1..])
  {
    assert xs == [xs[0]] + xs[1..] && ys == [ys[0]] + ys[1..];
    assert multiset(xs[1..]) == multiset(xs) - multiset{xs[0]};
    assert multiset(ys[1..]) == multiset(ys) - multiset{ys[0]};
  }

  /** Two sorted sequences holding the same elements are equal when no two
      different elements tie. */
  lemma {:induction false} SortedUnique<T(!new)>(xs: seq<T>, ys: seq<T>, leq: (T, T) -> bool)
    requires SortedPairs(xs, leq) && SortedPairs(ys, leq)
    requires multiset(xs) == multiset(ys)
    requires forall a, b :: a in xs && b in xs && leq(a, b) && leq(b, a) ==> a == b
    ensures xs == ys
    decreases |xs|
  {
    if |xs| > 0 {
      SortedHeads(xs, ys, leq);
      MultisetTail(xs, ys);
      SortedPairsTail(xs, leq);
      SortedPairsTail(ys, leq);
      assert forall a :: a in xs[1..] ==> a in xs;
      SortedUnique(xs[1..], ys[1..], leq);
      assert xs == [xs[0]] + xs[1..] && ys == [ys[0]] + ys[1..];
    } else {
      assert |ys| == |multiset(ys)| == 0;
    }
  }

  /** Code-point order on strings is a total order. */
  lemma StrLeqOrder()
    ensures Total(StrLeq) && Transitive(StrLeq)
  {
    forall a, b ensures StrLeq(a, b) || StrLeq(b, a) {
      StrLeqTotal(a, b);
    }
    forall a, b, c | StrLeq(a, b) && StrLeq(b, c) ensures StrLeq(a, c) {
      StrLeqTransitive(a, b, c);
    }
  }
}
