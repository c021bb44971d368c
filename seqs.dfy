/** Order-preserving selection and sums over sequences: the two operations the
    pipeline applies to its table columns (a boolean-mask selection and a
    column `sum`). */
module Seqs {

  /** The elements of `s` that satisfy `p`, in their original order. */
  function Filter<T>(s: seq<T>, p: T -> bool): (r: seq<T>)
    ensures |r| <= |s|
    ensures forall x :: x in r ==> x in s && p(x)
  {
    if s == [] then []
    else if p(s[0]) then [s[0]] + Filter(s[1..], p)
    else Filter(s[1..], p)
  }

  /** `a` is obtained from `b` by deleting elements without reordering the rest
      (decided by matching `a` greedily against `b`). */
  predicate IsSubsequence<T(==)>(a: seq<T>, b: seq<T>)
  {
    if a == [] then true
    else if b == [] then false
    else if a[0] == b[0] then IsSubsequence(a[1..], b[1..])
    else IsSubsequence(a, b[1..])
  }

  /** The sum of `f` over the elements of `s`. */
  function SumBy<T>(s: seq<T>, f: T -> real): real
  {
    if s == [] then 0.0 else f(s[0]) + SumBy(s[1..], f)
  }

  /** A real as itself, for summing a sequence of reals with `SumBy`. */
  function AsIs(x: real): real
  {
    x
  }

  /** The sum of a sequence of reals. */
  function Sum(s: seq<real>): real
  {
    SumBy(s, AsIs)
  }

  /** A real with no fractional part. */
  predicate IsWhole(x: real)
  {
    x.Floor as real == x
  }

  lemma {:induction false} FilterIsSubsequence<T>(s: seq<T>, p: T -> bool)
    ensures IsSubsequence(Filter(s, p), s)
  {
    if s != [] {
      FilterIsSubsequence(s[1..], p);
      var rest := Filter(s[1..], p);
      if p(s[0]) {
        assert ([s[0]] + rest)[1..] == rest;
      } else if rest != [] {
        assert rest[0] in rest;
      }
    }
  }

  /** Every element that satisfies `p` is kept as often as it occurs in `s`;
      no other element is kept. */
  lemma {:induction false} FilterMultiset<T>(s: seq<T>, p: T -> bool)
    ensures forall x :: multiset(Filter(s, p))[x] == if p(x) then multiset(s)[x] else 0
  {
    if s != [] {
      FilterMultiset(s[1..], p);
      assert s == [s[0]] + s[1..];
      assert multiset(s) == multiset{s[0]} + multiset(s[1..]);
    }
  }

  /** Selecting with a predicate every element satisfies keeps the sequence. */
  lemma {:induction false} FilterKeepsAll<T>(s: seq<T>, p: T -> bool)
    requires forall i :: 0 <= i < |s| ==> p(s[i])
    ensures Filter(s, p) == s
  {
    if s != [] {
      FilterKeepsAll(s[1..], p);
      assert s == [s[0]] + s[1..];
    }
  }

  /** The elements that satisfy `p` and those that do not together make up `s`. */
  lemma {:induction false} FilterSplits<T>(s: seq<T>, p: T -> bool, q: T -> bool)
    requires forall i :: 0 <= i < |s| ==> q(s[i]) == !p(s[i])
    ensures |Filter(s, p)| + |Filter(s, q)| == |s|
    ensures multiset(Filter(s, p)) + multiset(Filter(s, q)) == multiset(s)
  {
    if s != [] {
      FilterSplits(s[1..], p, q);
      assert s == [s[0]] + s[1..];
      assert multiset(s) == multiset{s[0]} + multiset(s[1..]);
    }
  }

  /** Summing over the elements that satisfy `p` and over those that do not
      sums over everything. */
  lemma {:induction false} SumBySplit<T>(s: seq<T>, p: T -> bool, q: T -> bool, f: T -> real)
    requires forall i :: 0 <= i < |s| ==> q(s[i]) == !p(s[i])
    ensures SumBy(Filter(s, p), f) + SumBy(Filter(s, q), f) == SumBy(s, f)
  {
    if s != [] {
      SumBySplit(s[1..], p, q, f);
      var fp, fq := Filter(s[1..], p), Filter(s[1..], q);
      if p(s[0]) {
        assert ([s[0]] + fp)[1..] == fp;
      } else {
        assert ([s[0]] + fq)[1..] == fq;
      }
    }
  }

  /** Sequences that agree on `f` element by element have the same sum. */
  lemma {:induction false} SumByPointwise<T>(a: seq<T>, b: seq<T>, f: T -> real)
    requires |a| == |b|
    requires forall i :: 0 <= i < |a| ==> f(a[i]) == f(b[i])
    ensures SumBy(a, f) == SumBy(b, f)
  {
    if a != [] {
      SumByPointwise(a[1..], b[1..], f);
    }
  }

  lemma {:induction false} SumByAppend<T>(a: seq<T>, b: seq<T>, f: T -> real)
    ensures SumBy(a + b, f) == SumBy(a, f) + SumBy(b, f)
  {
    if a != [] {
      SumByAppend(a[1..], b, f);
      assert (a + b)[1..] == a[1..] + b;
    } else {
      assert a + b == b;
    }
  }

  /** A sum of values that are each at least `lo` is at least `lo` per element. */
  lemma {:induction false} SumByAtLeast<T>(s: seq<T>, f: T -> real, lo: real)
    requires forall i :: 0 <= i < |s| ==> f(s[i]) >= lo
    ensures SumBy(s, f) >= |s| as real * lo
  {
    if s != [] {
      SumByAtLeast(s[1..], f, lo);
    }
  }

  /** A sum of whole numbers is whole. */
  lemma {:induction false} SumByWhole<T>(s: seq<T>, f: T -> real)
    requires forall i :: 0 <= i < |s| ==> IsWhole(f(s[i]))
    ensures IsWhole(SumBy(s, f))
  {
    if s != [] {
      SumByWhole(s[1..], f);
      var a, b := f(s[0]).Floor, SumBy(s[1..], f).Floor;
      assert f(s[0]) == a as real && SumBy(s[1..], f) == b as real;
      assert SumBy(s, f) == (a + b) as real;
      assert SumBy(s, f).Floor == a + b;
    }
  }
}
