/** Order-preserving filtering and mapping of sequences, as `Array.prototype.filter`
    and `Array.prototype.map` perform them. */
module Sequences {

  /** `a` can be obtained from `b` by deleting elements, without reordering. */
  predicate IsSubsequence<T(==)>(a: seq<T>, b: seq<T>)
    decreases |b|
  {
    if |a| == 0 then true
    else if |b| == 0 then false
    else if a[0] == b[0] then IsSubsequence(a[1..], b[1..])
    else IsSubsequence(a, b[1..])
  }

  /** Dropping the first element of a subsequence keeps it a subsequence. */
  lemma {:induction false} SubsequenceDropHead<T>(a: seq<T>, b: seq<T>)
    requires |a| > 0 && IsSubsequence(a, b)
    ensures IsSubsequence(a[1..], b)
    decreases |b|, 1
  {
    if |a| > 1 {
      if a[0] == b[0] {
        SubsequenceWeaken(a[1..], b);
      } else {
        SubsequenceDropHead(a, b[1..]);
        SubsequenceWeaken(a[1..], b);
      }
    }
  }

  /** A subsequence of `b[1..]` is a subsequence of `b`. */
  lemma {:induction false} SubsequenceWeaken<T>(a: seq<T>, b: seq<T>)
    requires |b| > 0 && IsSubsequence(a, b[1..])
    ensures IsSubsequence(a, b)
    decreases |b|, 0
  {
    if |a| > 0 && a[0] == b[0] {
      SubsequenceDropHead(a, b[1..]);
    }
  }

  /** `xs.filter(p)`: the elements satisfying `p`, in their original order. */
  function Filter<T(==)>(xs: seq<T>, p: T -> bool): (r: seq<T>)
    ensures |r| <= |xs|
    decreases |xs|
  {
    if |xs| == 0 then []
    else if p(xs[0]) then [xs[0]] + Filter(xs[1..], p)
    else Filter(xs[1..], p)
  }

  /** The shape of what `Filter` keeps: only elements of `xs` that satisfy
      `p`, every element of `xs` that does, in the original order. */
  lemma {:induction false} FilterShape<T>(xs: seq<T>, p: T -> bool)
    ensures forall i :: 0 <= i < |Filter(xs, p)| ==> Filter(xs, p)[i] in xs && p(Filter(xs, p)[i])
    ensures forall i :: 0 <= i < |xs| && p(xs[i]) ==> xs[i] in Filter(xs, p)
    ensures IsSubsequence(Filter(xs, p), xs)
    ensures (forall i :: 0 <= i < |xs| ==> p(xs[i])) ==> Filter(xs, p) == xs
    decreases |xs|
  {
    if |xs| > 0 {
      FilterShape(xs[1..], p);
      var rest := Filter(xs[1..], p);
      assert forall i :: 1 <= i < |xs| ==> xs[i] == xs[1..][i - 1];
      if p(xs[0]) {
        assert Filter(xs, p) == [xs[0]] + rest;
        assert ([xs[0]] + rest)[1..] == rest;
        assert forall i :: 1 <= i < |Filter(xs, p)| ==> Filter(xs, p)[i] == rest[i - 1];
        assert (forall i :: 0 <= i < |xs| ==> p(xs[i])) ==> [xs[0]] + xs[1..] == xs;
      } else {
        assert Filter(xs, p) == rest;
        SubsequenceWeaken(rest, xs);
      }
    }
  }

  /** What `Filter` keeps: only elements of `xs` that satisfy `p`, every
      element of `xs` that does, as often as it occurs there, in the original
      order; and everything when every element does. */
  lemma FilterSpec<T>(xs: seq<T>, p: T -> bool)
    ensures forall i :: 0 <= i < |Filter(xs, p)| ==> Filter(xs, p)[i] in xs && p(Filter(xs, p)[i])
    ensures forall i :: 0 <= i < |xs| && p(xs[i]) ==> xs[i] in Filter(xs, p)
    ensures forall x :: multiset(Filter(xs, p))[x] == if p(x) then multiset(xs)[x] else 0
    ensures IsSubsequence(Filter(xs, p), xs)
    ensures (forall i :: 0 <= i < |xs| ==> p(xs[i])) ==> Filter(xs, p) == xs
  {
    FilterShape(xs, p);
    FilterCounts(xs, p);
  }

  /** `Filter` keeps each element satisfying `p` exactly as many times as
      it occurs in `xs`, and no other element. */
  lemma {:induction false} FilterCounts<T>(xs: seq<T>, p: T -> bool)
    ensures forall x :: multiset(Filter(xs, p))[x] == if p(x) then multiset(xs)[x] else 0
    decreases |xs|
  {
    if |xs| > 0 {
      FilterCounts(xs[1..], p);
      assert xs == [xs[0]] + xs[1..];
      assert multiset(xs) == multiset{xs[0]} + multiset(xs[1..]);
    }
  }

  /** `xs.map(f)`. */
  function Map<T, U>(xs: seq<T>, f: T -> U): (r: seq<U>)
    ensures |r| == |xs|
  {
    seq(|xs|, i requires 0 <= i < |xs| => f(xs[i]))
  }

  /** Filtering then mapping equals mapping then filtering, when the filter
      only looks at what the mapping keeps. */
  lemma {:induction false} MapFilterCommute<T, U>(xs: seq<T>, f: T -> U, p: T -> bool, q: U -> bool)
    requires forall x :: p(x) == q(f(x))
    ensures Map(Filter(xs, p), f) == Filter(Map(xs, f), q)
    decreases |xs|
  {
    if |xs| > 0 {
      MapFilterCommute(xs[1..], f, p, q);
      var ys := Map(xs, f);
      assert ys[0] == f(xs[0]) && ys[1..] == Map(xs[1..], f);
      if p(xs[0]) {
        assert Filter(xs, p) == [xs[0]] + Filter(xs[1..], p);
        assert Filter(ys, q) == [ys[0]] + Filter(ys[1..], q);
        assert Map([xs[0]] + Filter(xs[1..], p), f) == [f(xs[0])] + Map(Filter(xs[1..], p), f);
      } else {
        assert Filter(xs, p) == Filter(xs[1..], p);
        assert Filter(ys, q) == Filter(ys[1..], q);
      }
    }
  }
}
