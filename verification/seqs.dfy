/** Array operations the components use (`find`, `filter`, `reverse`, `reduce`), stated once. */
module Seqs {
  import opened Wrappers

  /** Index of the first element satisfying `p` (`Array.prototype.findIndex`), or None. */
  function FirstMatch<T>(xs: seq<T>, p: T -> bool): (r: Option<nat>)
    ensures r.Some? ==> r.value < |xs| && p(xs[r.value])
    ensures r.Some? ==> forall j :: 0 <= j < r.value ==> !p(xs[j])
    ensures r.None? <==> forall j :: 0 <= j < |xs| ==> !p(xs[j])
    decreases |xs|
  {
    if |xs| == 0 then None
    else if p(xs[0]) then Some(0)
    else match FirstMatch(xs[1..], p)
      case None => None
      case Some(k) => Some(k + 1)
  }

  /** The element `find` returns: the first one satisfying `p`, or None. */
  function Find<T>(xs: seq<T>, p: T -> bool): (r: Option<T>)
    ensures r.Some? ==> r.value in xs && p(r.value)
    ensures r.None? <==> forall j :: 0 <= j < |xs| ==> !p(xs[j])
    ensures r.Some? ==> exists i :: 0 <= i < |xs| && xs[i] == r.value && forall j :: 0 <= j < i ==> !p(xs[j])
  {
    match FirstMatch(xs, p)
    case None => None
    case Some(i) => Some(xs[i])
  }

  /** `Array.prototype.filter`: the elements satisfying `p`, in their original order. */
  function Filter<T>(xs: seq<T>, p: T -> bool): (r: seq<T>)
    ensures |r| <= |xs|
    ensures forall k :: 0 <= k < |r| ==> p(r[k]) && r[k] in xs
    ensures forall x :: x in xs && p(x) ==> x in r
    ensures multiset(r) <= multiset(xs)
    decreases |xs|
  {
    if |xs| == 0 then []
    else
      assert xs == [xs[0]] + xs[1..];
      if p(xs[0]) then [xs[0]] + Filter(xs[1..], p) else Filter(xs[1..], p)
  }

  /** Filtering distributes over concatenation, so filtering keeps relative order. */
  lemma {:induction false} FilterAppend<T>(xs: seq<T>, ys: seq<T>, p: T -> bool)
    ensures Filter(xs + ys, p) == Filter(xs, p) + Filter(ys, p)
    decreases |xs|
  {
    if |xs| == 0 {
      assert xs + ys == ys;
    } else {
      assert (xs + ys)[1..] == xs[1..] + ys;
      FilterAppend(xs[1..], ys, p);
    }
  }

  /** A filter whose predicate holds everywhere keeps the whole sequence. */
  lemma {:induction false} FilterAll<T>(xs: seq<T>, p: T -> bool)
    requires forall x :: x in xs ==> p(x)
    ensures Filter(xs, p) == xs
    decreases |xs|
  {
    if |xs| > 0 {
      FilterAll(xs[1..], p);
    }
  }

  /** Two complementary filters split the multiset of the input exactly. */
  lemma {:induction false} FilterPartition<T>(xs: seq<T>, p: T -> bool, q: T -> bool)
    requires forall x :: x in xs ==> (p(x) <==> !q(x))
    ensures multiset(Filter(xs, p)) + multiset(Filter(xs, q)) == multiset(xs)
    decreases |xs|
  {
    if |xs| > 0 {
      var x, rest := xs[0], xs[1..];
      assert xs == [x] + rest;
      FilterPartition(rest, p, q);
      assert x in xs;
      if p(x) {
        assert Filter(xs, p) == [x] + Filter(rest, p) && Filter(xs, q) == Filter(rest, q);
      } else {
        assert Filter(xs, p) == Filter(rest, p) && Filter(xs, q) == [x] + Filter(rest, q);
      }
      assert multiset(xs) == multiset{x} + multiset(rest);
    }
  }

  /** `xs.filter((_, idx) => idx !== i)`: drop the element at position `i`, if there is one. */
  function DropIndex<T>(xs: seq<T>, i: int): (r: seq<T>)
    decreases |xs|
  {
    if |xs| == 0 then []
    else (if i == 0 then [] else [xs[0]]) + DropIndex(xs[1..], i - 1)
  }

  /** Dropping index `i` removes exactly that element and keeps the rest in order; an index out of range changes nothing. */
  lemma {:induction false} DropIndexSlices<T>(xs: seq<T>, i: int)
    ensures 0 <= i < |xs| ==> DropIndex(xs, i) == xs[..i] + xs[i + 1..]
    ensures !(0 <= i < |xs|) ==> DropIndex(xs, i) == xs
    decreases |xs|
  {
    if |xs| > 0 {
      DropIndexSlices(xs[1..], i - 1);
      if i == 0 {
        assert xs[..0] + xs[1..] == xs[1..];
      } else if 0 < i < |xs| {
        assert xs[..i] == [xs[0]] + xs[1..][..i - 1];
        assert xs[i + 1..] == xs[1..][i..];
      } else {
        assert xs == [xs[0]] + xs[1..];
      }
    }
  }

  /** `Array.prototype.reverse` on a copy. */
  function Reverse<T>(xs: seq<T>): (r: seq<T>)
    decreases |xs|
  {
    if |xs| == 0 then [] else Reverse(xs[1..]) + [xs[0]]
  }

  /** Position `k` of the reversal holds the element `k` places from the end. */
  lemma {:induction false} ReverseIndex<T>(xs: seq<T>)
    ensures |Reverse(xs)| == |xs|
    ensures forall k :: 0 <= k < |xs| ==> Reverse(xs)[k] == xs[|xs| - 1 - k]
    decreases |xs|
  {
    if |xs| > 0 {
      ReverseIndex(xs[1..]);
    }
  }

  /** Reversing twice restores the original order. */
  lemma ReverseInvolutive<T>(xs: seq<T>)
    ensures Reverse(Reverse(xs)) == xs
  {
    ReverseIndex(xs);
    ReverseIndex(Reverse(xs));
  }

  /** `reduce((acc, x) => acc + x, 0)` over integers. */
  function Sum(xs: seq<int>): int
    decreases |xs|
  {
    if |xs| == 0 then 0 else xs[0] + Sum(xs[1..])
  }

  /** The sum of a concatenation is the sum of the sums. */
  lemma {:induction false} SumAppend(xs: seq<int>, ys: seq<int>)
    ensures Sum(xs + ys) == Sum(xs) + Sum(ys)
    decreases |xs|
  {
    if |xs| == 0 {
      assert xs + ys == ys;
    } else {
      assert (xs + ys)[1..] == xs[1..] + ys;
      SumAppend(xs[1..], ys);
    }
  }

  /** With non-negative terms, every term is at most the sum, and the sum is non-negative. */
  lemma {:induction false} SumBoundsTerms(xs: seq<int>)
    requires forall k :: 0 <= k < |xs| ==> xs[k] >= 0
    ensures Sum(xs) >= 0
    ensures forall k :: 0 <= k < |xs| ==> xs[k] <= Sum(xs)
    decreases |xs|
  {
    if |xs| > 0 {
      SumBoundsTerms(xs[1..]);
      assert forall k :: 1 <= k < |xs| ==> xs[k] == xs[1..][k - 1];
    }
  }

  /** A sum of zeros is zero, and a sum of non-negative terms is zero only if every term is. */
  lemma {:induction false} SumZero(xs: seq<int>)
    requires forall k :: 0 <= k < |xs| ==> xs[k] >= 0
    ensures Sum(xs) == 0 <==> forall k :: 0 <= k < |xs| ==> xs[k] == 0
    decreases |xs|
  {
    if |xs| > 0 {
      SumZero(xs[1..]);
      SumBoundsTerms(xs[1..]);
      assert forall k :: 1 <= k < |xs| ==> xs[k] == xs[1..][k - 1];
    }
  }

  /** No element occurs twice. */
  predicate Distinct<T(==)>(xs: seq<T>) {
    forall i, j :: 0 <= i < j < |xs| ==> xs[i] != xs[j]
  }

  /** The tail of a duplicate-free sequence is duplicate-free and does not contain the head. */
  lemma DistinctTail<T>(xs: seq<T>)
    requires |xs| > 0 && Distinct(xs)
    ensures Distinct(xs[1..]) && xs[0] !in xs[1..]
  {
    forall j | 0 <= j < |xs| - 1
      ensures xs[1..][j] != xs[0]
    {
      assert xs[1..][j] == xs[j + 1];
    }
  }
}
