/** `Array.prototype.filter` and `Array.prototype.map` on sequences, and generic facts about
    them. */
module Seqs {
  import opened Wrappers

  /** `a` can be obtained from `b` by deleting elements, keeping the order of the rest. */
  predicate IsSubsequence<T(==)>(a: seq<T>, b: seq<T>)
    decreases |b|
  {
    a == [] || (b != [] && if a[0] == b[0] then IsSubsequence(a[1..], b[1..]) else IsSubsequence(a, b[1..]))
  }

  /** The elements of `xs` that satisfy `p`, in their original order. */
  function Filter<T(==,!new)>(xs: seq<T>, p: T -> bool): (r: seq<T>)
    ensures |r| <= |xs|
    ensures forall x :: x in r <==> x in xs && p(x)
    ensures forall i :: 0 <= i < |r| ==> p(r[i])
    ensures IsSubsequence(r, xs)
  {
    if xs == [] then []
    else if p(xs[0]) then [xs[0]] + Filter(xs[1..], p)
    else Filter(xs[1..], p)
  }

  /** Each element that passes occurs in the filtered sequence exactly as often as in `xs`;
      the others not at all. */
  lemma {:induction false} FilterMultiplicity<T(!new)>(xs: seq<T>, p: T -> bool)
    ensures forall x :: multiset(Filter(xs, p))[x] == if p(x) then multiset(xs)[x] else 0
  {
    if xs != [] {
      FilterMultiplicity(xs[1..], p);
      assert xs == [xs[0]] + xs[1..];
    }
  }

  /** No element occurs twice. */
  predicate Distinct<T(==)>(xs: seq<T>)
  {
    forall i, j :: 0 <= i < j < |xs| ==> xs[i] != xs[j]
  }

  /** Two duplicate-free sequences with no common element concatenate without duplicates. */
  lemma DistinctAppend<T>(a: seq<T>, b: seq<T>)
    requires Distinct(a) && Distinct(b)
    requires forall x :: x in a ==> x !in b
    ensures Distinct(a + b)
  {
    forall i, j | 0 <= i < j < |a + b| ensures (a + b)[i] != (a + b)[j] {
      if j >= |a| && i < |a| {
        assert (a + b)[i] in a && (a + b)[j] == b[j - |a|];
      }
    }
  }

  /** Filtering a duplicate-free sequence keeps it duplicate-free. */
  lemma {:induction false} FilterDistinct<T(!new)>(xs: seq<T>, p: T -> bool)
    requires Distinct(xs)
    ensures Distinct(Filter(xs, p))
  {
    if xs != [] {
      assert Distinct(xs[1..]);
      FilterDistinct(xs[1..], p);
      if p(xs[0]) {
        assert xs[0] !in xs[1..];
        DistinctAppend([xs[0]], Filter(xs[1..], p));
      }
    }
  }

  /** An element of a filtered sequence comes from the original and passes the test. */
  lemma FilterElement<T(!new)>(xs: seq<T>, p: T -> bool, i: nat)
    requires i < |Filter(xs, p)|
    ensures Filter(xs, p)[i] in xs && p(Filter(xs, p)[i])
  {
  }

  /** Filtering twice is filtering once by the conjunction. */
  lemma {:induction false} FilterTwice<T(!new)>(xs: seq<T>, p: T -> bool, q: T -> bool, pq: T -> bool)
    requires forall x :: pq(x) == (p(x) && q(x))
    ensures Filter(Filter(xs, p), q) == Filter(xs, pq)
  {
    if xs != [] {
      FilterTwice(xs[1..], p, q, pq);
    }
  }

  /** The head of a non-empty filter is the first element of `xs` that satisfies `p`. */
  lemma {:induction false} FilterHead<T(!new)>(xs: seq<T>, p: T -> bool)
    requires Filter(xs, p) != []
    ensures exists i :: 0 <= i < |xs| && p(xs[i]) && Filter(xs, p)[0] == xs[i]
                        && forall j :: 0 <= j < i ==> !p(xs[j])
  {
    if p(xs[0]) {
      assert p(xs[0]) && Filter(xs, p)[0] == xs[0];
    } else {
      FilterHead(xs[1..], p);
      var k :| 0 <= k < |xs| - 1 && p(xs[1..][k]) && Filter(xs[1..], p)[0] == xs[1..][k]
               && forall j :: 0 <= j < k ==> !p(xs[1..][j]);
      assert forall j :: 0 <= j < k + 1 ==> !p(xs[j]) by {
        forall j | 0 <= j < k + 1 ensures !p(xs[j]) {
          if j > 0 { assert xs[j] == xs[1..][j - 1]; }
        }
      }
    }
  }

  /** Every element of a sequence is kept when `p` holds of all of them. */
  lemma {:induction false} FilterAll<T(!new)>(xs: seq<T>, p: T -> bool)
    ensures Filter(xs, p) == xs <==> forall i :: 0 <= i < |xs| ==> p(xs[i])
  {
    if xs != [] {
      FilterAll(xs[1..], p);
      if !p(xs[0]) {
        assert |Filter(xs, p)| < |xs| by { assert Filter(xs, p) == Filter(xs[1..], p); }
      }
    }
  }

  /** `xs.map(f)`. */
  function Map<T, U>(xs: seq<T>, f: T -> U): (r: seq<U>)
    ensures |r| == |xs|
    ensures forall i :: 0 <= i < |xs| ==> r[i] == f(xs[i])
  {
    if xs == [] then [] else [f(xs[0])] + Map(xs[1..], f)
  }

  /** `xs.map(f)` with a callback that may throw: the first exception escapes, otherwise every
      result is collected. */
  function MapResult<T, U, E>(xs: seq<T>, f: T -> Result<U, E>): (r: Result<seq<U>, E>)
    ensures r.Success? <==> forall i :: 0 <= i < |xs| ==> f(xs[i]).Success?
    ensures r.Success? ==> |r.value| == |xs| && forall i :: 0 <= i < |xs| ==> r.value[i] == f(xs[i]).value
    ensures r.Failure? ==> exists i :: 0 <= i < |xs| && f(xs[i]).Failure? && r.error == f(xs[i]).error
                                      && forall j :: 0 <= j < i ==> f(xs[j]).Success?
  {
    if xs == [] then Success([])
    else
      match f(xs[0])
      case Failure(e) => Failure(e)
      case Success(y) =>
        match MapResult(xs[1..], f)
        case Failure(e) =>
          assert forall j :: 1 <= j < |xs| ==> f(xs[j]) == f(xs[1..][j - 1]);
          Failure(e)
        case Success(ys) => Success([y] + ys)
  }

  /** Filtering mapped values is mapping the values whose images pass. */
  lemma {:induction false} FilterMap<T(!new), U(!new)>(xs: seq<T>, g: T -> U, p: U -> bool, pg: T -> bool)
    requires forall x :: pg(x) == p(g(x))
    ensures Filter(Map(xs, g), p) == Map(Filter(xs, pg), g)
  {
    if xs != [] {
      FilterMap(xs[1..], g, p, pg);
      assert Map(xs, g) == [g(xs[0])] + Map(xs[1..], g);
      assert Map(xs, g)[1..] == Map(xs[1..], g);
    }
  }

  /** Two throwing maps that succeed and fail together, element by element and with the same
      exceptions, succeed and fail together as a whole, with the same exception. */
  lemma {:induction false} MapResultAgree<T, U, V, W, E>(xs: seq<T>, ys: seq<U>, f: T -> Result<V, E>, g: U -> Result<W, E>)
    requires |xs| == |ys|
    requires forall i :: 0 <= i < |xs| ==> (f(xs[i]).Success? <==> g(ys[i]).Success?)
    requires forall i :: 0 <= i < |xs| ==> f(xs[i]).Failure? ==> f(xs[i]).error == g(ys[i]).error
    ensures MapResult(xs, f).Success? <==> MapResult(ys, g).Success?
    ensures MapResult(xs, f).Failure? ==> MapResult(xs, f).error == MapResult(ys, g).error
  {
    if xs != [] && f(xs[0]).Success? {
      assert forall i :: 0 <= i < |xs| - 1 ==> xs[1..][i] == xs[i + 1] && ys[1..][i] == ys[i + 1];
      MapResultAgree(xs[1..], ys[1..], f, g);
    }
  }

  /** Tests that agree everywhere filter alike. */
  lemma {:induction false} FilterCongruent<T(!new)>(xs: seq<T>, p: T -> bool, q: T -> bool)
    requires forall x :: p(x) == q(x)
    ensures Filter(xs, p) == Filter(xs, q)
  {
    if xs != [] {
      FilterCongruent(xs[1..], p, q);
    }
  }
}
