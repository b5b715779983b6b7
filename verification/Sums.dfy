// Sums over sequences.
module Sums {

  function Sum<T>(f: T -> int, xs: seq<T>): int
  {
    if xs == [] then 0 else Sum(f, xs[..|xs| - 1]) + f(xs[|xs| - 1])
  }

  lemma SumOneMore<T>(f: T -> int, xs: seq<T>, x: T)
    ensures Sum(f, xs + [x]) == Sum(f, xs) + f(x)
  {
    assert (xs + [x])[..|xs|] == xs;
  }

  lemma {:induction false} SumAppend<T>(f: T -> int, xs: seq<T>, ys: seq<T>)
    ensures Sum(f, xs + ys) == Sum(f, xs) + Sum(f, ys)
  {
    if ys == [] {
      assert xs + ys == xs;
    } else {
      var n := |ys| - 1;
      SumAppend(f, xs, ys[..n]);
      assert xs + ys == xs + ys[..n] + [ys[n]];
      SumOneMore(f, xs + ys[..n], ys[n]);
    }
  }

  lemma {:induction false} SumCongruent<T>(f: T -> int, g: T -> int, xs: seq<T>)
    requires forall x :: x in xs ==> f(x) == g(x)
    ensures Sum(f, xs) == Sum(g, xs)
  {
    if xs != [] {
      SumCongruent(f, g, xs[..|xs| - 1]);
    }
  }

  function Without<T>(xs: seq<T>, j: nat): seq<T>
    requires j < |xs|
  {
    xs[..j] + xs[j + 1..]
  }

  lemma MembersWithout<T>(xs: seq<T>, j: nat)
    requires j < |xs|
    ensures multiset(Without(xs, j)) == multiset(xs) - multiset{xs[j]}
  {
    assert xs == xs[..j] + [xs[j]] + xs[j + 1..];
  }

  lemma SumWithout<T>(f: T -> int, xs: seq<T>, j: nat)
    requires j < |xs|
    ensures Sum(f, xs) == Sum(f, Without(xs, j)) + f(xs[j])
  {
    hide Sum;
    SumAppend(f, xs[..j], xs[j + 1..]);
    SumOneMore(f, xs[..j], xs[j]);
    SumAppend(f, xs[..j] + [xs[j]], xs[j + 1..]);
    assert xs == xs[..j] + [xs[j]] + xs[j + 1..];
  }

  /** The order of the summands does not matter. */
  lemma {:induction false} SumPermutes<T>(f: T -> int, xs: seq<T>, ys: seq<T>)
    requires multiset(xs) == multiset(ys)
    ensures Sum(f, xs) == Sum(f, ys)
    decreases |xs|
  {
    if xs == [] {
      assert |multiset(ys)| == 0;
    } else {
      hide Without, Sum;
      assert xs[0] in multiset(xs);
      var j :| 0 <= j < |ys| && ys[j] == xs[0];
      MembersWithout(xs, 0);
      MembersWithout(ys, j);
      SumWithout(f, xs, 0);
      SumWithout(f, ys, j);
      assert |multiset(Without(xs, 0))| == |Without(xs, 0)|;
      SumPermutes(f, Without(xs, 0), Without(ys, j));
    }
  }

  lemma {:induction false} SumNonNegative<T>(f: T -> int, xs: seq<T>)
    requires forall x :: x in xs ==> f(x) >= 0
    ensures Sum(f, xs) >= 0
  {
    if xs != [] {
      SumNonNegative(f, xs[..|xs| - 1]);
    }
  }
}
