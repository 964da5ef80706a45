/** Weighted sums over a sequence: how many processes are at given program points. */
module Tally {

  function Sum<T>(xs: seq<T>, weight: T -> nat): nat {
    if xs == [] then 0 else weight(xs[0]) + Sum(xs[1..], weight)
  }

  /** Replacing one element changes the sum by the difference of the two weights. */
  lemma {:induction false} SumUpdate<T>(xs: seq<T>, i: nat, x: T, weight: T -> nat)
    requires i < |xs|
    ensures Sum(xs[i := x], weight) + weight(xs[i]) == Sum(xs, weight) + weight(x)
  {
    if i == 0 {
      assert xs[0 := x][1..] == xs[1..];
    } else {
      SumUpdate(xs[1..], i - 1, x, weight);
      assert xs[i := x][1..] == xs[1..][i - 1 := x];
    }
  }

  lemma {:induction false} SumMember<T>(xs: seq<T>, i: nat, weight: T -> nat)
    requires i < |xs|
    ensures weight(xs[i]) <= Sum(xs, weight)
  {
    if i != 0 {
      SumMember(xs[1..], i - 1, weight);
    }
  }

  lemma {:induction false} SumTwoMembers<T>(xs: seq<T>, i: nat, j: nat, weight: T -> nat)
    requires i < j < |xs|
    ensures weight(xs[i]) + weight(xs[j]) <= Sum(xs, weight)
  {
    if i == 0 {
      SumMember(xs[1..], j - 1, weight);
    } else {
      SumTwoMembers(xs[1..], i - 1, j - 1, weight);
    }
  }

  /** A positive sum has a contributor. */
  lemma {:induction false} SumWitness<T>(xs: seq<T>, weight: T -> nat) returns (i: nat)
    requires Sum(xs, weight) > 0
    ensures i < |xs| && weight(xs[i]) > 0
  {
    if weight(xs[0]) > 0 {
      i := 0;
    } else {
      i := SumWitness(xs[1..], weight);
      i := i + 1;
    }
  }

  lemma {:induction false} SumBound<T>(xs: seq<T>, weight: T -> nat, bound: nat)
    requires forall i :: 0 <= i < |xs| ==> weight(xs[i]) <= bound
    ensures Sum(xs, weight) <= bound * |xs|
  {
    if xs != [] {
      SumBound(xs[1..], weight, bound);
    }
  }

  /** Two weights of which the first is pointwise at most the second. */
  lemma {:induction false} SumMonotone<T>(xs: seq<T>, small: T -> nat, large: T -> nat)
    requires forall i :: 0 <= i < |xs| ==> small(xs[i]) <= large(xs[i])
    ensures Sum(xs, small) <= Sum(xs, large)
  {
    if xs != [] {
      SumMonotone(xs[1..], small, large);
    }
  }
}
