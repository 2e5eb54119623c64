/** Sums over a sequence of threads, used by the step systems. */
module Counting {

  ghost function Sum<T>(ts: seq<T>, f: T -> int): (n: int) {
    if ts == [] then 0 else Sum(ts[..|ts| - 1], f) + f(ts[|ts| - 1])
  }

  /** Replacing one element changes the sum by the difference. */
  lemma {:induction false} SumUpdate<T>(ts: seq<T>, i: nat, t: T, f: T -> int)
    requires i < |ts|
    ensures Sum(ts[i := t], f) == Sum(ts, f) - f(ts[i]) + f(t)
  {
    var n := |ts| - 1;
    if i == n {
      assert ts[i := t][..n] == ts[..n];
    } else {
      assert ts[i := t][..n] == ts[..n][i := t];
      SumUpdate(ts[..n], i, t, f);
    }
  }

  lemma {:induction false} SumBetween<T>(ts: seq<T>, f: T -> int, lo: int, hi: int)
    requires forall i | 0 <= i < |ts| :: lo <= f(ts[i]) <= hi
    ensures lo * |ts| <= Sum(ts, f) <= hi * |ts|
  {
    if ts != [] {
      SumBetween(ts[..|ts| - 1], f, lo, hi);
    }
  }

  /** With non-negative terms, each term is at most the sum, and any two together are as well. */
  lemma {:induction false} SumAtLeast<T>(ts: seq<T>, i: nat, f: T -> int)
    requires forall k | 0 <= k < |ts| :: f(ts[k]) >= 0
    requires i < |ts|
    ensures f(ts[i]) <= Sum(ts, f)
    ensures forall j | 0 <= j < |ts| && j != i :: f(ts[i]) + f(ts[j]) <= Sum(ts, f)
  {
    var n := |ts| - 1;
    SumNonNegative(ts[..n], f);
    if i < n {
      SumAtLeast(ts[..n], i, f);
    } else {
      forall j | 0 <= j < n
        ensures f(ts[i]) + f(ts[j]) <= Sum(ts, f)
      {
        SumAtLeast(ts[..n], j, f);
      }
    }
  }

  lemma {:induction false} SumNonNegative<T>(ts: seq<T>, f: T -> int)
    requires forall k | 0 <= k < |ts| :: f(ts[k]) >= 0
    ensures Sum(ts, f) >= 0
  {
    if ts != [] {
      SumNonNegative(ts[..|ts| - 1], f);
    }
  }

  /** A positive sum has a positive term. */
  lemma {:induction false} SumWitness<T>(ts: seq<T>, f: T -> int) returns (i: nat)
    requires Sum(ts, f) > 0
    ensures i < |ts| && f(ts[i]) > 0
  {
    var n := |ts| - 1;
    if f(ts[n]) > 0 {
      i := n;
    } else {
      i := SumWitness(ts[..n], f);
    }
  }

  /** Sums of functions that agree on the elements are equal. */
  lemma {:induction false} SumSame<T, U>(ts: seq<T>, us: seq<U>, f: T -> int, g: U -> int)
    requires |ts| == |us|
    requires forall k | 0 <= k < |ts| :: f(ts[k]) == g(us[k])
    ensures Sum(ts, f) == Sum(us, g)
  {
    if ts != [] {
      SumSame(ts[..|ts| - 1], us[..|us| - 1], f, g);
    }
  }
}
