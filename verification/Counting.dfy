/** Sums over the states of any number of threads. */
module Counting {

  function Bit(b: bool): nat { if b then 1 else 0 }

  function Sum<T>(xs: seq<T>, f: T -> nat): nat {
    if xs == [] then 0 else f(xs[0]) + Sum(xs[1..], f)
  }

  lemma {:induction false} SumUpdate<T>(xs: seq<T>, i: nat, x: T, f: T -> nat)
    requires i < |xs|
    ensures Sum(xs[i := x], f) + f(xs[i]) == Sum(xs, f) + f(x)
  {
    var ys := xs[i := x];
    if i == 0 {
      assert ys[1..] == xs[1..];
    } else {
      assert ys[1..] == xs[1..][i - 1 := x];
      SumUpdate(xs[1..], i - 1, x, f);
    }
  }

  lemma {:induction false} SumAtLeast<T>(xs: seq<T>, i: nat, f: T -> nat)
    requires i < |xs|
    ensures Sum(xs, f) >= f(xs[i])
  {
    if i > 0 {
      assert xs[1..][i - 1] == xs[i];
      SumAtLeast(xs[1..], i - 1, f);
    }
  }

  lemma {:induction false} SumAtLeastTwo<T>(xs: seq<T>, i: nat, j: nat, f: T -> nat)
    requires i < j < |xs|
    ensures Sum(xs, f) >= f(xs[i]) + f(xs[j])
  {
    if i == 0 {
      assert xs[1..][j - 1] == xs[j];
      SumAtLeast(xs[1..], j - 1, f);
    } else {
      assert xs[1..][i - 1] == xs[i] && xs[1..][j - 1] == xs[j];
      SumAtLeastTwo(xs[1..], i - 1, j - 1, f);
    }
  }

  lemma {:induction false} SumIsZero<T>(xs: seq<T>, f: T -> nat)
    requires forall i | 0 <= i < |xs| :: f(xs[i]) == 0
    ensures Sum(xs, f) == 0
  {
    if xs != [] { SumIsZero(xs[1..], f); }
  }

  lemma {:induction false} SumPositive<T>(xs: seq<T>, f: T -> nat) returns (i: nat)
    requires Sum(xs, f) > 0
    ensures i < |xs| && f(xs[i]) > 0
  {
    if f(xs[0]) > 0 { return 0; }
    i := SumPositive(xs[1..], f);
    i := i + 1;
  }
}
