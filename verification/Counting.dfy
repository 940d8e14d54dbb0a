/** Sums of a natural-valued measure over a sequence. */
module Counting {
  function Sum<T>(f: T -> nat, xs: seq<T>): nat {
    if xs == [] then 0 else f(xs[0]) + Sum(f, xs[1..])
  }

  lemma {:induction false} SumUpdate<T>(f: T -> nat, xs: seq<T>, i: nat, x: T)
    requires i < |xs|
    ensures Sum(f, xs[i := x]) == Sum(f, xs) - f(xs[i]) + f(x)
    decreases |xs|
  {
    if i > 0 {
      assert xs[i := x][1..] == xs[1..][i - 1 := x];
      SumUpdate(f, xs[1..], i - 1, x);
    } else {
      assert xs[i := x][1..] == xs[1..];
    }
  }

  lemma {:induction false} SumAppend<T>(f: T -> nat, xs: seq<T>, x: T)
    ensures Sum(f, xs + [x]) == Sum(f, xs) + f(x)
    decreases |xs|
  {
    if xs == [] {
      assert Sum(f, [x]) == f(x) + Sum(f, []);
    } else {
      assert (xs + [x])[1..] == xs[1..] + [x];
      SumAppend(f, xs[1..], x);
    }
  }

  lemma {:induction false} SumZero<T>(f: T -> nat, xs: seq<T>)
    ensures Sum(f, xs) == 0 <==> forall i :: 0 <= i < |xs| ==> f(xs[i]) == 0
    decreases |xs|
  {
    if xs != [] {
      SumZero(f, xs[1..]);
      assert forall i :: 0 <= i < |xs| - 1 ==> xs[1..][i] == xs[i + 1];
      if forall i :: 0 <= i < |xs| - 1 ==> f(xs[1..][i]) == 0 {
        forall i | 0 < i < |xs| ensures f(xs[i]) == f(xs[1..][i - 1]) {
        }
      }
    }
  }
}
