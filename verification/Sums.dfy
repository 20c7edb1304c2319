/** Sums of lists of numbers, for measures over threads. */
module Sums {

  function Sum(a: seq<int>): int {
    if a == [] then 0 else a[0] + Sum(a[1..])
  }

  lemma {:induction false} SumUpdate(a: seq<int>, i: nat, v: int)
    requires i < |a|
    ensures Sum(a[i := v]) == Sum(a) - a[i] + v
  {
    if i == 0 {
      assert a[i := v][1..] == a[1..];
    } else {
      assert a[i := v][1..] == a[1..][i - 1 := v];
      SumUpdate(a[1..], i - 1, v);
    }
  }

  lemma {:induction false} SumBounds(a: seq<int>, lo: int)
    requires forall k | 0 <= k < |a| :: a[k] >= lo
    ensures Sum(a) >= |a| * lo
    ensures (forall k | 0 <= k < |a| :: a[k] == lo) ==> Sum(a) == |a| * lo
  {
    if a != [] {
      SumBounds(a[1..], lo);
      assert |a| * lo == lo + (|a| - 1) * lo;
    }
  }

  lemma {:induction false} SumAtMost(a: seq<int>, hi: int)
    requires forall k | 0 <= k < |a| :: a[k] <= hi
    ensures Sum(a) <= |a| * hi
  {
    if a != [] {
      SumAtMost(a[1..], hi);
      assert |a| * hi == hi + (|a| - 1) * hi;
    }
  }
}
