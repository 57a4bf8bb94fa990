/** Finite sums of reals, accumulated from the first element on as the simulation's
    accumulator loops do. */
module Sums {

  function Sum(xs: seq<real>): real
  {
    if |xs| == 0 then 0.0 else Sum(xs[..|xs| - 1]) + xs[|xs| - 1]
  }

  /** Every element multiplied by `k`. */
  function ScaleAll(xs: seq<real>, k: real): (r: seq<real>)
    ensures |r| == |xs|
    ensures forall i :: 0 <= i < |xs| ==> r[i] == k * xs[i]
  {
    seq(|xs|, i requires 0 <= i < |xs| => k * xs[i])
  }

  /** Appending one element adds it to the sum. */
  lemma SumAppend(xs: seq<real>, x: real)
    ensures Sum(xs + [x]) == Sum(xs) + x
  {
    assert (xs + [x])[..|xs|] == xs;
  }

  /** A common factor moves out of the sum. */
  lemma {:induction false} SumScale(xs: seq<real>, k: real)
    ensures Sum(ScaleAll(xs, k)) == k * Sum(xs)
    decreases |xs|
  {
    if |xs| > 0 {
      var init := xs[..|xs| - 1];
      var r := ScaleAll(xs, k);
      SumScale(init, k);
      assert forall i :: 0 <= i < |init| ==> r[i] == ScaleAll(init, k)[i];
      assert r[..|xs| - 1] == ScaleAll(init, k);
    }
  }

  /** A sum of non-negative terms is non-negative, and zero exactly when every term is. */
  lemma {:induction false} SumNonNegative(xs: seq<real>)
    requires forall i :: 0 <= i < |xs| ==> xs[i] >= 0.0
    ensures Sum(xs) >= 0.0
    ensures Sum(xs) == 0.0 <==> forall i :: 0 <= i < |xs| ==> xs[i] == 0.0
    decreases |xs|
  {
    if |xs| > 0 {
      var init := xs[..|xs| - 1];
      SumNonNegative(init);
      if Sum(xs) == 0.0 {
        assert forall i :: 0 <= i < |xs| ==> xs[i] == 0.0 by {
          forall i | 0 <= i < |xs|
            ensures xs[i] == 0.0
          {
            if i < |xs| - 1 {
              assert xs[i] == init[i];
            }
          }
        }
      }
      if forall i :: 0 <= i < |xs| ==> xs[i] == 0.0 {
        assert forall i :: 0 <= i < |init| ==> init[i] == 0.0;
      }
    }
  }
}
