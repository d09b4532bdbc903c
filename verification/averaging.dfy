/** Arithmetic means over `real`, standing in for pandas' `mean()` on a
    float column. An empty column has no mean (NaN in pandas, `None` here). */
module Averaging {
  import opened Wrappers

  function Sum(xs: seq<real>): real {
    if |xs| == 0 then 0.0 else Sum(xs[..|xs| - 1]) + xs[|xs| - 1]
  }

  function Mean(xs: seq<real>): (r: Option<real>)
    ensures r.None? <==> |xs| == 0
    ensures r.Some? ==> r.value * (|xs| as real) == Sum(xs)
  {
    if |xs| == 0 then None else Some(Sum(xs) / (|xs| as real))
  }

  lemma {:induction false} SumBounds(xs: seq<real>, lo: real, hi: real)
    requires forall i | 0 <= i < |xs| :: lo <= xs[i] <= hi
    ensures lo * (|xs| as real) <= Sum(xs) <= hi * (|xs| as real)
  {
    if |xs| != 0 {
      SumBounds(xs[..|xs| - 1], lo, hi);
    }
  }

  /** A mean lies between the least and the greatest value averaged. */
  lemma MeanBounds(xs: seq<real>, lo: real, hi: real)
    requires 0 < |xs|
    requires forall i | 0 <= i < |xs| :: lo <= xs[i] <= hi
    ensures Mean(xs).Some? && lo <= Mean(xs).value <= hi
  {
    SumBounds(xs, lo, hi);
    var n := |xs| as real;
    var m := Mean(xs).value;
    assert m * n == Sum(xs);
  }

  /** Two values average to their midpoint. */
  lemma MeanOfTwo(u: real, v: real)
    ensures Mean([u, v]) == Some((u + v) / 2.0)
  {
    assert [u, v][..1] == [u] && [u][..0] == [];
    assert Sum([u]) == u;
    assert Sum([u, v]) == u + v;
  }

  /** 20 and 22 average to 21, 30 and 32 to 31. */
  lemma MeanExample()
    ensures Mean([20.0, 22.0]) == Some(21.0)
    ensures Mean([30.0, 32.0]) == Some(31.0)
  {
    MeanOfTwo(20.0, 22.0);
    MeanOfTwo(30.0, 32.0);
  }
}
