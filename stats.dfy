/** The arithmetic of process_groups and edge_latencies, over exact reals
    (the source uses floats; rounding is not modelled). */
module Stats {

  /** The running sum a `psum += x` loop produces. */
  function Sum(xs: seq<real>): real {
    if xs == [] then 0.0 else Sum(xs[..|xs| - 1]) + xs[|xs| - 1]
  }

  function Mean(xs: seq<real>): real
    requires |xs| > 0
  {
    Sum(xs) / (|xs| as real)
  }

  /** The running sum of `(x - avg) ** 2`. */
  function SumSqDev(xs: seq<real>, avg: real): real {
    if xs == [] then 0.0
    else
      var d := xs[|xs| - 1] - avg;
      SumSqDev(xs[..|xs| - 1], avg) + d * d
  }

  lemma SumSnoc(xs: seq<real>, x: real)
    ensures Sum(xs + [x]) == Sum(xs) + x
  {
    assert (xs + [x])[..|xs|] == xs;
  }

  lemma SumSqDevSnoc(xs: seq<real>, x: real, avg: real)
    ensures SumSqDev(xs + [x], avg) == SumSqDev(xs, avg) + (x - avg) * (x - avg)
  {
    assert (xs + [x])[..|xs|] == xs;
  }

  /** process_groups' variance: divisor n - 1, but 0 unless n - 1 > 1. */
  function GroupVariance(xs: seq<real>): real
    requires |xs| > 0
  {
    if |xs| - 1 > 1 then (1.0 / ((|xs| - 1) as real)) * SumSqDev(xs, Mean(xs)) else 0.0
  }

  /** edge_latencies' variance for one edge: `numvals` decides both the
      guard and the divisor, whatever the length of `values`. */
  function LeftoverVariance(values: seq<real>, avg: real, numvals: int): real {
    if numvals < 2 then 0.0 else (1.0 / ((numvals - 1) as real)) * SumSqDev(values, avg)
  }

  /** The per-edge variance the edge statistics intend: divisor n - 1 with
      the edge's own n, and 0 below two samples. */
  function SampleVariance(xs: seq<real>): real
    requires |xs| > 0
  {
    LeftoverVariance(xs, Mean(xs), |xs|)
  }

  /** Every value between `lo` and `hi` bounds the sum by n * lo and n * hi. */
  lemma {:induction false} SumBetween(xs: seq<real>, lo: real, hi: real)
    requires forall i :: 0 <= i < |xs| ==> lo <= xs[i] <= hi
    ensures (|xs| as real) * lo <= Sum(xs) <= (|xs| as real) * hi
  {
    if xs != [] {
      var init := xs[..|xs| - 1];
      SumBetween(init, lo, hi);
      assert (|xs| as real) * lo == (|init| as real) * lo + lo;
      assert (|xs| as real) * hi == (|init| as real) * hi + hi;
    }
  }

  /** The mean lies between the smallest and the largest value. */
  lemma MeanBetween(xs: seq<real>, lo: real, hi: real)
    requires |xs| > 0
    requires forall i :: 0 <= i < |xs| ==> lo <= xs[i] <= hi
    ensures lo <= Mean(xs) <= hi
  {
    SumBetween(xs, lo, hi);
    var n := |xs| as real;
    assert Mean(xs) * n == Sum(xs);
  }

  /** A product of two positive numbers exceeds every bound that is not positive. */
  lemma ProductAbove(a: real, b: real, lo: real)
    requires a > 0.0 && b > 0.0 && lo <= 0.0
    ensures a * b > lo
  {
  }

  /** The square of a non-zero number exceeds every bound that is not positive. */
  lemma SquareAbove(d: real, lo: real)
    requires d != 0.0 && lo <= 0.0
    ensures d * d > lo
  {
    if d > 0.0 {
      ProductAbove(d, d, lo);
    } else {
      ProductAbove(-d, -d, lo);
    }
  }

  /** A square reaches every bound that is not positive. */
  lemma SquareAtLeast(d: real, lo: real)
    requires lo <= 0.0
    ensures d * d >= lo
  {
    if d != 0.0 {
      SquareAbove(d, lo);
    }
  }

  lemma {:induction false} SumSqDevNonNegative(xs: seq<real>, avg: real)
    ensures SumSqDev(xs, avg) >= 0.0
  {
    if xs != [] {
      var init := xs[..|xs| - 1];
      SumSqDevNonNegative(init, avg);
      SquareAtLeast(xs[|xs| - 1] - avg, -SumSqDev(init, avg));
    }
  }

  /** The squared deviations sum to zero exactly when every value equals `avg`. */
  lemma {:induction false} SumSqDevZero(xs: seq<real>, avg: real)
    ensures SumSqDev(xs, avg) == 0.0 <==> forall i :: 0 <= i < |xs| ==> xs[i] == avg
  {
    if xs != [] {
      var init, last := xs[..|xs| - 1], xs[|xs| - 1];
      SumSqDevZero(init, avg);
      SumSqDevNonNegative(init, avg);
      if last != avg {
        SquareAbove(last - avg, -SumSqDev(init, avg));
      }
      assert forall i :: 0 <= i < |init| ==> init[i] == xs[i];
    }
  }

  /** Both variances are never negative. */
  lemma VariancesNonNegative(xs: seq<real>)
    requires |xs| > 0
    ensures GroupVariance(xs) >= 0.0 && SampleVariance(xs) >= 0.0
  {
    SumSqDevNonNegative(xs, Mean(xs));
  }

  /** The group variance is 0 exactly when the group has at most two
      responses or all its responses are equal. */
  lemma GroupVarianceZero(xs: seq<real>)
    requires |xs| > 0
    ensures GroupVariance(xs) == 0.0 <==> |xs| <= 2 || forall i :: 0 <= i < |xs| ==> xs[i] == xs[0]
  {
    var m := Mean(xs);
    SumSqDevZero(xs, m);
    SumSqDevNonNegative(xs, m);
    if forall i :: 0 <= i < |xs| ==> xs[i] == xs[0] {
      MeanBetween(xs, xs[0], xs[0]);
    }
    if |xs| > 2 {
      var c := 1.0 / ((|xs| - 1) as real);
      assert c > 0.0;
      assert c * SumSqDev(xs, m) == 0.0 <==> SumSqDev(xs, m) == 0.0;
    }
  }

  /** The per-edge variance is 0 exactly when the edge has one sample or
      all its samples are equal. */
  lemma SampleVarianceZero(xs: seq<real>)
    requires |xs| > 0
    ensures SampleVariance(xs) == 0.0 <==> |xs| == 1 || forall i :: 0 <= i < |xs| ==> xs[i] == xs[0]
  {
    var m := Mean(xs);
    SumSqDevZero(xs, m);
    SumSqDevNonNegative(xs, m);
    if forall i :: 0 <= i < |xs| ==> xs[i] == xs[0] {
      MeanBetween(xs, xs[0], xs[0]);
    }
    if |xs| > 1 {
      var c := 1.0 / ((|xs| - 1) as real);
      assert c > 0.0;
      assert c * SumSqDev(xs, m) == 0.0 <==> SumSqDev(xs, m) == 0.0;
    }
  }

  /** Responses 10, 20, 30: mean 20 and variance 100; two responses: variance 0. */
  lemma GroupStatsExample()
    ensures Mean([10.0, 20.0, 30.0]) == 20.0 && GroupVariance([10.0, 20.0, 30.0]) == 100.0
    ensures GroupVariance([10.0, 20.0]) == 0.0
  {
    assert [10.0, 20.0, 30.0][..2] == [10.0, 20.0];
    assert [10.0, 20.0][..1] == [10.0];
    assert [10.0][..0] == [];
  }

  /** Latencies 100 and 200 on one edge: mean 150 and per-edge variance 5000. */
  lemma EdgeStatsExample()
    ensures Mean([100.0, 200.0]) == 150.0 && SampleVariance([100.0, 200.0]) == 5000.0
  {
    assert [100.0, 200.0][..1] == [100.0];
    assert [100.0][..0] == [];
  }
}
