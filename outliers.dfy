/** `detectOutliers`: the values whose z-score exceeds 2, that is the values
    more than two population standard deviations away from the mean. The
    test is stated on squares, `(x - mean)² > 4·variance`, which on exact
    numbers is the same test without a square root: where the deviation is
    0 every value sits at the mean, and `0 / 0` is NaN, which is never
    greater than 2. */
module Outliers {
  import opened Common
  import opened Values
  import opened Numbers

  function Mean(xs: seq<real>): real
    requires |xs| > 0
  {
    SumOf(xs) / |xs| as real
  }

  /** The sum of the squared deviations from `m`. */
  function SquaredDeviation(xs: seq<real>, m: real): real
    decreases |xs|
  {
    if |xs| == 0 then 0.0
    else
      var d := xs[|xs| - 1] - m;
      SquaredDeviation(xs[..|xs| - 1], m) + d * d
  }

  /** The population variance, the square of `stdDev`. */
  function Variance(xs: seq<real>): real
    requires |xs| > 0
  {
    SquaredDeviation(xs, Mean(xs)) / |xs| as real
  }

  /** `Math.abs((x - mean) / stdDev) > 2`. */
  predicate Beyond(x: real, mean: real, variance: real)
  {
    (x - mean) * (x - mean) > 4.0 * variance
  }

  /** The values of `ys` beyond two deviations, in order. */
  function Flagged(ys: seq<real>, mean: real, variance: real): seq<real>
    decreases |ys|
  {
    if |ys| == 0 then []
    else
      var rest := Flagged(ys[..|ys| - 1], mean, variance);
      var y := ys[|ys| - 1];
      if Beyond(y, mean, variance) then rest + [y] else rest
  }

  function OutliersOf(xs: seq<real>): seq<real>
  {
    if |xs| == 0 then [] else Flagged(xs, Mean(xs), Variance(xs))
  }

  /** The numbers of a list of JavaScript numbers, or `None` when one of
      them is NaN. */
  function Reals(values: seq<Value>): Option<seq<real>>
    decreases |values|
  {
    if |values| == 0 then Some([])
    else
      match Reals(values[..|values| - 1])
      case None => None
      case Some(xs) =>
        var v := values[|values| - 1];
        if v.Num? then Some(xs + [v.n]) else None
  }

  /** A NaN among the values makes the mean, the deviation and every
      z-score NaN, so nothing is reported. */
  function NumberOutliers(values: seq<Value>): seq<real>
  {
    match Reals(values)
    case None => []
    case Some(xs) => OutliersOf(xs)
  }

  /** The mean and the deviation are computed first, then one pass collects
      the values beyond two deviations. */
  method DetectOutliers(values: seq<Value>) returns (outliers: seq<real>)
    ensures outliers == NumberOutliers(values)
  {
    outliers := [];
    var xs := Reals(values);
    if xs.None? || |xs.value| == 0 {
      return;
    }
    var ns := xs.value;
    var mean := SumOf(ns) / |ns| as real;
    var variance := SquaredDeviation(ns, mean) / |ns| as real;
    var i := 0;
    while i < |ns|
      invariant 0 <= i <= |ns|
      invariant outliers == Flagged(ns[..i], mean, variance)
    {
      assert ns[..i + 1][..i] == ns[..i];
      if (ns[i] - mean) * (ns[i] - mean) > 4.0 * variance {
        outliers := outliers + [ns[i]];
      }
      i := i + 1;
    }
    assert ns[..i] == ns;
  }

  // ---------------------------------------------------------------------
  // Properties

  /** Without a NaN, the numbers are the values in order. */
  lemma {:induction false} RealsExact(values: seq<Value>)
    requires Reals(values).Some?
    ensures |Reals(values).value| == |values|
    ensures forall i :: 0 <= i < |values| ==> values[i] == Num(Reals(values).value[i])
    decreases |values|
  {
    if |values| > 0 {
      var init := values[..|values| - 1];
      RealsExact(init);
      assert forall i :: 0 <= i < |init| ==> init[i] == values[i];
    }
  }

  /** A value is reported exactly when it is one of the values and lies
      beyond two deviations; the report keeps the input order. */
  lemma {:induction false} FlaggedExact(ys: seq<real>, mean: real, variance: real)
    ensures IsSubsequence(Flagged(ys, mean, variance), ys)
    ensures forall x :: x in Flagged(ys, mean, variance) <==> x in ys && Beyond(x, mean, variance)
    decreases |ys|
  {
    if |ys| > 0 {
      var init := ys[..|ys| - 1];
      var y := ys[|ys| - 1];
      assert ys == init + [y];
      FlaggedExact(init, mean, variance);
      SubsequenceExtend(Flagged(init, mean, variance), init, y, Beyond(y, mean, variance));
    }
  }

  lemma {:induction false} SquaredDeviationNonNegative(xs: seq<real>, m: real)
    ensures SquaredDeviation(xs, m) >= 0.0
    decreases |xs|
  {
    if |xs| > 0 {
      var d := xs[|xs| - 1] - m;
      SquaredDeviationNonNegative(xs[..|xs| - 1], m);
      assert d * d >= 0.0;
    }
  }

  /** Each reported value contributes more than `4·variance` to the sum of
      squared deviations, every other value at least 0. */
  lemma {:induction false} FlaggedWeight(ys: seq<real>, mean: real, variance: real)
    requires variance >= 0.0
    ensures SquaredDeviation(ys, mean) >= 4.0 * variance * |Flagged(ys, mean, variance)| as real
    ensures |Flagged(ys, mean, variance)| > 0 ==>
      SquaredDeviation(ys, mean) > 4.0 * variance * |Flagged(ys, mean, variance)| as real
    decreases |ys|
  {
    if |ys| > 0 {
      var init := ys[..|ys| - 1];
      var y := ys[|ys| - 1];
      var d := y - mean;
      var c := |Flagged(init, mean, variance)| as real;
      FlaggedWeight(init, mean, variance);
      assert d * d >= 0.0;
      if Beyond(y, mean, variance) {
        assert 4.0 * variance * (c + 1.0) == 4.0 * variance * c + 4.0 * variance;
      }
    }
  }

  /** Chebyshev's bound: fewer than a quarter of the values can lie beyond
      two standard deviations. */
  lemma OutliersFewerThanQuarter(xs: seq<real>)
    requires |xs| > 0
    ensures 4 * |OutliersOf(xs)| < |xs|
  {
    var m := Mean(xs);
    var n := |xs| as real;
    var sd := SquaredDeviation(xs, m);
    var v := Variance(xs);
    var c := |OutliersOf(xs)| as real;
    SquaredDeviationNonNegative(xs, m);
    assert sd == n * v;
    assert v >= 0.0;
    FlaggedWeight(xs, m, v);
    if c > 0.0 {
      assert (n - 4.0 * c) * v > 0.0;
    }
  }

  /** When every value is the same, nothing is an outlier. */
  lemma ConstantHasNoOutliers(xs: seq<real>, x: real)
    requires forall i :: 0 <= i < |xs| ==> xs[i] == x
    ensures OutliersOf(xs) == []
  {
    if |xs| > 0 {
      ConstantStats(xs, x);
      FlaggedNone(xs, x, 0.0);
    }
  }

  lemma {:induction false} FlaggedNone(ys: seq<real>, mean: real, variance: real)
    requires variance == 0.0
    requires forall i :: 0 <= i < |ys| ==> ys[i] == mean
    ensures Flagged(ys, mean, variance) == []
    decreases |ys|
  {
    if |ys| > 0 {
      FlaggedNone(ys[..|ys| - 1], mean, variance);
    }
  }

  lemma {:induction false} ConstantStats(xs: seq<real>, x: real)
    requires |xs| > 0
    requires forall i :: 0 <= i < |xs| ==> xs[i] == x
    ensures Mean(xs) == x && Variance(xs) == 0.0
  {
    ConstantSum(xs, x);
    ConstantDeviation(xs, x);
  }

  lemma {:induction false} ConstantSum(xs: seq<real>, x: real)
    requires forall i :: 0 <= i < |xs| ==> xs[i] == x
    ensures SumOf(xs) == |xs| as real * x
    decreases |xs|
  {
    if |xs| > 0 {
      ConstantSum(xs[..|xs| - 1], x);
    }
  }

  lemma {:induction false} ConstantDeviation(xs: seq<real>, x: real)
    requires forall i :: 0 <= i < |xs| ==> xs[i] == x
    ensures SquaredDeviation(xs, x) == 0.0
    decreases |xs|
  {
    if |xs| > 0 {
      ConstantDeviation(xs[..|xs| - 1], x);
    }
  }
}
