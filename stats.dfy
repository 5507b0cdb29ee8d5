/**
 * The NumPy/pandas reductions the model computes itself: sum, arithmetic mean
 * and population variance (`ddof=0`) over a sequence of floats.
 */
module Stats {

  function Sum(xs: seq<real>): real
    decreases |xs|
  {
    if xs == [] then 0.0 else Sum(xs[..|xs| - 1]) + xs[|xs| - 1]
  }

  /** `np.mean`: the sum over the count (0.0 for no values, where NumPy gives NaN). */
  function Mean(xs: seq<real>): real {
    if xs == [] then 0.0 else Sum(xs) / |xs| as real
  }

  /** The squared deviations from the mean. */
  function SquaredDeviations(xs: seq<real>): (ds: seq<real>)
    ensures |ds| == |xs|
  {
    seq(|xs|, k requires 0 <= k < |xs| => (xs[k] - Mean(xs)) * (xs[k] - Mean(xs)))
  }

  /** Population variance: the mean squared deviation from the mean. */
  function Variance(xs: seq<real>): real {
    Mean(SquaredDeviations(xs))
  }

  /** `sd` is the population standard deviation of `xs`: the non-negative square root of the variance. */
  predicate IsStd(xs: seq<real>, sd: real) {
    sd >= 0.0 && sd * sd == Variance(xs)
  }

  lemma {:induction false} SumAppend(xs: seq<real>, ys: seq<real>)
    ensures Sum(xs + ys) == Sum(xs) + Sum(ys)
    decreases |ys|
  {
    if ys == [] {
      assert xs + ys == xs;
    } else {
      assert (xs + ys)[..|xs + ys| - 1] == xs + ys[..|ys| - 1];
      SumAppend(xs, ys[..|ys| - 1]);
    }
  }

  /** The sum of `n` copies of `c` is `n * c`. */
  lemma {:induction false} SumConstant(xs: seq<real>, c: real)
    requires forall k :: 0 <= k < |xs| ==> xs[k] == c
    ensures Sum(xs) == |xs| as real * c
    decreases |xs|
  {
    if xs != [] {
      SumConstant(xs[..|xs| - 1], c);
    }
  }

  /** A sum of non-negative terms is non-negative. */
  lemma {:induction false} SumNonNegative(xs: seq<real>)
    requires forall k :: 0 <= k < |xs| ==> xs[k] >= 0.0
    ensures Sum(xs) >= 0.0
    decreases |xs|
  {
    if xs != [] {
      SumNonNegative(xs[..|xs| - 1]);
    }
  }

  /** The mean of a constant sequence is that constant. */
  lemma MeanConstant(xs: seq<real>, c: real)
    requires xs != [] && forall k :: 0 <= k < |xs| ==> xs[k] == c
    ensures Mean(xs) == c
  {
    SumConstant(xs, c);
  }

  /** The mean lies between the least and the greatest value. */
  lemma {:induction false} SumBounds(xs: seq<real>, lo: real, hi: real)
    requires forall k :: 0 <= k < |xs| ==> lo <= xs[k] <= hi
    ensures |xs| as real * lo <= Sum(xs) <= |xs| as real * hi
    decreases |xs|
  {
    if xs != [] {
      SumBounds(xs[..|xs| - 1], lo, hi);
    }
  }

  lemma MeanBounds(xs: seq<real>, lo: real, hi: real)
    requires xs != [] && forall k :: 0 <= k < |xs| ==> lo <= xs[k] <= hi
    ensures lo <= Mean(xs) <= hi
  {
    SumBounds(xs, lo, hi);
    var n := |xs| as real;
    assert Mean(xs) * n == Sum(xs);
  }

  /** Subtracting `c` from every term lowers the sum by `n * c`. */
  lemma {:induction false} SumShift(xs: seq<real>, ys: seq<real>, c: real)
    requires |ys| == |xs| && forall k :: 0 <= k < |xs| ==> ys[k] == xs[k] - c
    ensures Sum(ys) == Sum(xs) - |xs| as real * c
    decreases |xs|
  {
    if xs != [] {
      SumShift(xs[..|xs| - 1], ys[..|ys| - 1], c);
    }
  }

  /** Dividing every term by `d` divides the sum by `d`. */
  lemma {:induction false} SumScale(xs: seq<real>, ys: seq<real>, d: real)
    requires d != 0.0
    requires |ys| == |xs| && forall k :: 0 <= k < |xs| ==> ys[k] == xs[k] / d
    ensures Sum(ys) == Sum(xs) / d
    decreases |xs|
  {
    if xs != [] {
      SumScale(xs[..|xs| - 1], ys[..|ys| - 1], d);
    }
  }

  /** Multiplying every term by `c` multiplies the sum by `c`. */
  lemma {:induction false} SumTimes(xs: seq<real>, ys: seq<real>, c: real)
    requires |ys| == |xs| && forall k :: 0 <= k < |xs| ==> ys[k] == xs[k] * c
    ensures Sum(ys) == Sum(xs) * c
    decreases |xs|
  {
    if xs != [] {
      SumTimes(xs[..|xs| - 1], ys[..|ys| - 1], c);
    }
  }

  /** The deviations from the mean sum to zero. */
  lemma CenteredSumIsZero(xs: seq<real>, ys: seq<real>)
    requires |ys| == |xs| && forall k :: 0 <= k < |xs| ==> ys[k] == xs[k] - Mean(xs)
    ensures Sum(ys) == 0.0
  {
    SumShift(xs, ys, Mean(xs));
  }

  /** A constant sequence has variance zero. */
  lemma VarianceConstant(xs: seq<real>, c: real)
    requires forall k :: 0 <= k < |xs| ==> xs[k] == c
    ensures Variance(xs) == 0.0
  {
    if xs != [] {
      MeanConstant(xs, c);
      SumConstant(SquaredDeviations(xs), 0.0);
    }
  }

  lemma PositiveProduct(x: real, y: real)
    requires x > 0.0 && y > 0.0
    ensures x * y > 0.0
  {
  }

  /** A square divided by its non-zero root gives the root back. */
  lemma SquareOverRoot(d: real, p: real)
    requires d != 0.0 && p == d * d
    ensures p / d == d
  {
  }

  /** Only zero squares to zero. */
  lemma ZeroSquare(d: real)
    requires d * d == 0.0
    ensures d == 0.0
  {
    if d != 0.0 {
      SquareOverRoot(d, d * d);
    }
  }

  /** No values have variance 0. */
  lemma VarianceOfNothing()
    ensures Variance([]) == 0.0
  {
    assert SquaredDeviations([]) == [];
  }

  /** The variance is never negative, so a standard deviation always exists. */
  lemma VarianceNonNegative(xs: seq<real>)
    ensures Variance(xs) >= 0.0
  {
    var ds := SquaredDeviations(xs);
    forall k | 0 <= k < |ds| ensures ds[k] >= 0.0 {
      var d := xs[k] - Mean(xs);
      assert ds[k] == d * d;
    }
    SumNonNegative(ds);
  }
}
