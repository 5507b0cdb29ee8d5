/**
 * `src/models/water_anomaly.py`: each parcel's water anomaly is the absolute
 * z-score of its mean MNDWI against all parcels, flagged above 1.5.
 */
module Water {
  import opened Frames
  import opened Stats

  /** The anomaly above which a parcel is flagged. */
  const FlagThreshold: real := 1.5

  function Abs(x: real): (a: real)
    ensures a >= 0.0 && (a == x || a == -x)
  {
    if x < 0.0 then -x else x
  }

  /** `series.std(ddof=0) or 1.0`: a zero deviation is replaced by 1, so the divisor is always positive. */
  function Divisor(sd: real): (d: real)
    requires sd >= 0.0
    ensures d > 0.0
    ensures sd != 0.0 ==> d == sd
  {
    if sd == 0.0 then 1.0 else sd
  }

  /**
   * `zscore(series)`: each value's distance from the mean in standard
   * deviations; `sd` is the population standard deviation of `xs`.
   */
  function ZScore(xs: seq<real>, sd: real): (zs: seq<real>)
    requires IsStd(xs, sd)
    ensures |zs| == |xs|
    ensures forall k :: 0 <= k < |xs| ==> zs[k] * Divisor(sd) == xs[k] - Mean(xs)
  {
    seq(|xs|, k requires 0 <= k < |xs| => (xs[k] - Mean(xs)) / Divisor(sd))
  }

  /** The z-scores sum to zero, so their mean is zero. */
  lemma ZScoreCentred(xs: seq<real>, sd: real)
    requires IsStd(xs, sd)
    ensures Sum(ZScore(xs, sd)) == 0.0 && Mean(ZScore(xs, sd)) == 0.0
  {
    var devs := seq(|xs|, k requires 0 <= k < |xs| => xs[k] - Mean(xs));
    CenteredSumIsZero(xs, devs);
    SumScale(devs, ZScore(xs, sd), Divisor(sd));
  }

  lemma DivisionAsProduct(a: real, d: real)
    requires d != 0.0
    ensures a / d == a * (1.0 / d)
  {
  }

  lemma SquareOfProduct(a: real, c: real)
    ensures (a * c) * (a * c) == (a * a) * (c * c)
  {
  }

  lemma InverseSquare(d: real)
    requires d != 0.0
    ensures (d * d) * ((1.0 / d) * (1.0 / d)) == 1.0
  {
    var inv := 1.0 / d;
    assert d * inv == 1.0;
    assert (d * d) * (inv * inv) == (d * inv) * (d * inv);
  }

  /** If the squared deviations average `sd^2`, the same values scaled by `1/sd^2` average 1. */
  lemma ScaledMean(sx: real, sz: real, n: real, sd: real)
    requires n > 0.0 && sd != 0.0 && sx / n == sd * sd && sz == sx * ((1.0 / sd) * (1.0 / sd))
    ensures sz / n == 1.0
  {
    var v, c := sd * sd, (1.0 / sd) * (1.0 / sd);
    InverseSquare(sd);
    assert sx == v * n;
    assert sz == (v * c) * n;
  }

  /** Dividing centred values by `d` multiplies their squared deviations by `1/d^2`. */
  lemma SquaredDeviationsScale(xs: seq<real>, zs: seq<real>, d: real)
    requires d != 0.0 && |zs| == |xs| && Mean(zs) == 0.0
    requires forall k :: 0 <= k < |xs| ==> zs[k] == (xs[k] - Mean(xs)) / d
    ensures forall k :: 0 <= k < |xs| ==>
              SquaredDeviations(zs)[k] == SquaredDeviations(xs)[k] * ((1.0 / d) * (1.0 / d))
  {
    forall k | 0 <= k < |xs| ensures SquaredDeviations(zs)[k] == SquaredDeviations(xs)[k] * ((1.0 / d) * (1.0 / d)) {
      DivisionAsProduct(xs[k] - Mean(xs), d);
      SquareOfProduct(xs[k] - Mean(xs), 1.0 / d);
    }
  }

  /** A non-zero standard deviation needs at least one value. */
  lemma NonZeroStdHasValues(xs: seq<real>, sd: real)
    requires IsStd(xs, sd) && sd != 0.0
    ensures xs != []
  {
    if xs == [] {
      VarianceOfNothing();
      ZeroSquare(sd);
    }
  }

  /** Values whose mean is `sd^2`, each scaled by `1/sd^2`, have mean 1. */
  lemma ScaledMeanIsOne(dx: seq<real>, dz: seq<real>, sd: real)
    requires sd != 0.0 && dx != [] && |dz| == |dx| && Mean(dx) == sd * sd
    requires forall k :: 0 <= k < |dx| ==> dz[k] == dx[k] * ((1.0 / sd) * (1.0 / sd))
    ensures Mean(dz) == 1.0
  {
    SumTimes(dx, dz, (1.0 / sd) * (1.0 / sd));
    ScaledMean(Sum(dx), Sum(dz), |dx| as real, sd);
  }

  /** Centred values divided by a non-zero standard deviation have variance 1. */
  lemma UnitVariance(xs: seq<real>, zs: seq<real>, sd: real)
    requires IsStd(xs, sd) && sd != 0.0 && |zs| == |xs| && Mean(zs) == 0.0
    requires forall k :: 0 <= k < |xs| ==> zs[k] == (xs[k] - Mean(xs)) / sd
    ensures Variance(zs) == 1.0
  {
    NonZeroStdHasValues(xs, sd);
    SquaredDeviationsScale(xs, zs, sd);
    ScaledMeanIsOne(SquaredDeviations(xs), SquaredDeviations(zs), sd);
  }

  /** When the values are not all equal, the z-scores have population variance 1. */
  lemma ZScoreUnitVariance(xs: seq<real>, sd: real)
    requires IsStd(xs, sd) && sd != 0.0
    ensures Variance(ZScore(xs, sd)) == 1.0
  {
    ZScoreCentred(xs, sd);
    UnitVariance(xs, ZScore(xs, sd), sd);
  }

  /** A column of equal values has z-score 0 everywhere. */
  lemma ZScoreConstant(xs: seq<real>, sd: real, c: real)
    requires IsStd(xs, sd) && forall k :: 0 <= k < |xs| ==> xs[k] == c
    ensures forall k :: 0 <= k < |xs| ==> ZScore(xs, sd)[k] == 0.0
  {
    if xs != [] {
      MeanConstant(xs, c);
    }
  }

  /** The frame columns `score_water_anomaly` reads: `mndwi_mean`, when present, holds floats. */
  predicate Scorable(f: Frame, sd: real) {
    NumericColumn(f, "mndwi_mean")
    && ("mndwi_mean" in f.columns ==> IsStd(NumColumn(f, "mndwi_mean"), sd))
  }

  /** The `water_anom` column: the absolute z-score of `mndwi_mean`, or 0.0 everywhere without that column. */
  function Anomalies(f: Frame, sd: real): (a: seq<real>)
    requires Scorable(f, sd)
    ensures |a| == |f.rows|
    ensures forall k :: 0 <= k < |a| ==> a[k] >= 0.0
  {
    if "mndwi_mean" in f.columns then
      var zs := ZScore(NumColumn(f, "mndwi_mean"), sd);
      seq(|f.rows|, k requires 0 <= k < |f.rows| => Abs(zs[k]))
    else
      seq(|f.rows|, k => 0.0)
  }

  /**
   * `score_water_anomaly(features_df)`: a copy of the table with `water_anom`
   * and then `water_flag` (anomaly above 1.5) set, appended when new.
   */
  function ScoreWaterAnomaly(f: Frame, sd: real): (g: Frame)
    requires Scorable(f, sd)
    ensures |g.rows| == |f.rows|
    ensures forall c :: c in g.columns <==> c in f.columns || c == "water_anom" || c == "water_flag"
    ensures WellFormed(f) ==> WellFormed(g)
  {
    var a := Anomalies(f, sd);
    var g1 := WithColumn(f, "water_anom", seq(|a|, k requires 0 <= k < |a| => Num(a[k])));
    WithColumn(g1, "water_flag", seq(|a|, k requires 0 <= k < |a| => Bool(a[k] > FlagThreshold)))
  }

  /** Row `k` of the anomaly column: the absolute z-score of the row's mean MNDWI, or 0.0 without that column. */
  lemma AnomalyAt(f: Frame, sd: real, k: nat)
    requires Scorable(f, sd) && k < |f.rows|
    ensures "mndwi_mean" in f.columns ==>
              Anomalies(f, sd)[k] == Abs((f.rows[k]["mndwi_mean"].x - Mean(NumColumn(f, "mndwi_mean"))) / Divisor(sd))
    ensures "mndwi_mean" !in f.columns ==> Anomalies(f, sd)[k] == 0.0
  {
  }

  /**
   * Row by row: `water_anom` is the anomaly, `water_flag` is true exactly
   * when it exceeds 1.5, and every other cell of the row is kept.
   */
  lemma ScoreWaterAnomalyRow(f: Frame, sd: real, k: nat)
    requires Scorable(f, sd) && k < |f.rows|
    ensures var g, a := ScoreWaterAnomaly(f, sd), Anomalies(f, sd)[k];
            && "water_anom" in g.rows[k] && g.rows[k]["water_anom"] == Num(a)
            && "water_flag" in g.rows[k] && g.rows[k]["water_flag"] == Bool(a > FlagThreshold)
            && forall c :: c != "water_anom" && c != "water_flag" && c in f.rows[k] ==>
                 c in g.rows[k] && g.rows[k][c] == f.rows[k][c]
  {
    var a := Anomalies(f, sd);
    var anom := seq(|a|, j requires 0 <= j < |a| => Num(a[j]));
    var flag := seq(|a|, j requires 0 <= j < |a| => Bool(a[j] > FlagThreshold));
    var g1 := WithColumn(f, "water_anom", anom);
    var g := WithColumn(g1, "water_flag", flag);
    assert g == ScoreWaterAnomaly(f, sd);
    assert g1.rows[k]["water_anom"] == anom[k];
    assert g.rows[k]["water_anom"] == g1.rows[k]["water_anom"];
  }

  /** When every parcel has the same mean MNDWI, no anomaly is above 0 and nothing is flagged. */
  lemma UniformColumnFlagsNothing(f: Frame, sd: real, c: real, k: nat)
    requires Scorable(f, sd) && "mndwi_mean" in f.columns && k < |f.rows|
    requires forall j :: 0 <= j < |f.rows| ==> f.rows[j]["mndwi_mean"] == Num(c)
    ensures ScoreWaterAnomaly(f, sd).rows[k]["water_anom"] == Num(0.0)
    ensures ScoreWaterAnomaly(f, sd).rows[k]["water_flag"] == Bool(false)
  {
    var xs := NumColumn(f, "mndwi_mean");
    ZScoreConstant(xs, sd, c);
    AnomalyAt(f, sd, k);
    ScoreWaterAnomalyRow(f, sd, k);
  }
}
