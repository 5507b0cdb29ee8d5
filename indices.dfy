/**
 * `src/utils/indices.py`: spectral indices computed pixel by pixel over band
 * rasters, with every non-finite quotient replaced by 0.
 */
module Indices {
  import opened Viz
  import opened Stats

  /** Two rasters of the same dimensions. */
  predicate SameDims(a: Grid, b: Grid) {
    |a| == |b| && forall i :: 0 <= i < |a| ==> |a[i]| == |b[i]|
  }

  /**
   * `_safe_div` at one pixel: the quotient, or 0 where it would be non-finite.
   * Over the reals the only non-finite quotient is a division by zero.
   */
  function SafeQuot(a: real, b: real): (q: real)
    ensures b == 0.0 ==> q == 0.0
    ensures b != 0.0 ==> q * b == a
  {
    if b == 0.0 then 0.0 else a / b
  }

  /** The normalised difference `(a - b) / (a + b)` shared by NDVI, NDWI and MNDWI. */
  function NormDiff(a: real, b: real): (q: real)
    ensures a + b == 0.0 ==> q == 0.0
    ensures a + b != 0.0 ==> q * (a + b) == a - b
  {
    SafeQuot(a - b, a + b)
  }

  /** A pixelwise operation on two rasters of the same dimensions. */
  function Zip(a: Grid, b: Grid, f: (real, real) -> real): (c: Grid)
    requires SameDims(a, b)
    ensures SameDims(c, a)
    ensures forall i, j :: 0 <= i < |c| && 0 <= j < |c[i]| ==> c[i][j] == f(a[i][j], b[i][j])
  {
    seq(|a|, i requires 0 <= i < |a| => seq(|a[i]|, j requires 0 <= j < |a[i]| => f(a[i][j], b[i][j])))
  }

  /** A pixelwise operation on three rasters of the same dimensions. */
  function Zip3(a: Grid, b: Grid, c: Grid, f: (real, real, real) -> real): (d: Grid)
    requires SameDims(a, b) && SameDims(a, c)
    ensures SameDims(d, a)
    ensures forall i, j :: 0 <= i < |d| && 0 <= j < |d[i]| ==> d[i][j] == f(a[i][j], b[i][j], c[i][j])
  {
    seq(|a|, i requires 0 <= i < |a| => seq(|a[i]|, j requires 0 <= j < |a[i]| => f(a[i][j], b[i][j], c[i][j])))
  }

  /** `ndvi(nir, red)` */
  function Ndvi(nir: Grid, red: Grid): (r: Grid)
    requires SameDims(nir, red)
    ensures SameDims(r, nir)
    ensures forall i, j :: 0 <= i < |r| && 0 <= j < |r[i]| ==>
              var s := nir[i][j] + red[i][j];
              && (s == 0.0 ==> r[i][j] == 0.0)
              && (s != 0.0 ==> r[i][j] * s == nir[i][j] - red[i][j])
  {
    Zip(nir, red, NormDiff)
  }

  /** `ndwi(green, nir)` */
  function Ndwi(green: Grid, nir: Grid): (r: Grid)
    requires SameDims(green, nir)
    ensures SameDims(r, green)
    ensures forall i, j :: 0 <= i < |r| && 0 <= j < |r[i]| ==>
              var s := green[i][j] + nir[i][j];
              && (s == 0.0 ==> r[i][j] == 0.0)
              && (s != 0.0 ==> r[i][j] * s == green[i][j] - nir[i][j])
  {
    Zip(green, nir, NormDiff)
  }

  /** `mndwi(green, swir1)` */
  function Mndwi(green: Grid, swir1: Grid): (r: Grid)
    requires SameDims(green, swir1)
    ensures SameDims(r, green)
    ensures forall i, j :: 0 <= i < |r| && 0 <= j < |r[i]| ==>
              var s := green[i][j] + swir1[i][j];
              && (s == 0.0 ==> r[i][j] == 0.0)
              && (s != 0.0 ==> r[i][j] * s == green[i][j] - swir1[i][j])
  {
    Zip(green, swir1, NormDiff)
  }

  /** EVI at one pixel: `G * (nir - red) / (nir + C1 red - C2 blue + L)`, 0 where the denominator vanishes. */
  function EviAt(nir: real, red: real, blue: real, g: real, c1: real, c2: real, l: real): (e: real)
    ensures nir + c1 * red - c2 * blue + l == 0.0 ==> e == 0.0
    ensures nir + c1 * red - c2 * blue + l != 0.0 ==> e * (nir + c1 * red - c2 * blue + l) == g * (nir - red)
  {
    var d := nir + c1 * red - c2 * blue + l;
    var q := SafeQuot(nir - red, d);
    assert (g * q) * d == g * (q * d);
    g * q
  }

  /** `evi(nir, red, blue, G=2.5, C1=6.0, C2=7.5, L=1.0)` */
  function Evi(nir: Grid, red: Grid, blue: Grid, g: real := 2.5, c1: real := 6.0, c2: real := 7.5, l: real := 1.0): (r: Grid)
    requires SameDims(nir, red) && SameDims(nir, blue)
    ensures SameDims(r, nir)
    ensures forall i, j :: 0 <= i < |r| && 0 <= j < |r[i]| ==>
              var d := nir[i][j] + c1 * red[i][j] - c2 * blue[i][j] + l;
              && (d == 0.0 ==> r[i][j] == 0.0)
              && (d != 0.0 ==> r[i][j] * d == g * (nir[i][j] - red[i][j]))
  {
    Zip3(nir, red, blue, (n, r, b) => EviAt(n, r, b, g, c1, c2, l))
  }

  /** For non-negative reflectances the normalised difference lies in [-1, 1]. */
  lemma NormDiffRange(a: real, b: real)
    requires a >= 0.0 && b >= 0.0
    ensures -1.0 <= NormDiff(a, b) <= 1.0
  {
    var q := NormDiff(a, b);
    var s := a + b;
    if s != 0.0 {
      assert q * s == a - b;
      if q > 1.0 {
        PositiveProduct(q - 1.0, s);
      }
      if q < -1.0 {
        PositiveProduct(-1.0 - q, s);
      }
    }
  }

  /** Swapping the two bands negates the normalised difference. */
  lemma NormDiffAntisymmetric(a: real, b: real)
    ensures NormDiff(b, a) == -NormDiff(a, b)
  {
    if a + b != 0.0 {
      var q := NormDiff(a, b);
      var p := NormDiff(b, a);
      assert q == (a - b) / (a + b);
      assert p == (b - a) / (b + a);
    }
  }

  /** A raster with no negative pixel. */
  predicate NonNegativeGrid(a: Grid) {
    forall i, j :: 0 <= i < |a| && 0 <= j < |a[i]| ==> a[i][j] >= 0.0
  }

  /** Over non-negative bands every normalised difference of a raster pair lies in [-1, 1]. */
  lemma NormDiffGridRange(a: Grid, b: Grid)
    requires SameDims(a, b) && NonNegativeGrid(a) && NonNegativeGrid(b)
    ensures forall i, j :: 0 <= i < |a| && 0 <= j < |a[i]| ==> -1.0 <= Zip(a, b, NormDiff)[i][j] <= 1.0
  {
    forall i, j | 0 <= i < |a| && 0 <= j < |a[i]| ensures -1.0 <= Zip(a, b, NormDiff)[i][j] <= 1.0 {
      NormDiffRange(a[i][j], b[i][j]);
    }
  }

  /** NDVI keeps the bands' shape, and over non-negative bands every value lies in [-1, 1]. */
  lemma NdviShapeAndRange(nir: Grid, red: Grid)
    requires SameDims(nir, red)
    ensures SameDims(Ndvi(nir, red), nir)
    ensures NonNegativeGrid(nir) && NonNegativeGrid(red) ==>
              forall i, j :: 0 <= i < |nir| && 0 <= j < |nir[i]| ==> -1.0 <= Ndvi(nir, red)[i][j] <= 1.0
  {
    if NonNegativeGrid(nir) && NonNegativeGrid(red) {
      NormDiffGridRange(nir, red);
    }
  }

  /** NDWI keeps the bands' shape, and over non-negative bands every value lies in [-1, 1]. */
  lemma NdwiShapeAndRange(green: Grid, nir: Grid)
    requires SameDims(green, nir)
    ensures SameDims(Ndwi(green, nir), green)
    ensures NonNegativeGrid(green) && NonNegativeGrid(nir) ==>
              forall i, j :: 0 <= i < |green| && 0 <= j < |green[i]| ==> -1.0 <= Ndwi(green, nir)[i][j] <= 1.0
  {
    if NonNegativeGrid(green) && NonNegativeGrid(nir) {
      NormDiffGridRange(green, nir);
    }
  }

  /** MNDWI keeps the bands' shape, and over non-negative bands every value lies in [-1, 1]. */
  lemma MndwiShapeAndRange(green: Grid, swir1: Grid)
    requires SameDims(green, swir1)
    ensures SameDims(Mndwi(green, swir1), green)
    ensures NonNegativeGrid(green) && NonNegativeGrid(swir1) ==>
              forall i, j :: 0 <= i < |green| && 0 <= j < |green[i]| ==> -1.0 <= Mndwi(green, swir1)[i][j] <= 1.0
  {
    if NonNegativeGrid(green) && NonNegativeGrid(swir1) {
      NormDiffGridRange(green, swir1);
    }
  }

  /** Swapping the NDVI arguments negates every pixel. */
  lemma NdviAntisymmetric(nir: Grid, red: Grid)
    requires SameDims(nir, red)
    ensures SameDims(red, nir)
    ensures forall i, j :: 0 <= i < |nir| && 0 <= j < |nir[i]| ==> Ndvi(red, nir)[i][j] == -Ndvi(nir, red)[i][j]
  {
    forall i, j | 0 <= i < |nir| && 0 <= j < |nir[i]| ensures Ndvi(red, nir)[i][j] == -Ndvi(nir, red)[i][j] {
      NormDiffAntisymmetric(nir[i][j], red[i][j]);
    }
  }

  /** Where nir and red sum to zero every index is 0 rather than non-finite. */
  lemma NdviZeroDenominator(nir: Grid, red: Grid, i: nat, j: nat)
    requires SameDims(nir, red) && i < |nir| && j < |nir[i]| && nir[i][j] + red[i][j] == 0.0
    ensures Ndvi(nir, red)[i][j] == 0.0
  {
  }

  /** With the default coefficients EVI is `2.5 (nir - red) / (nir + 6 red - 7.5 blue + 1)`, 0 where that denominator vanishes. */
  lemma EviDefaults(nir: Grid, red: Grid, blue: Grid, i: nat, j: nat)
    requires SameDims(nir, red) && SameDims(nir, blue) && i < |nir| && j < |nir[i]|
    ensures SameDims(Evi(nir, red, blue), nir)
    ensures var d := nir[i][j] + 6.0 * red[i][j] - 7.5 * blue[i][j] + 1.0;
            && (d == 0.0 ==> Evi(nir, red, blue)[i][j] == 0.0)
            && (d != 0.0 ==> Evi(nir, red, blue)[i][j] * d == 2.5 * (nir[i][j] - red[i][j]))
  {
  }
}
