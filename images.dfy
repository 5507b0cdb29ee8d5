/** The raster images the system writes as PNG files. */
module Images {

  /** One 8-bit RGB pixel, as PIL stores a `uint8` triple. */
  datatype Rgb = Rgb(r: int, g: int, b: int)

  predicate IsByte(v: int) {
    0 <= v <= 255
  }

  predicate IsRgb(c: Rgb) {
    IsByte(c.r) && IsByte(c.g) && IsByte(c.b)
  }

  /**
   * A PNG image: rows of pixels, top row first, plus the text PIL draws onto
   * it ("" when nothing is drawn). The glyphs themselves are not modelled.
   */
  datatype Image = Image(pixels: seq<seq<Rgb>>, caption: string)

  predicate IsSquare(img: Image, n: nat) {
    |img.pixels| == n && forall i :: 0 <= i < n ==> |img.pixels[i]| == n
  }

  predicate AllRgb(img: Image) {
    forall i, j :: 0 <= i < |img.pixels| && 0 <= j < |img.pixels[i]| ==> IsRgb(img.pixels[i][j])
  }
}
