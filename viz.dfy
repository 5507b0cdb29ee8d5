/**
 * `src/utils/viz.py`: turning a float array into an RGB image through a colour
 * ramp, and the two PNG writers `save_png` and `save_blank_tile`.
 */
module Viz {
  import opened Wrappers
  import opened Paths
  import opened Images
  import opened Io

  /** A 2-D float array, row by row. */
  type Grid = seq<seq<real>>

  /** The first three channels a colour ramp returns, each meant to lie in [0, 1]. */
  datatype Color = Color(r: real, g: real, b: real)

  /** A named matplotlib colour map, taken as given. */
  type Ramp = real -> Color

  predicate InUnit(v: real) {
    0.0 <= v <= 1.0
  }

  /** The ramp maps [0, 1] into colours whose channels lie in [0, 1]. */
  ghost predicate ValidRamp(ramp: Ramp) {
    forall t :: InUnit(t) ==> InUnit(ramp(t).r) && InUnit(ramp(t).g) && InUnit(ramp(t).b)
  }

  /** The degenerate-range guard shared by both renderers: equal bounds become `[lo, lo + 1]`. */
  function Nudge(lo: real, hi: real): (h: real)
    ensures h != lo
    ensures hi != lo ==> h == hi
    ensures hi == lo ==> h - lo == 1.0
  {
    if hi == lo then lo + 1.0 else hi
  }

  /** `np.clip((v - lo) / (hi - lo), 0, 1)` for one sample. */
  function Normalize(v: real, lo: real, hi: real): (t: real)
    requires hi != lo
    ensures InUnit(t)
    ensures lo < hi && v <= lo ==> t == 0.0
    ensures lo < hi && hi <= v ==> t == 1.0
    ensures lo < hi && lo <= v <= hi ==> t * (hi - lo) == v - lo
  {
    var q := (v - lo) / (hi - lo);
    QuotientBounds(v - lo, hi - lo);
    if q < 0.0 then 0.0 else if q > 1.0 then 1.0 else q
  }

  lemma QuotientBounds(a: real, d: real)
    requires d != 0.0
    ensures d > 0.0 && a <= 0.0 ==> a / d <= 0.0
    ensures d > 0.0 && a >= d ==> a / d >= 1.0
    ensures (a / d) * d == a
  {
    var q := a / d;
    assert q * d == a;
  }

  /** Normalising an increasing range never reverses the order of two samples. */
  lemma NormalizeMonotone(v1: real, v2: real, lo: real, hi: real)
    requires lo < hi && v1 <= v2
    ensures Normalize(v1, lo, hi) <= Normalize(v2, lo, hi)
  {
    assert (v1 - lo) / (hi - lo) <= (v2 - lo) / (hi - lo);
  }

  /** `(c * 255).astype(np.uint8)` for a channel in [0, 1]: 255·c truncated toward zero. */
  function Quantize(c: real): (b: int)
    ensures InUnit(c) ==> IsByte(b)
    ensures b as real <= 255.0 * c < b as real + 1.0
    ensures c == 1.0 ==> b == 255
    ensures c == 0.0 ==> b == 0
  {
    (255.0 * c).Floor
  }

  /** The colour of a normalised sample: the ramp's first three channels as bytes. */
  function Colorize(ramp: Ramp, t: real): (px: Rgb)
    ensures ValidRamp(ramp) && InUnit(t) ==> IsRgb(px)
  {
    Rgb(Quantize(ramp(t).r), Quantize(ramp(t).g), Quantize(ramp(t).b))
  }

  /** Normalise, clamp and colour every sample; the image has the array's shape. */
  function RenderGrid(arr: Grid, lo: real, hi: real, ramp: Ramp): (px: seq<seq<Rgb>>)
    requires hi != lo
    ensures |px| == |arr|
    ensures forall i :: 0 <= i < |arr| ==> |px[i]| == |arr[i]|
    ensures forall i, j :: 0 <= i < |arr| && 0 <= j < |arr[i]| ==> px[i][j] == Colorize(ramp, Normalize(arr[i][j], lo, hi))
    ensures ValidRamp(ramp) ==> forall i, j :: 0 <= i < |arr| && 0 <= j < |arr[i]| ==> IsRgb(px[i][j])
  {
    seq(|arr|, i requires 0 <= i < |arr| =>
      seq(|arr[i]|, j requires 0 <= j < |arr[i]| => Colorize(ramp, Normalize(arr[i][j], lo, hi))))
  }

  /** The samples of a grid in row-major order. */
  function Flatten(arr: Grid): (xs: seq<real>)
    decreases |arr|
  {
    if arr == [] then [] else Flatten(arr[..|arr| - 1]) + arr[|arr| - 1]
  }

  lemma {:induction false} FlattenHas(arr: Grid, i: nat, j: nat)
    requires i < |arr| && j < |arr[i]|
    ensures arr[i][j] in Flatten(arr)
    decreases |arr|
  {
    if i < |arr| - 1 {
      FlattenHas(arr[..|arr| - 1], i, j);
    } else {
      assert Flatten(arr)[|Flatten(arr[..|arr| - 1])| + j] == arr[i][j];
    }
  }

  lemma {:induction false} FlattenEmpty(arr: Grid)
    requires Flatten(arr) == []
    ensures forall i :: 0 <= i < |arr| ==> arr[i] == []
    decreases |arr|
  {
    if arr != [] {
      FlattenEmpty(arr[..|arr| - 1]);
      forall i | 0 <= i < |arr| ensures arr[i] == [] {
        if i < |arr| - 1 {
          assert arr[i] == arr[..|arr| - 1][i];
        }
      }
    }
  }

  function MinOf(xs: seq<real>): (m: real)
    requires xs != []
    ensures m in xs && forall k :: 0 <= k < |xs| ==> m <= xs[k]
    decreases |xs|
  {
    if |xs| == 1 then xs[0]
    else
      var m := MinOf(xs[1..]);
      assert forall k :: 1 <= k < |xs| ==> xs[k] == xs[1..][k - 1];
      if xs[0] <= m then xs[0] else m
  }

  function MaxOf(xs: seq<real>): (m: real)
    requires xs != []
    ensures m in xs && forall k :: 0 <= k < |xs| ==> xs[k] <= m
    decreases |xs|
  {
    if |xs| == 1 then xs[0]
    else
      var m := MaxOf(xs[1..]);
      assert forall k :: 1 <= k < |xs| ==> xs[k] == xs[1..][k - 1];
      if xs[0] >= m then xs[0] else m
  }

  /** The range `save_png` uses: a missing bound falls back to the data minimum (0.0) or maximum (1.0 for no data), then the guard. */
  function PngRange(arr: Grid, vmin: Option<real>, vmax: Option<real>): (r: (real, real))
    ensures r.0 != r.1
  {
    var xs := Flatten(arr);
    var lo := vmin.GetOr(if xs != [] then MinOf(xs) else 0.0);
    var hi := vmax.GetOr(if xs != [] then MaxOf(xs) else 1.0);
    (lo, Nudge(lo, hi))
  }

  /** The image `save_png` encodes. */
  function PngImage(arr: Grid, vmin: Option<real>, vmax: Option<real>, ramp: Ramp): (img: Image)
    ensures ValidRamp(ramp) ==> AllRgb(img)
  {
    var (lo, hi) := PngRange(arr, vmin, vmax);
    Image(RenderGrid(arr, lo, hi, ramp), "")
  }

  /** Without explicit bounds, on an array with two distinct values, the range is the data's minimum and maximum. */
  lemma AutoRangeIsDataRange(arr: Grid, i: nat, j: nat)
    requires i < |arr| && j < |arr[i]|
    requires exists i', j' :: 0 <= i' < |arr| && 0 <= j' < |arr[i']| && arr[i'][j'] != arr[i][j]
    ensures Flatten(arr) != []
    ensures PngRange(arr, None, None) == (MinOf(Flatten(arr)), MaxOf(Flatten(arr)))
    ensures MinOf(Flatten(arr)) <= arr[i][j] <= MaxOf(Flatten(arr))
    ensures MinOf(Flatten(arr)) < MaxOf(Flatten(arr))
  {
    var i', j' :| 0 <= i' < |arr| && 0 <= j' < |arr[i']| && arr[i'][j'] != arr[i][j];
    FlattenHas(arr, i, j);
    FlattenHas(arr, i', j');
    var xs := Flatten(arr);
    var k :| 0 <= k < |xs| && xs[k] == arr[i][j];
    var k' :| 0 <= k' < |xs| && xs[k'] == arr[i'][j'];
    assert MinOf(xs) <= xs[k] <= MaxOf(xs) && MinOf(xs) <= xs[k'] <= MaxOf(xs);
  }

  /**
   * Consequently the data minimum maps to 0 and the maximum to 1; every
   * sample lies between them, where `Normalize` is linear, so nothing is clipped.
   */
  lemma AutoRangeStretch(arr: Grid, i: nat, j: nat)
    requires i < |arr| && j < |arr[i]|
    requires exists i', j' :: 0 <= i' < |arr| && 0 <= j' < |arr[i']| && arr[i'][j'] != arr[i][j]
    ensures Flatten(arr) != []
    ensures MinOf(Flatten(arr)) < MaxOf(Flatten(arr))
    ensures Normalize(MinOf(Flatten(arr)), MinOf(Flatten(arr)), MaxOf(Flatten(arr))) == 0.0
    ensures Normalize(MaxOf(Flatten(arr)), MinOf(Flatten(arr)), MaxOf(Flatten(arr))) == 1.0
  {
    AutoRangeIsDataRange(arr, i, j);
    NormalizeEnds(MinOf(Flatten(arr)), MaxOf(Flatten(arr)));
  }

  lemma NormalizeEnds(lo: real, hi: real)
    requires lo < hi
    ensures Normalize(lo, lo, hi) == 0.0 && Normalize(hi, lo, hi) == 1.0
  {
  }

  /** An array whose samples are all equal renders as ramp(0) everywhere: a one-colour image, not a division by zero. */
  lemma ConstantArrayIsUniform(arr: Grid, c: real, ramp: Ramp)
    requires forall i, j :: 0 <= i < |arr| && 0 <= j < |arr[i]| ==> arr[i][j] == c
    ensures forall i, j :: 0 <= i < |arr| && 0 <= j < |arr[i]| ==>
              PngImage(arr, None, None, ramp).pixels[i][j] == Colorize(ramp, 0.0)
  {
    var xs := Flatten(arr);
    if xs == [] {
      FlattenEmpty(arr);
    } else {
      var lo, hi := MinOf(xs), MaxOf(xs);
      assert lo == c && hi == c by {
        var k :| 0 <= k < |xs| && xs[k] == lo;
        var k' :| 0 <= k' < |xs| && xs[k'] == hi;
        FlattenMembers(arr, xs[k]);
        FlattenMembers(arr, xs[k']);
      }
    }
  }

  lemma {:induction false} FlattenMembers(arr: Grid, x: real)
    requires x in Flatten(arr)
    ensures exists i, j :: 0 <= i < |arr| && 0 <= j < |arr[i]| && arr[i][j] == x
    decreases |arr|
  {
    var last := |arr| - 1;
    if x in Flatten(arr[..last]) {
      FlattenMembers(arr[..last], x);
      var i, j :| 0 <= i < last && 0 <= j < |arr[..last][i]| && arr[..last][i][j] == x;
      assert arr[i][j] == x;
    } else {
      var j :| 0 <= j < |arr[last]| && arr[last][j] == x;
    }
  }

  /** `save_png`: creates the parent directory, then writes the rendered array at `path`; nothing else changes. */
  method SavePng(store: FileStore, data: Grid, path: string, vmin: Option<real>, vmax: Option<real>, ramp: Ramp)
    requires ValidRamp(ramp)
    modifies store
    ensures store.files == old(store.files)[path := Png(PngImage(data, vmin, vmax, ramp))]
    ensures store.dirs == old(store.dirs) + ParentDirs(path)
  {
    store.EnsureParent(path);
    store.Save(path, Png(PngImage(data, vmin, vmax, ramp)));
  }

  const DefaultBlankSize: nat := 256
  const DefaultBlankColor: Rgb := Rgb(220, 220, 220)

  /** The placeholder image: `size`×`size` pixels of `color`, captioned only by a non-empty text. */
  function BlankImage(size: nat, color: Rgb, text: Option<string>): (img: Image)
    ensures IsSquare(img, size)
    ensures forall i, j :: 0 <= i < size && 0 <= j < size ==> img.pixels[i][j] == color
    ensures img.caption == (if text.Some? then text.value else "")
  {
    Image(seq(size, _ => seq(size, _ => color)), if text.Some? && text.value != "" then text.value else "")
  }

  /** `save_blank_tile`: creates the parent directory, then writes the placeholder at `path`. */
  method SaveBlankTile(store: FileStore, path: string, size: nat, color: Rgb, text: Option<string>)
    modifies store
    ensures store.files == old(store.files)[path := Png(BlankImage(size, color, text))]
    ensures store.dirs == old(store.dirs) + ParentDirs(path)
  {
    store.EnsureParent(path);
    store.Save(path, Png(BlankImage(size, color, text)));
  }
}
