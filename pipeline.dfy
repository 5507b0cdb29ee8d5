/**
 * `src/pipeline.py`: the synthetic parcel raster that stands in for real
 * parcel boundaries, and the fixed demo tiles the offline pipeline renders.
 */
module Pipeline {
  import opened Wrappers
  import opened PyStr
  import opened Paths
  import opened Io
  import opened Viz
  import opened Tiles
  import opened Config

  // ---------------------------------------------------------------------------
  // Index arithmetic used by the block fill
  // ---------------------------------------------------------------------------

  /** Multiplying by a non-negative factor keeps order. */
  lemma MulLe(a: int, b: int, s: int)
    ensures s >= 0 && a <= b ==> a * s <= b * s
  {
    assert b * s - a * s == (b - a) * s;
  }

  /** Floor division by a positive divisor pins the quotient down to one block of `s` values. */
  lemma DivIsBlock(r: int, s: int, q: int)
    requires s > 0 && r >= 0
    ensures r / s == q <==> q * s <= r < q * s + s
  {
    var q' := r / s;
    assert q' * s <= r < q' * s + s;
    MulLe(q + 1, q', s);
    MulLe(q' + 1, q, s);
    assert (q + 1) * s == q * s + s;
    assert (q' + 1) * s == q' * s + s;
  }

  /** A quotient below `n` blocks: `r < n*s` means `r / s < n`. */
  lemma DivBelow(r: int, s: int, n: int)
    requires s > 0 && 0 <= r < n * s
    ensures 0 <= r / s < n
  {
    var q := r / s;
    assert q * s <= r < q * s + s;
    MulLe(n, q, s);
    MulLe(q + 1, 0, s);
    assert (q + 1) * s == q * s + s;
  }

  /** Mixed-radix digits are unique: `a*n + b` names one pair `(a, b)` with `b < n`. */
  lemma MixedRadix(a: int, b: int, j: int, i: int, n: int)
    requires 0 <= b < n && 0 <= i < n
    ensures a * n + b == j * n + i <==> a == j && b == i
  {
    MulLe(a + 1, j, n);
    MulLe(j + 1, a, n);
    assert (a + 1) * n == a * n + n;
    assert (j + 1) * n == j * n + n;
  }

  /** Block `k` of size `s` ends within `n` blocks of size `s`. */
  lemma BlockEnd(k: int, s: int, n: int)
    requires 0 <= k < n && s >= 0
    ensures 0 <= k * s <= (k + 1) * s <= n * s
  {
    MulLe(0, k, s);
    MulLe(k + 1, n, s);
    assert (k + 1) * s == k * s + s;
  }

  /** `(h // n) * n <= h`: the blocks fit in the grid. */
  lemma BlocksFit(h: nat, n: int)
    requires n > 0
    ensures 0 <= (h / n) * n <= h
  {
  }

  // ---------------------------------------------------------------------------
  // The parcel raster
  // ---------------------------------------------------------------------------

  /**
   * The id of pixel (r, c) in an h×w raster cut into `n_x`×`n_y` blocks of
   * `w // n_x` by `h // n_y` pixels: blocks are numbered row by row, and the
   * remainder strips on the right and at the bottom keep the fill value -1.
   */
  function ParcelIdAt(h: nat, w: nat, nx: int, ny: int, r: nat, c: nat): int
    requires nx > 0 && ny > 0
  {
    var sx, sy := w / nx, h / ny;
    if sx > 0 && sy > 0 && r < ny * sy && c < nx * sx then (r / sy) * nx + c / sx else -1
  }

  /** The raster after the first `pid` blocks, in fill order, have been written. */
  function FilledBefore(h: nat, w: nat, nx: int, ny: int, pid: int, r: nat, c: nat): int
    requires nx > 0 && ny > 0
  {
    if ParcelIdAt(h, w, nx, ny, r, c) < pid then ParcelIdAt(h, w, nx, ny, r, c) else -1
  }

  /** Every id lies in [-1, n_x*n_y - 1]; -1 exactly off the covered rectangle. */
  lemma {:induction false} ParcelIdRange(h: nat, w: nat, nx: int, ny: int, r: nat, c: nat)
    requires nx > 0 && ny > 0
    ensures -1 <= ParcelIdAt(h, w, nx, ny, r, c) < nx * ny
    ensures ParcelIdAt(h, w, nx, ny, r, c) == -1 <==>
              !(r < ny * (h / ny) && c < nx * (w / nx))
  {
    var sx, sy := w / nx, h / ny;
    if sx > 0 && sy > 0 && r < ny * sy && c < nx * sx {
      DivBelow(r, sy, ny);
      DivBelow(c, sx, nx);
      var a := r / sy;
      MulLe(a, ny - 1, nx);
      MulLe(0, a, nx);
      assert (ny - 1) * nx == nx * ny - nx;
    }
  }

  /**
   * Pixel (r, c) carries the id `j*n_x + i` of block (j, i) exactly when it
   * lies in that block's rectangle `[j*sy, (j+1)*sy) × [i*sx, (i+1)*sx)`.
   */
  lemma {:induction false} InBlockIff(h: nat, w: nat, nx: int, ny: int, j: int, i: int, r: nat, c: nat)
    requires nx > 0 && ny > 0 && 0 <= j < ny && 0 <= i < nx
    ensures ParcelIdAt(h, w, nx, ny, r, c) == j * nx + i <==>
              (j * (h / ny) <= r < (j + 1) * (h / ny) && i * (w / nx) <= c < (i + 1) * (w / nx))
  {
    var sx, sy := w / nx, h / ny;
    BlockEnd(j, sy, ny);
    BlockEnd(i, sx, nx);
    if sx > 0 && sy > 0 && r < ny * sy && c < nx * sx {
      DivBelow(c, sx, nx);
      MixedRadix(r / sy, c / sx, j, i, nx);
      DivIsBlock(r, sy, j);
      DivIsBlock(c, sx, i);
    } else {
      MulLe(0, j, nx);
    }
  }

  /** Writing block (j, i) with id `pid = j*n_x + i` moves the raster from `pid` blocks done to `pid + 1`. */
  lemma FillStep(h: nat, w: nat, nx: int, ny: int, j: int, i: int, r: nat, c: nat)
    requires nx > 0 && ny > 0 && 0 <= j < ny && 0 <= i < nx
    ensures FilledBefore(h, w, nx, ny, j * nx + i + 1, r, c) ==
              if j * (h / ny) <= r < (j + 1) * (h / ny) && i * (w / nx) <= c < (i + 1) * (w / nx)
              then j * nx + i
              else FilledBefore(h, w, nx, ny, j * nx + i, r, c)
  {
    InBlockIff(h, w, nx, ny, j, i, r, c);
  }

  /** `ids[ys:ye, xs:xe] = v` */
  method FillBlock(a: array2<int>, ys: nat, ye: nat, xs: nat, xe: nat, v: int)
    requires ys <= ye <= a.Length0 && xs <= xe <= a.Length1
    modifies a
    ensures forall r, c :: 0 <= r < a.Length0 && 0 <= c < a.Length1 ==>
              a[r, c] == if ys <= r < ye && xs <= c < xe then v else old(a[r, c])
  {
    for r := ys to ye
      invariant forall r', c :: 0 <= r' < a.Length0 && 0 <= c < a.Length1 ==>
                  a[r', c] == if ys <= r' < r && xs <= c < xe then v else old(a[r', c])
    {
      for c := xs to xe
        invariant forall r', c' :: 0 <= r' < a.Length0 && 0 <= c' < a.Length1 ==>
                    a[r', c'] == if (ys <= r' < r && xs <= c' < xe) || (r' == r && xs <= c' < c) then v else old(a[r', c'])
      {
        a[r, c] := v;
      }
    }
  }

  /** The inner loop of the fill: the `n_x` blocks of block row `j`, with ids `j*n_x` up to `(j+1)*n_x - 1`. */
  method FillBlockRow(ids: array2<int>, h: nat, w: nat, nx: int, ny: int, j: int)
    requires nx > 0 && ny > 0 && 0 <= j < ny
    requires ids.Length0 == h && ids.Length1 == w
    requires forall r, c :: 0 <= r < h && 0 <= c < w ==> ids[r, c] == FilledBefore(h, w, nx, ny, j * nx, r, c)
    modifies ids
    ensures forall r, c :: 0 <= r < h && 0 <= c < w ==> ids[r, c] == FilledBefore(h, w, nx, ny, (j + 1) * nx, r, c)
  {
    var sx, sy := w / nx, h / ny;
    BlockEnd(j, sy, ny);
    BlocksFit(h, ny);
    BlocksFit(w, nx);
    var pid := j * nx;
    for i := 0 to nx
      invariant pid == j * nx + i
      invariant forall r, c :: 0 <= r < h && 0 <= c < w ==> ids[r, c] == FilledBefore(h, w, nx, ny, pid, r, c)
    {
      BlockEnd(i, sx, nx);
      FillBlock(ids, j * sy, (j + 1) * sy, i * sx, (i + 1) * sx, pid);
      forall r, c | 0 <= r < h && 0 <= c < w
        ensures ids[r, c] == FilledBefore(h, w, nx, ny, pid + 1, r, c)
      {
        FillStep(h, w, nx, ny, j, i, r, c);
      }
      pid := pid + 1;
    }
    assert (j + 1) * nx == j * nx + nx;
  }

  /**
   * `synthetic_parcel_ids(h, w, n_x, n_y)`: an h×w raster of -1, then each of
   * the `n_x*n_y` blocks, row by row, filled with the next id from a counter.
   * A negative count makes one of the two `range` loops empty, so the raster
   * stays all -1; a zero count makes `w // n_x` or `h // n_y` raise.
   */
  method SyntheticParcelIds(h: nat, w: nat, nx: int, ny: int) returns (ids: array2<int>)
    requires nx != 0 && ny != 0
    ensures ids.Length0 == h && ids.Length1 == w
    ensures nx > 0 && ny > 0 ==>
              forall r, c :: 0 <= r < h && 0 <= c < w ==> ids[r, c] == ParcelIdAt(h, w, nx, ny, r, c)
    ensures nx < 0 || ny < 0 ==> forall r, c :: 0 <= r < h && 0 <= c < w ==> ids[r, c] == -1
  {
    ids := new int[h, w]((r, c) => -1);
    if nx < 0 || ny < 0 {
      return;
    }
    forall r, c | 0 <= r < h && 0 <= c < w
      ensures ids[r, c] == FilledBefore(h, w, nx, ny, 0, r, c)
    {
      NoneFilled(h, w, nx, ny, r, c);
    }
    for j := 0 to ny
      invariant forall r, c :: 0 <= r < h && 0 <= c < w ==> ids[r, c] == FilledBefore(h, w, nx, ny, j * nx, r, c)
    {
      FillBlockRow(ids, h, w, nx, ny, j);
    }
    forall r, c | 0 <= r < h && 0 <= c < w
      ensures ids[r, c] == ParcelIdAt(h, w, nx, ny, r, c)
    {
      AllFilled(h, w, nx, ny, r, c);
    }
  }

  /** Before any block is written, the raster is all -1. */
  lemma NoneFilled(h: nat, w: nat, nx: int, ny: int, r: nat, c: nat)
    requires nx > 0 && ny > 0
    ensures FilledBefore(h, w, nx, ny, 0, r, c) == -1
  {
    ParcelIdRange(h, w, nx, ny, r, c);
  }

  /** Once all `n_y` block rows are written, the raster holds every parcel id. */
  lemma AllFilled(h: nat, w: nat, nx: int, ny: int, r: nat, c: nat)
    requires nx > 0 && ny > 0
    ensures FilledBefore(h, w, nx, ny, ny * nx, r, c) == ParcelIdAt(h, w, nx, ny, r, c)
  {
    ParcelIdRange(h, w, nx, ny, r, c);
  }

  /** The right and bottom remainder strips keep -1. */
  lemma RemainderStaysUnassigned(h: nat, w: nat, nx: int, ny: int, r: nat, c: nat)
    requires nx > 0 && ny > 0
    requires r >= ny * (h / ny) || c >= nx * (w / nx)
    ensures ParcelIdAt(h, w, nx, ny, r, c) == -1
  {
    ParcelIdRange(h, w, nx, ny, r, c);
  }

  /** A raster narrower than `n_x` or shorter than `n_y` columns gets no parcel at all. */
  lemma TooSmallIsUnassigned(h: nat, w: nat, nx: int, ny: int, r: nat, c: nat)
    requires nx > 0 && ny > 0 && (w < nx || h < ny)
    ensures ParcelIdAt(h, w, nx, ny, r, c) == -1
  {
  }

  /**
   * The pixels of parcel `p` are exactly the rectangle of block
   * `(p // n_x, p % n_x)`; in particular blocks never overlap, and no block
   * overwrites an id written earlier.
   */
  lemma ParcelIsBlock(h: nat, w: nat, nx: int, ny: int, p: int, r: nat, c: nat)
    requires nx > 0 && ny > 0 && 0 <= p < nx * ny
    ensures ParcelIdAt(h, w, nx, ny, r, c) == p <==>
              ((p / nx) * (h / ny) <= r < (p / nx + 1) * (h / ny) && (p % nx) * (w / nx) <= c < (p % nx + 1) * (w / nx))
  {
    var j, i := p / nx, p % nx;
    assert p == j * nx + i;
    DivBelow(p, nx, ny);
    InBlockIff(h, w, nx, ny, j, i, r, c);
  }

  // ---------------------------------------------------------------------------
  // Each parcel covers exactly sx*sy pixels
  // ---------------------------------------------------------------------------

  /** The pixels of the half-open rectangle [r0, r1) × [c0, c1). */
  function Rect(r0: int, r1: int, c0: int, c1: int): set<(int, int)> {
    set r, c | r0 <= r < r1 && c0 <= c < c1 :: (r, c)
  }

  lemma {:induction false} RowSize(r: int, c0: int, c1: int)
    requires c0 <= c1
    ensures |Rect(r, r + 1, c0, c1)| == c1 - c0
    decreases c1 - c0
  {
    if c0 < c1 {
      RowSize(r, c0, c1 - 1);
      assert Rect(r, r + 1, c0, c1) == Rect(r, r + 1, c0, c1 - 1) + {(r, c1 - 1)};
    } else {
      assert Rect(r, r + 1, c0, c1) == {};
    }
  }

  lemma {:induction false} RectSize(r0: int, r1: int, c0: int, c1: int)
    requires r0 <= r1 && c0 <= c1
    ensures |Rect(r0, r1, c0, c1)| == (r1 - r0) * (c1 - c0)
    decreases r1 - r0
  {
    if r0 < r1 {
      RectSize(r0, r1 - 1, c0, c1);
      RowSize(r1 - 1, c0, c1);
      assert Rect(r0, r1, c0, c1) == Rect(r0, r1 - 1, c0, c1) + Rect(r1 - 1, r1, c0, c1);
      assert Rect(r0, r1 - 1, c0, c1) !! Rect(r1 - 1, r1, c0, c1);
      assert (r1 - r0) * (c1 - c0) == (r1 - 1 - r0) * (c1 - c0) + (c1 - c0);
    } else {
      assert Rect(r0, r1, c0, c1) == {};
    }
  }

  /** The pixels of an h×w raster that carry parcel id `p`. */
  function PixelsOf(h: nat, w: nat, nx: int, ny: int, p: int): set<(int, int)>
    requires nx > 0 && ny > 0
  {
    set r: nat, c: nat | r < h && c < w && ParcelIdAt(h, w, nx, ny, r, c) == p :: (r, c)
  }

  /** The rectangle of block `(p // n_x, p % n_x)`. */
  function BlockRect(h: nat, w: nat, nx: int, ny: int, p: int): set<(int, int)>
    requires nx > 0 && ny > 0
  {
    Rect((p / nx) * (h / ny), (p / nx + 1) * (h / ny), (p % nx) * (w / nx), (p % nx + 1) * (w / nx))
  }

  lemma PixelsInBlock(h: nat, w: nat, nx: int, ny: int, p: int, rc: (int, int))
    requires nx > 0 && ny > 0 && 0 <= p < nx * ny && rc in PixelsOf(h, w, nx, ny, p)
    ensures rc in BlockRect(h, w, nx, ny, p)
  {
    ParcelIsBlock(h, w, nx, ny, p, rc.0, rc.1);
  }

  lemma BlockInPixels(h: nat, w: nat, nx: int, ny: int, p: int, rc: (int, int))
    requires nx > 0 && ny > 0 && 0 <= p < nx * ny && rc in BlockRect(h, w, nx, ny, p)
    ensures rc in PixelsOf(h, w, nx, ny, p)
  {
    var (r, c) := rc;
    var j, i, sy, sx := p / nx, p % nx, h / ny, w / nx;
    assert j * sy <= r < (j + 1) * sy && i * sx <= c < (i + 1) * sx;
    DivBelow(p, nx, ny);
    BlockInside(j, sy, ny, h);
    BlockInside(i, sx, nx, w);
    ParcelIsBlock(h, w, nx, ny, p, r, c);
    assert ParcelIdAt(h, w, nx, ny, r, c) == p;
  }

  /** Block `k` of `n` blocks of size `len // n` lies within `[0, len)`. */
  lemma BlockInside(k: int, s: int, n: int, len: nat)
    requires n > 0 && 0 <= k < n && s == len / n
    ensures 0 <= k * s && (k + 1) * s <= len
  {
    BlockEnd(k, s, n);
    BlocksFit(len, n);
  }

  /** The pixels of parcel `p` form the rectangle of block `(p // n_x, p % n_x)`. */
  lemma PixelsOfIsRect(h: nat, w: nat, nx: int, ny: int, p: int)
    requires nx > 0 && ny > 0 && 0 <= p < nx * ny
    ensures PixelsOf(h, w, nx, ny, p) == BlockRect(h, w, nx, ny, p)
  {
    forall rc | rc in PixelsOf(h, w, nx, ny, p) ensures rc in BlockRect(h, w, nx, ny, p) {
      PixelsInBlock(h, w, nx, ny, p, rc);
    }
    forall rc | rc in BlockRect(h, w, nx, ny, p) ensures rc in PixelsOf(h, w, nx, ny, p) {
      BlockInPixels(h, w, nx, ny, p, rc);
    }
  }

  /** Block `k` of size `s` spans `s` values. */
  lemma BlockWidth(k: int, s: int)
    ensures (k + 1) * s - k * s == s
  {
  }

  /** A rectangle with sides `a` and `b` holds `a * b` pixels. */
  lemma RectArea(r0: int, r1: int, c0: int, c1: int, a: nat, b: nat)
    requires r1 - r0 == a && c1 - c0 == b
    ensures |Rect(r0, r1, c0, c1)| == a * b
  {
    RectSize(r0, r1, c0, c1);
  }

  /** Every id `p` in 0..n_x*n_y-1 appears on exactly `(w // n_x) * (h // n_y)` pixels. */
  lemma ParcelArea(h: nat, w: nat, nx: int, ny: int, p: int)
    requires nx > 0 && ny > 0 && 0 <= p < nx * ny
    ensures |PixelsOf(h, w, nx, ny, p)| == (w / nx) * (h / ny)
  {
    var sx, sy := w / nx, h / ny;
    var j, i := p / nx, p % nx;
    PixelsOfIsRect(h, w, nx, ny, p);
    BlockWidth(j, sy);
    BlockWidth(i, sx);
    RectArea(j * sy, (j + 1) * sy, i * sx, (i + 1) * sx, sy, sx);
  }

  // ---------------------------------------------------------------------------
  // Demo tiles
  // ---------------------------------------------------------------------------

  /** One entry of `render_cfg`: the layer name, its array, colour map and fixed value range. */
  datatype RenderSpec = RenderSpec(layer: string, arr: Grid, ramp: Ramp, vmin: real, vmax: real)

  /** The two demo layers in the order the dict lists them: NDVI on (-0.2, 0.8), NDWI on (-0.5, 0.5). */
  function DemoRenderConfig(ndvi: Grid, ndwi: Grid, rdYlGn: Ramp, puBuGn: Ramp): seq<RenderSpec> {
    [RenderSpec("ndvi", ndvi, rdYlGn, -0.2, 0.8), RenderSpec("ndwi", ndwi, puBuGn, -0.5, 0.5)]
  }

  /** `os.path.join(settings.tiles_dir, layer, "0", "0", "0.png")` */
  function DemoPath(s: Settings, layer: string): string {
    Join(Join(Join(Join(TilesDir(s), layer), "0"), "0"), "0.png")
  }

  /** The summary placeholder: `tiles_dir/reports/summary.png`. */
  function SummaryPath(s: Settings): string {
    Join(Join(TilesDir(s), "reports"), "summary.png")
  }

  /** The image `save_png` writes for one render entry. */
  function DemoImage(spec: RenderSpec): Content {
    Png(PngImage(spec.arr, Some(spec.vmin), Some(spec.vmax), spec.ramp))
  }

  /** One file write: a path and what is saved there. */
  type Write = (string, Content)

  /** The write `save_png` performs for one render entry. */
  function DemoWrite(s: Settings, spec: RenderSpec): Write {
    (DemoPath(s, spec.layer), DemoImage(spec))
  }

  /** The writes of the render loop, one per entry, in `render_cfg` order. */
  function DemoWrites(s: Settings, cfg: seq<RenderSpec>): (ws: seq<Write>)
    ensures |ws| == |cfg|
    ensures forall k :: 0 <= k < |cfg| ==> ws[k] == DemoWrite(s, cfg[k])
  {
    seq(|cfg|, k requires 0 <= k < |cfg| => DemoWrite(s, cfg[k]))
  }

  /** The files after performing the writes `ws` in order: a later write to a path replaces an earlier one. */
  function Written(files: map<string, Content>, ws: seq<Write>): map<string, Content> {
    if ws == [] then files else Written(files, ws[..|ws| - 1])[ws[|ws| - 1].0 := ws[|ws| - 1].1]
  }

  /** The directories `ensure_parent` creates for the writes `ws`. */
  function WrittenDirs(ws: seq<Write>): set<string> {
    if ws == [] then {} else WrittenDirs(ws[..|ws| - 1]) + ParentDirs(ws[|ws| - 1].0)
  }

  /** Two writes in a row: the first file, then the second. */
  lemma WrittenPair(files: map<string, Content>, w1: Write, w2: Write)
    ensures Written(files, [w1, w2]) == files[w1.0 := w1.1][w2.0 := w2.1]
  {
    WrittenSnoc(files, [w1, w2], 0);
    WrittenSnoc(files, [w1, w2], 1);
    assert [w1, w2][..0] == [] && [w1, w2][..2] == [w1, w2];
  }

  /** One more write extends the files and directories of the writes before it. */
  lemma WrittenSnoc(files: map<string, Content>, ws: seq<Write>, k: nat)
    requires k < |ws|
    ensures Written(files, ws[..k + 1]) == Written(files, ws[..k])[ws[k].0 := ws[k].1]
    ensures WrittenDirs(ws[..k + 1]) == WrittenDirs(ws[..k]) + ParentDirs(ws[k].0)
  {
    assert ws[..k + 1][..k] == ws[..k];
  }

  /** A demo tile sits where the tile route looks for `layer/0/0/0.png`. */
  lemma DemoPathIsTilePath(s: Settings, layer: string)
    ensures DemoPath(s, layer) == TilePath(TilesDir(s), layer, 0, 0, 0)
  {
    assert IntToStr(0) == "0";
    assert IntToStr(0) + ".png" == "0.png";
  }

  /**
   * The demo render writes exactly two files: the NDVI tile on (-0.2, 0.8) at
   * `tiles/ndvi/0/0/0.png` and the NDWI tile on (-0.5, 0.5) at
   * `tiles/ndwi/0/0/0.png`; every other file is left as it was.
   */
  lemma DemoRenderWrites(files: map<string, Content>, s: Settings, ndvi: Grid, ndwi: Grid, rdYlGn: Ramp, puBuGn: Ramp)
    ensures Written(files, DemoWrites(s, DemoRenderConfig(ndvi, ndwi, rdYlGn, puBuGn)))
            == files[DemoPath(s, "ndvi") := Png(PngImage(ndvi, Some(-0.2), Some(0.8), rdYlGn))]
                    [DemoPath(s, "ndwi") := Png(PngImage(ndwi, Some(-0.5), Some(0.5), puBuGn))]
  {
    var cfg := DemoRenderConfig(ndvi, ndwi, rdYlGn, puBuGn);
    DemoWritesPair(s, cfg[0], cfg[1]);
    assert cfg == [cfg[0], cfg[1]];
    WrittenPair(files, DemoWrite(s, cfg[0]), DemoWrite(s, cfg[1]));
  }

  lemma DemoWritesPair(s: Settings, a: RenderSpec, b: RenderSpec)
    ensures DemoWrites(s, [a, b]) == [DemoWrite(s, a), DemoWrite(s, b)]
  {
  }

  /** The two demo tiles go to different files, so neither overwrites the other. */
  lemma DemoPathsDistinct(s: Settings)
    ensures DemoPath(s, "ndvi") != DemoPath(s, "ndwi")
  {
    DemoLayersArePlain();
    DemoPathIsTilePath(s, "ndvi");
    DemoPathIsTilePath(s, "ndwi");
    if DemoPath(s, "ndvi") == DemoPath(s, "ndwi") {
      TilePathLayerInjective(TilesDir(s), "ndvi", "ndwi", 0, 0, 0);
    }
  }

  lemma DemoLayersArePlain()
    ensures NoSlash("ndvi") && NoSlash("ndwi") && "ndvi" != "ndwi"
  {
  }

  /** `save_png` for one render entry: its parent directories, then its image at its path. */
  method SaveDemoTile(store: FileStore, s: Settings, spec: RenderSpec)
    requires ValidRamp(spec.ramp)
    modifies store
    ensures store.files == old(store.files)[DemoWrite(s, spec).0 := DemoWrite(s, spec).1]
    ensures store.dirs == old(store.dirs) + ParentDirs(DemoWrite(s, spec).0)
  {
    SavePng(store, spec.arr, DemoPath(s, spec.layer), Some(spec.vmin), Some(spec.vmax), spec.ramp);
  }

  /** The `render_cfg` loop: each entry rendered with `save_png` at its fixed range, in order. */
  method RenderEntries(store: FileStore, s: Settings, cfg: seq<RenderSpec>)
    requires forall k :: 0 <= k < |cfg| ==> ValidRamp(cfg[k].ramp)
    modifies store
    ensures store.files == Written(old(store.files), DemoWrites(s, cfg))
    ensures store.dirs == old(store.dirs) + WrittenDirs(DemoWrites(s, cfg))
  {
    ghost var ws := DemoWrites(s, cfg);
    for k := 0 to |cfg|
      invariant store.files == Written(old(store.files), ws[..k])
      invariant store.dirs == old(store.dirs) + WrittenDirs(ws[..k])
    {
      SaveDemoTile(store, s, cfg[k]);
      WrittenSnoc(old(store.files), ws, k);
    }
    assert ws[..|cfg|] == ws;
  }

  /**
   * The tile step of `run_offline_pipeline`: each `render_cfg` entry rendered
   * with `save_png` at its fixed range, then the "Summary" placeholder.
   */
  method RenderDemoTiles(store: FileStore, s: Settings, cfg: seq<RenderSpec>)
    requires forall k :: 0 <= k < |cfg| ==> ValidRamp(cfg[k].ramp)
    modifies store
    ensures store.files == Written(old(store.files), DemoWrites(s, cfg))
                             [SummaryPath(s) := Png(BlankImage(DefaultBlankSize, DefaultBlankColor, Some("Summary")))]
    ensures store.dirs == old(store.dirs) + WrittenDirs(DemoWrites(s, cfg)) + ParentDirs(SummaryPath(s))
  {
    RenderEntries(store, s, cfg);
    SaveBlankTile(store, SummaryPath(s), DefaultBlankSize, DefaultBlankColor, Some("Summary"));
  }
}
