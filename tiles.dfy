/**
 * `src/utils/tiles.py`: the XYZ tile writer. For every zoom level and every
 * tile that covers the area of interest it reads a window of the raster,
 * resolves that tile's value range, colours it through the ramp and writes
 * it at `{root}/{layer}/{z}/{x}/{y}.png`.
 */
module Tiles {
  import opened Wrappers
  import opened PyStr
  import opened Paths
  import opened Images
  import opened Io
  import opened Viz
  import opened GeoUtils

  /** A slippy-map tile index within one zoom level. */
  datatype TileXY = TileXY(x: int, y: int)

  /** What `mercantile.bounds` returns (geographic degrees, whatever the caller's name suggests); kept opaque. */
  datatype Bounds = Bounds(west: real, south: real, east: real, north: real)

  /** The library calls the writer makes, taken as given. */
  datatype Sources = Sources(
    tiles: (Bbox, int) -> seq<TileXY>,   // mercantile.tiles over the area of interest at one zoom
    bounds: (int, int, int) -> Bounds,   // mercantile.bounds(x, y, z)
    read: (Bounds, nat) -> Grid,         // the reprojected window read with out_shape (n, n)
    percentile: (Grid, real) -> real,    // np.nanpercentile
    ramp: Ramp)                          // the named colour map

  /** The ramp stays in [0, 1] and a read at size `n` returns an `n`×`n` array. */
  ghost predicate WellFormed(src: Sources) {
    && ValidRamp(src.ramp)
    && forall w, n: nat :: |src.read(w, n)| == n && forall i :: 0 <= i < n ==> |src.read(w, n)[i]| == n
  }

  /** The arguments of one `generate_xyz_tiles_from_geotiff` call, apart from the zoom list. */
  datatype Job = Job(layer: string, root: string, aoi: Bbox, vmin: Option<real>, vmax: Option<real>, tileSize: nat)

  /** `tile_bounds_mercator(x, y, z)` */
  function TileBoundsMercator(src: Sources, x: int, y: int, z: int): Bounds {
    src.bounds(x, y, z)
  }

  /** The array the writer colours for tile `(z, x, y)`. */
  function TileArray(src: Sources, job: Job, z: int, x: int, y: int): Grid {
    src.read(TileBoundsMercator(src, x, y, z), job.tileSize)
  }

  /**
   * The range of one tile: each bound is the caller's when given and otherwise
   * that tile's own 2nd or 98th percentile; equal bounds are then pulled apart.
   */
  function EffectiveRange(src: Sources, arr: Grid, vmin: Option<real>, vmax: Option<real>): (r: (real, real))
    ensures vmin.Some? ==> r.0 == vmin.value
    ensures vmin.None? ==> r.0 == src.percentile(arr, 2.0)
    ensures r.0 != r.1
    ensures vmax.Some? && vmax.value != r.0 ==> r.1 == vmax.value
    ensures vmax.None? && src.percentile(arr, 98.0) != r.0 ==> r.1 == src.percentile(arr, 98.0)
    ensures vmax.GetOr(src.percentile(arr, 98.0)) == r.0 ==> r.1 == r.0 + 1.0
  {
    var lo := vmin.GetOr(src.percentile(arr, 2.0));
    (lo, Nudge(lo, vmax.GetOr(src.percentile(arr, 98.0))))
  }

  /**
   * The image written for tile `(z, x, y)`: bytes only, and `tile_size`
   * pixels square when reads return what they are asked for.
   */
  function TileImage(src: Sources, job: Job, z: int, x: int, y: int): (img: Image)
    ensures ValidRamp(src.ramp) ==> AllRgb(img)
    ensures WellFormed(src) ==> IsSquare(img, job.tileSize)
  {
    var arr := TileArray(src, job, z, x, y);
    var r := EffectiveRange(src, arr, job.vmin, job.vmax);
    Image(RenderGrid(arr, r.0, r.1, src.ramp), "")
  }

  /**
   * Pixel `(i, j)` of a tile is the ramp colour of its sample, normalised
   * against the tile's range and clamped into [0, 1]: samples at or below the
   * lower bound get ramp(0), those at or above the upper bound ramp(1).
   */
  lemma TilePixel(src: Sources, job: Job, z: int, x: int, y: int, i: nat, j: nat)
    requires i < |TileArray(src, job, z, x, y)| && j < |TileArray(src, job, z, x, y)[i]|
    ensures var arr := TileArray(src, job, z, x, y);
            var r := EffectiveRange(src, arr, job.vmin, job.vmax);
            && TileImage(src, job, z, x, y).pixels[i][j] == Colorize(src.ramp, Normalize(arr[i][j], r.0, r.1))
            && (r.0 < r.1 && arr[i][j] <= r.0 ==> TileImage(src, job, z, x, y).pixels[i][j] == Colorize(src.ramp, 0.0))
            && (r.0 < r.1 && r.1 <= arr[i][j] ==> TileImage(src, job, z, x, y).pixels[i][j] == Colorize(src.ramp, 1.0))
  {
  }

  /** `os.path.join(root, layer, str(z), str(x))`: the directory of a tile. */
  function TileDir(root: string, layer: string, z: int, x: int): string {
    Join(Join(Join(root, layer), IntToStr(z)), IntToStr(x))
  }

  /**
   * `os.path.join(root, layer, str(z), str(x), f"{y}.png")`: the tile
   * directory, a separator and `{y}.png`. Its text starts with `root` unless
   * the layer name is itself an absolute path; `..` components are kept as
   * text, not resolved.
   */
  function TilePath(root: string, layer: string, z: int, x: int, y: int): (p: string)
    ensures p == TileDir(root, layer, z, x) + "/" + (IntToStr(y) + ".png")
    ensures !IsAbsolute(layer) ==> |root| <= |p| && p[..|root|] == root
  {
    TileFileJoin(root, layer, z, x, y);
    Join(TileDir(root, layer, z, x), IntToStr(y) + ".png")
  }

  /** Joining `{y}.png` to the tile directory adds a separator and keeps the directory's start. */
  lemma TileFileJoin(root: string, layer: string, z: int, x: int, y: int)
    ensures var d, n := TileDir(root, layer, z, x), IntToStr(y) + ".png";
            && Join(d, n) == d + "/" + n
            && (!IsAbsolute(layer) ==> |root| <= |Join(d, n)| && Join(d, n)[..|root|] == root)
  {
    var d, n := TileDir(root, layer, z, x), IntToStr(y) + ".png";
    TileDirIsDirName(root, layer, z, x);
    TileNameIsPlain(y);
    JoinChild(d, n);
    if !IsAbsolute(layer) {
      var l := Join(root, layer);
      var zs, xs := IntToStr(z), IntToStr(x);
      assert zs[0] != '/' && xs[0] != '/' && n[0] != '/';
      JoinKeepsPrefix(l, zs, root);
      JoinKeepsPrefix(Join(l, zs), xs, root);
      JoinKeepsPrefix(d, n, root);
    }
  }

  lemma NoSlashConcat(a: string, b: string)
    requires NoSlash(a) && NoSlash(b)
    ensures NoSlash(a + b)
  {
    assert forall k :: 0 <= k < |a + b| ==> (a + b)[k] == if k < |a| then a[k] else b[k - |a|];
  }

  /** The tile directory is never empty and never ends in a separator: it ends in the digits of `x`. */
  lemma TileDirIsDirName(root: string, layer: string, z: int, x: int)
    ensures IsDirName(TileDir(root, layer, z, x))
  {
    JoinLast(Join(Join(root, layer), IntToStr(z)), IntToStr(x));
  }

  /** The file name `f"{y}.png"`: non-empty and free of separators. */
  lemma TileNameIsPlain(y: int)
    ensures IntToStr(y) + ".png" != "" && NoSlash(IntToStr(y) + ".png")
  {
    NoSlashConcat(IntToStr(y), ".png");
  }

  /** `dirname` of a tile path is the tile directory, which is never empty. */
  lemma TilePathParent(root: string, layer: string, z: int, x: int, y: int)
    ensures Dirname(TilePath(root, layer, z, x, y)) == TileDir(root, layer, z, x)
    ensures TileDir(root, layer, z, x) != ""
  {
    TileDirIsDirName(root, layer, z, x);
    TileNameIsPlain(y);
    JoinPlainChild(TileDir(root, layer, z, x), IntToStr(y) + ".png");
  }

  /** Under a clean root and layer name the tile lives at `root/layer/z/x/y.png`. */
  lemma TilePathLayout(root: string, layer: string, z: int, x: int, y: int)
    requires IsDirName(root) && layer != "" && NoSlash(layer)
    ensures TilePath(root, layer, z, x, y)
            == root + "/" + layer + "/" + IntToStr(z) + "/" + IntToStr(x) + "/" + IntToStr(y) + ".png"
  {
    JoinChild(root, layer);
    var l := root + "/" + layer;
    assert l[|l| - 1] == layer[|layer| - 1];
    var zs := IntToStr(z);
    JoinChild(l, zs);
    var lz := l + "/" + zs;
    assert lz[|lz| - 1] == zs[|zs| - 1];
    JoinChild(lz, IntToStr(x));
  }

  /** Splitting at the last separator: a slash-free tail after `/` is determined by the string. */
  lemma SplitAtLastSlash(a1: string, n1: string, a2: string, n2: string)
    requires NoSlash(n1) && NoSlash(n2)
    requires a1 + "/" + n1 == a2 + "/" + n2
    ensures a1 == a2 && n1 == n2
  {
    var s := a1 + "/" + n1;
    HeadLengthPastName(a1 + "/", n1);
    HeadLengthPastName(a2 + "/", n2);
    assert a1 == s[..|a1|] == a2;
    assert n1 == s[|a1| + 1..] == n2;
  }

  /** The tile directory is the zoom directory, a separator and the digits of `x`. */
  lemma TileDirParent(root: string, layer: string, z: int, x: int)
    ensures TileDir(root, layer, z, x) == Join(Join(root, layer), IntToStr(z)) + "/" + IntToStr(x)
  {
    var l := Join(root, layer);
    var zs := IntToStr(z);
    JoinLast(l, zs);
    JoinChild(Join(l, zs), IntToStr(x));
  }

  /** Two layers with plain names store the same tile at different paths. */
  lemma TilePathLayerInjective(root: string, l1: string, l2: string, z: int, x: int, y: int)
    requires l1 != "" && NoSlash(l1) && l2 != "" && NoSlash(l2)
    requires TilePath(root, l1, z, x, y) == TilePath(root, l2, z, x, y)
    ensures l1 == l2
  {
    var a1, a2 := Join(root, l1), Join(root, l2);
    assert TileDir(root, l1, z, x) == TileDir(root, l2, z, x) by {
      TileDirIsDirName(root, l1, z, x);
      TileDirIsDirName(root, l2, z, x);
      TileNameIsPlain(y);
      JoinParentInjective(TileDir(root, l1, z, x), TileDir(root, l2, z, x), IntToStr(y) + ".png");
    }
    assert Join(a1, IntToStr(z)) == Join(a2, IntToStr(z)) by {
      JoinLast(a1, IntToStr(z));
      JoinLast(a2, IntToStr(z));
      JoinParentInjective(Join(a1, IntToStr(z)), Join(a2, IntToStr(z)), IntToStr(x));
    }
    assert a1 == a2 by {
      JoinLast(root, l1);
      JoinLast(root, l2);
      JoinParentInjective(a1, a2, IntToStr(z));
    }
    JoinInjective(root, l1, l2);
  }

  /** One root and one layer: different tiles never share a path. */
  lemma TilePathInjective(root: string, layer: string, z1: int, x1: int, y1: int, z2: int, x2: int, y2: int)
    requires TilePath(root, layer, z1, x1, y1) == TilePath(root, layer, z2, x2, y2)
    ensures z1 == z2 && x1 == x2 && y1 == y2
  {
    var d1, d2 := TileDir(root, layer, z1, x1), TileDir(root, layer, z2, x2);
    var n1, n2 := IntToStr(y1) + ".png", IntToStr(y2) + ".png";
    assert d1 == d2 && n1 == n2 by {
      TileNameIsPlain(y1);
      TileNameIsPlain(y2);
      SplitAtLastSlash(d1, n1, d2, n2);
    }
    assert y1 == y2 by {
      assert IntToStr(y1) == n1[..|n1| - 4];
      assert IntToStr(y2) == n2[..|n2| - 4];
      IntToStrInjective(y1, y2);
    }
    var l := Join(root, layer);
    assert Join(l, IntToStr(z1)) == Join(l, IntToStr(z2)) && IntToStr(x1) == IntToStr(x2) by {
      TileDirParent(root, layer, z1, x1);
      TileDirParent(root, layer, z2, x2);
      SplitAtLastSlash(Join(l, IntToStr(z1)), IntToStr(x1), Join(l, IntToStr(z2)), IntToStr(x2));
    }
    IntToStrInjective(x1, x2);
    JoinInjective(l, IntToStr(z1), IntToStr(z2));
    IntToStrInjective(z1, z2);
  }

  /** The tiles a run visits, as (zoom, tile) pairs: zoom by zoom in list order, tile by tile in enumeration order. */
  function Visits(src: Sources, aoi: Bbox, zooms: seq<int>): seq<(int, TileXY)>
    decreases |zooms|
  {
    if zooms == [] then []
    else
      var z := zooms[|zooms| - 1];
      Visits(src, aoi, zooms[..|zooms| - 1]) + AtZoom(z, src.tiles(aoi, z))
  }

  function AtZoom(z: int, ts: seq<TileXY>): (vs: seq<(int, TileXY)>)
    ensures |vs| == |ts|
  {
    seq(|ts|, i requires 0 <= i < |ts| => (z, ts[i]))
  }

  /** The number of tiles enumerated over all zoom levels. */
  function TileCount(src: Sources, aoi: Bbox, zooms: seq<int>): nat
    decreases |zooms|
  {
    if zooms == [] then 0
    else TileCount(src, aoi, zooms[..|zooms| - 1]) + |src.tiles(aoi, zooms[|zooms| - 1])|
  }

  /** One visit per enumerated tile. */
  lemma {:induction false} VisitsCount(src: Sources, aoi: Bbox, zooms: seq<int>)
    ensures |Visits(src, aoi, zooms)| == TileCount(src, aoi, zooms)
    decreases |zooms|
  {
    if zooms != [] {
      VisitsCount(src, aoi, zooms[..|zooms| - 1]);
    }
  }

  /** Every visit is an enumerated tile of one of the zoom levels. */
  lemma {:induction false} VisitsFrom(src: Sources, aoi: Bbox, zooms: seq<int>, m: nat)
    requires m < |Visits(src, aoi, zooms)|
    ensures exists k, i :: 0 <= k < |zooms| && 0 <= i < |src.tiles(aoi, zooms[k])|
              && Visits(src, aoi, zooms)[m] == (zooms[k], src.tiles(aoi, zooms[k])[i])
    decreases |zooms|
  {
    var init := zooms[..|zooms| - 1];
    var before := Visits(src, aoi, init);
    if m < |before| {
      VisitsFrom(src, aoi, init, m);
      var k, i :| 0 <= k < |init| && 0 <= i < |src.tiles(aoi, init[k])|
                  && before[m] == (init[k], src.tiles(aoi, init[k])[i]);
      assert init[k] == zooms[k];
    } else {
      var k := |zooms| - 1;
      assert Visits(src, aoi, zooms)[m] == (zooms[k], src.tiles(aoi, zooms[k])[m - |before|]);
    }
  }

  /** Every enumerated tile of every zoom level is visited. */
  lemma {:induction false} VisitsCover(src: Sources, aoi: Bbox, zooms: seq<int>, k: nat, i: nat)
    requires k < |zooms| && i < |src.tiles(aoi, zooms[k])|
    ensures exists m :: 0 <= m < |Visits(src, aoi, zooms)|
              && Visits(src, aoi, zooms)[m] == (zooms[k], src.tiles(aoi, zooms[k])[i])
    decreases |zooms|
  {
    var init := zooms[..|zooms| - 1];
    var before := Visits(src, aoi, init);
    var vs := Visits(src, aoi, zooms);
    if k < |init| {
      VisitsCover(src, aoi, init, k, i);
      var m :| 0 <= m < |before| && before[m] == (init[k], src.tiles(aoi, init[k])[i]);
      assert vs[m] == before[m];
    } else {
      assert vs[|before| + i] == (zooms[k], src.tiles(aoi, zooms[k])[i]);
    }
  }

  /** The next zoom level extends the visits by all of its tiles. */
  lemma VisitsSnoc(src: Sources, aoi: Bbox, zooms: seq<int>, k: nat)
    requires k < |zooms|
    ensures Visits(src, aoi, zooms[..k + 1]) == Visits(src, aoi, zooms[..k]) + AtZoom(zooms[k], src.tiles(aoi, zooms[k]))
  {
    assert zooms[..k + 1][..k] == zooms[..k];
  }

  type Visit = (int, TileXY)

  /** Where each visit is written and what is written there. */
  datatype Plan = Plan(place: Visit -> string, draw: Visit -> Content)

  /** The writer's plan: tile `(z, x, y)` goes to its XYZ path with its own rendering. */
  function TilePlan(src: Sources, job: Job): Plan {
    Plan((v: Visit) => TilePath(job.root, job.layer, v.0, v.1.x, v.1.y),
         (v: Visit) => Png(TileImage(src, job, v.0, v.1.x, v.1.y)))
  }

  /** The files after writing each visit in order: a later write to a path replaces an earlier one. */
  function Replay(files: map<string, Content>, plan: Plan, vs: seq<Visit>): map<string, Content>
    decreases |vs|
  {
    if vs == [] then files
    else Replay(files, plan, vs[..|vs| - 1])[plan.place(vs[|vs| - 1]) := plan.draw(vs[|vs| - 1])]
  }

  /** The directories `makedirs(dirname(path))` creates over the visits. */
  function ReplayDirs(plan: Plan, vs: seq<Visit>): set<string>
    decreases |vs|
  {
    if vs == [] then {} else ReplayDirs(plan, vs[..|vs| - 1]) + MakeDirs(Dirname(plan.place(vs[|vs| - 1])))
  }

  lemma ReplaySnoc(files: map<string, Content>, plan: Plan, vs: seq<Visit>, v: Visit)
    ensures Replay(files, plan, vs + [v]) == Replay(files, plan, vs)[plan.place(v) := plan.draw(v)]
  {
    assert (vs + [v])[..|vs|] == vs;
  }

  lemma ReplayDirsSnoc(plan: Plan, vs: seq<Visit>, v: Visit)
    ensures ReplayDirs(plan, vs + [v]) == ReplayDirs(plan, vs) + MakeDirs(Dirname(plan.place(v)))
  {
    assert (vs + [v])[..|vs|] == vs;
  }

  /** Replaying two runs of visits one after the other is replaying them joined. */
  lemma {:induction false} ReplayConcat(files: map<string, Content>, plan: Plan, vs: seq<Visit>, ws: seq<Visit>)
    ensures Replay(Replay(files, plan, vs), plan, ws) == Replay(files, plan, vs + ws)
    decreases |ws|
  {
    if ws == [] {
      assert vs + ws == vs;
    } else {
      var init := ws[..|ws| - 1];
      ReplayConcat(files, plan, vs, init);
      assert (vs + ws)[..|vs + ws| - 1] == vs + init;
    }
  }

  lemma {:induction false} ReplayDirsConcat(plan: Plan, vs: seq<Visit>, ws: seq<Visit>)
    ensures ReplayDirs(plan, vs) + ReplayDirs(plan, ws) == ReplayDirs(plan, vs + ws)
    decreases |ws|
  {
    if ws == [] {
      assert vs + ws == vs;
    } else {
      var init := ws[..|ws| - 1];
      ReplayDirsConcat(plan, vs, init);
      assert (vs + ws)[..|vs + ws| - 1] == vs + init;
    }
  }

  /** A path that no visit writes keeps what it had, or stays absent. */
  lemma {:induction false} ReplayOutside(files: map<string, Content>, plan: Plan, vs: seq<Visit>, p: string)
    requires forall m :: 0 <= m < |vs| ==> plan.place(vs[m]) != p
    ensures p in Replay(files, plan, vs) <==> p in files
    ensures p in files ==> Replay(files, plan, vs)[p] == files[p]
    decreases |vs|
  {
    if vs != [] {
      var init := vs[..|vs| - 1];
      assert forall m :: 0 <= m < |init| ==> init[m] == vs[m];
      ReplayOutside(files, plan, init, p);
    }
  }

  /** Visit `m` survives in the result when every later visit to the same path writes the same content. */
  lemma {:induction false} ReplayHas(files: map<string, Content>, plan: Plan, vs: seq<Visit>, m: nat)
    requires m < |vs|
    requires forall m' :: m < m' < |vs| && plan.place(vs[m']) == plan.place(vs[m]) ==> plan.draw(vs[m']) == plan.draw(vs[m])
    ensures plan.place(vs[m]) in Replay(files, plan, vs)
    ensures Replay(files, plan, vs)[plan.place(vs[m])] == plan.draw(vs[m])
    decreases |vs|
  {
    if m < |vs| - 1 {
      var init := vs[..|vs| - 1];
      assert forall m' :: 0 <= m' < |init| ==> init[m'] == vs[m'];
      ReplayHas(files, plan, init, m);
    }
  }

  lemma {:induction false} ReplayDirsHas(plan: Plan, vs: seq<Visit>, m: nat)
    requires m < |vs| && Dirname(plan.place(vs[m])) != ""
    ensures Dirname(plan.place(vs[m])) in ReplayDirs(plan, vs)
    decreases |vs|
  {
    if m < |vs| - 1 {
      assert vs[..|vs| - 1][m] == vs[m];
      ReplayDirsHas(plan, vs[..|vs| - 1], m);
    }
  }

  /**
   * After a run, every enumerated tile of every zoom level is stored at
   * `root/layer/z/x/y.png` with its own rendering, and its directory exists.
   * A path written twice is written by the same tile both times.
   */
  lemma StoredTile(src: Sources, job: Job, zooms: seq<int>, files: map<string, Content>, k: nat, i: nat)
    requires k < |zooms| && i < |src.tiles(job.aoi, zooms[k])|
    ensures var t := src.tiles(job.aoi, zooms[k])[i];
            var p := TilePath(job.root, job.layer, zooms[k], t.x, t.y);
            var stored := Replay(files, TilePlan(src, job), Visits(src, job.aoi, zooms));
            && p in stored
            && stored[p] == Png(TileImage(src, job, zooms[k], t.x, t.y))
            && TileDir(job.root, job.layer, zooms[k], t.x) in ReplayDirs(TilePlan(src, job), Visits(src, job.aoi, zooms))
  {
    var vs := Visits(src, job.aoi, zooms);
    var plan := TilePlan(src, job);
    VisitsCover(src, job.aoi, zooms, k, i);
    var m :| 0 <= m < |vs| && vs[m] == (zooms[k], src.tiles(job.aoi, zooms[k])[i]);
    forall m' | m < m' < |vs| && plan.place(vs[m']) == plan.place(vs[m])
      ensures plan.draw(vs[m']) == plan.draw(vs[m])
    {
      TilePathInjective(job.root, job.layer, vs[m'].0, vs[m'].1.x, vs[m'].1.y, vs[m].0, vs[m].1.x, vs[m].1.y);
    }
    ReplayHas(files, plan, vs, m);
    TilePathParent(job.root, job.layer, vs[m].0, vs[m].1.x, vs[m].1.y);
    ReplayDirsHas(plan, vs, m);
  }

  /** A path that is no tile path of this root and layer is left as it was. */
  lemma OtherPathsUnchanged(src: Sources, job: Job, zooms: seq<int>, files: map<string, Content>, p: string)
    requires forall z, x, y :: p != TilePath(job.root, job.layer, z, x, y)
    ensures p in Replay(files, TilePlan(src, job), Visits(src, job.aoi, zooms)) <==> p in files
    ensures p in files ==> Replay(files, TilePlan(src, job), Visits(src, job.aoi, zooms))[p] == files[p]
  {
    ReplayOutside(files, TilePlan(src, job), Visits(src, job.aoi, zooms), p);
  }

  /** Writing tile `t` of a zoom extends the replay of the tiles before it. */
  lemma ReplayNextTile(files: map<string, Content>, plan: Plan, z: int, tiles: seq<TileXY>, t: nat)
    requires t < |tiles|
    ensures Replay(files, plan, AtZoom(z, tiles[..t + 1]))
            == Replay(files, plan, AtZoom(z, tiles[..t]))[plan.place((z, tiles[t])) := plan.draw((z, tiles[t]))]
    ensures ReplayDirs(plan, AtZoom(z, tiles[..t + 1]))
            == ReplayDirs(plan, AtZoom(z, tiles[..t])) + MakeDirs(Dirname(plan.place((z, tiles[t]))))
  {
    assert AtZoom(z, tiles[..t + 1]) == AtZoom(z, tiles[..t]) + [(z, tiles[t])];
    ReplaySnoc(files, plan, AtZoom(z, tiles[..t]), (z, tiles[t]));
    ReplayDirsSnoc(plan, AtZoom(z, tiles[..t]), (z, tiles[t]));
  }

  /** Every tile path has a directory part, so `ensure_dir(os.path.dirname(tile_path))` never gets "". */
  lemma TilePlanDirs(src: Sources, job: Job)
    ensures forall v :: Dirname(TilePlan(src, job).place(v)) != ""
  {
    forall v: Visit ensures Dirname(TilePlan(src, job).place(v)) != "" {
      TilePathParent(job.root, job.layer, v.0, v.1.x, v.1.y);
    }
  }

  /** The inner loop: for each tile of zoom `z` in order, create `dirname(path)` and write the tile. */
  method WriteZoom(store: FileStore, plan: Plan, z: int, tiles: seq<TileXY>)
    requires forall v :: Dirname(plan.place(v)) != ""
    modifies store
    ensures store.files == Replay(old(store.files), plan, AtZoom(z, tiles))
    ensures store.dirs == old(store.dirs) + ReplayDirs(plan, AtZoom(z, tiles))
  {
    var t := 0;
    while t < |tiles|
      invariant t <= |tiles|
      invariant store.files == Replay(old(store.files), plan, AtZoom(z, tiles[..t]))
      invariant store.dirs == old(store.dirs) + ReplayDirs(plan, AtZoom(z, tiles[..t]))
    {
      var path := plan.place((z, tiles[t]));
      var _ := store.EnsureDir(Dirname(path));
      store.Save(path, plan.draw((z, tiles[t])));
      ReplayNextTile(old(store.files), plan, z, tiles, t);
      t := t + 1;
    }
    assert tiles[..t] == tiles;
  }

  /**
   * `generate_xyz_tiles_from_geotiff`: for each zoom in order and each tile the
   * enumeration yields, create the tile's directory and write its rendering.
   */
  method GenerateXyzTiles(store: FileStore, src: Sources, job: Job, zooms: seq<int>)
    requires ValidRamp(src.ramp)
    modifies store
    ensures store.files == Replay(old(store.files), TilePlan(src, job), Visits(src, job.aoi, zooms))
    ensures store.dirs == old(store.dirs) + ReplayDirs(TilePlan(src, job), Visits(src, job.aoi, zooms))
  {
    var plan := TilePlan(src, job);
    TilePlanDirs(src, job);
    var k := 0;
    while k < |zooms|
      invariant k <= |zooms|
      invariant store.files == Replay(old(store.files), plan, Visits(src, job.aoi, zooms[..k]))
      invariant store.dirs == old(store.dirs) + ReplayDirs(plan, Visits(src, job.aoi, zooms[..k]))
    {
      var z := zooms[k];
      WriteZoom(store, plan, z, src.tiles(job.aoi, z));
      ReplayConcat(old(store.files), plan, Visits(src, job.aoi, zooms[..k]), AtZoom(z, src.tiles(job.aoi, z)));
      ReplayDirsConcat(plan, Visits(src, job.aoi, zooms[..k]), AtZoom(z, src.tiles(job.aoi, z)));
      VisitsSnoc(src, job.aoi, zooms, k);
      k := k + 1;
    }
    assert zooms[..k] == zooms;
  }
}
