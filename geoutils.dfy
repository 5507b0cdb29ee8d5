/**
 * `src/utils/geoutils.py`: the UTM zone choice, the total bounds of a layer
 * and the square grid laid over an area of interest.
 */
module GeoUtils {
  import opened Wrappers

  /** A bounding box in `(minx, miny, maxx, maxy)` order. */
  datatype Bbox = Bbox(minx: real, miny: real, maxx: real, maxy: real)

  /** `int(v)` on a float: truncation toward zero. */
  function Trunc(v: real): (n: int)
    ensures v >= 0.0 ==> n as real <= v < n as real + 1.0
    ensures v < 0.0 ==> n as real - 1.0 < v <= n as real
  {
    if v >= 0.0 then v.Floor else -((-v).Floor)
  }

  /** The UTM zone number `(int((lon + 180) / 6) % 60) + 1`, with Python's non-negative `%`. */
  function UtmZone(lon: real): (zone: int)
    ensures 1 <= zone <= 60
  {
    (Trunc((lon + 180.0) / 6.0) % 60) + 1
  }

  /** Inside [-180, 180) the zone is the 6-degree band, counted from 180°W, that contains the longitude. */
  lemma UtmZoneBand(lon: real)
    requires -180.0 <= lon < 180.0
    ensures -180.0 + 6.0 * (UtmZone(lon) - 1) as real <= lon < -180.0 + 6.0 * UtmZone(lon) as real
  {
    var t := Trunc((lon + 180.0) / 6.0);
    assert 0 <= t < 60;
    assert t % 60 == t;
  }

  /** The antimeridian wraps: 180°E is zone 1, like 180°W. */
  lemma UtmZoneWraps()
    ensures UtmZone(180.0) == 1 && UtmZone(-180.0) == 1
  {
    assert Trunc(360.0 / 6.0) == 60;
  }

  /** Truncation rather than flooring: just west of 180°W still gives zone 1, not zone 60. */
  lemma UtmZoneTruncatesTowardZero()
    ensures UtmZone(-183.0) == 1
  {
    assert (-183.0 + 180.0) / 6.0 == -0.5;
    assert Trunc(-0.5) == 0;
  }

  /** The projection `get_utm_crs_for_gdf` builds: a zone and the south-hemisphere flag. */
  datatype UtmCrs = UtmCrs(zone: int, south: bool)

  /** The UTM CRS for a centroid at (lon, lat): south exactly when the latitude is negative. */
  function UtmCrsFor(lon: real, lat: real): (crs: UtmCrs)
    ensures 1 <= crs.zone <= 60
    ensures crs.south <==> lat < 0.0
  {
    UtmCrs(UtmZone(lon), lat < 0.0)
  }

  /** `gdf.total_bounds` over the bounds of each geometry; a frame without geometries has none. */
  function TotalBounds(boxes: seq<Bbox>): (r: Option<Bbox>)
    ensures r.None? <==> boxes == []
    ensures r.Some? ==> forall k :: 0 <= k < |boxes| ==>
              r.value.minx <= boxes[k].minx && r.value.miny <= boxes[k].miny &&
              boxes[k].maxx <= r.value.maxx && boxes[k].maxy <= r.value.maxy
    ensures r.Some? ==> exists k :: 0 <= k < |boxes| && boxes[k].minx == r.value.minx
    ensures r.Some? ==> exists k :: 0 <= k < |boxes| && boxes[k].miny == r.value.miny
    ensures r.Some? ==> exists k :: 0 <= k < |boxes| && boxes[k].maxx == r.value.maxx
    ensures r.Some? ==> exists k :: 0 <= k < |boxes| && boxes[k].maxy == r.value.maxy
    decreases |boxes|
  {
    if boxes == [] then None
    else if |boxes| == 1 then Some(boxes[0])
    else
      var rest := TotalBounds(boxes[1..]).value;
      var b := boxes[0];
      assert forall k :: 1 <= k < |boxes| ==> boxes[k] == boxes[1..][k - 1];
      Some(Bbox(if b.minx <= rest.minx then b.minx else rest.minx,
                if b.miny <= rest.miny then b.miny else rest.miny,
                if b.maxx >= rest.maxx then b.maxx else rest.maxx,
                if b.maxy >= rest.maxy then b.maxy else rest.maxy))
  }

  /** `bbox_xyxy`: the total bounds, in `(minx, miny, maxx, maxy)` order. */
  function BboxXyxy(boxes: seq<Bbox>): (r: Option<(real, real, real, real)>)
    ensures r.Some? <==> boxes != []
    ensures r.Some? ==> forall k :: 0 <= k < |boxes| ==>
              r.value.0 <= boxes[k].minx && r.value.1 <= boxes[k].miny &&
              boxes[k].maxx <= r.value.2 && boxes[k].maxy <= r.value.3
  {
    match TotalBounds(boxes)
    case None => None
    case Some(b) => Some((b.minx, b.miny, b.maxx, b.maxy))
  }

  /** A square cell: lower-left corner and side length. */
  datatype Square = Square(x: real, y: real, side: real)

  /** A grid cell as the resulting frame holds it: its `id` and its polygon. */
  datatype GridCell = GridCell(id: nat, cell: Square)

  /** The `k`-th lattice coordinate `lo + k·s`. */
  function Corner(lo: real, s: real, k: nat): real {
    if k == 0 then lo else Corner(lo, s, k - 1) + s
  }

  lemma {:induction false} CornerValue(lo: real, s: real, k: nat)
    ensures Corner(lo, s, k) == lo + k as real * s
  {
    if k > 0 {
      CornerValue(lo, s, k - 1);
    }
  }

  /** `-floor(-r)` */
  function Ceil(r: real): (c: int)
    ensures c as real - 1.0 < r <= c as real
  {
    -((-r).Floor)
  }

  /** How many corners `lo, lo + s, lo + 2s, …` lie strictly below `hi`. */
  function Steps(lo: real, hi: real, s: real): nat
    requires s > 0.0
  {
    if lo < hi then Ceil((hi - lo) / s) else 0
  }

  lemma StepsCount(lo: real, hi: real, s: real, k: nat)
    requires s > 0.0
    ensures k < Steps(lo, hi, s) <==> Corner(lo, s, k) < hi
  {
    CornerValue(lo, s, k);
    var kr := k as real;
    if lo < hi {
      var r := (hi - lo) / s;
      var c := Ceil(r);
      assert r * s == hi - lo;
      assert c == Steps(lo, hi, s);
      if kr < r {
        MulStrict(kr, r, s);
        assert k < c;
      } else {
        MulMono(r, kr, s);
        assert c as real - 1.0 < r <= kr;
        assert !(k < c);
      }
    } else {
      MulMono(0.0, kr, s);
    }
  }

  lemma MulStrict(a: real, b: real, s: real)
    requires a < b && s > 0.0
    ensures a * s < b * s
  {
  }

  lemma MulMono(a: real, b: real, s: real)
    requires a <= b && s > 0.0
    ensures a * s <= b * s
  {
  }

  /** The candidate cells of grid row `j`, west to east. */
  function Row(b: Bbox, s: real, j: nat): (row: seq<Square>)
    requires s > 0.0
    ensures |row| == Steps(b.minx, b.maxx, s)
  {
    seq(Steps(b.minx, b.maxx, s), (i: nat) => Square(Corner(b.minx, s, i), Corner(b.miny, s, j), s))
  }

  /** The candidate cells of the first `ny` rows, south row first and west to east within a row. */
  function Candidates(b: Bbox, s: real, ny: nat): (cs: seq<Square>)
    requires s > 0.0
  {
    if ny == 0 then [] else Candidates(b, s, ny - 1) + Row(b, s, ny - 1)
  }

  /** The cells kept by the intersection test, in order. */
  function Keep(cs: seq<Square>, intersects: Square -> bool): seq<Square>
    decreases |cs|
  {
    if cs == [] then []
    else Keep(cs[..|cs| - 1], intersects) + (if intersects(cs[|cs| - 1]) then [cs[|cs| - 1]] else [])
  }

  /** Only candidates that pass the intersection test are kept. */
  lemma {:induction false} KeepSound(cs: seq<Square>, intersects: Square -> bool)
    ensures |Keep(cs, intersects)| <= |cs|
    ensures forall c :: c in Keep(cs, intersects) ==> c in cs && intersects(c)
    decreases |cs|
  {
    if cs != [] {
      KeepSound(cs[..|cs| - 1], intersects);
    }
  }

  lemma KeepSnoc(cs: seq<Square>, c: Square, intersects: Square -> bool)
    ensures Keep(cs + [c], intersects) == Keep(cs, intersects) + (if intersects(c) then [c] else [])
  {
    assert (cs + [c])[..|cs|] == cs;
  }

  lemma {:induction false} KeepConcat(a: seq<Square>, c: seq<Square>, intersects: Square -> bool)
    ensures Keep(a + c, intersects) == Keep(a, intersects) + Keep(c, intersects)
    decreases |c|
  {
    if c != [] {
      assert (a + c)[..|a + c| - 1] == a + c[..|c| - 1];
      KeepConcat(a, c[..|c| - 1], intersects);
    } else {
      assert a + c == a;
    }
  }

  /** Every candidate that passes the intersection test is kept. */
  lemma {:induction false} KeepComplete(cs: seq<Square>, intersects: Square -> bool, k: nat)
    requires k < |cs| && intersects(cs[k])
    ensures cs[k] in Keep(cs, intersects)
    decreases |cs|
  {
    if k < |cs| - 1 {
      KeepComplete(cs[..|cs| - 1], intersects, k);
    }
  }

  /** The cells `make_square_grid` keeps, in emission order. */
  function GridSpec(b: Bbox, s: real, intersects: Square -> bool): seq<Square>
    requires s > 0.0
  {
    Keep(Candidates(b, s, Steps(b.miny, b.maxy, s)), intersects)
  }

  lemma {:induction false} CandidatesLength(b: Bbox, s: real, ny: nat)
    requires s > 0.0
    ensures |Candidates(b, s, ny)| == ny * Steps(b.minx, b.maxx, s)
    decreases ny
  {
    if ny > 0 {
      CandidatesLength(b, s, ny - 1);
    }
  }

  /** Row-major layout: candidate `j·nx + i` is the cell with corner `(minx + i·s, miny + j·s)`. */
  lemma {:induction false} CandidateAt(b: Bbox, s: real, ny: nat, j: nat, i: nat)
    requires s > 0.0
    requires j < ny && i < Steps(b.minx, b.maxx, s)
    ensures j * Steps(b.minx, b.maxx, s) + i < |Candidates(b, s, ny)|
    ensures Candidates(b, s, ny)[j * Steps(b.minx, b.maxx, s) + i]
            == Square(Corner(b.minx, s, i), Corner(b.miny, s, j), s)
    decreases ny
  {
    var nx := Steps(b.minx, b.maxx, s);
    var prev := Candidates(b, s, ny - 1);
    CandidatesLength(b, s, ny - 1);
    CandidatesLength(b, s, ny);
    assert Candidates(b, s, ny) == prev + Row(b, s, ny - 1);
    RowMajorIndex(j, i, nx, ny);
    if j < ny - 1 {
      RowMajorIndex(j, i, nx, ny - 1);
      CandidateAt(b, s, ny - 1, j, i);
    } else {
      assert j * nx + i - |prev| == i;
    }
  }

  lemma RowMajorIndex(j: nat, i: nat, nx: nat, ny: nat)
    requires j < ny && i < nx
    ensures j * nx + i < ny * nx
    ensures j == ny - 1 ==> j * nx + i - (ny - 1) * nx == i
  {
    assert (j + 1) * nx == j * nx + nx;
    MulMonoNat(j + 1, ny, nx);
  }

  lemma NextCorner(lo: real, s: real, k: nat)
    ensures Corner(lo, s, k + 1) == Corner(lo, s, k) + s
  {
  }

  lemma MulMonoNat(a: nat, b: nat, n: nat)
    requires a <= b
    ensures a * n <= b * n
  {
  }

  /** A lattice corner that is counted lies in `[lo, hi)`. */
  lemma CornerInRange(lo: real, hi: real, s: real, k: nat)
    requires s > 0.0 && k < Steps(lo, hi, s)
    ensures lo <= Corner(lo, s, k) < hi
  {
    StepsCount(lo, hi, s, k);
    CornerValue(lo, s, k);
    MulMono(0.0, k as real, s);
  }

  /** Every candidate cell's corner lies in `[minx, maxx) × [miny, maxy)` on the `s`-spaced lattice. */
  lemma {:induction false} CandidatesInBox(b: Bbox, s: real, ny: nat, c: Square)
    requires s > 0.0 && ny <= Steps(b.miny, b.maxy, s)
    requires c in Candidates(b, s, ny)
    ensures c.side == s
    ensures b.minx <= c.x < b.maxx && b.miny <= c.y < b.maxy
    decreases ny
  {
    var prev := Candidates(b, s, ny - 1);
    var row := Row(b, s, ny - 1);
    assert Candidates(b, s, ny) == prev + row;
    if c in prev {
      CandidatesInBox(b, s, ny - 1, c);
    } else {
      var i :| 0 <= i < |row| && row[i] == c;
      CornerInRange(b.minx, b.maxx, s, i);
      CornerInRange(b.miny, b.maxy, s, ny - 1);
    }
  }

  /** The emitted cells are exactly the candidates that intersect the area, and all lie in its bounds. */
  lemma GridSpecSound(b: Bbox, s: real, intersects: Square -> bool)
    requires s > 0.0
    ensures forall c :: c in GridSpec(b, s, intersects) ==>
              intersects(c) && c.side == s && b.minx <= c.x < b.maxx && b.miny <= c.y < b.maxy
    ensures forall k :: 0 <= k < |Candidates(b, s, Steps(b.miny, b.maxy, s))| &&
                        intersects(Candidates(b, s, Steps(b.miny, b.maxy, s))[k]) ==>
              Candidates(b, s, Steps(b.miny, b.maxy, s))[k] in GridSpec(b, s, intersects)
  {
    var ny := Steps(b.miny, b.maxy, s);
    KeepSound(Candidates(b, s, ny), intersects);
    forall c | c in GridSpec(b, s, intersects)
      ensures intersects(c) && c.side == s && b.minx <= c.x < b.maxx && b.miny <= c.y < b.maxy
    {
      CandidatesInBox(b, s, ny, c);
    }
    forall k | 0 <= k < |Candidates(b, s, ny)| && intersects(Candidates(b, s, ny)[k])
      ensures Candidates(b, s, ny)[k] in GridSpec(b, s, intersects)
    {
      KeepComplete(Candidates(b, s, ny), intersects, k);
    }
  }

  /** The inner loop of `make_square_grid` for the row at height `y = Corner(miny, s, j)`: the row's intersecting squares, west to east. */
  method ScanRow(b: Bbox, s: real, ghost j: nat, y: real, intersects: Square -> bool) returns (kept: seq<Square>)
    requires s > 0.0 && y == Corner(b.miny, s, j)
    ensures kept == Keep(Row(b, s, j), intersects)
  {
    ghost var row := Row(b, s, j);
    ghost var nx := |row|;
    kept := [];
    var x := b.minx;
    ghost var i: nat := 0;
    StepsCount(b.minx, b.maxx, s, 0);
    while x < b.maxx
      invariant i <= nx
      invariant x == Corner(b.minx, s, i)
      invariant kept == Keep(row[..i], intersects)
      decreases nx - i
    {
      StepsCount(b.minx, b.maxx, s, i);
      var poly := Square(x, y, s);
      assert row[..i + 1] == row[..i] + [poly];
      KeepSnoc(row[..i], poly, intersects);
      if intersects(poly) {
        kept := kept + [poly];
      }
      NextCorner(b.minx, s, i);
      x := x + s;
      i := i + 1;
    }
    StepsCount(b.minx, b.maxx, s, i);
    assert row[..i] == row;
  }

  /**
   * `make_square_grid` on the projected bounds `b` of the area: walks corners
   * row by row (y outer, x inner), keeps the squares that intersect the area,
   * and numbers the kept cells 0, 1, … in that order. An empty y-range gives
   * no cells; a cell size that is not positive never advances `y`, so the
   * source terminates only on an empty y-range.
   */
  method MakeSquareGrid(b: Bbox, cellSize: real, intersects: Square -> bool) returns (grid: seq<GridCell>)
    requires cellSize > 0.0 || b.miny >= b.maxy
    ensures b.miny >= b.maxy ==> grid == []
    ensures cellSize > 0.0 ==> |grid| == |GridSpec(b, cellSize, intersects)|
    ensures cellSize > 0.0 ==>
              forall k :: 0 <= k < |grid| ==> grid[k] == GridCell(k, GridSpec(b, cellSize, intersects)[k])
  {
    if cellSize <= 0.0 {
      return [];
    }
    var s := cellSize;
    ghost var ny := Steps(b.miny, b.maxy, s);
    var polys: seq<Square> := [];
    var y := b.miny;
    ghost var j: nat := 0;
    while y < b.maxy
      invariant j <= ny
      invariant y == Corner(b.miny, s, j)
      invariant polys == Keep(Candidates(b, s, j), intersects)
      decreases ny - j
    {
      StepsCount(b.miny, b.maxy, s, j);
      var kept := ScanRow(b, s, j, y, intersects);
      KeepConcat(Candidates(b, s, j), Row(b, s, j), intersects);
      assert Candidates(b, s, j + 1) == Candidates(b, s, j) + Row(b, s, j);
      polys := polys + kept;
      NextCorner(b.miny, s, j);
      y := y + s;
      j := j + 1;
    }
    StepsCount(b.miny, b.maxy, s, j);
    grid := seq(|polys|, k requires 0 <= k < |polys| => GridCell(k, polys[k]));
  }
}
