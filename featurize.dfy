/**
 * `src/features/featurize.py`: per-parcel statistics of each raster over the
 * pixels of a parcel-id raster, one row per parcel id in ascending order.
 */
module Featurize {
  import opened Wrappers
  import opened Frames
  import opened Stats
  import Viz

  /** A raster of parcel ids, -1 marking pixels outside every parcel. */
  type IdGrid = seq<seq<int>>

  /** The NumPy reductions the model does not compute itself: `nanpercentile` and `nanstd`. */
  datatype Reducers = Reducers(percentile: (seq<real>, real) -> real, std: seq<real> -> real)

  predicate StrictlyIncreasing(u: seq<int>) {
    forall i, j :: 0 <= i < j < |u| ==> u[i] < u[j]
  }

  /** Some pixel of `ids` carries `v`. */
  predicate Occurs(ids: IdGrid, v: int) {
    exists r, c :: 0 <= r < |ids| && 0 <= c < |ids[r]| && ids[r][c] == v
  }

  // ---------------------------------------------------------------------------
  // Id selection: `np.unique(parcel_ids)`, then `ids[ids >= 0]`
  // ---------------------------------------------------------------------------

  /** The entries of the raster, row by row. */
  function AllIds(ids: IdGrid): (xs: seq<int>)
    ensures forall v :: v in xs <==> Occurs(ids, v)
    decreases |ids|
  {
    if ids == [] then []
    else
      var init, last := ids[..|ids| - 1], ids[|ids| - 1];
      var xs := AllIds(init) + last;
      assert forall v :: Occurs(ids, v) <==> Occurs(init, v) || v in last by {
        forall v | Occurs(ids, v) ensures Occurs(init, v) || v in last {
          var r, c :| 0 <= r < |ids| && 0 <= c < |ids[r]| && ids[r][c] == v;
          if r < |ids| - 1 { assert init[r][c] == v; }
        }
        forall v | v in last ensures Occurs(ids, v) {
          var c :| 0 <= c < |last| && last[c] == v;
          assert ids[|ids| - 1][c] == v;
        }
        forall v | Occurs(init, v) ensures Occurs(ids, v) {
          var r, c :| 0 <= r < |init| && 0 <= c < |init[r]| && init[r][c] == v;
          assert ids[r][c] == v;
        }
      }
      xs
  }

  /** Adds `x` to an ascending list of distinct values, keeping it ascending and distinct. */
  function Insert(u: seq<int>, x: int): (w: seq<int>)
    requires StrictlyIncreasing(u)
    ensures StrictlyIncreasing(w)
    ensures forall v :: v in w <==> v in u || v == x
    decreases |u|
  {
    if u == [] then [x]
    else if x < u[0] then [x] + u
    else if x == u[0] then u
    else
      var rest := Insert(u[1..], x);
      assert forall v :: v in u <==> v == u[0] || v in u[1..] by {
        assert u == [u[0]] + u[1..];
      }
      AboveHead(u, rest, x);
      [u[0]] + rest
  }

  /** `np.unique`: the distinct values, in ascending order. */
  function Unique(xs: seq<int>): (u: seq<int>)
    ensures StrictlyIncreasing(u)
    ensures forall v :: v in u <==> v in xs
    decreases |xs|
  {
    if xs == [] then []
    else
      assert xs == xs[..|xs| - 1] + [xs[|xs| - 1]];
      Insert(Unique(xs[..|xs| - 1]), xs[|xs| - 1])
  }

  /** `u[u >= 0]`: the non-negative values, in their order. */
  function NonNegative(u: seq<int>): (w: seq<int>)
    ensures forall v :: v in w <==> v in u && v >= 0
    ensures StrictlyIncreasing(u) ==> StrictlyIncreasing(w)
    decreases |u|
  {
    if u == [] then []
    else
      assert u == [u[0]] + u[1..];
      if u[0] >= 0 then
        var rest := NonNegative(u[1..]);
        if StrictlyIncreasing(u) then AboveHead(u, rest, u[0]); [u[0]] + rest else [u[0]] + rest
      else NonNegative(u[1..])
  }

  /** Prefixing the head of an ascending list to values drawn from its tail (or above its head) stays ascending. */
  lemma AboveHead(u: seq<int>, rest: seq<int>, x: int)
    requires u != [] && StrictlyIncreasing(u) && StrictlyIncreasing(rest)
    requires x >= u[0]
    requires forall v :: v in rest ==> v in u[1..] || v == x
    requires x == u[0] ==> x !in rest
    ensures StrictlyIncreasing([u[0]] + rest)
  {
    var w := [u[0]] + rest;
    forall i, j | 0 <= i < j < |w| ensures w[i] < w[j] {
      assert w[j] == rest[j - 1] && rest[j - 1] in rest;
      if i > 0 {
        assert w[i] == rest[i - 1];
      } else if rest[j - 1] in u[1..] {
        var k :| 0 <= k < |u[1..]| && u[1..][k] == rest[j - 1];
        assert u[k + 1] == rest[j - 1];
      }
    }
  }

  /**
   * The parcel ids a table gets rows for: exactly the non-negative values
   * present in the raster, each once, in ascending order; -1 (and any
   * negative id) is ignored.
   */
  function SelectedIds(ids: IdGrid): (sel: seq<int>)
    ensures StrictlyIncreasing(sel)
    ensures forall v :: v in sel <==> v >= 0 && Occurs(ids, v)
  {
    NonNegative(Unique(AllIds(ids)))
  }

  // ---------------------------------------------------------------------------
  // Masks
  // ---------------------------------------------------------------------------

  /** A raster the id raster can index: the same number of rows, each of the same length. */
  predicate SameShape(ids: IdGrid, arr: Viz.Grid) {
    |arr| == |ids| && forall r :: 0 <= r < |ids| ==> |arr[r]| == |ids[r]|
  }

  /** Some pixel of the row carries `pid` and holds `x`. */
  predicate RowHas(ir: seq<int>, ar: seq<real>, pid: int, x: real)
    requires |ir| == |ar|
  {
    exists c :: 0 <= c < |ir| && ir[c] == pid && ar[c] == x
  }

  function MaskedRow(ir: seq<int>, ar: seq<real>, pid: int): (vs: seq<real>)
    requires |ir| == |ar|
    ensures pid in ir ==> |vs| > 0
    ensures forall x :: x in vs <==> RowHas(ir, ar, pid, x)
    decreases |ir|
  {
    if ir == [] then []
    else
      var n := |ir| - 1;
      var vs := MaskedRow(ir[..n], ar[..n], pid) + (if ir[n] == pid then [ar[n]] else []);
      assert pid in ir ==> pid in ir[..n] || ir[n] == pid by {
        assert ir == ir[..n] + [ir[n]];
      }
      assert forall x :: RowHas(ir, ar, pid, x) <==> RowHas(ir[..n], ar[..n], pid, x) || (ir[n] == pid && ar[n] == x) by {
        forall x | RowHas(ir, ar, pid, x)
          ensures RowHas(ir[..n], ar[..n], pid, x) || (ir[n] == pid && ar[n] == x)
        {
          var c :| 0 <= c < |ir| && ir[c] == pid && ar[c] == x;
          if c < n { assert ir[..n][c] == pid && ar[..n][c] == x; }
        }
        forall x | RowHas(ir[..n], ar[..n], pid, x) ensures RowHas(ir, ar, pid, x) {
          var c :| 0 <= c < n && ir[..n][c] == pid && ar[..n][c] == x;
          assert ir[c] == pid && ar[c] == x;
        }
      }
      vs
  }

  /**
   * `arr[parcel_ids == pid]`: the values at the pixels carrying `pid`, row by
   * row, one entry per such pixel.
   */
  function Masked(ids: IdGrid, arr: Viz.Grid, pid: int): (vs: seq<real>)
    requires SameShape(ids, arr)
    ensures |vs| == |PidPixels(ids, pid)|
    decreases |ids|
  {
    if ids == [] then []
    else
      var n := |ids| - 1;
      MaskedRowLength(ids[n], arr[n], pid, n);
      PidPixelsSplit(ids, pid);
      Masked(ids[..n], arr[..n], pid) + MaskedRow(ids[n], arr[n], pid)
  }

  /** Every value in the mask comes from a pixel carrying `pid`, and every such pixel's value is in it. */
  lemma {:induction false} MaskedIsExactly(ids: IdGrid, arr: Viz.Grid, pid: int, x: real)
    requires SameShape(ids, arr)
    ensures x in Masked(ids, arr, pid) <==>
              exists r, c :: 0 <= r < |ids| && 0 <= c < |ids[r]| && ids[r][c] == pid && arr[r][c] == x
    decreases |ids|
  {
    if ids != [] {
      var n := |ids| - 1;
      MaskedIsExactly(ids[..n], arr[..n], pid, x);
      var row := MaskedRow(ids[n], arr[n], pid);
      if exists r, c :: 0 <= r < |ids| && 0 <= c < |ids[r]| && ids[r][c] == pid && arr[r][c] == x {
        var r, c :| 0 <= r < |ids| && 0 <= c < |ids[r]| && ids[r][c] == pid && arr[r][c] == x;
        if r < n {
          assert ids[..n][r][c] == pid && arr[..n][r][c] == x;
        } else {
          assert x in row;
        }
      }
      if x in row {
        var c :| 0 <= c < |ids[n]| && ids[n][c] == pid && arr[n][c] == x;
        assert ids[n][c] == pid;
      }
    }
  }

  /** A selected id occurs in the raster, so its mask is never empty and the NaN branch is never taken. */
  lemma {:induction false} MaskedNonEmpty(ids: IdGrid, arr: Viz.Grid, pid: int)
    requires SameShape(ids, arr) && Occurs(ids, pid)
    ensures |Masked(ids, arr, pid)| > 0
    decreases |ids|
  {
    var r, c :| 0 <= r < |ids| && 0 <= c < |ids[r]| && ids[r][c] == pid;
    MaskedIsExactly(ids, arr, pid, arr[r][c]);
  }

  /** The pixels `(r, c)` of the raster that carry `pid`. */
  function PidPixels(ids: IdGrid, pid: int): set<(int, int)> {
    set r, c | 0 <= r < |ids| && 0 <= c < |ids[r]| && ids[r][c] == pid :: (r, c)
  }

  /** The pixels `(r, c)` of the raster that carry `pid` and hold `x`. */
  function ValuePixels(ids: IdGrid, arr: Viz.Grid, pid: int, x: real): set<(int, int)>
    requires SameShape(ids, arr)
  {
    set r, c | 0 <= r < |ids| && 0 <= c < |ids[r]| && ids[r][c] == pid && arr[r][c] == x :: (r, c)
  }

  /** Row `r`'s share of `PidPixels`, over the first `|ir|` columns. */
  function RowPidPixels(ir: seq<int>, pid: int, r: int): set<(int, int)> {
    set c | 0 <= c < |ir| && ir[c] == pid :: (r, c)
  }

  /** Row `r`'s share of `ValuePixels`, over the first `|ir|` columns. */
  function RowValuePixels(ir: seq<int>, ar: seq<real>, pid: int, x: real, r: int): set<(int, int)>
    requires |ir| == |ar|
  {
    set c | 0 <= c < |ir| && ir[c] == pid && ar[c] == x :: (r, c)
  }

  /** One row's mask has one entry per pixel of the row carrying `pid`. */
  lemma {:induction false} MaskedRowLength(ir: seq<int>, ar: seq<real>, pid: int, r: int)
    requires |ir| == |ar|
    ensures |MaskedRow(ir, ar, pid)| == |RowPidPixels(ir, pid, r)|
    decreases |ir|
  {
    if ir != [] {
      var n := |ir| - 1;
      MaskedRowLength(ir[..n], ar[..n], pid, r);
      var prev := RowPidPixels(ir[..n], pid, r);
      var here := if ir[n] == pid then {(r, n)} else {};
      forall p | p in RowPidPixels(ir, pid, r) ensures p in prev + here {
        var c :| 0 <= c < |ir| && ir[c] == pid && p == (r, c);
        if c < n { assert ir[..n][c] == pid; }
      }
      assert RowPidPixels(ir, pid, r) == prev + here;
      assert (r, n) !in prev;
    }
  }

  /** One row's mask holds `x` once per pixel of the row carrying `pid` and holding `x`. */
  lemma {:induction false} MaskedRowMultiplicity(ir: seq<int>, ar: seq<real>, pid: int, x: real, r: int)
    requires |ir| == |ar|
    ensures multiset(MaskedRow(ir, ar, pid))[x] == |RowValuePixels(ir, ar, pid, x, r)|
    decreases |ir|
  {
    if ir != [] {
      var n := |ir| - 1;
      MaskedRowMultiplicity(ir[..n], ar[..n], pid, x, r);
      RowValuePixelsStep(ir, ar, pid, x, r);
      var rest := MaskedRow(ir[..n], ar[..n], pid);
      if ir[n] == pid {
        assert MaskedRow(ir, ar, pid) == rest + [ar[n]];
        assert multiset(rest + [ar[n]]) == multiset(rest) + multiset{ar[n]};
      } else {
        assert MaskedRow(ir, ar, pid) == rest;
      }
    }
  }

  /** Extending a row by one column adds that pixel to the row's share exactly when it is a hit. */
  lemma RowValuePixelsStep(ir: seq<int>, ar: seq<real>, pid: int, x: real, r: int)
    requires |ir| == |ar| && ir != []
    ensures var n := |ir| - 1;
            var prev := RowValuePixels(ir[..n], ar[..n], pid, x, r);
            && (r, n) !in prev
            && RowValuePixels(ir, ar, pid, x, r) == prev + (if ir[n] == pid && ar[n] == x then {(r, n)} else {})
  {
    var n := |ir| - 1;
    var prev := RowValuePixels(ir[..n], ar[..n], pid, x, r);
    var here := if ir[n] == pid && ar[n] == x then {(r, n)} else {};
    forall p | p in RowValuePixels(ir, ar, pid, x, r) ensures p in prev + here {
      var c :| 0 <= c < |ir| && ir[c] == pid && ar[c] == x && p == (r, c);
      if c < n { assert ir[..n][c] == pid && ar[..n][c] == x; }
    }
  }

  /** Rows `r` and below of `PidPixels` split into the rows above `r` and row `r` itself. */
  lemma PidPixelsSplit(ids: IdGrid, pid: int)
    requires ids != []
    ensures var n := |ids| - 1;
            && PidPixels(ids, pid) == PidPixels(ids[..n], pid) + RowPidPixels(ids[n], pid, n)
            && PidPixels(ids[..n], pid) * RowPidPixels(ids[n], pid, n) == {}
  {
    var n := |ids| - 1;
    forall p | p in PidPixels(ids, pid)
      ensures p in PidPixels(ids[..n], pid) + RowPidPixels(ids[n], pid, n)
    {
      var r, c :| 0 <= r < |ids| && 0 <= c < |ids[r]| && ids[r][c] == pid && p == (r, c);
      if r < n { assert ids[..n][r][c] == pid; }
    }
  }

  lemma ValuePixelsSplit(ids: IdGrid, arr: Viz.Grid, pid: int, x: real)
    requires SameShape(ids, arr) && ids != []
    ensures var n := |ids| - 1;
            && SameShape(ids[..n], arr[..n])
            && ValuePixels(ids, arr, pid, x) == ValuePixels(ids[..n], arr[..n], pid, x) + RowValuePixels(ids[n], arr[n], pid, x, n)
            && ValuePixels(ids[..n], arr[..n], pid, x) * RowValuePixels(ids[n], arr[n], pid, x, n) == {}
  {
    var n := |ids| - 1;
    forall p | p in ValuePixels(ids, arr, pid, x)
      ensures p in ValuePixels(ids[..n], arr[..n], pid, x) + RowValuePixels(ids[n], arr[n], pid, x, n)
    {
      var r, c :| 0 <= r < |ids| && 0 <= c < |ids[r]| && ids[r][c] == pid && arr[r][c] == x && p == (r, c);
      if r < n { assert ids[..n][r][c] == pid && arr[..n][r][c] == x; }
    }
  }

  /**
   * The mask holds each value as many times as the pixels carrying `pid`
   * hold it, so the mean, standard deviation and percentiles are taken over
   * exactly those pixels.
   */
  lemma {:induction false} MaskedMultiplicity(ids: IdGrid, arr: Viz.Grid, pid: int, x: real)
    requires SameShape(ids, arr)
    ensures multiset(Masked(ids, arr, pid))[x] == |ValuePixels(ids, arr, pid, x)|
    decreases |ids|
  {
    if ids != [] {
      var n := |ids| - 1;
      MaskedMultiplicity(ids[..n], arr[..n], pid, x);
      MaskedRowMultiplicity(ids[n], arr[n], pid, x, n);
      ValuePixelsSplit(ids, arr, pid, x);
    }
  }

  // ---------------------------------------------------------------------------
  // Rows
  // ---------------------------------------------------------------------------

  /** The column names `f"{name}_p50"`, `_p90`, `_mean`, `_std` one raster contributes, in that order. */
  function StatKeys(name: string): seq<string> {
    [name + "_p50", name + "_p90", name + "_mean", name + "_std"]
  }

  const Suffixes: seq<string> := ["_p50", "_p90", "_mean", "_std"]

  /** The names of the rasters, in dict order. */
  function Names(rasters: seq<(string, Viz.Grid)>): (ns: seq<string>)
    ensures |ns| == |rasters|
    ensures forall q :: 0 <= q < |rasters| ==> ns[q] == rasters[q].0
  {
    seq(|rasters|, q requires 0 <= q < |rasters| => rasters[q].0)
  }

  predicate AllSameShape(ids: IdGrid, rasters: seq<(string, Viz.Grid)>) {
    forall q :: 0 <= q < |rasters| ==> SameShape(ids, rasters[q].1)
  }

  /** The four statistics of one raster over a parcel's values, added to `row`. */
  function WithStats(row: map<string, Cell>, name: string, vals: seq<real>, red: Reducers): (r: map<string, Cell>)
    ensures HasStats(r, name, vals, red)
  {
    StatKeysDistinct(name);
    row[name + "_p50" := Num(red.percentile(vals, 50.0))]
       [name + "_p90" := Num(red.percentile(vals, 90.0))]
       [name + "_mean" := Num(Mean(vals))]
       [name + "_std" := Num(red.std(vals))]
  }

  /** The row of parcel `pid`: its id, then the statistics of each raster in dict order. */
  function ParcelRow(ids: IdGrid, rasters: seq<(string, Viz.Grid)>, pid: int, red: Reducers): (row: map<string, Cell>)
    requires AllSameShape(ids, rasters)
    ensures "id" in row && row["id"] == Int(pid)
    decreases |rasters|
  {
    if rasters == [] then map["id" := Int(pid)]
    else
      var n := |rasters| - 1;
      KeyIsNotId(rasters[n].0, "_p50");
      KeyIsNotId(rasters[n].0, "_p90");
      KeyIsNotId(rasters[n].0, "_mean");
      KeyIsNotId(rasters[n].0, "_std");
      WithStats(ParcelRow(ids, rasters[..n], pid, red), rasters[n].0, Masked(ids, rasters[n].1, pid), red)
  }

  /** The four statistic assignments of the loop body are `WithStats`. */
  lemma StatsUpdates(row: map<string, Cell>, name: string, vals: seq<real>, red: Reducers)
    ensures row[name + "_p50" := Num(red.percentile(vals, 50.0))]
               [name + "_p90" := Num(red.percentile(vals, 90.0))]
               [name + "_mean" := Num(Mean(vals))]
               [name + "_std" := Num(red.std(vals))]
         == WithStats(row, name, vals, red)
  {
  }

  /** The row over one more raster adds that raster's statistics to the row before it. */
  lemma ParcelRowStep(ids: IdGrid, rasters: seq<(string, Viz.Grid)>, q: nat, pid: int, red: Reducers)
    requires q < |rasters| && AllSameShape(ids, rasters[..q]) && SameShape(ids, rasters[q].1)
    ensures AllSameShape(ids, rasters[..q + 1])
    ensures ParcelRow(ids, rasters[..q + 1], pid, red)
         == WithStats(ParcelRow(ids, rasters[..q], pid, red), rasters[q].0, Masked(ids, rasters[q].1, pid), red)
  {
    assert rasters[..q + 1][..q] == rasters[..q];
  }

  /** The table's columns in order: `id`, then the four statistics of each raster. */
  function Columns(rasters: seq<(string, Viz.Grid)>): (cs: seq<string>)
    ensures |cs| == 1 + 4 * |rasters|
    decreases |rasters|
  {
    if rasters == [] then ["id"] else Columns(rasters[..|rasters| - 1]) + StatKeys(rasters[|rasters| - 1].0)
  }

  /** Statistic keys are unambiguous: the name and the statistic can be read back from the key. */
  lemma KeyInjective(n1: string, s1: string, n2: string, s2: string)
    requires s1 in Suffixes && s2 in Suffixes
    requires n1 + s1 == n2 + s2
    ensures n1 == n2 && s1 == s2
  {
    var k1, k2 := n1 + s1, n2 + s2;
    assert k1[|k1| - 1] == s1[|s1| - 1] && k1[|k1| - 2] == s1[|s1| - 2];
    assert k2[|k2| - 1] == s2[|s2| - 1] && k2[|k2| - 2] == s2[|s2| - 2];
    assert s1 == s2;
    assert n1 == k1[..|n1|] && n2 == k2[..|n2|];
  }

  /** No statistic key is `id`. */
  lemma KeyIsNotId(n: string, s: string)
    requires s in Suffixes
    ensures n + s != "id"
  {
  }

  /** Every row has exactly the table's columns. */
  lemma {:induction false} ParcelRowKeys(ids: IdGrid, rasters: seq<(string, Viz.Grid)>, pid: int, red: Reducers)
    requires AllSameShape(ids, rasters)
    ensures ParcelRow(ids, rasters, pid, red).Keys == set c | c in Columns(rasters)
    decreases |rasters|
  {
    if rasters != [] {
      ParcelRowKeys(ids, rasters[..|rasters| - 1], pid, red);
    }
  }

  /** `row` holds the four statistics of `vals` under the keys of `name`. */
  predicate HasStats(row: map<string, Cell>, name: string, vals: seq<real>, red: Reducers) {
    && name + "_p50" in row && row[name + "_p50"] == Num(red.percentile(vals, 50.0))
    && name + "_p90" in row && row[name + "_p90"] == Num(red.percentile(vals, 90.0))
    && name + "_mean" in row && row[name + "_mean"] == Num(Mean(vals))
    && name + "_std" in row && row[name + "_std"] == Num(red.std(vals))
  }

  /** The four keys of one raster are distinct. */
  lemma StatKeysDistinct(name: string)
    ensures forall s1, s2 :: s1 in Suffixes && s2 in Suffixes && s1 != s2 ==> name + s1 != name + s2
  {
    forall s1, s2 | s1 in Suffixes && s2 in Suffixes && s1 != s2 ensures name + s1 != name + s2 {
      if name + s1 == name + s2 { KeyInjective(name, s1, name, s2); }
    }
  }

  /** Adding one raster's statistics keeps those of every other raster. */
  lemma WithStatsKeeps(row: map<string, Cell>, name: string, vals: seq<real>, red: Reducers, other: string, ovals: seq<real>)
    requires name != other && HasStats(row, other, ovals, red)
    ensures HasStats(WithStats(row, name, vals, red), other, ovals, red)
  {
    forall s1, s2 | s1 in Suffixes && s2 in Suffixes ensures other + s1 != name + s2 {
      if other + s1 == name + s2 { KeyInjective(other, s1, name, s2); }
    }
  }

  /**
   * For raster `q` (names being distinct, as dict keys are), the row holds the
   * 50th and 90th percentiles, the arithmetic mean and the standard deviation
   * of that raster over exactly the pixels of the parcel.
   */
  lemma {:induction false} ParcelRowStats(ids: IdGrid, rasters: seq<(string, Viz.Grid)>, pid: int, red: Reducers, q: nat)
    requires AllSameShape(ids, rasters) && DistinctNames(Names(rasters)) && q < |rasters|
    ensures HasStats(ParcelRow(ids, rasters, pid, red), rasters[q].0, Masked(ids, rasters[q].1, pid), red)
    decreases |rasters|
  {
    var n := |rasters| - 1;
    var init := rasters[..n];
    var prev := ParcelRow(ids, init, pid, red);
    assert ParcelRow(ids, rasters, pid, red) == WithStats(prev, rasters[n].0, Masked(ids, rasters[n].1, pid), red);
    if q < n {
      assert Names(init) == Names(rasters)[..n];
      ParcelRowStats(ids, init, pid, red, q);
      assert rasters[q].0 != rasters[n].0 by { assert Names(rasters)[q] != Names(rasters)[n]; }
      WithStatsKeeps(prev, rasters[n].0, Masked(ids, rasters[n].1, pid), red, rasters[q].0, Masked(ids, rasters[q].1, pid));
    }
  }

  // ---------------------------------------------------------------------------
  // The aggregation
  // ---------------------------------------------------------------------------

  /** The table the aggregation returns: one row per selected id, in ascending id order. */
  function ParcelTable(ids: IdGrid, rasters: seq<(string, Viz.Grid)>, red: Reducers): (f: Frame)
    requires AllSameShape(ids, rasters)
    ensures |f.rows| == |SelectedIds(ids)|
  {
    var sel := SelectedIds(ids);
    Frame(Columns(rasters), seq(|sel|, k requires 0 <= k < |sel| => ParcelRow(ids, rasters, sel[k], red)))
  }

  /**
   * The inner loop of `aggregate_to_parcels`: the row of parcel `pid`, built
   * key by key; `None` when a raster's shape differs from the id raster, where
   * the boolean mask raises `IndexError`.
   */
  method BuildRow(ids: IdGrid, rasters: seq<(string, Viz.Grid)>, pid: int, red: Reducers)
    returns (r: Option<map<string, Cell>>)
    ensures r.None? <==> !AllSameShape(ids, rasters)
    ensures r.Some? ==> AllSameShape(ids, rasters) && r.value == ParcelRow(ids, rasters, pid, red)
  {
    var row := map["id" := Int(pid)];
    for q := 0 to |rasters|
      invariant AllSameShape(ids, rasters[..q])
      invariant row == ParcelRow(ids, rasters[..q], pid, red)
    {
      var name, arr := rasters[q].0, rasters[q].1;
      if !SameShape(ids, arr) {
        return None;
      }
      var vals := Masked(ids, arr, pid);
      ghost var before := row;
      row := row[name + "_p50" := Num(red.percentile(vals, 50.0))];
      row := row[name + "_p90" := Num(red.percentile(vals, 90.0))];
      row := row[name + "_mean" := Num(Mean(vals))];
      row := row[name + "_std" := Num(red.std(vals))];
      StatsUpdates(before, name, vals, red);
      ParcelRowStep(ids, rasters, q, pid, red);
    }
    assert rasters[..|rasters|] == rasters;
    r := Some(row);
  }

  /**
   * `aggregate_to_parcels(parcel_ids, rasters)`: one row per selected id,
   * appended in ascending id order, so the final sort by `id` keeps them.
   * With no non-negative id the table has no `id` column and the sort raises
   * `KeyError`; a raster whose shape differs from the id raster makes the
   * boolean mask raise `IndexError`.
   */
  method AggregateToParcels(ids: IdGrid, rasters: seq<(string, Viz.Grid)>, red: Reducers) returns (r: Result<Frame, string>)
    requires DistinctNames(Names(rasters))
    ensures r.Err? <==> SelectedIds(ids) == [] || !AllSameShape(ids, rasters)
    ensures r.Ok? ==> AllSameShape(ids, rasters) && r.value == ParcelTable(ids, rasters, red)
  {
    var sel := SelectedIds(ids);
    var rows: seq<map<string, Cell>> := [];
    for k := 0 to |sel|
      invariant |rows| == k
      invariant k > 0 ==> RowsFor(ids, rasters, red, sel, rows)
    {
      var row := BuildRow(ids, rasters, sel[k], red);
      if row.None? {
        return Err("IndexError: boolean index did not match indexed array");
      }
      AppendRow(ids, rasters, red, sel, rows, row.value);
      rows := rows + [row.value];
    }
    if rows == [] {
      assert sel == [];
      return Err("KeyError: 'id'");
    }
    RowsMakeTable(ids, rasters, red, rows);
    r := Ok(Frame(Columns(rasters), rows));
  }

  /** `rows` are the parcel rows of the first `|rows|` selected ids. */
  predicate RowsFor(ids: IdGrid, rasters: seq<(string, Viz.Grid)>, red: Reducers, sel: seq<int>, rows: seq<map<string, Cell>>) {
    && AllSameShape(ids, rasters)
    && |rows| <= |sel|
    && forall i :: 0 <= i < |rows| ==> rows[i] == ParcelRow(ids, rasters, sel[i], red)
  }

  /** Appending the next id's row keeps `RowsFor`. */
  lemma AppendRow(ids: IdGrid, rasters: seq<(string, Viz.Grid)>, red: Reducers, sel: seq<int>, rows: seq<map<string, Cell>>, row: map<string, Cell>)
    requires |rows| < |sel| && AllSameShape(ids, rasters)
    requires rows != [] ==> RowsFor(ids, rasters, red, sel, rows)
    requires row == ParcelRow(ids, rasters, sel[|rows|], red)
    ensures RowsFor(ids, rasters, red, sel, rows + [row])
  {
  }

  /** One row per selected id, in order, is the parcel table. */
  lemma RowsMakeTable(ids: IdGrid, rasters: seq<(string, Viz.Grid)>, red: Reducers, rows: seq<map<string, Cell>>)
    requires |rows| == |SelectedIds(ids)| && RowsFor(ids, rasters, red, SelectedIds(ids), rows)
    ensures AllSameShape(ids, rasters)
    ensures Frame(Columns(rasters), rows) == ParcelTable(ids, rasters, red)
  {
  }

  /** The column after `id` at offset `4 q + i` is statistic `i` of raster `q`. */
  lemma {:induction false} ColumnsAt(rasters: seq<(string, Viz.Grid)>, q: nat, i: nat)
    requires q < |rasters| && i < 4
    ensures Columns(rasters)[0] == "id"
    ensures Columns(rasters)[1 + 4 * q + i] == rasters[q].0 + Suffixes[i]
    decreases |rasters|
  {
    var n := |rasters| - 1;
    var init := rasters[..n];
    assert Columns(rasters) == Columns(init) + StatKeys(rasters[n].0);
    if q < n {
      ColumnsAt(init, q, i);
    } else if n > 0 {
      ColumnsAt(init, 0, 0);
    }
  }

  /** With distinct raster names the table's column names are distinct. */
  lemma ColumnsDistinct(rasters: seq<(string, Viz.Grid)>)
    requires DistinctNames(Names(rasters))
    ensures DistinctNames(Columns(rasters))
  {
    var cs := Columns(rasters);
    forall a, b | 0 <= a < b < |cs| ensures cs[a] != cs[b] {
      var q2, i2 := (b - 1) / 4, (b - 1) % 4;
      ColumnsAt(rasters, q2, i2);
      if a == 0 {
        KeyIsNotId(rasters[q2].0, Suffixes[i2]);
      } else {
        var q1, i1 := (a - 1) / 4, (a - 1) % 4;
        ColumnsAt(rasters, q1, i1);
        if cs[a] == cs[b] {
          KeyInjective(rasters[q1].0, Suffixes[i1], rasters[q2].0, Suffixes[i2]);
          assert false;
        }
      }
    }
  }

  /** The aggregated table is well formed: distinct columns, and every row has exactly them. */
  lemma ParcelTableWellFormed(ids: IdGrid, rasters: seq<(string, Viz.Grid)>, red: Reducers)
    requires AllSameShape(ids, rasters) && DistinctNames(Names(rasters))
    ensures WellFormed(ParcelTable(ids, rasters, red))
  {
    ColumnsDistinct(rasters);
    var sel := SelectedIds(ids);
    forall k | 0 <= k < |sel| ensures ParcelRow(ids, rasters, sel[k], red).Keys == set c | c in Columns(rasters) {
      ParcelRowKeys(ids, rasters, sel[k], red);
    }
  }

  /** The table's rows are in strictly ascending `id` order, one per selected id. */
  lemma TableAscending(ids: IdGrid, rasters: seq<(string, Viz.Grid)>, red: Reducers, i: nat, j: nat)
    requires AllSameShape(ids, rasters)
    requires i < j < |SelectedIds(ids)|
    ensures var t := ParcelTable(ids, rasters, red);
            "id" in t.rows[i] && "id" in t.rows[j]
            && t.rows[i]["id"].Int? && t.rows[j]["id"].Int? && t.rows[i]["id"].i < t.rows[j]["id"].i
  {
    var sel := SelectedIds(ids);
    assert sel[i] < sel[j];
  }
}
