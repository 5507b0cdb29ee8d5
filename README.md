# satgov-mvp in Dafny

A model of the offline core of satgov-mvp, a minimum viable product that
monitors irrigation and surface water parcel by parcel from satellite
rasters. The Python system:

- computes spectral indices (NDVI, NDWI, MNDWI, EVI) pixel by pixel;
- lays a grid of synthetic parcels over a raster and aggregates each raster's
  statistics per parcel into a table;
- labels parcels `irrigated`, `fallow` or `rainfed` with a weak rule and
  trains (or reuses) a classifier stored on disk;
- scores each parcel's surface-water anomaly as an absolute z-score;
- renders arrays to PNG files, writes XYZ map tiles, and serves them with a
  placeholder for missing tiles;
- answers a chat-bot stub that reads a parcel id or a village name.

One Dafny module stands for each core source file:

- `Indices`: `src/utils/indices.py`
- `Featurize`: `src/features/featurize.py`
- `Irrigate`: `src/models/irrigate_clf.py`
- `Water`: `src/models/water_anomaly.py`
- `Pipeline`: `src/pipeline.py`
- `Tiles`: `src/utils/tiles.py`
- `Viz`: `src/utils/viz.py`
- `GeoUtils`: `src/utils/geoutils.py`
- `Io`: `src/utils/io.py`
- `Config`: `src/config.py`
- `RoutesMaps`: `src/api/routes_maps.py`
- `RoutesBot`: `src/api/routes_bot.py`

The core files lean on a few Python and library behaviours, so small shared
modules model those:

- `Wrappers`: `Option` and `Result`, the latter for raised exceptions.
- `PyStr`: `str(int)`, `int(str)`, `str.isdigit` and `str.strip`, over ASCII.
- `Paths`: `os.path.join` and `os.path.dirname`, as `posixpath` defines them.
- `Stats`: sum, mean and population variance.
- `Frames`: a pandas DataFrame as named columns over rows of cells.
- `Images`: 8-bit RGB images.

State changes on one shared file system: `Io.FileStore` is a class whose
`files` map holds every written file and whose `dirs` set holds every created
directory. The source's writers are methods on it, with `modifies` clauses.

Several source routines work in place, in loops or on the file store, and the
model keeps them as imperative code:

- `synthetic_parcel_ids` fills an `array2<int>` block by block.
- `make_square_grid` scans rows with `while` loops.
- The tile writer and the demo renderer loop over their entries and write to
  the store.
- `aggregate_to_parcels` builds its rows in a loop.
- `find_first_existing` scans its candidates in a loop; `ensure_dir`,
  `ensure_parent` and `save_png` change the store; `train_or_load` and the
  tile route read and write it.

Most methods are proved against a specification function, whose properties
are proved as lemmas. `FindFirstExisting` instead states its result
directly: none exists, or the first existing path. The rest of the core is
pure and is modelled as functions and lemmas.

Library calls that the model cannot see are parameters, taken as given:

- mercantile's tile enumeration and bounds;
- rasterio's warped read;
- NumPy's `nanpercentile`, `nanstd` and `median`;
- matplotlib colour maps.

The water score takes the standard deviation as a parameter `sd` that
satisfies `sd >= 0` and `sd * sd == variance`.

## Model

| member | source | states |
|---|---|---|
| `Indices.SafeQuot` | src/utils/indices.py:4-8 | a zero denominator gives 0 instead of a non-finite value; otherwise the result times the denominator is the numerator |
| `Indices.Zip` | src/utils/indices.py:11-13 | a pixelwise operation keeps the shape, and each pixel is the operation applied to the input pixels |
| `Indices.Zip3` | src/utils/indices.py:16-17 | the same for three bands, as EVI needs |
| `Indices.EviAt` | src/utils/indices.py:16-17 | EVI at a pixel is 0 where `nir + C1 red - C2 blue + L` vanishes; otherwise it times that denominator is `G (nir - red)` |
| `Indices.NormDiffRange` | src/utils/indices.py:11-13 | for non-negative bands the normalised difference lies in [-1, 1] |
| `Indices.NormDiffAntisymmetric` | src/utils/indices.py:20-27 | swapping the two bands negates the normalised difference |
| `Indices.NdviShapeAndRange` | src/utils/indices.py:11-13 | NDVI has the bands' shape, and every value of NDVI over non-negative bands is in [-1, 1] |
| `Indices.NdviAntisymmetric` | src/utils/indices.py:11-13 | `ndvi(red, nir)` is `-ndvi(nir, red)` at every pixel |
| `Indices.NdviZeroDenominator` | src/utils/indices.py:4-13 | where `nir + red == 0` NDVI is 0 |
| `Indices.EviDefaults` | src/utils/indices.py:16-17 | with the default G=2.5, C1=6, C2=7.5, L=1, EVI is `2.5 (nir - red) / (nir + 6 red - 7.5 blue + 1)`, or 0 where that denominator vanishes |
| `Indices.NormDiff` | src/utils/indices.py:11-13 | the normalised difference is 0 where `a + b == 0`; otherwise it times `a + b` is `a - b` |
| `Indices.Ndvi` | src/utils/indices.py:11-13 | NDVI has the bands' shape; each pixel is 0 where `nir + red == 0`, else times `nir + red` it is `nir - red` |
| `Indices.Evi` | src/utils/indices.py:16-17 | EVI has the bands' shape; each pixel is 0 where `nir + C1 red - C2 blue + L == 0`, else times that denominator it is `G (nir - red)` |
| `Indices.Ndwi` | src/utils/indices.py:20-22 | NDWI has the bands' shape; each pixel is 0 where `green + nir == 0`, else times `green + nir` it is `green - nir` |
| `Indices.Mndwi` | src/utils/indices.py:25-27 | MNDWI has the bands' shape; each pixel is 0 where `green + swir1 == 0`, else times `green + swir1` it is `green - swir1` |
| `Indices.NormDiffGridRange` | src/utils/indices.py:11-27 | over non-negative bands every pixel of a normalised difference lies in [-1, 1] |
| `Indices.NdwiShapeAndRange` | src/utils/indices.py:20-22 | NDWI has the bands' shape, and over non-negative bands every value is in [-1, 1] |
| `Indices.MndwiShapeAndRange` | src/utils/indices.py:25-27 | MNDWI has the bands' shape, and over non-negative bands every value is in [-1, 1] |
| `Featurize.AllIds` | src/features/featurize.py:14 | a value is among the flattened entries exactly when some pixel carries it |
| `Featurize.Insert` | src/features/featurize.py:14 | inserting into an ascending list of distinct values keeps it ascending and distinct, and adds exactly that value |
| `Featurize.Unique` | src/features/featurize.py:14 | `np.unique`: strictly ascending, with exactly the values of the input |
| `Featurize.NonNegative` | src/features/featurize.py:15 | `ids[ids >= 0]`: exactly the non-negative values, still ascending |
| `Featurize.SelectedIds` | src/features/featurize.py:14-15 | the parcel ids that get rows are exactly the non-negative ids present in the raster, each once, in ascending order |
| `Featurize.MaskedRow` | src/features/featurize.py:18-21 | the masked values of one raster row are exactly those at pixels carrying the id, and there is at least one when the id occurs |
| `Featurize.MaskedIsExactly` | src/features/featurize.py:18-21 | `arr[parcel_ids == pid]` holds a value exactly when some pixel carrying `pid` holds it |
| `Featurize.MaskedNonEmpty` | src/features/featurize.py:22-26 | a selected id's mask is never empty, so the NaN branch is unreachable |
| `Featurize.Masked` | src/features/featurize.py:18-21 | `arr[parcel_ids == pid]` has exactly one entry per pixel carrying `pid` |
| `Featurize.MaskedRowLength` | src/features/featurize.py:18-21 | one row's mask has one entry per pixel of that row carrying `pid` |
| `Featurize.MaskedRowMultiplicity` | src/features/featurize.py:18-21 | one row's mask holds each value once per pixel of that row carrying `pid` and holding it |
| `Featurize.MaskedMultiplicity` | src/features/featurize.py:18-31 | the mask holds each value exactly as many times as the pixels carrying `pid` hold it, so the statistics weigh every pixel of the parcel once |
| `Featurize.Names` | src/features/featurize.py:20 | the raster names, in dict order |
| `Featurize.Columns` | src/features/featurize.py:19-31 | the table has `1 + 4 n` columns for `n` rasters |
| `Featurize.KeyInjective` | src/features/featurize.py:23-31 | a statistic key `name_p50`, `_p90`, `_mean` or `_std` determines both the raster name and the statistic |
| `Featurize.KeyIsNotId` | src/features/featurize.py:19-31 | no statistic key collides with `id` |
| `Featurize.ParcelRowKeys` | src/features/featurize.py:19-31 | every parcel row has exactly the table's columns |
| `Featurize.ParcelRow` | src/features/featurize.py:19-31 | a row's `id` cell is its parcel id |
| `Featurize.WithStats` | src/features/featurize.py:28-31 | adding a raster's four statistics stores all four, each under its own key |
| `Featurize.WithStatsKeeps` | src/features/featurize.py:28-31 | adding one raster's statistics keeps every other raster's |
| `Featurize.ParcelRowStats` | src/features/featurize.py:20-31 | for each raster, the row holds the 50th and 90th percentiles, the mean and the standard deviation over exactly the parcel's pixels |
| `Featurize.ParcelTable` | src/features/featurize.py:33 | one row per selected id |
| `Featurize.BuildRow` | src/features/featurize.py:18-32 | the inner loop builds the parcel's row; it fails exactly when a raster's shape differs from the id raster |
| `Featurize.AggregateToParcels` | src/features/featurize.py:12-33 | it fails exactly when no non-negative id exists (the sort by `id` raises) or a raster has the wrong shape; otherwise it returns the parcel table |
| `Featurize.RowsMakeTable` | src/features/featurize.py:32-33 | the rows the loop collects, under the table's columns, are the parcel table |
| `Featurize.ColumnsAt` | src/features/featurize.py:19-31 | column 0 is `id`, and column `1 + 4q + i` is statistic `i` of raster `q` |
| `Featurize.ColumnsDistinct` | src/features/featurize.py:19-31 | distinct raster names give distinct column names |
| `Featurize.ParcelTableWellFormed` | src/features/featurize.py:33 | the table is well formed: its columns are distinct, and every row has exactly them |
| `Featurize.TableAscending` | src/features/featurize.py:33 | the rows are in strictly ascending `id` order |
| `Irrigate.WeakLabels` | src/models/irrigate_clf.py:21-26 | one label per row, each `irrigated`, `fallow` or `rainfed` |
| `Irrigate.WeakLabel` | src/models/irrigate_clf.py:23-25 | `irrigated` iff `ndvi_p50 > 0.45` and `ndwi_p50 > 0.1`; `fallow` iff not irrigated and `ndvi_p90 < 0.2`; `rainfed` otherwise (a missing column reads as 0) |
| `Irrigate.WeakLabelMissingColumns` | src/models/irrigate_clf.py:23-24 | without `ndvi_p50` or `ndwi_p50` no row is irrigated; without `ndvi_p90` no row is rainfed; without both NDVI columns every row is fallow |
| `Irrigate.FeaturesAreStatKeys` | src/models/irrigate_clf.py:14-18 | `FEATURES` is the four statistics of `ndvi`, `ndwi` and `vv_vh`, in that order |
| `Irrigate.FeaturesMatchAggregation` | src/models/irrigate_clf.py:14-18 | aggregating those three rasters yields exactly the columns `id` + `FEATURES` |
| `Irrigate.FeatureMatrix` | src/models/irrigate_clf.py:37 | one feature row per frame row |
| `Irrigate.FeatureRow` | src/models/irrigate_clf.py:37 | one value per feature |
| `Irrigate.FeatureMatrixEntries` | src/models/irrigate_clf.py:37 | a feature the frame lacks is filled with 0.0, and a present one is copied from the frame |
| `Irrigate.Labelled` | src/models/irrigate_clf.py:35-36 | the frame trained on is well formed, has a `label` column and keeps the row count |
| `Irrigate.LabelledColumns` | src/models/irrigate_clf.py:35-36 | `label` is appended only when missing, and every other numeric column stays numeric |
| `Irrigate.TrainingLabels` | src/models/irrigate_clf.py:35-40 | one label per row when labelling succeeds |
| `Irrigate.LabelColumn` | src/models/irrigate_clf.py:38 | one label per row |
| `Irrigate.TrainingLabelsFail` | src/models/irrigate_clf.py:39-40 | labelling fails exactly when there is a single class and no `ndvi_p50` column (the fallback raises `KeyError`) |
| `Irrigate.TrainingLabelsKept` | src/models/irrigate_clf.py:38-39 | two or more distinct labels are used unchanged |
| `Irrigate.TrainingLabelsFallback` | src/models/irrigate_clf.py:39-40 | with a single class, a row is `irrigated` iff its `ndvi_p50` exceeds the median, and `rainfed` otherwise |
| `Irrigate.LabelIsNotAFeature` | src/models/irrigate_clf.py:14-18 | `label` is not among `FEATURES` |
| `Irrigate.TrainingData` | src/models/irrigate_clf.py:35-45 | a stored model records exactly `FEATURES`, comes from at least three rows, and its labels hold at least two classes |
| `Irrigate.FeatureMatrixIgnoresLabel` | src/models/irrigate_clf.py:35-37 | adding `label` leaves the feature matrix unchanged |
| `Irrigate.TrainingDataIsLabelled` | src/models/irrigate_clf.py:37-45 | training fails exactly when labelling fails, when the training split has fewer than two rows, or when the final labels hold one class; otherwise it stores the feature matrix and the labels, one row per parcel |
| `Irrigate.TrainSize` | src/models/irrigate_clf.py:41 | the training split of `test_size=0.25` keeps the floor of three quarters of the rows |
| `Irrigate.FewRowsNeverTrain` | src/models/irrigate_clf.py:41-43 | a frame of one or two rows never trains: the split leaves no row, or a single row and so a single class |
| `Irrigate.SingleClass` | src/models/irrigate_clf.py:39 | `len(np.unique(y)) < 2`: all labels agree exactly when there are fewer than two distinct labels |
| `Irrigate.ClassCount` | src/models/irrigate_clf.py:39 | all labels agree iff the set of distinct labels has fewer than two members |
| `Irrigate.ModelPath` | src/models/irrigate_clf.py:31 | the model path starts with the model directory and ends with `irrigate_clf.pkl` |
| `Irrigate.ModelPathNotMade` | src/models/irrigate_clf.py:30-32 | creating the model directory never creates the model file |
| `Irrigate.Stored` | src/models/irrigate_clf.py:45-46 | saving a trained model returns its path and writes only that path; a failure writes nothing |
| `Irrigate.TrainOrLoad` | src/models/irrigate_clf.py:29-46 | the model directory is created (`""` raises); an existing model file is returned untouched; otherwise the trained model is saved at `model_dir/irrigate_clf.pkl`, or the error is returned with the files unchanged |
| `Water.Abs` | src/models/water_anomaly.py:16 | the absolute value: non-negative, and `x` or `-x` |
| `Water.Divisor` | src/models/water_anomaly.py:9 | `std or 1.0` is positive and equals the standard deviation when it is non-zero |
| `Water.ZScore` | src/models/water_anomaly.py:7-10 | one score per value, and each score times the divisor is the value's deviation from the mean |
| `Water.ZScoreCentred` | src/models/water_anomaly.py:7-10 | the z-scores sum to 0 and have mean 0 |
| `Water.ZScoreUnitVariance` | src/models/water_anomaly.py:7-10 | when the standard deviation is non-zero the z-scores have population variance 1 |
| `Water.UnitVariance` | src/models/water_anomaly.py:8-10 | centred values divided by a non-zero standard deviation have variance 1 |
| `Water.NonZeroStdHasValues` | src/models/water_anomaly.py:9 | a non-zero standard deviation needs at least one value |
| `Water.ScaledMeanIsOne` | src/models/water_anomaly.py:9-10 | squared deviations scaled by `1/sd^2` average 1 |
| `Water.SquaredDeviationsScale` | src/models/water_anomaly.py:10 | dividing centred values by `d` multiplies their squared deviations by `1/d^2` |
| `Water.ZScoreConstant` | src/models/water_anomaly.py:7-10 | a column of equal values has z-score 0 everywhere |
| `Water.Anomalies` | src/models/water_anomaly.py:15-18 | one anomaly per row, never negative |
| `Water.AnomalyAt` | src/models/water_anomaly.py:15-18 | row `k`'s anomaly is the absolute z-score of its `mndwi_mean`, or 0.0 when the column is missing |
| `Water.ScoreWaterAnomaly` | src/models/water_anomaly.py:13-20 | same rows; the columns are the input's plus `water_anom` and `water_flag`; a well-formed table stays well formed |
| `Water.ScoreWaterAnomalyRow` | src/models/water_anomaly.py:16-19 | `water_anom` holds the anomaly, `water_flag` is true iff it exceeds 1.5, and every other cell is kept |
| `Water.UniformColumnFlagsNothing` | src/models/water_anomaly.py:13-20 | when every parcel has the same `mndwi_mean`, every anomaly is 0 and nothing is flagged |
| `Stats.SquaredDeviations` | src/models/water_anomaly.py:9 | one squared deviation per value |
| `Stats.MeanConstant` | src/models/water_anomaly.py:8 | the mean of equal values is that value |
| `Stats.MeanBounds` | src/models/water_anomaly.py:8 | the mean lies between any lower and upper bound of the values |
| `Stats.CenteredSumIsZero` | src/models/water_anomaly.py:8-10 | deviations from the mean sum to 0 |
| `Stats.VarianceConstant` | src/models/water_anomaly.py:9 | equal values have variance 0, so the divisor falls back to 1 |
| `Stats.VarianceOfNothing` | src/models/water_anomaly.py:9 | no values have variance 0 |
| `Stats.VarianceNonNegative` | src/models/water_anomaly.py:9 | the variance is never negative, so a standard deviation exists |
| `Pipeline.ParcelIdRange` | src/pipeline.py:20-32 | every id is in [-1, n_x n_y - 1], and it is -1 exactly outside the covered `(h//n_y) n_y` by `(w//n_x) n_x` rectangle |
| `Pipeline.InBlockIff` | src/pipeline.py:25-30 | a pixel carries `j n_x + i` exactly when it lies in block `(j, i)` |
| `Pipeline.FillStep` | src/pipeline.py:30-31 | writing block `pid` takes the raster from `pid` blocks done to `pid + 1` |
| `Pipeline.FillBlock` | src/pipeline.py:30 | `ids[ys:ye, xs:xe] = v` sets exactly that rectangle and keeps every other cell |
| `Pipeline.FillBlockRow` | src/pipeline.py:25-31 | the inner loop writes the `n_x` blocks of block row `j` |
| `Pipeline.SyntheticParcelIds` | src/pipeline.py:20-32 | an `h` by `w` raster whose every pixel holds the parcel id of its block, or -1; all -1 when a count is negative |
| `Pipeline.NoneFilled` | src/pipeline.py:21 | before any block is written, every pixel is -1 |
| `Pipeline.AllFilled` | src/pipeline.py:24-32 | after all `n_y n_x` blocks, every pixel holds its parcel id |
| `Pipeline.RemainderStaysUnassigned` | src/pipeline.py:22-30 | the right and bottom remainder strips stay -1 |
| `Pipeline.TooSmallIsUnassigned` | src/pipeline.py:22 | a raster narrower than `n_x` or shorter than `n_y` gets no parcel |
| `Pipeline.ParcelIsBlock` | src/pipeline.py:26-30 | a pixel carries id `p` exactly when it lies in the rectangle of block `(p // n_x, p % n_x)` |
| `Pipeline.PixelsInBlock` | src/pipeline.py:26-30 | every pixel of parcel `p` lies in its block rectangle |
| `Pipeline.BlockInPixels` | src/pipeline.py:26-30 | every pixel of the block rectangle carries `p` |
| `Pipeline.PixelsOfIsRect` | src/pipeline.py:26-30 | the pixels of parcel `p` are exactly its block rectangle |
| `Pipeline.ParcelArea` | src/pipeline.py:22-30 | every parcel covers exactly `(w // n_x) (h // n_y)` pixels |
| `Pipeline.DemoWrites` | src/pipeline.py:74-76 | one write per render entry, in `render_cfg` order |
| `Pipeline.WrittenSnoc` | src/pipeline.py:74-76 | one more write extends the files and directories of the writes before it |
| `Pipeline.DemoPathIsTilePath` | src/pipeline.py:75 | the demo tile of a layer is the XYZ tile `(0, 0, 0)` of that layer under `tiles_dir` |
| `Pipeline.DemoRenderWrites` | src/pipeline.py:70-76 | the render loop writes the NDVI image on (-0.2, 0.8), then the NDWI image on (-0.5, 0.5), each at its demo path |
| `Pipeline.DemoPathsDistinct` | src/pipeline.py:70-75 | the two demo tiles go to different files |
| `Pipeline.SaveDemoTile` | src/pipeline.py:76 | `save_png` for one entry writes its image at its path and creates its parent directories |
| `Pipeline.RenderEntries` | src/pipeline.py:74-76 | after the loop, the files and directories are those of the entries' writes, performed in order |
| `Pipeline.RenderDemoTiles` | src/pipeline.py:68-79 | the demo tiles, then the `Summary` placeholder at `tiles_dir/reports/summary.png` |
| `Tiles.EffectiveRange` | src/utils/tiles.py:49-58 | missing bounds are the 2nd and 98th percentiles; equal bounds become `[lo, lo + 1]`; the range is never empty |
| `Tiles.TileImage` | src/utils/tiles.py:47-61 | every tile holds bytes only, and is `tile_size` pixels square when the read returns the requested shape |
| `Tiles.TilePixel` | src/utils/tiles.py:59-61 | each pixel is the ramp colour of the clipped, normalised sample |
| `Tiles.TileDirIsDirName` | src/utils/tiles.py:64-65 | the tile directory is never empty and never ends in a separator |
| `Tiles.TileNameIsPlain` | src/utils/tiles.py:64 | `f"{y}.png"` is non-empty and has no separator |
| `Tiles.TilePath` | src/utils/tiles.py:64 | a tile path is its directory, `/` and `{y}.png`, and its text starts with the root unless the layer name is an absolute path |
| `Tiles.TilePathParent` | src/utils/tiles.py:64-65 | `dirname` of a tile path is its non-empty tile directory |
| `Tiles.TilePathLayout` | src/utils/tiles.py:64 | under a clean root and layer the tile is at `root/layer/z/x/y.png` |
| `Tiles.TileDirParent` | src/utils/tiles.py:64 | the tile directory is the zoom directory, `/` and the digits of `x` |
| `Tiles.TilePathLayerInjective` | src/utils/tiles.py:64 | two plain layer names store the same tile at different paths |
| `Tiles.TilePathInjective` | src/utils/tiles.py:64 | within one root and layer, distinct tiles have distinct paths |
| `Tiles.AtZoom` | src/utils/tiles.py:43-44 | one visit per enumerated tile |
| `Tiles.VisitsCount` | src/utils/tiles.py:40-43 | the run visits as many tiles as are enumerated over all zoom levels |
| `Tiles.VisitsFrom` | src/utils/tiles.py:40-43 | every visit is an enumerated tile of a listed zoom |
| `Tiles.VisitsCover` | src/utils/tiles.py:40-43 | every enumerated tile of every listed zoom is visited |
| `Tiles.VisitsSnoc` | src/utils/tiles.py:40-43 | each zoom extends the visits by all of its tiles, in order |
| `Tiles.ReplayConcat` | src/utils/tiles.py:40-66 | writing two runs of tiles one after the other is writing them joined |
| `Tiles.ReplayOutside` | src/utils/tiles.py:64-66 | a path no visit writes keeps its content, or stays absent |
| `Tiles.ReplayHas` | src/utils/tiles.py:64-66 | a visit's image survives when later writes to its path write the same image |
| `Tiles.ReplayDirsHas` | src/utils/tiles.py:65 | every visited tile's directory is created |
| `Tiles.StoredTile` | src/utils/tiles.py:40-66 | after a run, every enumerated tile's path holds that tile's image |
| `Tiles.OtherPathsUnchanged` | src/utils/tiles.py:40-66 | a path that is not a tile path of this root and layer is left as it was |
| `Tiles.TilePlanDirs` | src/utils/tiles.py:64-65 | `ensure_dir` never receives `""` |
| `Tiles.WriteZoom` | src/utils/tiles.py:43-66 | the inner loop creates each tile's directory and writes its image, in enumeration order |
| `Tiles.GenerateXyzTiles` | src/utils/tiles.py:22-66 | the files after the run are the writes of every visit in order, and the directories gain every visited tile's directory |
| `Viz.Nudge` | src/utils/viz.py:19-20 | the upper bound never equals the lower one; a distinct bound is kept; equal bounds become `lo + 1` |
| `Viz.Normalize` | src/utils/viz.py:21-22 | the result is in [0, 1]: 0 at or below `vmin`, 1 at or above `vmax`, and linear in between |
| `Viz.NormalizeMonotone` | src/utils/viz.py:21-22 | normalising never reverses the order of two samples |
| `Viz.Quantize` | src/utils/viz.py:23 | `(c * 255).astype(uint8)` truncates `255 c`, a byte for `c` in [0, 1], with 0 and 1 going to 0 and 255 |
| `Viz.Colorize` | src/utils/viz.py:23 | a ramp that stays in [0, 1] yields byte channels |
| `Viz.RenderGrid` | src/utils/viz.py:21-24 | the image has the array's shape, and each pixel is the colour of its clipped, normalised sample |
| `Viz.FlattenHas` | src/utils/viz.py:16-18 | every sample appears in the flattened array |
| `Viz.FlattenMembers` | src/utils/viz.py:16-18 | every flattened value is some sample |
| `Viz.FlattenEmpty` | src/utils/viz.py:16-18 | an array with no samples has only empty rows |
| `Viz.MinOf` | src/utils/viz.py:16 | `nanmin`: a sample at or below every sample |
| `Viz.MaxOf` | src/utils/viz.py:18 | `nanmax`: a sample at or above every sample |
| `Viz.PngRange` | src/utils/viz.py:15-20 | the range `save_png` uses is never empty |
| `Viz.PngImage` | src/utils/viz.py:14-24 | a ramp that stays in [0, 1] yields an all-byte image |
| `Viz.AutoRangeIsDataRange` | src/utils/viz.py:15-20 | without bounds, an array with two distinct values is rendered on exactly its data range |
| `Viz.AutoRangeStretch` | src/utils/viz.py:15-22 | on that range the minimum maps to 0 and the maximum to 1 |
| `Viz.NormalizeEnds` | src/utils/viz.py:21-22 | `vmin` maps to 0 and `vmax` to 1 |
| `Viz.ConstantArrayIsUniform` | src/utils/viz.py:15-23 | an array of equal values renders as one colour instead of dividing by zero |
| `Viz.SavePng` | src/utils/viz.py:12-25 | the parent directories are created, then the rendered image is written at `path`; nothing else changes |
| `Viz.BlankImage` | src/utils/viz.py:35-38 | `size` pixels square, every pixel the colour, captioned only by a given text |
| `Viz.SaveBlankTile` | src/utils/viz.py:33-39 | the parent directories are created, then the placeholder is written at `path` |
| `GeoUtils.Trunc` | src/utils/geoutils.py:21 | `int()` truncates toward zero |
| `GeoUtils.UtmZone` | src/utils/geoutils.py:21 | the zone is always in 1..60 |
| `GeoUtils.UtmZoneBand` | src/utils/geoutils.py:21 | inside [-180, 180) the zone is the 6-degree band holding the longitude |
| `GeoUtils.UtmZoneWraps` | src/utils/geoutils.py:21 | both 180°E and 180°W are zone 1 |
| `GeoUtils.UtmZoneTruncatesTowardZero` | src/utils/geoutils.py:21 | just west of 180°W is still zone 1, because `int` truncates |
| `GeoUtils.UtmCrsFor` | src/utils/geoutils.py:18-24 | the zone is in 1..60, and south is set iff the latitude is negative |
| `GeoUtils.TotalBounds` | src/utils/geoutils.py:33 | none for no geometries; otherwise the tightest box enclosing every box, each side attained by some box |
| `GeoUtils.BboxXyxy` | src/utils/geoutils.py:32-34 | the total bounds in `(minx, miny, maxx, maxy)` order, enclosing every geometry |
| `GeoUtils.Ceil` | src/utils/geoutils.py:44-46 | the ceiling |
| `GeoUtils.StepsCount` | src/utils/geoutils.py:44-46 | the loop runs for exactly the corners `lo + k s` strictly below `hi` |
| `GeoUtils.Row` | src/utils/geoutils.py:45-51 | one candidate per step of the inner loop |
| `GeoUtils.KeepSound` | src/utils/geoutils.py:48-49 | only candidates that pass the intersection test are kept |
| `GeoUtils.KeepComplete` | src/utils/geoutils.py:48-49 | every candidate that passes the test is kept |
| `GeoUtils.KeepConcat` | src/utils/geoutils.py:44-52 | filtering rows one after the other is filtering them joined |
| `GeoUtils.CandidatesLength` | src/utils/geoutils.py:43-52 | `ny nx` candidates |
| `GeoUtils.CandidateAt` | src/utils/geoutils.py:43-52 | candidate `j nx + i` has its corner at `(minx + i s, miny + j s)` |
| `GeoUtils.CornerInRange` | src/utils/geoutils.py:44-46 | a visited corner lies in `[lo, hi)` |
| `GeoUtils.CandidatesInBox` | src/utils/geoutils.py:43-52 | every candidate has side `s` and its corner in the bounding box |
| `GeoUtils.GridSpecSound` | src/utils/geoutils.py:43-52 | the emitted cells are exactly the candidates that intersect the area, all inside its bounds |
| `GeoUtils.ScanRow` | src/utils/geoutils.py:45-51 | the inner loop keeps the row's intersecting squares, west to east |
| `GeoUtils.MakeSquareGrid` | src/utils/geoutils.py:37-54 | the grid is the intersecting cells in scan order, with ids `0..n-1`; an empty y-range gives no cells, whatever the cell size |
| `Io.MakeDirs` | src/utils/io.py:6 | `makedirs(p)` creates `p` and only non-empty prefixes of `p` |
| `Io.ParentDirs` | src/utils/io.py:10-13 | `ensure_parent` creates the directory part when there is one, and nothing otherwise |
| `Io.FileStore.EnsureDir` | src/utils/io.py:5-7 | the argument comes back, the directory and its ancestors exist, and no file changes |
| `Io.FileStore.EnsureParent` | src/utils/io.py:10-13 | the parent directories exist, and no file changes |
| `Io.FileStore.Save` | src/utils/viz.py:25 | the file at `path` is replaced, and nothing else changes |
| `Io.FileStore.FindFirstExisting` | src/utils/io.py:16-20 | `None` iff no listed path exists; otherwise the first listed path that exists |
| `Config.FromEnv` | src/config.py:5-9 | unset variables take their defaults; a `TILE_SIZE` that `int()` rejects raises, and only then |
| `Config.DefaultSettings` | src/config.py:7-9 | with nothing set, the settings are `data`, `INFO` and 256 |
| `Config.DefaultTileSizeParses` | src/config.py:9 | the default `"256"` parses as 256 |
| `Config.TileSizeFromEnv` | src/config.py:9 | an integer written in `TILE_SIZE` is the tile size |
| `Config.DirNamesDistinct` | src/config.py:11-37 | the seven directory names are distinct plain components |
| `Config.DirsJoinDataDir` | src/config.py:11-37 | each directory is `data_dir` joined with its own name |
| `Config.DirsDistinct` | src/config.py:11-37 | the seven directories are pairwise distinct for every `data_dir` |
| `Config.DirsAreChildren` | src/config.py:11-37 | for a plain `data_dir` each directory is `data_dir/name`, and its `dirname` is `data_dir` |
| `Config.TilesDirIsDirName` | src/config.py:35-37 | the tiles directory can be extended by the tile layout |
| `Config.GetEnv` | src/config.py:7-9 | `os.getenv`: the variable's value when set, even to the empty string, else the default |
| `Config.JoinIsDataSubdir` | src/config.py:11-37 | joining a plain name to `data_dir` gives a directory that starts with `data_dir` and ends with the name, the two not overlapping |
| `Config.AoiDir` | src/config.py:11-13 | `aoi_dir` starts with `data_dir` and ends with `aoi`, the two not overlapping |
| `Config.RawDir` | src/config.py:15-17 | the same for `raw_dir` and `raw` |
| `Config.InterimDir` | src/config.py:19-21 | the same for `interim_dir` and `interim` |
| `Config.FeaturesDir` | src/config.py:23-25 | the same for `features_dir` and `features` |
| `Config.LabelsDir` | src/config.py:27-29 | the same for `labels_dir` and `labels` |
| `Config.ModelsDir` | src/config.py:31-33 | the same for `models_dir` and `models` |
| `Config.TilesDir` | src/config.py:35-37 | the same for `tiles_dir` and `tiles` |
| `RoutesMaps.Caption` | src/api/routes_maps.py:19 | the caption starts with the layer name and a space |
| `RoutesMaps.Placeholder` | src/api/routes_maps.py:19 | `tile_size` pixels square, the default grey everywhere, captioned `"{layer} {z}/{x}/{y}"` |
| `RoutesMaps.ServeOrCreate` | src/api/routes_maps.py:16-20 | an existing file is served unchanged; a missing one is created as a placeholder first; a negative size fails once the directory exists; a success means the file exists |
| `RoutesMaps.GetTile` | src/api/routes_maps.py:14-20 | the same, for the tile path, with media type `image/png`; other files are never touched |
| `RoutesMaps.ServedPathLayout` | src/api/routes_maps.py:16 | a tile is served from `data_dir/tiles/layer/z/x/y.png`, the bulk writer's layout |
| `RoutesMaps.ServedPathParent` | src/api/routes_maps.py:16-19 | the placeholder's directory is the tile's `z/x` directory, which the route creates |
| `RoutesMaps.ServedPathInjective` | src/api/routes_maps.py:16 | distinct coordinates are served from distinct files |
| `RoutesMaps.ServedPath` | src/api/routes_maps.py:16 | the served path's text starts with `tiles_dir` unless the layer name is an absolute path |
| `RoutesBot.Info` | src/api/routes_bot.py:15-18 | three members: `type`, then `id` or `name`, then `report` |
| `RoutesBot.Bot` | src/api/routes_bot.py:10-19 | the reply has four members, and the first is `ok: true` |
| `RoutesBot.BotKind` | src/api/routes_bot.py:13-18 | the reply is about a parcel iff the stripped text is all digits, and about a village otherwise |
| `RoutesBot.BotParcel` | src/api/routes_bot.py:15-16 | `id` is `int(t)`, and `report` is `/report/parcel/` + `t`; without leading zeros, `str(id)` gives `t` back |
| `RoutesBot.BotVillage` | src/api/routes_bot.py:17-18 | `name` is the stripped text, with no surrounding whitespace, and `report` is `/report/village/` + name |
| `RoutesBot.BotIgnoresWhitespace` | src/api/routes_bot.py:13 | surrounding whitespace never changes the reply |
| `RoutesBot.BotNumber` | src/api/routes_bot.py:13-19 | posting `str(n)` gives exactly the parcel reply with id `n` |
| `RoutesBot.BotLeadingZeros` | src/api/routes_bot.py:15-16 | `"007"` gives id 7 but report `/report/parcel/007` |
| `RoutesBot.BotBlank` | src/api/routes_bot.py:11-18 | empty or blank text is the village with the empty name |
| `RoutesBot.BotSigned` | src/api/routes_bot.py:15-18 | `"-5"` is not all digits, so it names a village |
| `PyStr.NatToStr` | src/utils/tiles.py:64 | `str(n)` is all digits, with no leading zero except for `"0"` |
| `PyStr.NatToStrRoundTrip` | src/api/routes_bot.py:16 | `int(str(n)) == n` |
| `PyStr.DigitsRoundTrip` | src/api/routes_bot.py:15-16 | digits without a leading zero are `str` of their value |
| `PyStr.LeadingDigitPositive` | src/api/routes_bot.py:16 | digits led by a non-zero digit have a positive value |
| `PyStr.IntToStr` | src/utils/tiles.py:64 | `str(i)` is non-empty with no separator or surrounding space, and is all digits iff `i >= 0` |
| `PyStr.IntToStrInjective` | src/utils/tiles.py:64 | distinct integers print differently |
| `PyStr.ParseIntRoundTrip` | src/config.py:9 | `int(str(i)) == i` |
| `PyStr.ParseInt` | src/config.py:9 | `int()` rejects blank text; an accepted text ends in a digit; a negative result comes from a leading `-`; a bare digit string always parses, to a non-negative value |
| `PyStr.StripLeft` | src/api/routes_bot.py:13 | `lstrip` removes only leading whitespace, and no whitespace begins the result |
| `PyStr.StripRight` | src/api/routes_bot.py:13 | `rstrip` removes only trailing whitespace, and no whitespace ends the result |
| `PyStr.Strip` | src/api/routes_bot.py:13 | `strip` yields an infix cut off only by whitespace, neither starting nor ending with whitespace |
| `PyStr.StripNoOp` | src/api/routes_bot.py:13 | text without surrounding whitespace is unchanged |
| `PyStr.StripIdempotent` | src/api/routes_bot.py:13 | stripping twice is stripping once |
| `PyStr.StripSkipsLeadingSpace` | src/api/routes_bot.py:13 | a leading whitespace character does not change the stripped text |
| `Paths.Join` | src/config.py:13 | `os.path.join`: an absolute second part wins; otherwise the result starts with the first part; it always ends with the second part |
| `Paths.JoinChild` | src/config.py:13 | joining a plain component to a directory puts one `/` between them |
| `Paths.JoinInjective` | src/config.py:11-37 | two plain children of one directory coincide only when their names do |
| `Paths.JoinPlainChild` | src/utils/tiles.py:64-65 | joining a file name to a directory adds `/`, and `dirname` gives the directory back |
| `Paths.JoinKeepsPrefix` | src/utils/tiles.py:64 | joining a relative name keeps whatever the directory starts with |
| `Paths.JoinParentInjective` | src/utils/tiles.py:64 | two directories that give the same path for the same file name are equal |
| `Paths.Dirname` | src/utils/io.py:11 | `os.path.dirname` is a prefix of the path |
| `Paths.DirnameOfBareName` | src/utils/io.py:11-12 | a bare file name has no directory part, so `ensure_parent` creates nothing |
| `Paths.DirnameOfChild` | src/utils/io.py:11 | `dirname(a + "/" + b) == a` for a plain name `b` |
| `Paths.HeadLength` | src/utils/io.py:11 | the head ends in `/` and the tail has no `/` |
| `Paths.StripTrailingSlashes` | src/utils/io.py:11 | `rstrip('/')` removes only trailing separators |
| `Frames.NumColumn` | src/models/water_anomaly.py:16 | a column has one value per row |
| `Frames.WithColumn` | src/models/water_anomaly.py:16-19 | `df[name] = cells`: same rows; columns gain `name`; each row's `name` cell is set and every other cell kept; well-formedness preserved |

## Left out

- NaN, infinities and floating point: values are reals.
  - `_safe_div` masks non-finite quotients in place; over the reals the only
    such quotient is a division by zero, so the masking becomes a `b == 0`
    test.
  - NaN inputs to `nanpercentile`, `nanmean`, `nanstd`, `nanmin` and `nanmax`
    are not modelled.
  - `np.isfinite(arr).any()` in `save_png` reduces to "the array has samples".
- NumPy broadcasting is not modelled: the index functions require bands of the
  same dimensions (`Indices.SameDims`).
- Integer widths:
  - `synthetic_parcel_ids` fills an `int32` array; ids are unbounded integers,
    since `n_x n_y` is small.
  - `uint8` quantisation is modelled as truncation of `255 c` for channels in
    [0, 1].
- The library calls below are parameters taken as given. The model does not
  look inside them.
  - mercantile's `tiles` and `bounds`;
  - rasterio's warped read;
  - NumPy's `nanpercentile`, `nanstd` and the median;
  - matplotlib colour maps;
  - shapely's intersection test;
  - pyproj.
- Water.ZScore: the standard deviation is a parameter `sd` constrained by `sd * sd == variance`, not computed with a square root.
- The NaN branch of `aggregate_to_parcels` (src/features/featurize.py:22-26) has
  no model of its own: `Featurize.MaskedNonEmpty` proves it unreachable.
- Text drawing is not modelled: PIL's glyphs become the image's `caption`.
- PIL's behaviour for an image of size 0 is not modelled.
- The PNG encoding is not modelled: a file holds the image value.
- `save_features` (src/features/featurize.py:36-39) is not modelled; it writes
  CSV text through pandas.
- CSV reading and writing are not modelled. `TrainOrLoad` receives the frame
  `pd.read_csv` would return.
- The training step is modelled only by when it fails. The gradient-boosting
  fit, the shuffle of the train/test split and the classification report are
  not modelled. The stored `Model` content records the feature names, the
  feature matrix and the labels, which stand for the pickled classifier.
  Training fails when the split leaves no training row, or when the labels
  hold a single class (`TrainingDataIsLabelled`).
- `predict` (src/models/irrigate_clf.py:49-59) is not modelled: it calls the
  classifier's `predict_proba`, which is opaque here.
- `run_offline_pipeline` (src/pipeline.py:35-81) is not modelled as a whole.
  Its steps are preprocessing, index computation, the S1 and DEM features,
  the CSV output and the returned dict, and they live in files outside this
  model. The model covers the demo rendering loop and the summary tile
  (lines 68-79), plus `synthetic_parcel_ids`.
- `read_aoi`, `dissolve_aoi` and the CRS reprojection (`to_crs`) in
  `src/utils/geoutils.py` are not modelled; they are geometry-library calls.
  `make_square_grid` works on the projected bounds and the intersection test
  it is given.
- The directory layout is not checked against file paths. `os.makedirs` on a
  path that is an existing file, and file-system errors other than an empty
  path, are not modelled.
- `str.isdigit`, `str.strip` and `int()` are modelled over ASCII only.
  - Python's `isdigit` also accepts non-ASCII digits such as superscripts, for
    which `int()` raises; the bot would then fail.
  - Python's `int()` also accepts underscores between digits.
- The FastAPI wiring is not modelled: routers, the form decoding, and
  `JSONResponse` and `FileResponse` serialisation. The bot reply is an ordered
  list of members, and the tile route returns the path and the media type.
- RoutesBot.Bot: its own contract states only the reply's length and its `ok` member; the kind, id, name and report are stated by `BotKind`, `BotParcel` and `BotVillage`.
- Irrigate.TrainingData: its own contract states only that a stored model records `FEATURES`, at least three rows and two classes; the feature matrix, the labels and the failure cases are stated by `TrainingDataIsLabelled`.
- Irrigate.TrainOrLoad: the random split can leave a single class in the training half even when the labels hold two (possible from three rows on); the fit then raises, but the model stores the trained data. Only the split of two rows, whose training half is one row, is modelled as a failure.
- GeoUtils.MakeSquareGrid: requires a positive cell size unless the y-range is empty; for `cell_size_m <= 0` on a non-empty y-range, `make_square_grid` (src/utils/geoutils.py:44-52) never advances `y` and loops forever, so there is no result to model.
- Pipeline.SyntheticParcelIds: requires `n_x` and `n_y` non-zero; a zero count makes `w // n_x` or `h // n_y` (src/pipeline.py:20) raise `ZeroDivisionError`, which is not modelled. A negative count is modelled: the raster stays all -1.
- Irrigate.Labelled: its own contract states only well-formedness, the `label` column and the row count; the columns are stated by `LabelledColumns`.
- Irrigate.FeatureMatrix: its own contract states only the row count; the entries are stated by `FeatureMatrixEntries`.
- RoutesMaps.ServedPath: its containment clause is about the path's text only. `..` components are not resolved, so for the layer `..` the path starts with `data_dir/tiles` while the file the route checks and creates is `data_dir/{z}/{x}/{y}.png`, outside `tiles_dir`.
- Tiles.TilePath: the same holds for the tile writer's paths: starting with the root as text does not mean lying under it once `..` is resolved.
