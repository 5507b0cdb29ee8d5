/**
 * `src/models/irrigate_clf.py`: the rule that labels parcels `irrigated`,
 * `fallow` or `rainfed` from their statistics, the feature list, and the
 * cached training step that writes the classifier file.
 */
module Irrigate {
  import opened Wrappers
  import opened Paths
  import opened Frames
  import opened Io
  import Featurize
  import Viz

  /** The columns the classifier is trained on, in order. */
  const Features: seq<string> := [
    "ndvi_p50", "ndvi_p90", "ndvi_mean", "ndvi_std",
    "ndwi_p50", "ndwi_p90", "ndwi_mean", "ndwi_std",
    "vv_vh_p50", "vv_vh_p90", "vv_vh_mean", "vv_vh_std"
  ]

  const Irrigated: string := "irrigated"
  const Fallow: string := "fallow"
  const Rainfed: string := "rainfed"

  /** The three columns the labelling rule reads hold floats wherever they exist. */
  predicate RuleColumns(f: Frame) {
    NumericColumn(f, "ndvi_p50") && NumericColumn(f, "ndwi_p50") && NumericColumn(f, "ndvi_p90")
  }

  // ---------------------------------------------------------------------------
  // weak_labels
  // ---------------------------------------------------------------------------

  /**
   * The weak label of row `k`: `irrigated` when the median NDVI exceeds 0.45
   * and the median NDWI exceeds 0.1, else `fallow` when the 90th-percentile
   * NDVI is below 0.2, else `rainfed`; a missing column reads as 0. Each
   * label holds exactly when its condition does.
   */
  function WeakLabel(f: Frame, k: nat): (l: string)
    requires k < |f.rows| && RuleColumns(f)
    ensures var p50, w50, p90 := NumOr(f, k, "ndvi_p50", 0.0), NumOr(f, k, "ndwi_p50", 0.0), NumOr(f, k, "ndvi_p90", 0.0);
            && (l == Irrigated <==> p50 > 0.45 && w50 > 0.1)
            && (l == Fallow <==> !(p50 > 0.45 && w50 > 0.1) && p90 < 0.2)
            && (l == Rainfed <==> !(p50 > 0.45 && w50 > 0.1) && !(p90 < 0.2))
  {
    var irrigated := NumOr(f, k, "ndvi_p50", 0.0) > 0.45 && NumOr(f, k, "ndwi_p50", 0.0) > 0.1;
    var fallow := NumOr(f, k, "ndvi_p90", 0.0) < 0.2;
    if irrigated then Irrigated else if fallow then Fallow else Rainfed
  }

  /** `weak_labels(df)`: one label per row, on the frame's own index. */
  function WeakLabels(f: Frame): (ls: seq<Cell>)
    requires RuleColumns(f)
    ensures |ls| == |f.rows|
    ensures forall k :: 0 <= k < |ls| ==> ls[k].Text? && ls[k].s in {Irrigated, Fallow, Rainfed}
  {
    seq(|f.rows|, k requires 0 <= k < |f.rows| => Text(WeakLabel(f, k)))
  }

  /** A missing `ndvi_p50` or `ndwi_p50` column means no row is irrigated; a missing `ndvi_p90` means none is rainfed. */
  lemma WeakLabelMissingColumns(f: Frame, k: nat)
    requires k < |f.rows| && RuleColumns(f)
    ensures "ndvi_p50" !in f.columns || "ndwi_p50" !in f.columns ==> WeakLabel(f, k) != Irrigated
    ensures "ndvi_p90" !in f.columns ==> WeakLabel(f, k) != Rainfed
    ensures "ndvi_p50" !in f.columns && "ndvi_p90" !in f.columns ==> WeakLabel(f, k) == Fallow
  {
  }

  // ---------------------------------------------------------------------------
  // Features
  // ---------------------------------------------------------------------------

  /** `FEATURES` is the statistics of `ndvi`, `ndwi` and `vv_vh`, in that order. */
  lemma FeaturesAreStatKeys()
    ensures Features == Featurize.StatKeys("ndvi") + Featurize.StatKeys("ndwi") + Featurize.StatKeys("vv_vh")
  {
    assert "ndvi" + "_p50" == "ndvi_p50";
    assert "ndvi" + "_p90" == "ndvi_p90";
    assert "ndvi" + "_mean" == "ndvi_mean";
    assert "ndvi" + "_std" == "ndvi_std";
    assert "ndwi" + "_p50" == "ndwi_p50";
    assert "ndwi" + "_p90" == "ndwi_p90";
    assert "ndwi" + "_mean" == "ndwi_mean";
    assert "ndwi" + "_std" == "ndwi_std";
    assert "vv_vh" + "_p50" == "vv_vh_p50";
    assert "vv_vh" + "_p90" == "vv_vh_p90";
    assert "vv_vh" + "_mean" == "vv_vh_mean";
    assert "vv_vh" + "_std" == "vv_vh_std";
  }

  /**
   * The aggregation of the three rasters the pipeline passes produces exactly
   * `id` followed by `FEATURES`.
   */
  lemma FeaturesMatchAggregation(ndvi: Viz.Grid, ndwi: Viz.Grid, vvVh: Viz.Grid)
    ensures Featurize.Columns([("ndvi", ndvi), ("ndwi", ndwi), ("vv_vh", vvVh)]) == ["id"] + Features
  {
    var rs := [("ndvi", ndvi), ("ndwi", ndwi), ("vv_vh", vvVh)];
    assert rs[..2][..1] == [("ndvi", ndvi)] && rs[..2] == [("ndvi", ndvi), ("ndwi", ndwi)];
    assert Featurize.Columns([("ndvi", ndvi)]) == ["id"] + Featurize.StatKeys("ndvi");
    FeaturesAreStatKeys();
  }

  /** Every feature column that exists holds floats. */
  predicate FeatureColumns(f: Frame, features: seq<string>) {
    forall j :: 0 <= j < |features| ==> NumericColumn(f, features[j])
  }

  /** `df.reindex(columns=features).fillna(0.0).values`: one row per frame row, one value per feature. */
  function FeatureMatrix(f: Frame, features: seq<string>): (x: seq<seq<real>>)
    requires FeatureColumns(f, features)
    ensures |x| == |f.rows|
  {
    seq(|f.rows|, k requires 0 <= k < |f.rows| => FeatureRow(f, features, k))
  }

  /** Row `k` of the feature matrix. */
  function FeatureRow(f: Frame, features: seq<string>, k: nat): (x: seq<real>)
    requires FeatureColumns(f, features) && k < |f.rows|
    ensures |x| == |features|
  {
    seq(|features|, j requires 0 <= j < |features| => NumOr(f, k, features[j], 0.0))
  }

  /** A feature the frame lacks is a column of zeros; a present one is copied from the frame. */
  lemma FeatureMatrixEntries(f: Frame, features: seq<string>, k: nat, j: nat)
    requires FeatureColumns(f, features) && k < |f.rows| && j < |features|
    ensures features[j] !in f.columns ==> FeatureMatrix(f, features)[k][j] == 0.0
    ensures features[j] in f.columns ==>
              features[j] in f.rows[k] && Num(FeatureMatrix(f, features)[k][j]) == f.rows[k][features[j]]
  {
  }

  // ---------------------------------------------------------------------------
  // train_or_load
  // ---------------------------------------------------------------------------

  /** The distinct labels of `y`: what `np.unique(y)` lists. */
  function Classes(y: seq<Cell>): set<Cell> {
    set i | 0 <= i < |y| :: y[i]
  }

  /** `len(np.unique(y)) < 2`: every label is the same one. */
  predicate SingleClass(y: seq<Cell>): (b: bool)
    ensures b <==> |Classes(y)| < 2
  {
    ClassCount(y);
    forall i, j :: 0 <= i < |y| && 0 <= j < |y| ==> y[i] == y[j]
  }

  /** All labels agree exactly when there are fewer than two distinct ones. */
  lemma ClassCount(y: seq<Cell>)
    ensures (forall i, j :: 0 <= i < |y| && 0 <= j < |y| ==> y[i] == y[j]) <==> |Classes(y)| < 2
  {
    var cs := Classes(y);
    if forall i, j :: 0 <= i < |y| && 0 <= j < |y| ==> y[i] == y[j] {
      if y == [] {
        assert cs == {};
      } else {
        assert cs == {y[0]};
      }
    } else {
      var i, j :| 0 <= i < |y| && 0 <= j < |y| && y[i] != y[j];
      var two := {y[i], y[j]};
      assert |two| == 2;
      assert cs == two + (cs - two);
      assert two * (cs - two) == {};
    }
  }

  /** The frame training reads: the input, with weak labels added when it has no `label` column. */
  function Labelled(f: Frame): (g: Frame)
    requires WellFormed(f) && RuleColumns(f)
    ensures WellFormed(g) && "label" in g.columns && |g.rows| == |f.rows|
  {
    if "label" in f.columns then f else WithColumn(f, "label", WeakLabels(f))
  }

  /** Labelling appends `label` when it is missing and keeps every other column, numeric ones numeric. */
  lemma LabelledColumns(f: Frame)
    requires WellFormed(f) && RuleColumns(f)
    ensures Labelled(f).columns == if "label" in f.columns then f.columns else f.columns + ["label"]
    ensures forall c :: c != "label" && NumericColumn(f, c) ==> NumericColumn(Labelled(f), c)
  {
    if "label" !in f.columns {
      var g := Labelled(f);
      assert forall k, c :: 0 <= k < |g.rows| && c != "label" && c in f.columns ==> c in f.rows[k];
    }
  }

  /**
   * The training labels: the `label` column, unless it holds fewer than two
   * distinct values, in which case each row is `irrigated` when its median
   * NDVI exceeds the column's median and `rainfed` otherwise. That fallback
   * reads `ndvi_p50` by name and raises `KeyError` when the column is absent.
   */
  function TrainingLabels(f: Frame, median: seq<real> -> real): (r: Result<seq<Cell>, string>)
    requires WellFormed(f) && RuleColumns(f)
    ensures r.Ok? ==> |r.value| == |f.rows|
  {
    var g := Labelled(f);
    var y := LabelColumn(g);
    if !SingleClass(y) then Ok(y)
    else if "ndvi_p50" !in f.columns then Err("KeyError: 'ndvi_p50'")
    else
      var med := median(NumColumn(f, "ndvi_p50"));
      Ok(seq(|f.rows|, k requires 0 <= k < |f.rows| =>
        Text(if f.rows[k]["ndvi_p50"].x > med then Irrigated else Rainfed)))
  }

  /** `df["label"].values` */
  function LabelColumn(g: Frame): (y: seq<Cell>)
    requires WellFormed(g) && "label" in g.columns
    ensures |y| == |g.rows|
  {
    seq(|g.rows|, k requires 0 <= k < |g.rows| => g.rows[k]["label"])
  }

  /** The labels fail exactly when there is a single class and no `ndvi_p50` column to fall back on. */
  lemma TrainingLabelsFail(f: Frame, median: seq<real> -> real)
    requires WellFormed(f) && RuleColumns(f)
    ensures TrainingLabels(f, median).Err? <==> SingleClass(LabelColumn(Labelled(f))) && "ndvi_p50" !in f.columns
  {
  }

  /** With two or more distinct labels they are used as they are. */
  lemma TrainingLabelsKept(f: Frame, median: seq<real> -> real)
    requires WellFormed(f) && RuleColumns(f)
    requires !SingleClass(LabelColumn(Labelled(f)))
    ensures TrainingLabels(f, median) == Ok(LabelColumn(Labelled(f)))
  {
  }

  /**
   * After the single-class fallback every row is `irrigated` exactly when its
   * median NDVI exceeds the median, and `rainfed` otherwise.
   */
  lemma TrainingLabelsFallback(f: Frame, median: seq<real> -> real, k: nat)
    requires WellFormed(f) && RuleColumns(f) && "ndvi_p50" in f.columns && k < |f.rows|
    requires SingleClass(LabelColumn(Labelled(f)))
    ensures TrainingLabels(f, median).Ok?
    ensures var med := median(NumColumn(f, "ndvi_p50"));
            && (TrainingLabels(f, median).value[k] == Text(Irrigated) <==> f.rows[k]["ndvi_p50"].x > med)
            && (TrainingLabels(f, median).value[k] == Text(Rainfed) <==> !(f.rows[k]["ndvi_p50"].x > med))
  {
  }

  /** A frame training can read: well formed, with floats in every rule and feature column it has. */
  predicate Trainable(f: Frame) {
    WellFormed(f) && RuleColumns(f) && FeatureColumns(f, Features)
  }

  /** `label` is not a feature, so adding it keeps every feature column as it was. */
  lemma LabelIsNotAFeature()
    ensures "label" !in Features
  {
  }

  /**
   * The size of the training half of `train_test_split(test_size=0.25)`:
   * the test half takes the ceiling of a quarter of the rows, so the
   * training half keeps the floor of three quarters.
   */
  function TrainSize(n: nat): (t: nat)
    ensures 4 * t <= 3 * n < 4 * t + 4
  {
    n - (n + 3) / 4
  }

  /**
   * What training stores: the feature names, the feature matrix of the
   * labelled frame and the training labels. Training fails with the labels'
   * `KeyError`, with `ValueError` when the split leaves no training row, and
   * with `ValueError` when the classifier would be fitted on a single class:
   * the final labels have one class, or the training half has one row.
   */
  function TrainingData(f: Frame, median: seq<real> -> real): (r: Result<Content, string>)
    requires Trainable(f)
    ensures r.Ok? ==> r.value.Model? && r.value.features == Features
    ensures r.Ok? ==> |f.rows| >= 3 && !SingleClass(r.value.y)
  {
    match TrainingLabels(f, median)
    case Err(e) => Err(e)
    case Ok(y) =>
      var nTrain := TrainSize(|f.rows|);
      if nTrain == 0 then
        Err("ValueError: the resulting train set will be empty")
      else if nTrain < 2 || SingleClass(y) then
        Err("ValueError: y contains 1 class, while a minimum of 2 classes are required")
      else
        Ok(Model(Features, FeatureMatrix(f, Features), y))
  }

  /** Adding the `label` column leaves the feature matrix as it was, since `label` is not a feature. */
  lemma FeatureMatrixIgnoresLabel(f: Frame)
    requires Trainable(f)
    ensures FeatureColumns(Labelled(f), Features)
    ensures FeatureMatrix(Labelled(f), Features) == FeatureMatrix(f, Features)
  {
    LabelIsNotAFeature();
    LabelledColumns(f);
    var g := Labelled(f);
    assert FeatureColumns(g, Features) by {
      forall j | 0 <= j < |Features| ensures NumericColumn(g, Features[j]) {
        assert Features[j] != "label";
      }
    }
    forall k | 0 <= k < |f.rows| ensures FeatureMatrix(g, Features)[k] == FeatureMatrix(f, Features)[k] {
      forall j | 0 <= j < |Features| ensures FeatureRow(g, Features, k)[j] == FeatureRow(f, Features, k)[j] {
        FeatureMatrixEntries(f, Features, k, j);
        FeatureMatrixEntries(g, Features, k, j);
      }
    }
  }

  /**
   * Training fails exactly when the labels do, when the training half has
   * fewer than two rows, or when the labels hold a single class; otherwise
   * it stores one feature row per parcel over `FEATURES`, and the labels,
   * which then hold at least two classes.
   */
  lemma TrainingDataIsLabelled(f: Frame, median: seq<real> -> real)
    requires Trainable(f)
    ensures TrainingData(f, median).Err? <==>
              || TrainingLabels(f, median).Err?
              || TrainSize(|f.rows|) < 2
              || SingleClass(TrainingLabels(f, median).value)
    ensures TrainingData(f, median).Ok? ==>
              var m := TrainingData(f, median).value;
              && m.y == TrainingLabels(f, median).value
              && |m.x| == |m.y| == |f.rows|
              && m.x == FeatureMatrix(f, Features)
              && !SingleClass(m.y)
  {
  }

  /** A frame of at most two rows never trains: the training half is empty or a single row. */
  lemma FewRowsNeverTrain(f: Frame, median: seq<real> -> real)
    requires Trainable(f) && |f.rows| <= 2
    ensures TrainingData(f, median).Err?
  {
    assert TrainSize(|f.rows|) < 2;
  }

  /** The classifier file inside the model directory: the directory, then the file name `irrigate_clf.pkl`. */
  function ModelPath(modelDir: string): (p: string)
    ensures |p| >= |modelDir| + |"irrigate_clf.pkl"|
    ensures p[..|modelDir|] == modelDir && p[|p| - |"irrigate_clf.pkl"|..] == "irrigate_clf.pkl"
  {
    Join(modelDir, "irrigate_clf.pkl")
  }

  /** Creating the model directory never creates the model path itself. */
  lemma ModelPathNotMade(modelDir: string)
    ensures ModelPath(modelDir) !in MakeDirs(modelDir)
  {
    assert |ModelPath(modelDir)| > |modelDir|;
  }

  /** Saving the outcome of training at `path`: the path and the new files, or the error with the files unchanged. */
  function Stored(files: map<string, Content>, path: string, data: Result<Content, string>): (out: (Result<string, string>, map<string, Content>))
    ensures out.0.Err? <==> data.Err?
    ensures data.Err? ==> out.1 == files
    ensures data.Ok? ==> out.0 == Ok(path) && path in out.1 && out.1[path] == data.value
    ensures forall p :: p != path ==> (p in out.1 <==> p in files) && (p in files ==> out.1[p] == files[p])
  {
    match data
    case Err(e) => (Err(e), files)
    case Ok(c) => (Ok(path), files[path := c])
  }

  /**
   * `train_or_load(features_csv, model_dir)` with the CSV already read into
   * `f`: the model directory is created (`os.makedirs("")` raises), an
   * existing model file is returned untouched, and otherwise the classifier
   * trained on `FEATURES` and the training labels is written there.
   */
  method TrainOrLoad(store: FileStore, f: Frame, modelDir: string, median: seq<real> -> real)
    returns (r: Result<string, string>)
    requires Trainable(f)
    modifies store
    ensures modelDir == "" ==> r.Err? && store.files == old(store.files) && store.dirs == old(store.dirs)
    ensures modelDir != "" ==> store.dirs == old(store.dirs) + MakeDirs(modelDir)
    ensures modelDir != "" && old(store.Exists(ModelPath(modelDir))) ==>
              r == Ok(ModelPath(modelDir)) && store.files == old(store.files)
    ensures modelDir != "" && !old(store.Exists(ModelPath(modelDir))) ==>
              (r, store.files) == Stored(old(store.files), ModelPath(modelDir), TrainingData(f, median))
  {
    if modelDir == "" {
      return Err("FileNotFoundError: [Errno 2] No such file or directory: ''");
    }
    var _ := store.EnsureDir(modelDir);
    var path := ModelPath(modelDir);
    ModelPathNotMade(modelDir);
    if store.Exists(path) {
      return Ok(path);
    }
    var data := TrainingData(f, median);
    if data.Err? {
      return Err(data.error);
    }
    store.Save(path, data.value);
    r := Ok(path);
  }
}
