/**
 * `src/config.py`: the settings read from the environment once, and the data
 * directories derived from `data_dir` on every access.
 */
module Config {
  import opened Wrappers
  import opened PyStr
  import opened Paths
  import opened Frames

  /** The `Settings` dataclass. */
  datatype Settings = Settings(dataDir: string, logLevel: string, tileSize: int)

  const DefaultDataDir: string := "data"
  const DefaultLogLevel: string := "INFO"
  const DefaultTileSize: string := "256"

  /** `os.getenv(name, default)`: the variable's value when it is set, even to "", else the default. */
  function GetEnv(env: map<string, string>, name: string, default: string): (v: string)
    ensures name in env ==> v == env[name]
    ensures name !in env ==> v == default
  {
    if name in env then env[name] else default
  }

  /**
   * The class-level defaults, evaluated against the process environment: an
   * unset variable takes its default, and a `TILE_SIZE` that `int()` rejects
   * raises `ValueError` while the module is imported.
   */
  function FromEnv(env: map<string, string>): (r: Result<Settings, string>)
    ensures r.Err? <==> ParseInt(GetEnv(env, "TILE_SIZE", DefaultTileSize)).None?
    ensures r.Ok? ==> r.value.dataDir == GetEnv(env, "DATA_DIR", DefaultDataDir)
    ensures r.Ok? ==> r.value.logLevel == GetEnv(env, "LOG_LEVEL", DefaultLogLevel)
    ensures r.Ok? ==> Some(r.value.tileSize) == ParseInt(GetEnv(env, "TILE_SIZE", DefaultTileSize))
  {
    match ParseInt(GetEnv(env, "TILE_SIZE", DefaultTileSize))
    case None => Err("ValueError: invalid literal for int() with base 10")
    case Some(n) => Ok(Settings(GetEnv(env, "DATA_DIR", DefaultDataDir), GetEnv(env, "LOG_LEVEL", DefaultLogLevel), n))
  }

  /** With none of the three variables set, the settings are `data`, `INFO` and 256. */
  lemma DefaultSettings(env: map<string, string>)
    requires "DATA_DIR" !in env && "LOG_LEVEL" !in env && "TILE_SIZE" !in env
    ensures FromEnv(env) == Ok(Settings("data", "INFO", 256))
  {
    DefaultTileSizeParses();
  }

  lemma DefaultTileSizeParses()
    ensures ParseInt(DefaultTileSize) == Some(256)
  {
    assert "256"[..2] == "25" && "25"[..1] == "2" && "2"[..0] == "";
    StripNoOp("256");
  }

  /** An integer written in `TILE_SIZE` is the tile size. */
  lemma TileSizeFromEnv(env: map<string, string>, n: int)
    requires "TILE_SIZE" in env && env["TILE_SIZE"] == IntToStr(n)
    ensures FromEnv(env).Ok? && FromEnv(env).value.tileSize == n
  {
    ParseIntRoundTrip(n);
  }

  /**
   * `p` is the directory `name` inside `data_dir`: it starts with `data_dir`
   * and ends with `name`, the two not overlapping.
   */
  predicate IsDataSubdir(s: Settings, p: string, name: string) {
    && |s.dataDir| + |name| <= |p|
    && p[..|s.dataDir|] == s.dataDir
    && p[|p| - |name|..] == name
  }

  lemma JoinIsDataSubdir(s: Settings, name: string)
    requires name != "" && NoSlash(name)
    ensures IsDataSubdir(s, Join(s.dataDir, name), name)
  {
    assert !IsAbsolute(name);
  }

  /** `Settings.aoi_dir` and the six properties after it: `data_dir` joined with the directory's name, on every access. */
  function AoiDir(s: Settings): (p: string)
    ensures IsDataSubdir(s, p, "aoi")
  {
    JoinIsDataSubdir(s, "aoi");
    Join(s.dataDir, "aoi")
  }

  function RawDir(s: Settings): (p: string)
    ensures IsDataSubdir(s, p, "raw")
  {
    JoinIsDataSubdir(s, "raw");
    Join(s.dataDir, "raw")
  }

  function InterimDir(s: Settings): (p: string)
    ensures IsDataSubdir(s, p, "interim")
  {
    JoinIsDataSubdir(s, "interim");
    Join(s.dataDir, "interim")
  }

  function FeaturesDir(s: Settings): (p: string)
    ensures IsDataSubdir(s, p, "features")
  {
    JoinIsDataSubdir(s, "features");
    Join(s.dataDir, "features")
  }

  function LabelsDir(s: Settings): (p: string)
    ensures IsDataSubdir(s, p, "labels")
  {
    JoinIsDataSubdir(s, "labels");
    Join(s.dataDir, "labels")
  }

  function ModelsDir(s: Settings): (p: string)
    ensures IsDataSubdir(s, p, "models")
  {
    JoinIsDataSubdir(s, "models");
    Join(s.dataDir, "models")
  }

  function TilesDir(s: Settings): (p: string)
    ensures IsDataSubdir(s, p, "tiles")
  {
    JoinIsDataSubdir(s, "tiles");
    Join(s.dataDir, "tiles")
  }


  /** The fixed names of the seven data directories, in declaration order. */
  const DirNames: seq<string> := ["aoi", "raw", "interim", "features", "labels", "models", "tiles"]

  lemma DirNamesDistinct()
    ensures DistinctNames(DirNames)
    ensures forall k :: 0 <= k < |DirNames| ==> IsComponent(DirNames[k]) && NoSlash(DirNames[k])
  {
  }

  /** The seven directory properties, in declaration order. */
  function AllDirs(s: Settings): seq<string> {
    [AoiDir(s), RawDir(s), InterimDir(s), FeaturesDir(s), LabelsDir(s), ModelsDir(s), TilesDir(s)]
  }

  /** Each directory is `data_dir` joined with its own name, whatever `data_dir` is. */
  lemma DirsJoinDataDir(s: Settings)
    ensures |AllDirs(s)| == |DirNames| == 7
    ensures forall k :: 0 <= k < 7 ==> AllDirs(s)[k] == Join(s.dataDir, DirNames[k])
  {
  }

  /** The seven directories are pairwise distinct, for every `data_dir`. */
  lemma DirsDistinct(s: Settings)
    ensures DistinctNames(AllDirs(s))
  {
    DirsJoinDataDir(s);
    DirNamesDistinct();
    forall i, j | 0 <= i < j < 7
      ensures AllDirs(s)[i] != AllDirs(s)[j]
    {
      if AllDirs(s)[i] == AllDirs(s)[j] {
        JoinInjective(s.dataDir, DirNames[i], DirNames[j]);
      }
    }
  }

  /** For a plain `data_dir`, each directory is the child `data_dir/name`, and its parent is `data_dir`. */
  lemma DirsAreChildren(s: Settings)
    requires IsDirName(s.dataDir)
    ensures forall k :: 0 <= k < 7 ==> AllDirs(s)[k] == s.dataDir + "/" + DirNames[k]
    ensures forall k :: 0 <= k < 7 ==> Dirname(AllDirs(s)[k]) == s.dataDir
  {
    DirsJoinDataDir(s);
    DirNamesDistinct();
    forall k | 0 <= k < 7
      ensures AllDirs(s)[k] == s.dataDir + "/" + DirNames[k] && Dirname(AllDirs(s)[k]) == s.dataDir
    {
      JoinPlainChild(s.dataDir, DirNames[k]);
    }
  }

  /** The tiles directory is itself a directory name the tile layout can extend. */
  lemma TilesDirIsDirName(s: Settings)
    ensures IsDirName(TilesDir(s))
  {
    JoinLast(s.dataDir, "tiles");
  }
}
