/**
 * `src/api/routes_maps.py`: the `/tiles/{layer}/{z}/{x}/{y}.png` route, which
 * serves a tile from the same store and layout the bulk writer fills, and
 * creates a blank placeholder on demand when the file is missing.
 */
module RoutesMaps {
  import opened Wrappers
  import opened PyStr
  import opened Paths
  import opened Images
  import opened Io
  import opened Viz
  import opened Tiles
  import opened Config

  /** The media type every tile is served with. */
  const PngMediaType: string := "image/png"

  /**
   * The file the route serves: `tiles_dir/layer/z/x/y.png`. Its text starts
   * with `tiles_dir` unless the layer name is absolute; `..` components are
   * kept as text, not resolved.
   */
  function ServedPath(s: Settings, layer: string, z: int, x: int, y: int): (p: string)
    ensures !IsAbsolute(layer) ==> |TilesDir(s)| <= |p| && p[..|TilesDir(s)|] == TilesDir(s)
  {
    TilePath(TilesDir(s), layer, z, x, y)
  }

  /** The label drawn on a placeholder: `f"{layer} {z}/{x}/{y}"`. */
  function Caption(layer: string, z: int, x: int, y: int): (t: string)
    ensures |layer| < |t| && t[..|layer| + 1] == layer + " "
  {
    (layer + " ") + (IntToStr(z) + "/" + IntToStr(x) + "/" + IntToStr(y))
  }

  /** The placeholder written for a missing tile: the default grey, `tile_size` pixels square, with the tile's label. */
  function Placeholder(s: Settings, layer: string, z: int, x: int, y: int): (img: Image)
    requires s.tileSize >= 0
    ensures IsSquare(img, s.tileSize)
    ensures forall i, j :: 0 <= i < s.tileSize && 0 <= j < s.tileSize ==> img.pixels[i][j] == DefaultBlankColor
    ensures img.caption == Caption(layer, z, x, y)
  {
    BlankImage(s.tileSize, DefaultBlankColor, Some(Caption(layer, z, x, y)))
  }

  /**
   * `get_tile`: the served path and its media type. A missing tile is created
   * as a placeholder first; a negative `tile_size` makes PIL raise after the
   * parent directory has been created, and the request fails.
   */
  method GetTile(store: FileStore, s: Settings, layer: string, z: int, x: int, y: int)
    returns (r: Result<(string, string), string>)
    modifies store
    ensures old(store.Exists(ServedPath(s, layer, z, x, y))) ==>
              r == Ok((ServedPath(s, layer, z, x, y), PngMediaType))
              && store.files == old(store.files) && store.dirs == old(store.dirs)
    ensures !old(store.Exists(ServedPath(s, layer, z, x, y))) && s.tileSize >= 0 ==>
              r == Ok((ServedPath(s, layer, z, x, y), PngMediaType))
              && store.files == old(store.files)[ServedPath(s, layer, z, x, y) := Png(Placeholder(s, layer, z, x, y))]
    ensures !old(store.Exists(ServedPath(s, layer, z, x, y))) && s.tileSize < 0 ==>
              r.Err? && store.files == old(store.files)
    ensures !old(store.Exists(ServedPath(s, layer, z, x, y))) ==>
              store.dirs == old(store.dirs) + ParentDirs(ServedPath(s, layer, z, x, y))
    ensures r.Ok? ==> store.Exists(ServedPath(s, layer, z, x, y))
    ensures forall p :: p != ServedPath(s, layer, z, x, y) && p in old(store.files) ==>
              p in store.files && store.files[p] == old(store.files)[p]
  {
    var path := ServedPath(s, layer, z, x, y);
    var served := ServeOrCreate(store, path, s.tileSize, Caption(layer, z, x, y));
    r := if served.Ok? then Ok((path, PngMediaType)) else Err(served.error);
  }

  /**
   * The body of `get_tile` for the file `path`: an existing file is served
   * as it is; a missing one is first created as a `size`-pixel placeholder
   * with `caption`, and a negative size fails once the directory exists.
   */
  method ServeOrCreate(store: FileStore, path: string, size: int, caption: string) returns (r: Result<string, string>)
    modifies store
    ensures old(store.Exists(path)) ==> r == Ok(path) && store.files == old(store.files) && store.dirs == old(store.dirs)
    ensures !old(store.Exists(path)) && size >= 0 ==>
              r == Ok(path) && store.files == old(store.files)[path := Png(BlankImage(size, DefaultBlankColor, Some(caption)))]
    ensures !old(store.Exists(path)) && size < 0 ==> r.Err? && store.files == old(store.files)
    ensures !old(store.Exists(path)) ==> store.dirs == old(store.dirs) + ParentDirs(path)
    ensures r.Ok? ==> store.Exists(path)
  {
    if !store.Exists(path) {
      if size < 0 {
        store.EnsureParent(path);
        return Err("ValueError: Width and height must be >= 0");
      }
      SaveBlankTile(store, path, size, DefaultBlankColor, Some(caption));
    }
    r := Ok(path);
  }

  /** The served layout is the bulk writer's, rooted at the tiles directory: `data_dir/tiles/layer/z/x/y.png`. */
  lemma ServedPathLayout(s: Settings, layer: string, z: int, x: int, y: int)
    requires IsDirName(s.dataDir) && layer != "" && NoSlash(layer)
    ensures ServedPath(s, layer, z, x, y)
            == s.dataDir + "/" + "tiles" + "/" + layer + "/" + IntToStr(z) + "/" + IntToStr(x) + "/" + IntToStr(y) + ".png"
  {
    var root := TilesDir(s);
    assert root == s.dataDir + "/" + "tiles" by { JoinPlainChild(s.dataDir, "tiles"); }
    TilesDirIsDirName(s);
    TilePathLayout(root, layer, z, x, y);
  }

  /** The placeholder's directory is the tile's `z/x` directory, which the route creates before writing. */
  lemma ServedPathParent(s: Settings, layer: string, z: int, x: int, y: int)
    ensures Dirname(ServedPath(s, layer, z, x, y)) == TileDir(TilesDir(s), layer, z, x)
    ensures TileDir(TilesDir(s), layer, z, x) in ParentDirs(ServedPath(s, layer, z, x, y))
  {
    TilePathParent(TilesDir(s), layer, z, x, y);
  }

  /** Distinct tile coordinates are served from distinct files. */
  lemma ServedPathInjective(s: Settings, layer: string, z1: int, x1: int, y1: int, z2: int, x2: int, y2: int)
    requires ServedPath(s, layer, z1, x1, y1) == ServedPath(s, layer, z2, x2, y2)
    ensures z1 == z2 && x1 == x2 && y1 == y2
  {
    TilePathInjective(TilesDir(s), layer, z1, x1, y1, z2, x2, y2);
  }
}
