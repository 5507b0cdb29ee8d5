/**
 * The file store every writer in the system shares, and the helpers of
 * `src/utils/io.py` that act on it: `ensure_dir`, `ensure_parent` and
 * `find_first_existing`.
 */
module Io {
  import opened Wrappers
  import opened PyStr
  import opened Paths
  import opened Images
  import opened Frames

  /** What a file holds: a PNG image, or a pickled classifier with its feature names and training data. */
  datatype Content =
    | Png(image: Image)
    | Model(features: seq<string>, x: seq<seq<real>>, y: seq<Cell>)

  /**
   * The directories `os.makedirs(path)` leaves behind: `path` itself and every
   * ancestor ending just before a separator. The path is taken as text, not
   * normalised: `"a//b"` would record `"a/"` and `"a/b/"` both `"a/b"` and
   * `"a/b/"`. Every path the model passes here is built by `Paths.Join` from
   * plain components, so neither form arises.
   */
  function MakeDirs(path: string): (ds: set<string>)
    ensures path != "" ==> path in ds
    ensures forall d :: d in ds ==> d != "" && |d| <= |path| && d == path[..|d|]
  {
    assert path != "" ==> path[..|path|] == path;
    set i | 0 < i <= |path| && (i == |path| || path[i] == '/') :: path[..i]
  }

  /** The directories `ensure_parent(path)` creates: none for a bare file name. */
  function ParentDirs(path: string): (ds: set<string>)
    ensures Dirname(path) != "" ==> Dirname(path) in ds
    ensures Dirname(path) == "" ==> ds == {}
  {
    var d := Dirname(path);
    if d != "" then MakeDirs(d) else {}
  }

  /** The file system: file contents by path, and the set of existing directories. */
  class FileStore {
    var files: map<string, Content>
    var dirs: set<string>

    constructor (files0: map<string, Content>, dirs0: set<string>)
      ensures files == files0 && dirs == dirs0
    {
      files := files0;
      dirs := dirs0;
    }

    /** `os.path.exists(p)`: true of files and directories alike. */
    predicate Exists(p: string)
      reads this
    {
      p in files || p in dirs
    }

    /** `ensure_dir(path)`: `os.makedirs(path, exist_ok=True)`, then the argument back. */
    method EnsureDir(path: string) returns (r: string)
      requires path != ""
      modifies this
      ensures r == path
      ensures files == old(files)
      ensures dirs == old(dirs) + MakeDirs(path)
      ensures Exists(path)
    {
      dirs := dirs + MakeDirs(path);
      r := path;
    }

    /** `ensure_parent(path)`: creates the directory part of `path` when it has one. */
    method EnsureParent(path: string)
      modifies this
      ensures files == old(files)
      ensures dirs == old(dirs) + ParentDirs(path)
      ensures Dirname(path) != "" ==> Dirname(path) in dirs
    {
      var d := Dirname(path);
      if d != "" {
        dirs := dirs + MakeDirs(d);
      }
    }

    /** Writes `c` at `path`, replacing what was there. */
    method Save(path: string, c: Content)
      modifies this
      ensures files == old(files)[path := c]
      ensures dirs == old(dirs)
    {
      files := files[path := c];
    }

    /** `find_first_existing(paths)`: the first listed path that exists, or None when none does. */
    method FindFirstExisting(paths: seq<string>) returns (r: Option<string>)
      ensures r.None? <==> forall k :: 0 <= k < |paths| ==> !Exists(paths[k])
      ensures r.Some? ==> exists k :: 0 <= k < |paths| && paths[k] == r.value && Exists(paths[k])
                                      && forall j :: 0 <= j < k ==> !Exists(paths[j])
    {
      var k := 0;
      while k < |paths|
        invariant 0 <= k <= |paths|
        invariant forall j :: 0 <= j < k ==> !Exists(paths[j])
      {
        if Exists(paths[k]) {
          return Some(paths[k]);
        }
        k := k + 1;
      }
      return None;
    }
  }
}
