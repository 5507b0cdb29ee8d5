/**
 * POSIX path arithmetic as Python's `posixpath` does it: `os.path.join` of two
 * components and `os.path.dirname`.
 */
module Paths {
  import opened PyStr

  predicate IsAbsolute(p: string) {
    |p| > 0 && p[0] == '/'
  }

  /** `os.path.join(a, b)`: an absolute `b` discards `a`; otherwise a separator is added unless `a` is empty or already ends in one. */
  function Join(a: string, b: string): (p: string)
    ensures IsAbsolute(b) ==> p == b
    ensures !IsAbsolute(b) ==> |a| <= |p| && p[..|a|] == a
    ensures |b| <= |p| && p[|p| - |b|..] == b
  {
    if IsAbsolute(b) then b
    else if a == "" || a[|a| - 1] == '/' then a + b
    else a + "/" + b
  }

  /** A join ends where its last component ends. */
  lemma JoinLast(a: string, b: string)
    requires b != ""
    ensures Join(a, b) != "" && Join(a, b)[|Join(a, b)| - 1] == b[|b| - 1]
  {
    var p := Join(a, b);
    assert p[|p| - |b|..] == b;
  }

  /** A directory the model can extend: non-empty and not ending in a separator (it may be absolute). */
  predicate IsDirName(a: string) {
    a != "" && a[|a| - 1] != '/'
  }

  /** A relative path component such as a layer name or a printed integer. */
  predicate IsComponent(b: string) {
    b != "" && b[0] != '/'
  }

  lemma JoinChild(a: string, b: string)
    requires IsDirName(a) && IsComponent(b)
    ensures Join(a, b) == a + "/" + b
  {
  }

  /** Two relative children of the same directory coincide only when their names do. */
  lemma JoinInjective(a: string, b1: string, b2: string)
    requires IsComponent(b1) && IsComponent(b2)
    requires Join(a, b1) == Join(a, b2)
    ensures b1 == b2
  {
    var sep := if a == "" || a[|a| - 1] == '/' then "" else "/";
    assert Join(a, b1) == (a + sep) + b1;
    assert Join(a, b2) == (a + sep) + b2;
    assert b1 == Join(a, b1)[|a + sep|..];
  }

  predicate AllSlashes(s: string) {
    forall k :: 0 <= k < |s| ==> s[k] == '/'
  }

  /** `p.rfind('/') + 1`: the length of the head that `dirname` starts from. */
  function HeadLength(p: string): (i: nat)
    ensures i <= |p|
    ensures i > 0 ==> p[i - 1] == '/'
    ensures NoSlash(p[i..])
    decreases |p|
  {
    if p == [] then 0
    else if p[|p| - 1] == '/' then |p|
    else
      var i := HeadLength(p[..|p| - 1]);
      assert p[i..] == p[..|p| - 1][i..] + [p[|p| - 1]];
      i
  }

  /** `s.rstrip('/')` */
  function StripTrailingSlashes(s: string): (r: string)
    ensures |r| <= |s| && r == s[..|r|]
    ensures r != [] ==> r[|r| - 1] != '/'
    ensures AllSlashes(s[|r|..])
    decreases |s|
  {
    if s != [] && s[|s| - 1] == '/' then StripTrailingSlashes(s[..|s| - 1]) else s
  }

  /**
   * `os.path.dirname(p)`: everything up to the last separator, with trailing
   * separators removed unless the head is made of separators only (the root).
   */
  function Dirname(p: string): (d: string)
    ensures |d| <= |p| && d == p[..|d|]
  {
    var head := p[..HeadLength(p)];
    if head != "" && !AllSlashes(head) then StripTrailingSlashes(head) else head
  }

  /** A bare file name has no directory part. */
  lemma DirnameOfBareName(p: string)
    requires NoSlash(p)
    ensures Dirname(p) == ""
  {
    assert HeadLength(p) == 0;
  }

  /** The directory of `a/b` is `a`, when `b` is a plain file name. */
  lemma {:induction false} DirnameOfChild(a: string, b: string)
    requires IsDirName(a) && NoSlash(b)
    ensures Dirname(a + "/" + b) == a
  {
    var p := a + "/" + b;
    HeadLengthPastName(a + "/", b);
    assert p[..|a| + 1] == a + "/";
    assert !AllSlashes(a + "/") by { assert (a + "/")[|a| - 1] != '/'; }
    assert (a + "/")[..|a|] == a;
  }

  /** Joining a relative name keeps whatever the directory starts with. */
  lemma JoinKeepsPrefix(a: string, b: string, root: string)
    requires !IsAbsolute(b) && |root| <= |a| && a[..|root|] == root
    ensures |root| <= |Join(a, b)| && Join(a, b)[..|root|] == root
  {
    var p := Join(a, b);
    assert p[..|root|] == p[..|a|][..|root|];
  }

  /** Joining a plain file name to a directory: a separator between them, and `dirname` gives the directory back. */
  lemma JoinPlainChild(a: string, b: string)
    requires IsDirName(a) && b != "" && NoSlash(b)
    ensures Join(a, b) == a + "/" + b
    ensures Dirname(Join(a, b)) == a
  {
    JoinChild(a, b);
    DirnameOfChild(a, b);
  }

  /** Two directories that give the same path when the same plain name is joined to them are the same directory. */
  lemma JoinParentInjective(a1: string, a2: string, b: string)
    requires IsDirName(a1) && IsDirName(a2) && b != "" && NoSlash(b)
    requires Join(a1, b) == Join(a2, b)
    ensures a1 == a2
  {
    JoinPlainChild(a1, b);
    JoinPlainChild(a2, b);
  }

  lemma {:induction false} HeadLengthPastName(h: string, b: string)
    requires h != [] && h[|h| - 1] == '/' && NoSlash(b)
    ensures HeadLength(h + b) == |h|
    decreases |b|
  {
    if b != [] {
      assert (h + b)[..|h + b| - 1] == h + b[..|b| - 1];
      HeadLengthPastName(h, b[..|b| - 1]);
    } else {
      assert h + b == h;
    }
  }
}
