/**
 * Host paths as strings over the host separator: joining (path.resolve of a directory and
 * a relative name) and the upward search for the nearest directory with a manifest (pkg-dir).
 */
module Paths {
  import opened Common

  /** path.resolve(dir, name) for a relative `name`. */
  function Join(sep: char, dir: string, name: string): (p: string)
    ensures |p| == |dir| + 1 + |name|
    ensures p[..|dir|] == dir && p[|dir|] == sep && p[|dir| + 1..] == name
  {
    dir + [sep] + name
  }

  /** path.resolve(dir, p): an absolute `p` (one starting with the separator) wins. */
  function Resolve(sep: char, dir: string, p: string): (r: string)
    ensures |p| > 0 && p[0] == sep ==> r == p
    ensures !(|p| > 0 && p[0] == sep) ==> r == Join(sep, dir, p)
  {
    if |p| > 0 && p[0] == sep then p else Join(sep, dir, p)
  }

  /** Index of the last separator in `p`, or -1 when there is none. */
  function LastSep(sep: char, p: string): (i: int)
    ensures -1 <= i < |p|
    ensures i >= 0 ==> p[i] == sep
    ensures forall j :: i < j < |p| ==> p[j] != sep
  {
    if p == [] then -1
    else if p[|p| - 1] == sep then |p| - 1
    else LastSep(sep, p[..|p| - 1])
  }

  /** The directory containing `p`, or None when `p` has no separator left. */
  function Parent(sep: char, p: string): (q: Option<string>)
    ensures q.Some? ==> |q.value| < |p| && q.value == p[..|q.value|] && p[|q.value|] == sep
    ensures q.None? <==> sep !in p
  {
    var i := LastSep(sep, p);
    if i < 0 then None else Some(p[..i])
  }

  /** `p` and then each of its ancestors, nearest first: the directories pkg-dir visits. */
  function Ancestors(sep: char, p: string): (a: seq<string>)
    ensures |a| >= 1 && a[0] == p
    ensures forall i :: 0 <= i < |a| ==> |a[i]| <= |p|
    ensures forall i, j :: 0 <= i < j < |a| ==> |a[j]| < |a[i]|
    decreases |p|
  {
    match Parent(sep, p)
    case None => [p]
    case Some(q) =>
      var up := Ancestors(sep, q);
      var a := [p] + up;
      assert forall i :: 0 < i < |a| ==> a[i] == up[i - 1];
      a
  }

  /**
   * pkg-dir: starting at `p` and walking up, the first directory in `dirs` (the
   * directories that hold a manifest), or None when no ancestor has one.
   */
  function PkgDir(dirs: set<string>, sep: char, p: string): (r: Option<string>)
    ensures r.None? <==> forall a :: a in Ancestors(sep, p) ==> a !in dirs
    ensures r.Some? ==> r.value in dirs && r.value in Ancestors(sep, p)
    ensures r.Some? ==> forall a :: a in Ancestors(sep, p) && a in dirs ==> |a| <= |r.value|
    decreases |p|
  {
    if p in dirs then Some(p)
    else
      match Parent(sep, p)
      case None => None
      case Some(q) =>
        assert Ancestors(sep, p) == [p] + Ancestors(sep, q);
        PkgDir(dirs, sep, q)
  }
}
