/** The path formatter: rewrites Windows backslashes to forward slashes. */
module PathFormatter {

  /** What a caller hands to formatPath: a string, or any other JavaScript value. */
  datatype PathValue = Str(s: string) | NotString

  /** The global regular-expression replace of every backslash by a slash. */
  function ToSlashes(s: string): (r: string)
    ensures |r| == |s|
    ensures forall i :: 0 <= i < |s| ==> r[i] == (if s[i] == '\\' then '/' else s[i])
    ensures '\\' !in r
  {
    if s == [] then []
    else [if s[0] == '\\' then '/' else s[0]] + ToSlashes(s[1..])
  }

  /**
   * formatPath(p) on a host whose path separator is `sep`: strings that are non-empty
   * are rewritten only when the separator is not '/'; every other value comes back as it is.
   */
  function FormatPath(sep: char, p: PathValue): (r: PathValue)
    ensures p.NotString? ==> r == p
    ensures p.Str? ==> r.Str? && |r.s| == |p.s|
    ensures sep == '/' ==> r == p
    ensures sep != '/' && p.Str? ==> '\\' !in r.s
    ensures p.Str? ==> forall i :: 0 <= i < |p.s| && p.s[i] != '\\' ==> r.s[i] == p.s[i]
    ensures p.Str? && sep != '/' ==> forall i :: 0 <= i < |p.s| && p.s[i] == '\\' ==> r.s[i] == '/'
  {
    if p.Str? && p.s != "" then
      if sep == '/' then p else Str(ToSlashes(p.s))
    else p
  }

  /** A string without backslashes is a fixed point of the rewrite. */
  lemma {:induction false} ToSlashesFixedPoint(s: string)
    requires '\\' !in s
    ensures ToSlashes(s) == s
  {
    if s != [] {
      assert s[0] != '\\';
      assert '\\' !in s[1..] by {
        forall i | 0 <= i < |s[1..]| ensures s[1..][i] != '\\' {
          assert s[1..][i] == s[i + 1];
        }
      }
      ToSlashesFixedPoint(s[1..]);
    }
  }

  /** Formatting a path twice gives the same result as formatting it once. */
  lemma FormatPathIdempotent(sep: char, p: PathValue)
    ensures FormatPath(sep, FormatPath(sep, p)) == FormatPath(sep, p)
  {
    if p.Str? && p.s != "" && sep != '/' {
      ToSlashesFixedPoint(ToSlashes(p.s));
    }
  }
}
