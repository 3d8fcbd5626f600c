/**
 * The two POSIX path helpers the download manager relies on:
 * `os.path.splitext` (through `_extract_extension`) and `os.path.basename`.
 */
module Paths {
  import opened Text

  /**
   * `i` is the index at which `os.path.splitext` cuts `p`: it holds the last
   * '.' of `p`, no '/' follows it, and the final path component has some
   * character other than '.' before it (a leading run of dots, as in
   * ".bashrc", does not start an extension).
   */
  ghost predicate ExtensionStart(p: string, i: int) {
    && 0 <= i < |p| && p[i] == '.'
    && (forall j :: i < j < |p| ==> p[j] != '.' && p[j] != '/')
    && (exists k :: 0 <= k < i && p[k] != '.' && forall m :: k <= m < i ==> p[m] != '/')
  }

  predicate HasNonDot(p: string, lo: int, hi: int)
    requires 0 <= lo && hi <= |p|
  {
    exists k :: lo <= k < hi && p[k] != '.'
  }

  /** `os.path.splitext(p)` for POSIX paths: `(root, ext)` with `root + ext == p`. */
  function SplitExt(p: string): (r: (string, string))
    ensures r.0 + r.1 == p
    ensures r.1 != [] ==> ExtensionStart(p, |r.0|)
    ensures r.1 == [] ==> forall i :: !ExtensionStart(p, i)
  {
    var sep := LastIndex(p, '/');
    var dot := LastIndex(p, '.');
    if dot > sep && HasNonDot(p, sep + 1, dot) then
      assert p[..dot] + p[dot..] == p;
      (p[..dot], p[dot..])
    else
      assert forall i :: !ExtensionStart(p, i) by {
        forall i
          ensures !ExtensionStart(p, i)
        {
          ExtensionStartIsLastDot(p, i);
        }
      }
      (p, [])
  }

  /** A cut point of `splitext` is always the last '.', found by the code's test. */
  lemma ExtensionStartIsLastDot(p: string, i: int)
    ensures ExtensionStart(p, i) ==>
              var sep := LastIndex(p, '/'); var dot := LastIndex(p, '.');
              i == dot && dot > sep && HasNonDot(p, sep + 1, dot)
  {
    var sep := LastIndex(p, '/');
    var dot := LastIndex(p, '.');
    if ExtensionStart(p, i) {
      assert dot == i;
      assert sep < i;
      var k :| 0 <= k < i && p[k] != '.' && forall m :: k <= m < i ==> p[m] != '/';
      assert sep >= 0 ==> p[sep] == '/';
      assert sep < k;
      assert HasNonDot(p, sep + 1, dot);
    }
  }

  /**
   * `_extract_extension`: the lower-cased `splitext` suffix of `path`
   * (leading dot included), or "" when `path` has none.
   */
  function ExtractExtension(path: string): (r: string)
    ensures r == [] <==> forall i :: !ExtensionStart(path, i)
    ensures forall i :: ExtensionStart(path, i) ==> r == AsciiLower(path[i..])
  {
    if |path| == 0 then "" else AsciiLower(SplitExt(path).1)
  }

  /** `os.path.basename(p)`: the text after the last '/'. */
  function Basename(p: string): (r: string)
    ensures '/' !in r && |r| <= |p|
  {
    p[LastIndex(p, '/') + 1..]
  }

  /** The base name is the longest '/'-free suffix: all of `p`, or preceded by a '/'. */
  lemma BasenameSuffix(p: string)
    ensures var r := Basename(p);
            && p[|p| - |r|..] == r
            && (|r| < |p| ==> p[|p| - |r| - 1] == '/')
  {
  }
}
