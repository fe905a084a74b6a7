/**
 `os.path.join` of two components with POSIX semantics: the `os.path`
 operation the model needs (lines 73, 123, 138). The `os.path.exists` of line
 129 belongs to the temporary-file cleanup, which is not modelled.
 `os.path.basename` is modelled only as join's partner; the script never
 calls it.
 */
module PosixPath {
  import PyString

  /** `os.path.join(a, b)`: an absolute `b` replaces `a`; otherwise `b` is
      appended, with a `/` in between unless `a` is empty or already ends in one. */
  function Join(a: string, b: string): (p: string)
  {
    if |b| > 0 && b[0] == '/' then b
    else if |a| == 0 || a[|a| - 1] == '/' then a + b
    else a + "/" + b
  }

  /** `os.path.basename(p)`: the text after the last `/`. */
  function Basename(p: string): string
  {
    PyString.LastPiece(p, "/")
  }

  /** The joined path ends with `b`, and starts with `a` unless `b` is absolute. */
  lemma JoinKeepsParts(a: string, b: string)
    ensures var p := Join(a, b);
      && |b| <= |p| && p[|p| - |b|..] == b
      && ((|b| == 0 || b[0] != '/') ==> |a| <= |p| && p[..|a|] == a)
  {
  }

  /** Joining two relative, slash-free parts puts exactly one `/` between them. */
  lemma JoinRelative(a: string, b: string)
    requires |a| > 0 && a[|a| - 1] != '/'
    requires |b| == 0 || b[0] != '/'
    ensures Join(a, b) == a + "/" + b
  {
  }

  /** A character of `p` at or after where its suffix `x` starts is in `x`. */
  lemma CharInSuffix(p: string, x: string, k: int)
    requires |x| <= |p| && x == p[|p| - |x|..] && 0 <= k < |p|
    ensures |p| - |x| <= k ==> p[k] in x
  {
    if |p| - |x| <= k {
      assert x[k - (|p| - |x|)] == p[k];
    }
  }

  /** The base name of a joined path is its last component, when that
      component holds no `/`. */
  lemma JoinBasename(a: string, b: string)
    requires '/' !in b
    ensures Basename(Join(a, b)) == b
  {
    var p := Join(a, b);
    var l := Basename(p);
    PyString.LastPieceSpec(p, "/");
    PyString.ContainsChar(l, '/');
    PyString.ContainsChar(p, '/');
    JoinKeepsParts(a, b);
    if |p| == |b| {
      assert p == b;
    } else {
      assert p[|p| - |b| - 1] == '/';
      CharInSuffix(p, l, |p| - |b| - 1);
      PyString.OccursAtChar(p, '/', |p| - |l| - 1);
      CharInSuffix(p, b, |p| - |l| - 1);
      assert l == p[|p| - |l|..];
    }
  }
}
