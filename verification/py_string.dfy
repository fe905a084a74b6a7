/**
 Python `str` operations the download plan is built from: `s.split(sep)` with
 an explicit separator and its pieces `s.split(sep)[0]` and `s.split(sep)[-1]`.
 `Find` is the left-to-right search inside `split`, and `Join` (`sep.join`) is
 split's inverse; the script calls neither.
 */
module PyString {
  import opened Wrappers

  /** `sep` occurs in `s` starting at index `i`. */
  predicate OccursAt(s: string, sep: string, i: int) {
    0 <= i && i + |sep| <= |s| && s[i..i + |sep|] == sep
  }

  /** Python's `sep in s`. */
  predicate Contains(s: string, sep: string) {
    exists i | 0 <= i <= |s| :: OccursAt(s, sep, i)
  }

  /** Python's `s.find(sep, start)`, with `None` for its `-1`: the least index
      at or after `start` where `sep` occurs. */
  function Find(s: string, sep: string, start: nat): (r: Option<nat>)
    ensures r.Some? ==> start <= r.value && OccursAt(s, sep, r.value)
    ensures forall j :: start <= j && (r.None? || j < r.value) ==> !OccursAt(s, sep, j)
    decreases |s| - start
  {
    if start + |sep| > |s| then None
    else if s[start..start + |sep|] == sep then Some(start)
    else Find(s, sep, start + 1)
  }

  /** Python's `s.split(sep)` for a non-empty `sep` (Python raises `ValueError`
      on an empty one): the pieces between the non-overlapping occurrences of
      `sep`, found left to right. */
  function Split(s: string, sep: string): (parts: seq<string>)
    requires |sep| > 0
    ensures |parts| >= 1
    decreases |s|
  {
    match Find(s, sep, 0)
    case None => [s]
    case Some(i) => [s[..i]] + Split(s[i + |sep|..], sep)
  }

  /** Python's `sep.join(parts)`. */
  function Join(parts: seq<string>, sep: string): string
  {
    if |parts| == 0 then ""
    else if |parts| == 1 then parts[0]
    else parts[0] + sep + Join(parts[1..], sep)
  }

  /** `s.split(sep)[0]`: the text before the first occurrence of `sep`, or all
      of `s` when there is none. */
  function FirstPiece(s: string, sep: string): (f: string)
    requires |sep| > 0
    ensures f == Split(s, sep)[0]
    ensures |f| <= |s| && f == s[..|f|]
    ensures !Contains(f, sep)
    ensures forall j :: 0 <= j < |f| ==> !OccursAt(s, sep, j)
    ensures Contains(s, sep) <==> OccursAt(s, sep, |f|)
    ensures !Contains(s, sep) ==> f == s
  {
    match Find(s, sep, 0)
    case None =>
      assert Split(s, sep) == [s];
      s
    case Some(i) =>
      assert Split(s, sep)[0] == s[..i];
      assert OccursAt(s, sep, i);
      assert !Contains(s[..i], sep) by {
        forall j | 0 <= j <= i && OccursAt(s[..i], sep, j)
          ensures false
        {
          OccursInPrefix(s, sep, i, j);
        }
      }
      s[..i]
  }

  /** `s.split(sep)[-1]`: the text after the last occurrence of `sep` found by
      the split, or all of `s` when there is none. */
  function LastPiece(s: string, sep: string): string
    requires |sep| > 0
  {
    var parts := Split(s, sep);
    parts[|parts| - 1]
  }

  /** For a one-character separator, an occurrence is an index holding that character. */
  lemma OccursAtChar(s: string, c: char, i: int)
    ensures OccursAt(s, [c], i) <==> 0 <= i < |s| && s[i] == c
  {
    if 0 <= i < |s| && s[i] == c {
      assert s[i..i + 1] == [c];
    }
  }

  /** For a one-character separator, `Contains` is sequence membership. */
  lemma ContainsChar(s: string, c: char)
    ensures Contains(s, [c]) <==> c in s
  {
    if c in s {
      var i :| 0 <= i < |s| && s[i] == c;
      OccursAtChar(s, c, i);
    }
    if Contains(s, [c]) {
      var i :| 0 <= i <= |s| && OccursAt(s, [c], i);
      OccursAtChar(s, c, i);
    }
  }

  /** An occurrence inside a prefix is an occurrence in the whole string. */
  lemma OccursInPrefix(s: string, sep: string, n: nat, j: int)
    requires n <= |s| && OccursAt(s[..n], sep, j)
    ensures OccursAt(s, sep, j)
  {
    assert s[..n][j..j + |sep|] == s[j..j + |sep|];
  }

  /** An occurrence inside a suffix is an occurrence in the whole string, shifted. */
  lemma OccursInSuffix(s: string, sep: string, n: nat, j: int)
    requires n <= |s| && OccursAt(s[n..], sep, j)
    ensures OccursAt(s, sep, n + j)
  {
    assert s[n..][j..j + |sep|] == s[n + j..n + j + |sep|];
  }

  /** An occurrence at or after `k` is an occurrence in the suffix from `k`. */
  lemma OccursShift(s: string, sep: string, k: nat, j: int)
    requires k <= |s|
    ensures k <= j && OccursAt(s, sep, j) ==> OccursAt(s[k..], sep, j - k)
  {
    if k <= j && OccursAt(s, sep, j) {
      assert s[k..][j - k..j - k + |sep|] == s[j..j + |sep|];
    }
  }

  /** A prefix of a string free of `sep` is free of `sep`. */
  lemma PrefixAvoids(s: string, sep: string, n: nat)
    requires n <= |s| && !Contains(s, sep)
    ensures !Contains(s[..n], sep)
  {
    forall j | 0 <= j <= n && OccursAt(s[..n], sep, j)
      ensures false
    {
      OccursInPrefix(s, sep, n, j);
    }
  }

  /** Joining the pieces of a split with the same separator gives back the
      original string. */
  lemma {:induction false} JoinSplit(s: string, sep: string)
    requires |sep| > 0
    ensures Join(Split(s, sep), sep) == s
    decreases |s|
  {
    match Find(s, sep, 0)
    case None =>
    case Some(i) =>
      var rest := s[i + |sep|..];
      var tail := Split(rest, sep);
      JoinSplit(rest, sep);
      assert Split(s, sep) == [s[..i]] + tail;
      assert ([s[..i]] + tail)[1..] == tail;
      assert s == s[..i] + sep + rest by {
        assert s[i..i + |sep|] == sep;
      }
  }

  /** No piece of a split contains the separator. */
  lemma {:induction false} SplitPiecesAvoidSep(s: string, sep: string)
    requires |sep| > 0
    ensures forall k :: 0 <= k < |Split(s, sep)| ==> !Contains(Split(s, sep)[k], sep)
    decreases |s|
  {
    match Find(s, sep, 0)
    case None =>
      assert Split(s, sep) == [s];
    case Some(i) =>
      var rest := s[i + |sep|..];
      SplitPiecesAvoidSep(rest, sep);
      var parts := Split(s, sep);
      assert parts == [s[..i]] + Split(rest, sep);
      forall j | 0 <= j <= i && OccursAt(s[..i], sep, j)
        ensures false
      {
        OccursInPrefix(s, sep, i, j);
      }
      forall k | 0 <= k < |parts|
        ensures !Contains(parts[k], sep)
      {
        if k > 0 {
          assert parts[k] == Split(rest, sep)[k - 1];
        }
      }
  }

  /** A suffix `l` of the text after an occurrence of `sep` at `i`, which the
      occurrence or a later one directly precedes, is preceded by an
      occurrence of `sep` in `s` too. */
  lemma SuffixAfterSep(s: string, sep: string, i: nat, l: string)
    requires i + |sep| <= |s| && OccursAt(s, sep, i)
    requires var rest := s[i + |sep|..];
      && |l| <= |rest| && l == rest[|rest| - |l|..]
      && (!Contains(rest, sep) ==> l == rest)
      && (Contains(rest, sep) ==> |l| + |sep| <= |rest| && OccursAt(rest, sep, |rest| - |l| - |sep|))
    ensures |l| + |sep| <= |s| && l == s[|s| - |l|..]
    ensures Contains(s, sep) && OccursAt(s, sep, |s| - |l| - |sep|)
  {
    var rest := s[i + |sep|..];
    assert Contains(s, sep) by {
      assert OccursAt(s, sep, i);
    }
    assert rest[|rest| - |l|..] == s[|s| - |l|..];
    if Contains(rest, sep) {
      var j := |rest| - |l| - |sep|;
      OccursInSuffix(s, sep, i + |sep|, j);
      assert i + |sep| + j == |s| - |l| - |sep|;
    } else {
      assert l == rest;
      assert |s| - |l| - |sep| == i;
    }
  }

  /** Past the first occurrence of `sep`, the last piece is the last piece of the rest. */
  lemma LastPieceOfRest(s: string, sep: string, i: nat)
    requires |sep| > 0 && Find(s, sep, 0) == Some(i)
    ensures i + |sep| <= |s| && OccursAt(s, sep, i)
    ensures LastPiece(s, sep) == LastPiece(s[i + |sep|..], sep)
  {
    var parts, tail := Split(s, sep), Split(s[i + |sep|..], sep);
    assert |parts| == |tail| + 1;
    assert parts[|parts| - 1] == tail[|tail| - 1];
  }

  /** `s.split(sep)[-1]` is a suffix of `s` free of `sep`. When `s` contains
      `sep` it is preceded by an occurrence of `sep`; otherwise it is `s`. */
  lemma {:induction false} LastPieceSpec(s: string, sep: string)
    requires |sep| > 0
    ensures var l := LastPiece(s, sep);
      && |l| <= |s| && l == s[|s| - |l|..]
      && !Contains(l, sep)
      && (!Contains(s, sep) ==> l == s)
      && (Contains(s, sep) ==> |l| + |sep| <= |s| && OccursAt(s, sep, |s| - |l| - |sep|))
    decreases |s|
  {
    var l := LastPiece(s, sep);
    match Find(s, sep, 0)
    case None =>
      assert Split(s, sep) == [s];
      assert !Contains(s, sep);
    case Some(i) =>
      LastPieceOfRest(s, sep, i);
      LastPieceSpec(s[i + |sep|..], sep);
      SuffixAfterSep(s, sep, i, l);
  }

  /** `Find` returns the first occurrence, and only it. */
  lemma FindFirst(s: string, sep: string, i: int)
    requires OccursAt(s, sep, i)
    requires forall j :: 0 <= j < i ==> !OccursAt(s, sep, j)
    ensures Find(s, sep, 0) == Some(i)
  {
  }

  /** With a one-character separator `c`, the text before the first `c` of
      `x + [c] + y` is `x`, when `x` holds no `c`. */
  lemma FirstPieceBefore(x: string, c: char, y: string)
    requires c !in x
    ensures FirstPiece(x + [c] + y, [c]) == x
  {
    var s := x + [c] + y;
    forall j | 0 <= j < |x|
      ensures !OccursAt(s, [c], j)
    {
      OccursAtChar(s, c, j);
    }
    OccursAtChar(s, c, |x|);
    FindFirst(s, [c], |x|);
    assert Split(s, [c])[0] == s[..|x|];
  }

  /** When `x` holds no `c`, `x + [c] + y` splits into `x` and `y`. */
  lemma SplitAppendLast(x: string, c: char, y: string)
    requires c !in y && Find(x, [c], 0).None?
    ensures Split(x + [c] + y, [c]) == [x, y]
  {
    var s := x + [c] + y;
    ContainsChar(y, c);
    assert Split(y, [c]) == [y];
    forall j | 0 <= j < |x|
      ensures !OccursAt(s, [c], j)
    {
      OccursAtChar(s, c, j);
      OccursAtChar(x, c, j);
    }
    OccursAtChar(s, c, |x|);
    FindFirst(s, [c], |x|);
    assert s[..|x|] == x && s[|x| + 1..] == y;
    assert Split(s, [c]) == [x] + Split(y, [c]);
  }

  /** Splitting on a one-character separator `c` commutes with appending
      `[c] + y` for a `y` free of `c`: the split gains `y` as its last piece. */
  lemma {:induction false} SplitAppend(x: string, c: char, y: string)
    requires c !in y
    ensures Split(x + [c] + y, [c]) == Split(x, [c]) + [y]
    decreases |x|
  {
    var s := x + [c] + y;
    match Find(x, [c], 0)
    case None =>
      SplitAppendLast(x, c, y);
    case Some(i) =>
      forall j | 0 <= j < i
        ensures !OccursAt(s, [c], j)
      {
        OccursAtChar(s, c, j);
        OccursAtChar(x, c, j);
      }
      OccursAtChar(x, c, i);
      OccursAtChar(s, c, i);
      FindFirst(s, [c], i);
      SplitAppend(x[i + 1..], c, y);
      assert s[i + 1..] == x[i + 1..] + [c] + y;
      assert s[..i] == x[..i];
      assert Split(s, [c]) == [x[..i]] + Split(x[i + 1..] + [c] + y, [c]);
  }
}
