/**
 Clip metadata and the split filter of `get_clips`: of each split's entries,
 keep those whose label is in `range(label_limit)` and truncate to the first.
 Reading the three JSON files is not modelled; their parsed arrays are inputs.
 */
module Dataset {

  /** One clip record of a metadata file; `labelId` is its `label` field. `startTime`, `endTime` and `fps`
      are carried through the pipeline and never inspected. */
  datatype Entry = Entry(
    labelId: int,
    url: string,
    cleanText: string,
    signerId: int,
    startTime: real,
    endTime: real,
    fps: real)

  /** The dictionary from split key to that split's kept entries. */
  type Entries = map<string, seq<Entry>>

  const TrainKey: string := "train_entries"
  const ValKey: string := "val_entries"
  const TestKey: string := "test_entries"

  /** The split keys, in the order the main loop visits them. */
  const SplitKeys: seq<string> := [TrainKey, ValKey, TestKey]

  /** The default `label_limit` of `get_clips`, which the script uses. */
  const DefaultLabelLimit: int := 1

  /** Python's `x in range(n)` for an integer `x`. */
  predicate InRange(x: int, n: int) {
    0 <= x < n
  }

  /** The entry passes the filter of `get_clips`. */
  predicate Kept(e: Entry, limit: int) {
    InRange(e.labelId, limit)
  }

  /** Python's `xs[:n]`: the first `n` elements, counting a negative `n` from the end. */
  function Take<T>(xs: seq<T>, n: int): (r: seq<T>)
    ensures |r| <= |xs| && r == xs[..|r|]
    ensures n >= 0 ==> |r| == if n < |xs| then n else |xs|
  {
    if n >= 0 then (if n < |xs| then xs[..n] else xs)
    else if -n < |xs| then xs[..|xs| + n] else []
  }

  /** The list comprehension `[e for e in xs if e['label'] in range(limit)]`. */
  function Matching(xs: seq<Entry>, limit: int): (r: seq<Entry>)
    ensures |r| <= |xs|
    ensures forall k :: 0 <= k < |r| ==> r[k] in xs && Kept(r[k], limit)
    ensures forall k :: 0 <= k < |xs| && Kept(xs[k], limit) ==> xs[k] in r
    ensures limit <= 0 ==> r == []
  {
    if |xs| == 0 then []
    else (if Kept(xs[0], limit) then [xs[0]] else []) + Matching(xs[1..], limit)
  }

  /** The comprehension keeps entries in input order: filtering a concatenation
      filters each part. */
  lemma {:induction false} MatchingAppend(xs: seq<Entry>, ys: seq<Entry>, limit: int)
    ensures Matching(xs + ys, limit) == Matching(xs, limit) + Matching(ys, limit)
    decreases |xs|
  {
    if |xs| == 0 {
      assert xs + ys == ys;
    } else {
      assert (xs + ys)[0] == xs[0];
      assert (xs + ys)[1..] == xs[1..] + ys;
      MatchingAppend(xs[1..], ys, limit);
    }
  }

  /** A single entry is kept exactly when it passes the filter. */
  lemma MatchingSingle(e: Entry, limit: int)
    ensures Matching([e], limit) == if Kept(e, limit) then [e] else []
  {
  }

  /** One line of `get_clips` (33, 37 or 41): the comprehension truncated by `[:1]`. */
  function KeepFirst(xs: seq<Entry>, limit: int): (r: seq<Entry>)
    ensures |r| <= 1
    ensures forall k :: 0 <= k < |r| ==> r[k] in xs && Kept(r[k], limit)
    ensures limit <= 0 ==> r == []
  {
    Take(Matching(xs, limit), 1)
  }

  /** Index `k` holds the first entry of `xs` that passes the filter. */
  predicate IsFirstKept(xs: seq<Entry>, limit: int, k: int) {
    0 <= k < |xs| && Kept(xs[k], limit)
    && forall j :: 0 <= j < k ==> !Kept(xs[j], limit)
  }

  /** The comprehension is empty exactly when no entry passes the filter, and
      otherwise it starts with the first entry that does. */
  lemma {:induction false} MatchingHead(xs: seq<Entry>, limit: int)
    ensures |Matching(xs, limit)| == 0 <==> forall i :: 0 <= i < |xs| ==> !Kept(xs[i], limit)
    ensures forall k :: IsFirstKept(xs, limit, k) ==> Matching(xs, limit)[0] == xs[k]
  {
    if |xs| > 0 {
      MatchingHead(xs[1..], limit);
      forall i | 0 < i < |xs|
        ensures xs[i] == xs[1..][i - 1]
      {
      }
      forall k | IsFirstKept(xs, limit, k) && k > 0
        ensures IsFirstKept(xs[1..], limit, k - 1)
      {
        forall j | 0 <= j < k - 1
          ensures !Kept(xs[1..][j], limit)
        {
          assert xs[1..][j] == xs[j + 1];
        }
      }
    }
  }

  /** `get_clips` keeps nothing from a split exactly when no entry passes the filter. */
  lemma KeepFirstEmpty(xs: seq<Entry>, limit: int)
    ensures KeepFirst(xs, limit) == [] <==> forall i :: 0 <= i < |xs| ==> !Kept(xs[i], limit)
  {
    MatchingHead(xs, limit);
  }

  /** Otherwise it keeps exactly the first entry, in input order, that passes it. */
  lemma KeepFirstIsFirstMatch(xs: seq<Entry>, limit: int, k: int)
    requires IsFirstKept(xs, limit, k)
    ensures KeepFirst(xs, limit) == [xs[k]]
  {
    MatchingHead(xs, limit);
  }

  /** `get_clips(label_limit)` applied to the three parsed metadata arrays:
      returns the limit and the dictionary of kept entries per split. */
  function GetClips(labelLimit: int, train: seq<Entry>, val: seq<Entry>, test: seq<Entry>)
    : (r: (int, Entries))
    ensures r.0 == labelLimit
    ensures r.1.Keys == {TrainKey, ValKey, TestKey}
    ensures r.1[TrainKey] == KeepFirst(train, labelLimit)
    ensures r.1[ValKey] == KeepFirst(val, labelLimit)
    ensures r.1[TestKey] == KeepFirst(test, labelLimit)
    ensures forall key :: key in r.1 ==> |r.1[key]| <= 1
    ensures forall key, k :: key in r.1 && 0 <= k < |r.1[key]| ==> Kept(r.1[key][k], labelLimit)
  {
    (labelLimit, map[TrainKey := KeepFirst(train, labelLimit),
                     ValKey := KeepFirst(val, labelLimit),
                     TestKey := KeepFirst(test, labelLimit)])
  }
}
