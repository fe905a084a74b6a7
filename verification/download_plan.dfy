/**
 `prepare_download_information`: every kept entry of every split becomes a
 six-field download descriptor whose last field is the clip's file name,
 built from the URL's video id, the label text, the signer and the split.
 */
module DownloadPlan {
  import opened Wrappers
  import opened PyString
  import opened Decimal
  import opened Dataset

  /** The six-element list built per clip: display name, url, start, end,
      frame rate and output file name. */
  datatype Descriptor = Descriptor(
    name: string,
    url: string,
    startTime: real,
    endTime: real,
    fps: real,
    filename: string)

  /** `split.split('_')[0]`: the split's short name, `train` for `train_entries`. */
  function SplitPrefix(key: string): (p: string)
    ensures '_' !in p
    ensures |p| <= |key| && key[..|p|] == p
    ensures '_' in key ==> |p| < |key| && key[|p|] == '_'
    ensures '_' !in key ==> p == key
  {
    var p := FirstPiece(key, "_");
    ContainsChar(p, '_');
    ContainsChar(key, '_');
    OccursAtChar(key, '_', |p|);
    p
  }

  /** The short name of `x_y` is `x` when `x` holds no underscore. */
  lemma SplitPrefixBefore(x: string, y: string)
    requires '_' !in x
    ensures SplitPrefix(x + "_" + y) == x
  {
    FirstPieceBefore(x, '_', y);
  }

  /** The short names of the split keys, in the main loop's order. */
  const ShortNames: seq<string> := ["train", "val", "test"]

  /** `train_entries`, `val_entries`, `test_entries` shorten to `train`, `val`, `test`. */
  lemma SplitPrefixOfKey(i: nat)
    requires i < |SplitKeys|
    ensures SplitPrefix(SplitKeys[i]) == ShortNames[i]
  {
    assert SplitKeys[i] == ShortNames[i] + "_" + "entries";
    SplitPrefixBefore(ShortNames[i], "entries");
  }

  /** `url.split("v=")[-1].split("&")[0]`: the YouTube video id. */
  function VideoId(url: string): string
  {
    FirstPiece(LastPiece(url, "v="), "&")
  }

  /** Where in the URL the video id starts: just after the last `v=`, or at 0. */
  function VideoIdStart(url: string): (start: nat)
  {
    LastPieceSpec(url, "v=");
    |url| - |LastPiece(url, "v=")|
  }

  /** The video id is the run of the URL that follows its last `v=` (or starts
      the URL when there is none) and stops at the next `&` or at the end; it
      contains neither `&` nor `v=`, and no `v=` follows its start. */
  lemma VideoIdSpec(url: string)
    ensures var id, start := VideoId(url), VideoIdStart(url);
      && start + |id| <= |url| && url[start..start + |id|] == id
      && !Contains(id, "&") && !Contains(id, "v=")
      && (start + |id| == |url| || url[start + |id|] == '&')
      && (Contains(url, "v=") ==> start >= 2 && url[start - 2..start] == "v=")
      && (!Contains(url, "v=") ==> start == 0 && id == FirstPiece(url, "&"))
      && !Contains(url[start..], "v=")
  {
    var tail := LastPiece(url, "v=");
    var id := VideoId(url);
    LastPieceSpec(url, "v=");
    PrefixAvoids(tail, "v=", |id|);
    assert url[VideoIdStart(url)..][..|id|] == id;
    OccursAtChar(tail, '&', |id|);
  }

  /** The file name of line 88:
      `<id>_<clean_text>_signer_id:_<signer_id>_<split prefix>.mp4`. */
  function ClipFilename(e: Entry, key: string): string
  {
    VideoId(e.url) + "_" + e.cleanText + "_" + "signer_id:_" + IntToString(e.signerId)
      + "_" + SplitPrefix(key) + ".mp4"
  }

  /** The descriptor of the `i`-th entry of split `key`. */
  function Describe(e: Entry, i: nat, key: string): Descriptor
  {
    Descriptor("Video: " + IntToString(i), e.url, e.startTime, e.endTime, e.fps, ClipFilename(e, key))
  }

  /** The list comprehension of lines 83-89 for one split. */
  function PlanSplit(key: string, vals: seq<Entry>): seq<Descriptor>
  {
    seq(|vals|, i requires 0 <= i < |vals| => Describe(vals[i], i, key))
  }

  /** `prepare_download_information(entries)`: same split keys, and per split
      one descriptor per entry, in order, passing url, times and frame rate
      through and numbering the display names from 0. */
  function PrepareDownloadInformation(entries: Entries): (result: map<string, seq<Descriptor>>)
    ensures result.Keys == entries.Keys
    ensures forall key :: key in entries ==> |result[key]| == |entries[key]|
    ensures forall key, i :: key in entries && 0 <= i < |entries[key]| ==>
      var d, e := result[key][i], entries[key][i];
      && d.name == "Video: " + IntToString(i)
      && d.url == e.url && d.startTime == e.startTime && d.endTime == e.endTime && d.fps == e.fps
      && d.filename == ClipFilename(e, key)
  {
    map key | key in entries :: PlanSplit(key, entries[key])
  }

  /** Within a split the display names are pairwise distinct. */
  lemma DisplayNamesDistinct(entries: Entries, key: string, i: nat, j: nat)
    requires key in entries && i < |entries[key]| && j < |entries[key]| && i != j
    ensures PrepareDownloadInformation(entries)[key][i].name
         != PrepareDownloadInformation(entries)[key][j].name
  {
    var r: map<string, seq<Descriptor>> := PrepareDownloadInformation(entries);
    assert r[key][i].name[7..] == IntToString(i);
    assert r[key][j].name[7..] == IntToString(j);
    if r[key][i].name == r[key][j].name {
      IntToStringInjective(i, j);
    }
  }

  /** Printed integers hold no underscore. */
  lemma NoUnderscoreInInt(n: int)
    ensures '_' !in IntToString(n)
  {
    var s := IntToString(n);
    forall k | 0 <= k < |s|
      ensures s[k] != '_'
    {
      if n >= 0 || k > 0 {
        assert IsDigit(s[k]) by {
          if n < 0 {
            assert s[k] == s[1..][k - 1];
          }
        }
      }
    }
  }

  /** Appending two underscore-free pieces adds them as the last two pieces
      of the split on `_`. */
  lemma SplitLastTwo(head: string, a: string, b: string)
    requires '_' !in a && '_' !in b
    ensures Split(head + "_" + a + "_" + b, "_") == Split(head, "_") + [a, b]
  {
    SplitAppend(head + "_" + a, '_', b);
    SplitAppend(head, '_', a);
  }

  /** Regrouping a concatenation of five strings. */
  lemma Regroup(a: string, b: string, c: string, d: string, x: string)
    ensures a + b + c + d + x == a + (b + c + d) + x
  {
  }

  /** The file name, cut before its last two underscores. */
  lemma FilenameShape(e: Entry, key: string)
    ensures ClipFilename(e, key)
         == (VideoId(e.url) + "_" + e.cleanText + "_signer_id:") + "_" + IntToString(e.signerId)
            + "_" + (SplitPrefix(key) + ".mp4")
  {
    var front := VideoId(e.url) + "_" + e.cleanText;
    var sid, p := IntToString(e.signerId), SplitPrefix(key);
    assert "_" + "signer_id:_" == "_signer_id:" + "_";
    calc {
      ClipFilename(e, key);
      front + "_" + "signer_id:_" + sid + "_" + p + ".mp4";
      { Regroup(front, "_", "signer_id:_", sid, "_"); }
      front + ("_" + "signer_id:_" + sid) + "_" + p + ".mp4";
      { Regroup(front, "_signer_id:", "_", sid, "_"); }
      front + "_signer_id:" + "_" + sid + "_" + p + ".mp4";
    }
  }

  /** The file name ends in `.mp4`, and, however many underscores the video id
      and the label text hold, its last two `_`-separated pieces give back the
      signer id and the split's short name. */
  lemma FilenameTail(e: Entry, key: string)
    ensures var f := ClipFilename(e, key);
      && |f| >= 4 && f[|f| - 4..] == ".mp4"
      && var pieces := Split(f, "_");
         && |pieces| >= 3
         && pieces[|pieces| - 1] == SplitPrefix(key) + ".mp4"
         && ParseInt(pieces[|pieces| - 2]) == Some(e.signerId)
  {
    var head := VideoId(e.url) + "_" + e.cleanText + "_signer_id:";
    var sid := IntToString(e.signerId);
    var last := SplitPrefix(key) + ".mp4";
    FilenameShape(e, key);
    NoUnderscoreInInt(e.signerId);
    assert '_' !in last;
    SplitLastTwo(head, sid, last);
    ParseIntToString(e.signerId);
  }

  /** `v=` occurs at `j` when `s` holds `v` at `j` and `=` at `j + 1`. */
  lemma OccursVEquals(s: string, j: int)
    ensures OccursAt(s, "v=", j) <==> 0 <= j && j + 2 <= |s| && s[j] == 'v' && s[j + 1] == '='
  {
    if 0 <= j && j + 2 <= |s| {
      assert s[j..j + 2] == [s[j], s[j + 1]];
    }
  }

  /** A string with no `v` has no `v=`. */
  lemma NoVNoQuery(t: string)
    requires 'v' !in t
    ensures !Contains(t, "v=")
  {
    forall i | 0 <= i <= |t|
      ensures !OccursAt(t, "v=", i)
    {
      OccursVEquals(t, i);
    }
  }

  /** The text after the last `v=` of `<x>v=<t>` is `<t>` when `<t>` holds no `v=`. */
  lemma LastPieceAfterQuery(x: string, t: string)
    requires !Contains(t, "v=")
    ensures LastPiece(x + "v=" + t, "v=") == t
  {
    var url := x + "v=" + t;
    var tail := LastPiece(url, "v=");
    LastPieceSpec(url, "v=");
    var start := |url| - |tail|;
    assert url[|x|] == 'v' && url[|x| + 1] == '=';
    OccursVEquals(url, |x|);
    assert Contains(url, "v=");
    assert start >= |x| + 2 by {
      OccursShift(url, "v=", start, |x|);
      OccursVEquals(url, start - 2);
    }
    assert start <= |x| + 2 by {
      OccursVEquals(url, start - 2);
      assert url[|x| + 2..] == t;
      OccursShift(url, "v=", |x| + 2, start - 2);
    }
    assert tail == url[|x| + 2..];
  }

  /** For a watch URL `<x>v=<id>&<y>` whose tail has no further `v=`, the video
      id is `<id>`, whatever `<x>` holds. */
  lemma VideoIdOfWatchUrl(x: string, id: string, y: string)
    requires '&' !in id
    requires !Contains(id + "&" + y, "v=")
    ensures VideoId(x + "v=" + id + "&" + y) == id
  {
    LastPieceAfterQuery(x, id + "&" + y);
    assert x + "v=" + id + "&" + y == x + "v=" + (id + "&" + y);
    FirstPieceBefore(id, '&', y);
  }

  /** The video id of `...v=abc123&t=5` is `abc123`. */
  lemma ExampleVideoId(x: string)
    ensures VideoId(x + "v=abc123&t=5") == "abc123"
  {
    assert "abc123" + "&" + "t=5" == "abc123&t=5";
    NoVNoQuery("abc123&t=5");
    assert x + "v=abc123&t=5" == x + "v=" + "abc123" + "&" + "t=5";
    VideoIdOfWatchUrl(x, "abc123", "t=5");
  }

  /** A key `train_...` has the short name `train`. */
  lemma TrainPrefix(rest: string)
    ensures SplitPrefix("train_" + rest) == "train"
  {
    assert "train_" + rest == "train" + "_" + rest;
    SplitPrefixBefore("train", rest);
  }

  /** An example file name: url `...v=abc123&t=5` (whatever comes before the
      `v=`), label text `hello`, signer 2, and a split key `train_...` such as
      `train_entries`. */
  lemma ExampleFilename(e: Entry, x: string, rest: string)
    requires e.url == x + "v=abc123&t=5"
    requires e.cleanText == "hello" && e.signerId == 2
    ensures ClipFilename(e, "train_" + rest) == "abc123_hello_signer_id:_2_train.mp4"
  {
    ExampleVideoId(x);
    TrainPrefix(rest);
    assert IntToString(e.signerId) == "2";
    assert "abc123" + "_" + "hello" + "_" + "signer_id:_" == "abc123_hello_signer_id:_";
    assert "abc123_hello_signer_id:_" + "2" + "_" + "train" + ".mp4" == "abc123_hello_signer_id:_2_train.mp4";
  }
}
