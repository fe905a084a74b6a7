/**
 The main loop of the script (lines 133-146) with the downloads taken out:
 for each split in the fixed order train, val, test, and for each of its
 descriptors, the arguments `download_and_clip` is called with. The output
 directory of every clip comes from the label of the split's FIRST entry.
 */
module Pipeline {
  import opened Decimal
  import PosixPath
  import opened Dataset
  import opened DownloadPlan
  import opened OutputDirs

  /** The arguments of one `download_and_clip(url, start, end, output_dir, filename)` call. */
  datatype Job = Job(url: string, startTime: real, endTime: real, outputDir: string, filename: string)

  /** `output_path` of `download_and_clip` (line 123): the file the clip is written to. */
  function OutputPath(j: Job): string
  {
    PosixPath.Join(j.outputDir, j.filename)
  }

  /** `os.path.join("clips", f"{short_split}_clips", str(label))` (lines 134, 138). */
  function SplitOutputDir(key: string, labelId: int): string
  {
    LabelDir(SplitPrefix(key) + "_clips", labelId)
  }

  /** The first `n` turns of `for clip in descriptors`, every clip going to `dir`. */
  function Clips(dir: string, descriptors: seq<Descriptor>, n: nat): (r: seq<Job>)
    requires n <= |descriptors|
    ensures |r| == n
  {
    if n == 0 then []
    else
      var d := descriptors[n - 1];
      Clips(dir, descriptors, n - 1) + [Job(d.url, d.startTime, d.endTime, dir, d.filename)]
  }

  /** Clip `i` keeps its descriptor's url, time range and file name, and goes to `dir`. */
  lemma {:induction false} ClipsAt(dir: string, descriptors: seq<Descriptor>, n: nat, i: nat)
    requires i < n <= |descriptors|
    ensures var d := descriptors[i];
      Clips(dir, descriptors, n)[i] == Job(d.url, d.startTime, d.endTime, dir, d.filename)
    decreases n
  {
    if i < n - 1 {
      ClipsAt(dir, descriptors, n - 1, i);
    }
  }

  /** The inner loop over one split's descriptors (lines 135-143). The label is
      read from `entries[split][0]` whichever clip is being processed; it is
      only read when the split has a clip. */
  function SplitJobs(key: string, descriptors: seq<Descriptor>, vals: seq<Entry>): (r: seq<Job>)
    requires |descriptors| == |vals|
    ensures |r| == |descriptors|
  {
    if |descriptors| == 0 then []
    else Clips(SplitOutputDir(key, vals[0].labelId), descriptors, |descriptors|)
  }

  /** Clip `i` of a split keeps its descriptor's url, time range and file name,
      and goes to the directory of the label of the split's first entry, not
      its own. */
  lemma SplitJobsAt(key: string, descriptors: seq<Descriptor>, vals: seq<Entry>, i: nat)
    requires |descriptors| == |vals| && i < |descriptors|
    ensures var d := descriptors[i];
      SplitJobs(key, descriptors, vals)[i]
      == Job(d.url, d.startTime, d.endTime, SplitOutputDir(key, vals[0].labelId), d.filename)
  {
    ClipsAt(SplitOutputDir(key, vals[0].labelId), descriptors, |descriptors|, i);
  }

  /** The dictionary has all three split keys. */
  predicate HasSplits(entries: Entries) {
    forall j :: 0 <= j < |SplitKeys| ==> SplitKeys[j] in entries
  }

  /** `result[key]` and `entries[key]` both exist and have one descriptor per entry. */
  predicate Fits(entries: Entries, result: map<string, seq<Descriptor>>, key: string) {
    key in entries && key in result && |result[key]| == |entries[key]|
  }

  /** The plan fits the dictionary on every key the loop visits. */
  predicate Planned(keys: seq<string>, entries: Entries, result: map<string, seq<Descriptor>>) {
    forall j :: 0 <= j < |keys| ==> Fits(entries, result, keys[j])
  }

  /** The parts `parts[..n]` one after the other. */
  function Flatten<T>(parts: seq<seq<T>>, n: nat): seq<T>
    requires n <= |parts|
  {
    if n == 0 then [] else Flatten(parts, n - 1) + parts[n - 1]
  }

  /** Part `k` ends no later than where part `n` starts, for `k < n`. */
  lemma {:induction false} FlattenGrows<T>(parts: seq<seq<T>>, k: nat, n: nat)
    requires k < n <= |parts|
    ensures |Flatten(parts, k)| + |parts[k]| <= |Flatten(parts, n)|
    decreases n
  {
    assert |Flatten(parts, n)| == |Flatten(parts, n - 1)| + |parts[n - 1]|;
    if k < n - 1 {
      FlattenGrows(parts, k, n - 1);
    }
  }

  /** Element `i` of part `k` sits at `|Flatten(parts, k)| + i` in the flattening. */
  lemma {:induction false} FlattenIndex<T>(parts: seq<seq<T>>, n: nat, k: nat, i: nat)
    requires k < n <= |parts| && i < |parts[k]|
    ensures |Flatten(parts, k)| + i < |Flatten(parts, n)|
    ensures Flatten(parts, n)[|Flatten(parts, k)| + i] == parts[k][i]
    decreases n
  {
    var front := Flatten(parts, n - 1);
    assert Flatten(parts, n) == front + parts[n - 1];
    if k == n - 1 {
      assert (front + parts[n - 1])[|front| + i] == parts[n - 1][i];
    } else {
      FlattenIndex(parts, n - 1, k, i);
      FlattenGrows(parts, k, n - 1);
      assert (front + parts[n - 1])[|Flatten(parts, k)| + i] == front[|Flatten(parts, k)| + i];
    }
  }

  /** The inner loop of every visited split, in the order of `keys`. */
  function Parts(keys: seq<string>, entries: Entries, result: map<string, seq<Descriptor>>): (parts: seq<seq<Job>>)
    requires Planned(keys, entries, result)
    ensures |parts| == |keys|
  {
    seq(|keys|, j requires 0 <= j < |keys| => SplitJobs(keys[j], result[keys[j]], entries[keys[j]]))
  }

  /** How many clips the splits `keys[..k]` hold: where split `k` starts in the loop. */
  function Before(keys: seq<string>, entries: Entries, k: nat): nat
    requires k <= |keys| && forall j :: 0 <= j < |keys| ==> keys[j] in entries
  {
    if k == 0 then 0 else Before(keys, entries, k - 1) + |entries[keys[k - 1]]|
  }

  /** Over three keys, the loop visits the clips of all three splits. */
  lemma BeforeThree(keys: seq<string>, entries: Entries)
    requires |keys| == 3 && forall j :: 0 <= j < |keys| ==> keys[j] in entries
    ensures Before(keys, entries, 3) == |entries[keys[0]]| + |entries[keys[1]]| + |entries[keys[2]]|
  {
    assert Before(keys, entries, 1) == |entries[keys[0]]|;
  }

  /** When part `j` has one job per entry of split `keys[j]`, the parts before
      `k` hold `Before(k)` jobs. */
  lemma {:induction false} FlattenSize<T>(parts: seq<seq<T>>, keys: seq<string>, entries: Entries, k: nat)
    requires |parts| == |keys| && k <= |keys|
    requires forall j :: 0 <= j < |keys| ==> keys[j] in entries && |parts[j]| == |entries[keys[j]]|
    ensures |Flatten(parts, k)| == Before(keys, entries, k)
    decreases k
  {
    if k > 0 {
      FlattenSize(parts, keys, entries, k - 1);
      assert |Flatten(parts, k)| == |Flatten(parts, k - 1)| + |parts[k - 1]|;
    }
  }

  /** Split `keys[j]` contributes one job per entry. */
  lemma PartsSizes(keys: seq<string>, entries: Entries, result: map<string, seq<Descriptor>>)
    requires Planned(keys, entries, result)
    ensures forall j :: 0 <= j < |keys| ==> keys[j] in entries && |Parts(keys, entries, result)[j]| == |entries[keys[j]]|
  {
    forall j | 0 <= j < |keys|
      ensures keys[j] in entries && |Parts(keys, entries, result)[j]| == |entries[keys[j]]|
    {
      assert Fits(entries, result, keys[j]);
    }
  }

  /** The splits before split `k` contribute `Before(k)` jobs. */
  lemma PartsBefore(keys: seq<string>, entries: Entries, result: map<string, seq<Descriptor>>, k: nat)
    requires Planned(keys, entries, result) && k <= |keys|
    ensures forall j :: 0 <= j < |keys| ==> keys[j] in entries
    ensures |Flatten(Parts(keys, entries, result), k)| == Before(keys, entries, k)
  {
    PartsSizes(keys, entries, result);
    FlattenSize(Parts(keys, entries, result), keys, entries, k);
  }

  /** `for split in keys: for clip in result[split]: ...`, reading the plan
      `result` and the label from `entries`. */
  function MainLoop(keys: seq<string>, entries: Entries, result: map<string, seq<Descriptor>>): (jobs: seq<Job>)
    requires Planned(keys, entries, result)
    ensures forall j :: 0 <= j < |keys| ==> keys[j] in entries
    ensures |jobs| == Before(keys, entries, |keys|)
  {
    PartsBefore(keys, entries, result, |keys|);
    Flatten(Parts(keys, entries, result), |keys|)
  }

  /** The main loop, split by split: the `i`-th clip of split `keys[k]` is job
      `Before(k) + i`. */
  lemma MainLoopIndex(keys: seq<string>, entries: Entries, result: map<string, seq<Descriptor>>, k: nat, i: nat)
    requires Planned(keys, entries, result)
    requires k < |keys| && i < |entries[keys[k]]|
    ensures forall j :: 0 <= j < |keys| ==> keys[j] in entries
    ensures Before(keys, entries, k) + i < |MainLoop(keys, entries, result)|
    ensures MainLoop(keys, entries, result)[Before(keys, entries, k) + i]
         == SplitJobs(keys[k], result[keys[k]], entries[keys[k]])[i]
  {
    var parts := Parts(keys, entries, result);
    assert Fits(entries, result, keys[k]);
    PartsBefore(keys, entries, result, k);
    FlattenIndex(parts, |keys|, k, i);
  }

  /** The plan `prepare_download_information` makes fits the dictionary it was made from. */
  lemma PlanFits(entries: Entries)
    requires HasSplits(entries)
    ensures Planned(SplitKeys, entries, PrepareDownloadInformation(entries))
  {
  }

  /** The script's jobs: the main loop over the plan made from `entries` (line 92).
      Python raises `KeyError` if a split key is missing; the script's
      dictionary always has all three. */
  function Jobs(entries: Entries): (jobs: seq<Job>)
    requires HasSplits(entries)
    ensures |jobs| == |entries[SplitKeys[0]]| + |entries[SplitKeys[1]]| + |entries[SplitKeys[2]]|
  {
    PlanFits(entries);
    BeforeThree(SplitKeys, entries);
    MainLoop(SplitKeys, entries, PrepareDownloadInformation(entries))
  }

  /** Clip `i` of one split, as the inner loop builds it from the download plan. */
  lemma PlannedClip(entries: Entries, key: string, i: nat)
    requires key in entries && i < |entries[key]|
    ensures var result, e := PrepareDownloadInformation(entries), entries[key][i];
      && Fits(entries, result, key)
      && SplitJobs(key, result[key], entries[key])[i]
         == Job(e.url, e.startTime, e.endTime, SplitOutputDir(key, entries[key][0].labelId), ClipFilename(e, key))
  {
    var result := PrepareDownloadInformation(entries);
    SplitJobsAt(key, result[key], entries[key], i);
  }

  /** Clip `i` of split `SplitKeys[k]`: it fetches that entry's url and time
      range, writes the file named by the download plan, and goes to the
      directory of the label of the split's first entry. */
  lemma JobsIndex(entries: Entries, k: nat, i: nat)
    requires HasSplits(entries)
    requires k < |SplitKeys| && i < |entries[SplitKeys[k]]|
    ensures var key := SplitKeys[k];
      var jobs, e := Jobs(entries), entries[key][i];
      && Before(SplitKeys, entries, k) + i < |jobs|
      && jobs[Before(SplitKeys, entries, k) + i]
         == Job(e.url, e.startTime, e.endTime,
                SplitOutputDir(key, entries[key][0].labelId), ClipFilename(e, key))
  {
    PlanFits(entries);
    MainLoopIndex(SplitKeys, entries, PrepareDownloadInformation(entries), k, i);
    PlannedClip(entries, SplitKeys[k], i);
  }

  /** The main loop's folder name `<short name>_clips` is the one `create_dirs` lists. */
  lemma ShortFolder(k: nat)
    requires k < |ShortNames|
    ensures ShortNames[k] + "_clips" == Folders[k]
  {
  }

  /** The split `SplitKeys[k]` writes into the folder `create_dirs` made for it. */
  lemma SplitOutputDirFolder(k: nat, labelId: int)
    requires k < |SplitKeys|
    ensures SplitOutputDir(SplitKeys[k], labelId) == LabelDir(Folders[k], labelId)
  {
    SplitPrefixOfKey(k);
    ShortFolder(k);
  }

  /** After `get_clips`, each split has at most one clip, so the first entry's
      label is the clip's own: every clip goes to the directory of its own
      label, and that directory is one `create_dirs` made. */
  lemma JobsAfterGetClips(labelLimit: int, train: seq<Entry>, val: seq<Entry>, test: seq<Entry>,
                          k: nat, i: nat)
    requires k < |SplitKeys|
    requires i < |GetClips(labelLimit, train, val, test).1[SplitKeys[k]]|
    ensures var (limit, entries) := GetClips(labelLimit, train, val, test);
      var e := entries[SplitKeys[k]][i];
      && i == 0
      && Before(SplitKeys, entries, k) < |Jobs(entries)|
      && Jobs(entries)[Before(SplitKeys, entries, k)].outputDir == LabelDir(Folders[k], e.labelId)
      && LabelDir(Folders[k], e.labelId) in CreateDirs(limit, entries)
      && LabelDir(Folders[k], e.labelId) in CreateDirsAsWritten(limit, entries, limit)
  {
    var (limit, entries) := GetClips(labelLimit, train, val, test);
    var e := entries[SplitKeys[k]][i];
    JobsIndex(entries, k, i);
    SplitOutputDirFolder(k, e.labelId);
    assert IsLabelDir(LabelDir(Folders[k], e.labelId), Folders, labelLimit) by {
      assert Folders[k] in Folders;
    }
  }

  /** Clips of one split all share one output directory, whatever their own labels. */
  lemma SplitSharesOneDir(entries: Entries, k: nat, i: nat, j: nat)
    requires HasSplits(entries)
    requires k < |SplitKeys| && i < |entries[SplitKeys[k]]| && j < |entries[SplitKeys[k]]|
    ensures Before(SplitKeys, entries, k) + i < |Jobs(entries)| && Before(SplitKeys, entries, k) + j < |Jobs(entries)|
    ensures Jobs(entries)[Before(SplitKeys, entries, k) + i].outputDir
         == Jobs(entries)[Before(SplitKeys, entries, k) + j].outputDir
  {
    JobsIndex(entries, k, i);
    JobsIndex(entries, k, j);
  }

  /** A clip lands inside its output directory unless its file name is
      absolute, which `os.path.join` lets replace the directory. */
  lemma OutputPathInDir(j: Job)
    requires |j.outputDir| > 0 && j.outputDir[|j.outputDir| - 1] != '/'
    ensures |j.filename| > 0 && j.filename[0] == '/' ==> OutputPath(j) == j.filename
    ensures (|j.filename| == 0 || j.filename[0] != '/') ==>
      OutputPath(j) == j.outputDir + "/" + j.filename
  {
  }

  /** When every split holds exactly one clip, split `k` starts at job `k`. */
  lemma {:induction false} BeforeSingles(entries: Entries, k: nat)
    requires HasSplits(entries)
    requires forall m :: 0 <= m < |SplitKeys| ==> |entries[SplitKeys[m]]| == 1
    requires k <= |SplitKeys|
    ensures Before(SplitKeys, entries, k) == k
  {
    if k > 0 {
      BeforeSingles(entries, k - 1);
    }
  }

  /** When every split holds exactly one clip, job `k` is the clip of split `k`. */
  lemma SingleClipAt(entries: Entries, k: nat)
    requires HasSplits(entries)
    requires forall m :: 0 <= m < |SplitKeys| ==> |entries[SplitKeys[m]]| == 1
    requires k < |SplitKeys|
    ensures var key := SplitKeys[k];
      var e := entries[key][0];
      && k < |Jobs(entries)|
      && Jobs(entries)[k]
         == Job(e.url, e.startTime, e.endTime, SplitOutputDir(key, e.labelId), ClipFilename(e, key))
  {
    BeforeSingles(entries, k);
    JobsIndex(entries, k, 0);
  }

  /** When every split holds exactly one clip, the jobs are those three
      clips in split order, each in the directory of its own label. */
  lemma SingleClipJobs(entries: Entries, k: nat)
    requires HasSplits(entries)
    requires forall m :: 0 <= m < |SplitKeys| ==> |entries[SplitKeys[m]]| == 1
    requires k < |SplitKeys|
    ensures var e := entries[SplitKeys[k]][0];
      && |Jobs(entries)| == 3
      && Jobs(entries)[k]
         == Job(e.url, e.startTime, e.endTime, LabelDir(Folders[k], e.labelId), ClipFilename(e, SplitKeys[k]))
  {
    SingleClipAt(entries, k);
    SplitOutputDirFolder(k, entries[SplitKeys[k]][0].labelId);
  }

  /** With `label_limit = 1` and label-0 first entries, `get_clips` keeps
      exactly the first entry of each split. */
  lemma OneLabelClips(train: seq<Entry>, val: seq<Entry>, test: seq<Entry>)
    requires |train| > 0 && |val| > 0 && |test| > 0
    requires train[0].labelId == 0 && val[0].labelId == 0 && test[0].labelId == 0
    ensures var (limit, entries) := GetClips(DefaultLabelLimit, train, val, test);
      && limit == 1 && HasSplits(entries)
      && entries[SplitKeys[0]] == [train[0]]
      && entries[SplitKeys[1]] == [val[0]]
      && entries[SplitKeys[2]] == [test[0]]
  {
    KeepFirstIsFirstMatch(train, 1, 0);
    KeepFirstIsFirstMatch(val, 1, 0);
    KeepFirstIsFirstMatch(test, 1, 0);
  }

  /** With one label-0 clip per split, the three jobs go to the label-0
      directory of their split's folder, in split order. */
  lemma LabelZeroJobs(entries: Entries)
    requires HasSplits(entries)
    requires forall m :: 0 <= m < |SplitKeys| ==> |entries[SplitKeys[m]]| == 1
    requires forall m :: 0 <= m < |SplitKeys| ==> entries[SplitKeys[m]][0].labelId == 0
    ensures var jobs := Jobs(entries);
      && |jobs| == 3
      && (forall k :: 0 <= k < 3 ==> jobs[k].outputDir == LabelDir(Folders[k], 0))
      && (forall k :: 0 <= k < 3 ==> jobs[k].filename == ClipFilename(entries[SplitKeys[k]][0], SplitKeys[k]))
  {
    forall k | 0 <= k < 3
      ensures Jobs(entries)[k].outputDir == LabelDir(Folders[k], 0)
      ensures Jobs(entries)[k].filename == ClipFilename(entries[SplitKeys[k]][0], SplitKeys[k])
    {
      SingleClipJobs(entries, k);
    }
  }

  /** The script's own setting: `label_limit = 1`, and each split's first
      entry has label 0. Exactly the three directories `clips/<split>_clips/0`
      are made, and the three clips go to them in order, one per split, each
      with the file name its entry and split give it. */
  lemma OneLabelRun(train: seq<Entry>, val: seq<Entry>, test: seq<Entry>)
    requires |train| > 0 && |val| > 0 && |test| > 0
    requires train[0].labelId == 0 && val[0].labelId == 0 && test[0].labelId == 0
    ensures var (limit, entries) := GetClips(DefaultLabelLimit, train, val, test);
      var dirs := CreateDirs(limit, entries);
      var jobs := Jobs(entries);
      && dirs == ["clips/train_clips/0", "clips/val_clips/0", "clips/test_clips/0"]
      && |jobs| == 3
      && (forall k :: 0 <= k < 3 ==> jobs[k].outputDir == dirs[k])
      && jobs[0].filename == ClipFilename(train[0], TrainKey)
      && jobs[1].filename == ClipFilename(val[0], ValKey)
      && jobs[2].filename == ClipFilename(test[0], TestKey)
  {
    var (limit, entries) := GetClips(DefaultLabelLimit, train, val, test);
    OneLabelClips(train, val, test);
    CreateDirsForOneLabel(entries);
    LabelZeroJobs(entries);
  }
}
