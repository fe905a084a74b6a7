# prepare_raw_data — a verified model of the clip-preparation core

`prepare_raw_data.py` prepares a small subset of the MS-ASL sign-language
dataset. Most of it is glue around a YouTube downloader, ffmpeg and the file
system. This project models the pure core inside that glue, in Dafny:

- the **split filter** of `get_clips`. For each of `train_entries`, `val_entries`
  and `test_entries` it keeps the entries whose `label` is in
  `range(label_limit)`, then truncates the list with `[:1]` (module `Dataset`);
- the **download-plan builder** `prepare_download_information`. It turns each
  kept entry into the six-element list `['Video: i', url, start, end, fps, filename]`.
  The file name is `<video id>_<clean_text>_signer_id:_<signer_id>_<split prefix>.mp4`,
  and the video id is cut out of the URL with `split("v=")[-1].split("&")[0]`
  (module `DownloadPlan`);
- the **directory enumeration** of `create_dirs`: `clips/<split>_clips/<i>` for
  the three splits and every `i` in `range(label_limit)` (module `OutputDirs`);
- the **main loop**'s choice of arguments for each clip. Every clip of a split
  goes to `clips/<prefix>_clips/<label of the split's first entry>` (module `Pipeline`).

The Python library behaviour the core relies on is modelled explicitly:
- `str.split` with a separator and the indexings `[0]` and `[-1]` of a split
  (module `PyString`). The left-to-right search inside `split` is written as a
  `find` function, and `sep.join` appears only as split's inverse; the script
  calls neither;
- `str(int)`, with a parser as its inverse (module `Decimal`);
- POSIX `os.path.join`, which the script calls (module `PosixPath`). `os.path.basename`
  is modelled only as join's partner; the script never calls it.

Entries are immutable records. The floats `start_time`, `end_time` and `fps`
are carried as `real` and are never operated on. The metadata dictionary is a
`map` from split key to a sequence of entries.

The docstring of `get_clips` calls its argument an upper bound on the
admissible label ids (line 16). The filter it applies is `label in
range(limit)` (lines 33, 37, 41, and the docstring's line 12). So a negative
label is dropped too, not only a label at or above the bound; the model
follows the code (`Dataset.Kept`).

## Model

| member | source | states |
|---|---|---|
| PyString.Find | prepare_raw_data.py:88 | the search underlying `split`: the result is an occurrence at or after the start, no earlier occurrence at or after the start exists, and `None` means there is no occurrence at or after the start |
| PyString.Split | prepare_raw_data.py:88 | `s.split(sep)` always has at least one piece |
| PyString.JoinSplit | prepare_raw_data.py:88 | joining the pieces of `s.split(sep)` with `sep` gives back `s` (split's inverse) |
| PyString.SplitPiecesAvoidSep | prepare_raw_data.py:88 | no piece of `s.split(sep)` contains `sep` |
| PyString.FirstPiece | prepare_raw_data.py:88 | `s.split(sep)[0]` is the prefix of `s` before its first `sep`; it is sep-free; all of `s` when `sep` does not occur |
| PyString.LastPiece | prepare_raw_data.py:88 | `s.split(sep)[-1]`; no contract of its own, `PyString.LastPieceSpec` states it |
| PyString.LastPieceSpec | prepare_raw_data.py:88 | `s.split(sep)[-1]` is a sep-free suffix of `s`, preceded by `sep` when `s` contains it, and all of `s` otherwise |
| PyString.FirstPieceBefore | prepare_raw_data.py:134 | `(x + c + y).split(c)[0] == x` for a one-character `c` absent from `x` |
| PyString.SplitAppend | prepare_raw_data.py:88 | splitting `x + c + y`, with `y` free of `c`, yields the pieces of `x` followed by `y` |
| Decimal.NatToString | prepare_raw_data.py:73 | `str(i)` for `i >= 0` is a non-empty digit string with no leading zero |
| Decimal.IntToString | prepare_raw_data.py:88 | `str(signer_id)` starts with `-` exactly for negative values; the rest are digits |
| Decimal.ParseIntToString | prepare_raw_data.py:88 | parsing `str(n)` gives back `n` |
| Decimal.IntToStringInjective | prepare_raw_data.py:73 | distinct integers print differently |
| PosixPath.Join | prepare_raw_data.py:123 | two-component `os.path.join` (also lines 73 and 138); no contract of its own, `PosixPath.JoinKeepsParts`, `PosixPath.JoinRelative` and `PosixPath.JoinBasename` state it |
| PosixPath.JoinKeepsParts | prepare_raw_data.py:123 | `os.path.join(a, b)` ends with `b`, and starts with `a` unless `b` is absolute |
| PosixPath.JoinRelative | prepare_raw_data.py:73 | joining relative parts puts exactly one `/` between them |
| PosixPath.JoinBasename | prepare_raw_data.py:123 | the base name of `os.path.join(a, b)` is `b` when `b` has no `/` |
| Dataset.Take | prepare_raw_data.py:33 | the slice `xs[:n]` is a prefix of `xs`, of length `min(n, len(xs))` for `n >= 0` |
| Dataset.Matching | prepare_raw_data.py:33 | the comprehension keeps only entries of the input with `0 <= label < limit`, keeps every entry that passes, and nothing when `limit <= 0` |
| Dataset.MatchingAppend | prepare_raw_data.py:33 | the comprehension keeps entries in input order: filtering `xs + ys` filters `xs`, then `ys` |
| Dataset.MatchingSingle | prepare_raw_data.py:33 | a single entry is kept exactly when its label is in `range(limit)` |
| Dataset.MatchingHead | prepare_raw_data.py:33 | the comprehension is empty iff no entry passes, and otherwise starts with the first entry that passes |
| Dataset.KeepFirst | prepare_raw_data.py:33 | a filtered split has at most one entry; that entry comes from the input and has `0 <= label < limit`; `limit <= 0` leaves it empty |
| Dataset.KeepFirstEmpty | prepare_raw_data.py:37 | a split comes back empty exactly when none of its entries passes the filter |
| Dataset.KeepFirstIsFirstMatch | prepare_raw_data.py:41 | otherwise it holds exactly the first entry, in input order, that passes |
| Dataset.GetClips | prepare_raw_data.py:31-48 | `get_clips` returns its limit and a dictionary with exactly the three split keys; each split is the filtered version of its own file, with at most one entry, all labels in range |
| DownloadPlan.SplitPrefix | prepare_raw_data.py:134 | `split.split('_')[0]` is an underscore-free prefix of the key, followed by `_` when the key has one |
| DownloadPlan.SplitPrefixBefore | prepare_raw_data.py:134 | a key `x_y` with `x` underscore-free shortens to `x` |
| DownloadPlan.SplitPrefixOfKey | prepare_raw_data.py:133-134 | `train_entries`, `val_entries`, `test_entries` shorten to `train`, `val`, `test` |
| DownloadPlan.VideoId | prepare_raw_data.py:88 | `url.split("v=")[-1].split("&")[0]`; no contract of its own, `DownloadPlan.VideoIdSpec` states it |
| DownloadPlan.VideoIdSpec | prepare_raw_data.py:88 | the video id is a substring of the URL that follows its last `v=` (or starts it); it runs to the next `&` or the end and contains neither `&` nor `v=`; no `v=` occurs from its start on, so it follows the last `v=`; with no `v=` it is the URL's text before its first `&` |
| DownloadPlan.VideoIdOfWatchUrl | prepare_raw_data.py:88 | for a URL `<x>v=<id>&<y>` with no further `v=`, the video id is `<id>` |
| DownloadPlan.PrepareDownloadInformation | prepare_raw_data.py:80-90 | same split keys; per split, same length and order; descriptor `i` is named `Video: i` and carries entry `i`'s url, start, end and fps unchanged, plus its file name |
| DownloadPlan.DisplayNamesDistinct | prepare_raw_data.py:83 | within a split no two descriptors share a display name |
| DownloadPlan.ClipFilename | prepare_raw_data.py:88 | the f-string file name; no contract of its own, `DownloadPlan.FilenameTail` and `DownloadPlan.ExampleFilename` state it |
| DownloadPlan.FilenameTail | prepare_raw_data.py:88 | the file name ends in `.mp4`; its last two `_`-pieces give back the split prefix and the signer id, whatever underscores the id and label text hold |
| DownloadPlan.ExampleFilename | prepare_raw_data.py:88 | url `...v=abc123&t=5`, text `hello`, signer 2, key `train_...` give `abc123_hello_signer_id:_2_train.mp4` |
| OutputDirs.LabelDir | prepare_raw_data.py:73 | `os.path.join('clips', folder, str(i))`; no contract of its own, `OutputDirs.LabelDirShape` and `OutputDirs.LabelDirInjective` state it |
| OutputDirs.LabelDirShape | prepare_raw_data.py:73 | `os.path.join('clips', folder, str(i))` is `clips/<folder>/<i>` |
| OutputDirs.SlashCancel | prepare_raw_data.py:73 | a path `a/b` with a slash-free `a` determines both `a` and `b` |
| OutputDirs.LabelDirInjective | prepare_raw_data.py:73 | different folders or labels give different directories |
| OutputDirs.FolderDirs | prepare_raw_data.py:72-74 | the inner loop yields `n` paths (none for `n <= 0`), the `i`-th being `clips/<folder>/<i>` |
| OutputDirs.AllDirs | prepare_raw_data.py:71-74 | the two loops yield `len(folders) * max(n, 0)` paths |
| OutputDirs.AllDirsMembers | prepare_raw_data.py:71-74 | a path is produced iff it is `clips/<f>/<i>` for a listed folder `f` and `i` in `range(n)` |
| OutputDirs.AllDirsDistinct | prepare_raw_data.py:71-74 | the produced paths are pairwise distinct |
| OutputDirs.CreateDirsAsWritten | prepare_raw_data.py:71-74 | the code as written: exactly `3 * label_limit` distinct paths `clips/<s>_clips/<i>`, bounded by the module-level `label_limit`, not the `limit` parameter |
| OutputDirs.CreateDirs | prepare_raw_data.py:56-63 | the documented behaviour: exactly `3 * limit` distinct paths `clips/<s>_clips/<i>` for `i` in `range(limit)` |
| OutputDirs.CreateDirsAtCallSite | prepare_raw_data.py:76 | at the script's only call the two coincide |
| OutputDirs.CreateDirsIgnoresItsLimit | prepare_raw_data.py:72 | `create_dirs(5, …)` under `label_limit = 1` makes 3 directories where the documented behaviour makes 15 |
| OutputDirs.CreateDirsForOneLabel | prepare_raw_data.py:71-74 | with limit 1 the directories are exactly `clips/train_clips/0`, `clips/val_clips/0`, `clips/test_clips/0` |
| Pipeline.SplitJobs | prepare_raw_data.py:135-143 | the inner loop issues one call per descriptor of the split; `Pipeline.SplitJobsAt` states each call |
| Pipeline.ClipsAt | prepare_raw_data.py:135-138 | the inner loop's `i`-th call keeps descriptor `i`'s url, times and file name and uses the one directory computed for the split |
| Pipeline.SplitJobsAt | prepare_raw_data.py:134-138 | each clip of a split keeps its descriptor's url, times and file name, and gets the directory of the label of the split's first entry, not its own |
| Pipeline.FlattenIndex | prepare_raw_data.py:133-135 | in the nested loop, clip `i` of the `k`-th visited split is issued right after all clips of the splits visited before it |
| Pipeline.FlattenSize | prepare_raw_data.py:133-135 | the splits visited before split `k` contribute as many calls as they have entries |
| Pipeline.MainLoop | prepare_raw_data.py:133-135 | the loop over any list of split keys issues one call per descriptor of every visited split |
| Pipeline.MainLoopIndex | prepare_raw_data.py:133-138 | clip `i` of split `keys[k]` is call number (clips of earlier splits) + `i`, and is that split's inner-loop call `i` |
| Pipeline.PlannedClip | prepare_raw_data.py:135-138 | the inner loop over the plan made by `prepare_download_information` uses the entry's own url, times and the file name planned on line 88 |
| Pipeline.Jobs | prepare_raw_data.py:133-143 | the main loop issues one job per kept entry over the three splits |
| Pipeline.JobsIndex | prepare_raw_data.py:133-143 | the job of clip `i` in split `k` fetches entry `i`'s url and time range, writes entry `i`'s file name, into the directory of entry 0's label |
| Pipeline.ShortFolder | prepare_raw_data.py:134 | the folder name the main loop builds for each split is the one `create_dirs` lists for it on line 71 |
| Pipeline.SplitOutputDir | prepare_raw_data.py:134-138 | the split's output directory; no contract of its own, `Pipeline.SplitOutputDirFolder` states it |
| Pipeline.SplitOutputDirFolder | prepare_raw_data.py:134-138 | each split's output directory lies in the folder `create_dirs` made for that split |
| Pipeline.JobsAfterGetClips | prepare_raw_data.py:137 | after `get_clips` every clip's directory uses its own label and is one of those `create_dirs` made |
| Pipeline.SplitSharesOneDir | prepare_raw_data.py:137 | all clips of a split share one output directory, whatever their own labels |
| Pipeline.OutputPath | prepare_raw_data.py:123 | `output_path`; no contract of its own, `Pipeline.OutputPathInDir` states it |
| Pipeline.OutputPathInDir | prepare_raw_data.py:123 | the clip is written to `<dir>/<filename>`, unless the file name is absolute, in which case the directory is dropped |
| Pipeline.BeforeSingles | prepare_raw_data.py:133 | with one clip per split, split `k` starts at job `k` |
| Pipeline.SingleClipAt | prepare_raw_data.py:133-138 | with one clip per split, job `k` is the clip of split `k`, in the directory of that split's first label |
| Pipeline.SingleClipJobs | prepare_raw_data.py:133-138 | with one clip per split there are three jobs, in split order, each in its own label's directory |
| Pipeline.OneLabelClips | prepare_raw_data.py:31-48 | with `label_limit = 1` and label-0 first entries, `get_clips` keeps exactly the first entry of each split |
| Pipeline.LabelZeroJobs | prepare_raw_data.py:133-138 | with one label-0 clip per split, the three jobs go to the `…/0` directory of their split's folder, in split order, each with its entry's file name |
| Pipeline.OneLabelRun | prepare_raw_data.py:50-138 | with `label_limit = 1` and label-0 first entries: exactly the three `…/0` directories are made, and the three clips go to them in order, each with its own file name |

## Findings

| source | as written | input that shows it | evidently intended | confidence | as-written member | corrected member |
|---|---|---|---|---|---|---|
| prepare_raw_data.py:72 | `for i in range(label_limit)` reads the module-level `label_limit` and ignores the `limit` parameter | `create_dirs(5, entries)` while `label_limit == 1` makes 3 directories instead of 15 | one directory per split and per label in `range(limit)`, as the docstring (lines 58-59) says | medium; not executed; no effect at the script's only call (line 76) | OutputDirs.CreateDirsAsWritten | OutputDirs.CreateDirs |

`OutputDirs.CreateDirsIgnoresItsLimit` exhibits the discrepancy. `OutputDirs.CreateDirsAtCallSite` shows that both
definitions agree at the script's own call. The rest of the model (`Pipeline.JobsAfterGetClips`,
`Pipeline.OneLabelRun`) uses `OutputDirs.CreateDirs`.

## Left out

- Loading the three JSON files (lines 29-41) and the hard-coded `/Users/...` path are I/O. The parsed arrays are inputs of `Dataset.GetClips`. A missing file or malformed JSON is not modelled.
- Labels are integers. A JSON label of another type (`0.0 in range(1)` is true in Python) is not modelled.
- `download_video` (yt_dlp) and `cut_clip` (ffmpeg subprocess) are foreign tools. The model stops at the arguments `download_and_clip` receives (`Pipeline.Job`, `Pipeline.OutputPath`).
- `os.makedirs(..., exist_ok=True)`, `os.remove`, the `os.path.exists` test (line 129) and the `try/finally` removal of the shared temporary file are file-system side effects. `create_dirs` is modelled as the sequence of paths it creates.
- The per-clip `except`/`print` that skips a failing clip, and all console output, are not modelled.
- `start_time`, `end_time` and `fps` are floats that are only passed through. They are `real` fields that nothing reads.
- Module-level execution order (lines 50, 76, 92, 133) is script plumbing. `Pipeline.OneLabelRun` composes the four steps with the script's default `label_limit = 1`.
- `str.split` is modelled only with an explicit non-empty separator, which is all the script uses. Python raises `ValueError` on an empty separator, and the model requires a non-empty one. `split()` with no argument and `maxsplit` are not modelled.
- `os.path.join` is modelled with POSIX semantics only.
- `Pipeline.Jobs` requires the three split keys to be present. The script's dictionary always has them; Python would raise `KeyError` otherwise.
- The order of `entries.items()` is not modelled, because `prepare_download_information` returns a dictionary keyed by split.
