/**
 `create_dirs`: the directories `clips/<split>_clips/<label>` made before any
 clip is fetched. Creating them (`os.makedirs(..., exist_ok=True)`) is a side
 effect left out; the model is the sequence of paths, in creation order.
 */
module OutputDirs {
  import opened Decimal
  import PosixPath
  import opened Dataset

  /** The per-split folder names, in the order `create_dirs` visits them. */
  const Folders: seq<string> := ["train_clips", "val_clips", "test_clips"]

  /** A single path component: non-empty and free of `/`. */
  predicate PlainName(name: string) {
    |name| > 0 && '/' !in name
  }

  /** Every element of `s` occurs once. */
  predicate Distinct<T(==)>(s: seq<T>) {
    forall a, b :: 0 <= a < b < |s| ==> s[a] != s[b]
  }

  /** `os.path.join('clips', folder, str(label))` for the label `labelId`. */
  function LabelDir(folder: string, labelId: int): string
  {
    PosixPath.Join(PosixPath.Join("clips", folder), IntToString(labelId))
  }

  /** The three folder names are plain and distinct. */
  lemma FoldersPlain()
    ensures forall k :: 0 <= k < |Folders| ==> PlainName(Folders[k])
    ensures Distinct(Folders)
  {
  }

  /** For a plain folder name the joined path is `clips/<folder>/<label>`. */
  lemma LabelDirShape(folder: string, labelId: int)
    requires PlainName(folder)
    ensures LabelDir(folder, labelId) == "clips" + "/" + (folder + "/" + IntToString(labelId))
  {
  }

  /** Below `|c|`, the path `c/d` holds the characters of `c`. */
  lemma CharOfHead(c: string, d: string, i: int)
    ensures 0 <= i < |c| ==> (c + "/" + d)[i] == c[i] && c[i] in c
  {
  }

  /** A path `a/b` with a slash-free `a` determines `a` and `b`. */
  lemma SlashCancel(a: string, b: string, c: string, d: string)
    requires '/' !in a && '/' !in c
    requires a + "/" + b == c + "/" + d
    ensures a == c && b == d
  {
    var p := a + "/" + b;
    assert p[|a|] == '/';
    assert p[|c|] == '/' by {
      assert (c + "/" + d)[|c|] == '/';
    }
    CharOfHead(c, d, |a|);
    CharOfHead(a, b, |c|);
    assert |a| == |c|;
    assert a == p[..|a|];
    assert c == (c + "/" + d)[..|c|];
    assert b == p[|a| + 1..];
    assert d == (c + "/" + d)[|c| + 1..];
  }

  /** Distinct folders or labels give distinct directories. */
  lemma LabelDirInjective(f1: string, i1: int, f2: string, i2: int)
    requires PlainName(f1) && PlainName(f2)
    requires LabelDir(f1, i1) == LabelDir(f2, i2)
    ensures f1 == f2 && i1 == i2
  {
    LabelDirShape(f1, i1);
    LabelDirShape(f2, i2);
    var s1, s2 := IntToString(i1), IntToString(i2);
    SlashCancel("clips", f1 + "/" + s1, "clips", f2 + "/" + s2);
    SlashCancel(f1, s1, f2, s2);
    IntToStringInjective(i1, i2);
  }

  /** The inner loop of `create_dirs`: `for i in range(n)` under one folder. */
  function FolderDirs(folder: string, n: int): (r: seq<string>)
    ensures |r| == if n > 0 then n else 0
    ensures forall i :: 0 <= i < |r| ==> r[i] == LabelDir(folder, i)
    decreases n
  {
    if n <= 0 then []
    else
      var front, last := FolderDirs(folder, n - 1), LabelDir(folder, n - 1);
      assert forall i :: 0 <= i < n - 1 ==> (front + [last])[i] == front[i];
      front + [last]
  }

  /** `p` is `clips/<f>/<i>` for one of `folders` and some `i` in `range(n)`. */
  predicate IsLabelDir(p: string, folders: seq<string>, n: int) {
    exists f, i | f in folders && 0 <= i < n :: p == LabelDir(f, i)
  }

  /** Both loops of `create_dirs`: for each folder, for each label below `n`. */
  function AllDirs(folders: seq<string>, n: int): (r: seq<string>)
    ensures |r| == |folders| * (if n > 0 then n else 0)
  {
    if |folders| == 0 then []
    else
      var m := if n > 0 then n else 0;
      assert |folders| * m == m + (|folders| - 1) * m;
      FolderDirs(folders[0], n) + AllDirs(folders[1..], n)
  }

  /** A path is made by the loops exactly when it is `clips/<f>/<i>` for one of
      the folders and a label in `range(n)`. */
  lemma {:induction false} AllDirsMembers(folders: seq<string>, n: int, p: string)
    ensures p in AllDirs(folders, n) <==> IsLabelDir(p, folders, n)
    decreases |folders|
  {
    if |folders| > 0 {
      var head, tail := FolderDirs(folders[0], n), AllDirs(folders[1..], n);
      assert AllDirs(folders, n) == head + tail;
      AllDirsMembers(folders[1..], n, p);
      if IsLabelDir(p, folders, n) {
        var f, i :| f in folders && 0 <= i < n && p == LabelDir(f, i);
        if f == folders[0] {
          assert head[i] == p;
        } else {
          assert f in folders[1..];
        }
      }
      if p in head {
        var i :| 0 <= i < |head| && head[i] == p;
        assert IsLabelDir(p, folders, n) by {
          assert folders[0] in folders && p == LabelDir(folders[0], i);
        }
      }
      if IsLabelDir(p, folders[1..], n) {
        var f, i :| f in folders[1..] && 0 <= i < n && p == LabelDir(f, i);
        assert f in folders;
      }
    }
  }

  /** The paths of `AllDirs` are pairwise distinct when the folders are plain
      and distinct. */
  lemma {:induction false} AllDirsDistinct(folders: seq<string>, n: int)
    requires forall k :: 0 <= k < |folders| ==> PlainName(folders[k])
    requires Distinct(folders)
    ensures Distinct(AllDirs(folders, n))
    decreases |folders|
  {
    if |folders| > 0 {
      var f := folders[0];
      var head, tail := FolderDirs(f, n), AllDirs(folders[1..], n);
      AllDirsDistinct(folders[1..], n);
      assert AllDirs(folders, n) == head + tail;
      forall a, b | 0 <= a < b < |head|
        ensures head[a] != head[b]
      {
        if head[a] == head[b] {
          LabelDirInjective(f, a, f, b);
        }
      }
      forall a, b | 0 <= a < |head| && 0 <= b < |tail|
        ensures head[a] != tail[b]
      {
        AllDirsMembers(folders[1..], n, tail[b]);
        var g, j :| g in folders[1..] && 0 <= j < n && tail[b] == LabelDir(g, j);
        var k :| 1 <= k < |folders| && folders[k] == g;
        if head[a] == tail[b] {
          LabelDirInjective(f, a, g, j);
        }
      }
    }
  }

  /** `create_dirs(limit, entries)` as written: line 72 loops over the
      module-level `label_limit`, passed here as `labelLimit`, and neither
      `limit` nor `entries` affects the result. */
  function CreateDirsAsWritten(limit: int, entries: Entries, labelLimit: int): (dirs: seq<string>)
    ensures |dirs| == 3 * (if labelLimit > 0 then labelLimit else 0)
    ensures forall p :: p in dirs <==> IsLabelDir(p, Folders, labelLimit)
    ensures Distinct(dirs)
  {
    FoldersPlain();
    forall p ensures p in AllDirs(Folders, labelLimit) <==> IsLabelDir(p, Folders, labelLimit) {
      AllDirsMembers(Folders, labelLimit, p);
    }
    AllDirsDistinct(Folders, labelLimit);
    AllDirs(Folders, labelLimit)
  }

  /** `create_dirs(limit, entries)` as its documentation describes it: one
      directory per split and per label in `range(limit)`. */
  function CreateDirs(limit: int, entries: Entries): (dirs: seq<string>)
    ensures |dirs| == 3 * (if limit > 0 then limit else 0)
    ensures forall p :: p in dirs <==> IsLabelDir(p, Folders, limit)
    ensures Distinct(dirs)
  {
    FoldersPlain();
    forall p ensures p in AllDirs(Folders, limit) <==> IsLabelDir(p, Folders, limit) {
      AllDirsMembers(Folders, limit, p);
    }
    AllDirsDistinct(Folders, limit);
    AllDirs(Folders, limit)
  }

  /** At the script's only call, `create_dirs(label_limit, entries)`, the
      two agree. */
  lemma CreateDirsAtCallSite(labelLimit: int, entries: Entries)
    ensures CreateDirsAsWritten(labelLimit, entries, labelLimit) == CreateDirs(labelLimit, entries)
  {
  }

  /** Called with a limit other than the module-level one, the code as written
      ignores it: `create_dirs(5, ...)` under `label_limit = 1` makes 3
      directories, not 15. */
  lemma CreateDirsIgnoresItsLimit(entries: Entries)
    ensures |CreateDirsAsWritten(5, entries, 1)| == 3
    ensures |CreateDirs(5, entries)| == 15
    ensures CreateDirsAsWritten(5, entries, 1) != CreateDirs(5, entries)
  {
  }

  /** With `label_limit = 1` the directories are exactly `clips/train_clips/0`,
      `clips/val_clips/0` and `clips/test_clips/0`. */
  lemma CreateDirsForOneLabel(entries: Entries)
    ensures CreateDirs(1, entries) == ["clips/train_clips/0", "clips/val_clips/0", "clips/test_clips/0"]
    ensures forall k :: 0 <= k < |Folders| ==> CreateDirs(1, entries)[k] == LabelDir(Folders[k], 0)
  {
    FoldersPlain();
    assert IntToString(0) == "0";
    LabelDirShape(Folders[0], 0);
    LabelDirShape(Folders[1], 0);
    LabelDirShape(Folders[2], 0);
    assert LabelDir(Folders[0], 0) == "clips/train_clips/0";
    assert LabelDir(Folders[1], 0) == "clips/val_clips/0";
    assert LabelDir(Folders[2], 0) == "clips/test_clips/0";
    assert FolderDirs(Folders[0], 1) == [LabelDir(Folders[0], 0)];
    assert FolderDirs(Folders[1], 1) == [LabelDir(Folders[1], 0)];
    assert FolderDirs(Folders[2], 1) == [LabelDir(Folders[2], 0)];
    assert AllDirs(Folders[3..], 1) == [];
    assert AllDirs(Folders[2..], 1) == FolderDirs(Folders[2], 1);
    assert AllDirs(Folders[1..], 1) == FolderDirs(Folders[1], 1) + AllDirs(Folders[2..], 1);
    assert AllDirs(Folders, 1) == FolderDirs(Folders[0], 1) + AllDirs(Folders[1..], 1);
  }
}
