/** What the generated layout looks like: which files share a directory, and how everything is named. */
module LayoutPlaces {
  import opened Common
  import opened Naming
  import opened DirTrees
  import opened Moves
  import opened DatasetLayout

  /** `s` is a prefix followed by the decimal digits of `n`, padded to a width, and the rest. */
  ghost predicate SpellsNumber(s: string, prefix: string, n: nat, width: nat, rest: string) {
    && |s| == |prefix| + width + |rest|
    && s[..|prefix|] == prefix
    && IsDigits(s[|prefix|..|prefix| + width]) && Numeral(s[|prefix|..|prefix| + width]) == n
    && s[|prefix| + width..] == rest
  }

  lemma PaddedSpells(prefix: string, n: nat, most: nat, rest: string)
    requires n <= most
    ensures SpellsNumber(prefix + Padded(n, |Decimal(most)|) + rest, prefix, n, |Decimal(most)|, rest)
  {
    DecimalLengthMonotone(n, most);
    PaddedReadsBack(n, |Decimal(most)|);
    var s := prefix + Padded(n, |Decimal(most)|) + rest;
    assert s[|prefix|..|prefix| + |Decimal(most)|] == Padded(n, |Decimal(most)|);
  }

  lemma FileNameSpells(numFiles: nat, k: nat, extension: string)
    requires k < numFiles
    ensures SpellsNumber(FileName(numFiles, k, extension), "file_", k + 1, |Decimal(numFiles)|, "." + extension)
  {
    var padded := Padded(k + 1, |Decimal(numFiles)|);
    FourParts("file_", padded, ".", extension);
    PaddedSpells("file_", k + 1, numFiles, "." + extension);
  }

  lemma FourParts(a: string, b: string, c: string, d: string)
    ensures a + b + c + d == a + b + (c + d)
  {
  }

  lemma DirNameSpells(numDirs: nat, d: nat)
    requires d < numDirs
    ensures SpellsNumber(DirName(numDirs, d), "dir_", d + 1, |Decimal(numDirs)|, "")
  {
    PaddedSpells("dir_", d + 1, numDirs, "");
    assert DirName(numDirs, d) + "" == DirName(numDirs, d);
  }

  /**
   With several directories a path is the target, the directory by its number, and the file
   by its number; with one it is the target and the file.
   */
  lemma PathSpells(paths: seq<Path>, target: Path, numFiles: nat, numDirs: nat, extensions: seq<string>, d: nat, k: nat)
    requires IsLayout(paths, target, numFiles, numDirs, extensions)
    requires d < numDirs && k < numFiles && InDir(numFiles, numDirs, d, k)
    ensures exists dir, file ::
              && SpellsNumber(dir, "dir_", d + 1, |Decimal(numDirs)|, "")
              && SpellsNumber(file, "file_", k + 1, |Decimal(numFiles)|, "." + extensions[k])
              && paths[k] == target + if numDirs > 1 then [dir, file] else [file]
  {
    var dir, file := DirName(numDirs, d), FileName(numFiles, k, extensions[k]);
    DirNameSpells(numDirs, d);
    FileNameSpells(numFiles, k, extensions[k]);
    assert target + [dir] + [file] == target + [dir, file];
  }

  lemma PrefixedBefore(prefix: string, a: string, b: string)
    requires Before(a, b)
    ensures Before(prefix + a, prefix + b)
  {
    var k :| 0 <= k < |a| && k < |b| && a[..k] == b[..k] && a[k] < b[k];
    var n := |prefix| + k;
    assert (prefix + a)[..n] == prefix + a[..k] && (prefix + b)[..n] == prefix + b[..k];
    assert (prefix + a)[n] == a[k] && (prefix + b)[n] == b[k];
  }

  lemma BeforeDiffers(a: string, b: string)
    requires Before(a, b)
    ensures a != b
  {
  }

  lemma DirNamesInOrder(numDirs: nat, d: nat, e: nat)
    requires d < e < numDirs
    ensures Before(DirName(numDirs, d), DirName(numDirs, e))
  {
    PrefixedInOrder("dir_", d + 1, e + 1, numDirs);
  }

  lemma PrefixedInOrder(prefix: string, i: nat, j: nat, count: nat)
    requires 1 <= i < j <= count
    ensures Before(prefix + Padded(i, |Decimal(count)|), prefix + Padded(j, |Decimal(count)|))
  {
    PaddedNamesInOrder(i, j, count);
    PrefixedBefore(prefix, Padded(i, |Decimal(count)|), Padded(j, |Decimal(count)|));
  }

  lemma DirPathsInOrder(target: Path, numDirs: nat, d: nat, e: nat)
    requires d < e < numDirs
    ensures Before(BaseName(DirPath(target, numDirs, d)), BaseName(DirPath(target, numDirs, e)))
    ensures DirPath(target, numDirs, d) != DirPath(target, numDirs, e)
  {
    DirNamesInOrder(numDirs, d, e);
    BeforeDiffers(DirName(numDirs, d), DirName(numDirs, e));
  }

  lemma ParentOfFile(paths: seq<Path>, target: Path, numFiles: nat, numDirs: nat, extensions: seq<string>,
                     d: nat, k: nat)
    requires IsLayout(paths, target, numFiles, numDirs, extensions)
    requires d < numDirs && k < numFiles && InDir(numFiles, numDirs, d, k)
    ensures Parent(paths[k]) == DirPath(target, numDirs, d)
    ensures if numDirs == 1 then Parent(paths[k]) == target else Parent(Parent(paths[k])) == target
  {
    if numDirs > 1 {
      assert Parent(DirPath(target, numDirs, d)) == target;
    }
  }

  /** Files share a directory exactly if they belong to the same one, and directories sort by name as by number. */
  lemma DirsApart(paths: seq<Path>, target: Path, numFiles: nat, numDirs: nat, extensions: seq<string>, j: nat, k: nat)
    returns (d: nat, e: nat)
    requires IsLayout(paths, target, numFiles, numDirs, extensions) && j < numFiles && k < numFiles
    ensures d < numDirs && InDir(numFiles, numDirs, d, j)
    ensures e < numDirs && InDir(numFiles, numDirs, e, k)
    ensures Parent(paths[j]) == Parent(paths[k]) <==> d == e
    ensures d < e ==> Before(BaseName(Parent(paths[j])), BaseName(Parent(paths[k])))
  {
    d := OneDirEach(numFiles, numDirs, j);
    e := OneDirEach(numFiles, numDirs, k);
    ParentOfFile(paths, target, numFiles, numDirs, extensions, d, j);
    ParentOfFile(paths, target, numFiles, numDirs, extensions, e, k);
    if d < e {
      DirPathsInOrder(target, numDirs, d, e);
    } else if e < d {
      DirPathsInOrder(target, numDirs, e, d);
    }
  }

  /** The files of a layout that lie in a directory. */
  function FilesIn(paths: seq<Path>, dir: Path): set<nat> {
    set k: nat | k < |paths| && Parent(paths[k]) == dir
  }

  function Interval(low: nat, high: nat): set<nat>
    decreases high
  {
    if low < high then Interval(low, high - 1) + {high - 1} else {}
  }

  lemma {:induction false} IntervalSize(low: nat, high: nat)
    requires low <= high
    ensures |Interval(low, high)| == high - low
    ensures forall k: nat :: k in Interval(low, high) <==> low <= k < high
    decreases high
  {
    if low < high {
      IntervalSize(low, high - 1);
    }
  }

  lemma InDirExactly(paths: seq<Path>, target: Path, numFiles: nat, numDirs: nat, extensions: seq<string>,
                     d: nat, k: nat)
    requires IsLayout(paths, target, numFiles, numDirs, extensions) && d < numDirs && k < numFiles
    ensures Parent(paths[k]) == DirPath(target, numDirs, d) <==> InDir(numFiles, numDirs, d, k)
  {
    var e := OneDirEach(numFiles, numDirs, k);
    ParentOfFile(paths, target, numFiles, numDirs, extensions, e, k);
    if e < d {
      DirPathsInOrder(target, numDirs, e, d);
    } else if d < e {
      DirPathsInOrder(target, numDirs, d, e);
    }
  }

  /** Each directory holds its number of files. */
  lemma DirHolds(paths: seq<Path>, target: Path, numFiles: nat, numDirs: nat, extensions: seq<string>, d: nat)
    requires IsLayout(paths, target, numFiles, numDirs, extensions) && d < numDirs
    ensures |FilesIn(paths, DirPath(target, numDirs, d))| == DirSize(numFiles, numDirs, d)
  {
    var low, high := DirStart(numFiles, numDirs, d), DirStart(numFiles, numDirs, d + 1);
    StartWithin(numFiles, numDirs, d + 1);
    forall k: nat | k < numFiles
      ensures Parent(paths[k]) == DirPath(target, numDirs, d) <==> low <= k < high
    {
      InDirExactly(paths, target, numFiles, numDirs, extensions, d, k);
    }
    IntervalSize(low, high);
    assert FilesIn(paths, DirPath(target, numDirs, d)) == Interval(low, high);
  }

  /** With a limit on files per directory, no directory whatsoever holds more of the files. */
  lemma LimitKeptOnDisk(paths: seq<Path>, target: Path, numFiles: nat, numDirs: nat, extensions: seq<string>,
                        asked: Option<nat>, filesPerDir: nat, dir: Path)
    requires IsLayout(paths, target, numFiles, numDirs, extensions) && filesPerDir > 0
    requires ResolveNumDirs(numFiles, asked, Some(filesPerDir)) == Some(numDirs)
    ensures |FilesIn(paths, dir)| <= filesPerDir
  {
    if k :| k in FilesIn(paths, dir) {
      var d := OneDirEach(numFiles, numDirs, k);
      ParentOfFile(paths, target, numFiles, numDirs, extensions, d, k);
      DirHolds(paths, target, numFiles, numDirs, extensions, d);
      LimitKept(numFiles, asked, filesPerDir, d);
    } else {
      assert FilesIn(paths, dir) == {};
    }
  }
}
