/** How generated files are spread over directories, and the fixed-width names they get. */
module DatasetLayout {
  import opened Arithmetic
  import opened Common
  import opened Naming
  import opened DirTrees

  // Fixed-width numerals.

  function Zeros(n: nat): string {
    if n == 0 then "" else ['0'] + Zeros(n - 1)
  }

  /** `n` in decimal, padded with zeros to at least `width` characters. */
  function Padded(n: nat, width: nat): string {
    var s := Decimal(n);
    if |s| < width then Zeros(width - |s|) + s else s
  }

  /** Dictionary order. */
  ghost predicate Before(a: string, b: string) {
    exists k :: 0 <= k < |a| && k < |b| && a[..k] == b[..k] && a[k] < b[k]
  }

  lemma {:induction false} DecimalLengthMonotone(m: nat, n: nat)
    requires m <= n
    ensures |Decimal(m)| <= |Decimal(n)|
  {
    if m >= 10 {
      DecimalLengthMonotone(m / 10, n / 10);
    } else {
      DecimalIsDigits(n);
    }
  }

  lemma {:induction false} ZerosAreZero(n: nat)
    ensures |Zeros(n)| == n && IsDigits(Zeros(n)) && Numeral(Zeros(n)) == 0
  {
    if n > 0 {
      ZerosAreZero(n - 1);
      ZerosFromTheRight(n);
    }
  }

  lemma {:induction false} ZerosFromTheRight(n: nat)
    requires n > 0
    ensures Zeros(n) == Zeros(n - 1) + ['0']
  {
    if n > 1 {
      ZerosFromTheRight(n - 1);
    }
  }

  lemma {:induction false} LeadingZeros(n: nat, s: string)
    ensures Numeral(Zeros(n) + s) == Numeral(s)
  {
    var z := Zeros(n);
    if s == "" {
      ZerosAreZero(n);
      assert z + s == z;
    } else {
      var short := s[..|s| - 1];
      LeadingZeros(n, short);
      assert (z + s)[..|z + s| - 1] == z + short;
    }
  }

  /** A numeral padded to a width it fits has exactly that width and still reads as itself. */
  lemma PaddedReadsBack(n: nat, width: nat)
    requires |Decimal(n)| <= width
    ensures |Padded(n, width)| == width && IsDigits(Padded(n, width)) && Numeral(Padded(n, width)) == n
  {
    DecimalIsDigits(n);
    DecimalRoundTrip(n);
    PaddedIsDigits(Decimal(n), width - |Decimal(n)|);
    assert Zeros(0) + Decimal(n) == Decimal(n);
  }

  lemma PaddedIsDigits(s: string, zeros: nat)
    requires IsDigits(s)
    ensures |Zeros(zeros) + s| == zeros + |s| && IsDigits(Zeros(zeros) + s) && Numeral(Zeros(zeros) + s) == Numeral(s)
  {
    ZerosAreZero(zeros);
    LeadingZeros(zeros, s);
  }

  /** Among numerals of one length, dictionary order is numeric order. */
  lemma {:induction false} SmallerNumeralBefore(a: string, b: string)
    requires IsDigits(a) && IsDigits(b) && |a| == |b|
    ensures Numeral(a) < Numeral(b) ==> Before(a, b)
    ensures Numeral(a) == Numeral(b) ==> a == b
    decreases |a|
  {
    if a != "" {
      var n := |a| - 1;
      var x, y := a[..n], b[..n];
      SmallerNumeralBefore(x, y);
      SmallerNumeralBefore(y, x);
      if Numeral(a) < Numeral(b) {
        if Numeral(x) < Numeral(y) {
          var k :| 0 <= k < n && x[..k] == y[..k] && x[k] < y[k];
          assert a[..k] == x[..k] && b[..k] == y[..k];
        } else {
          assert x == y && a[n] < b[n];
        }
      } else if Numeral(a) == Numeral(b) {
        assert a == x + [a[n]] && b == y + [b[n]];
      }
    }
  }

  /** The fixed-width names of 1..count: distinct, and sorted by name as they are by number. */
  lemma PaddedNamesInOrder(i: nat, j: nat, count: nat)
    requires 1 <= i < j <= count
    ensures var width := |Decimal(count)|;
            && |Padded(i, width)| == |Padded(j, width)| == width
            && Before(Padded(i, width), Padded(j, width))
            && Padded(i, width) != Padded(j, width)
  {
    var width := |Decimal(count)|;
    DecimalLengthMonotone(i, count);
    DecimalLengthMonotone(j, count);
    PaddedReadsBack(i, width);
    PaddedReadsBack(j, width);
    SmallerNumeralBefore(Padded(i, width), Padded(j, width));
  }

  // The split over directories.

  /** Quotient rounded up. */
  function CeilDiv(n: nat, d: nat): nat
    requires d > 0
  {
    (n + d - 1) / d
  }

  /** The number of directories asked for; none if the two parameters contradict each other. */
  function ResolveNumDirs(numFiles: nat, numDirs: Option<nat>, filesPerDir: Option<nat>): Option<nat>
    requires filesPerDir.Some? ==> filesPerDir.value > 0
  {
    match (numDirs, filesPerDir)
    case (Some(dirs), Some(perDir)) => if CeilDiv(numFiles, perDir) != dirs then None else Some(dirs)
    case (Some(dirs), None) => Some(dirs)
    case (None, Some(perDir)) => Some(CeilDiv(numFiles, perDir))
    case (None, None) => Some(1)
  }

  lemma CeilDivIsCeiling(n: nat, d: nat, c: nat)
    requires d > 0
    ensures CeilDiv(n, d) == c <==> (c - 1) * d < n <= c * d
  {
    var e, m := CeilDiv(n, d), n + d - 1;
    Division(m, d);
    assert (e - 1) * d == e * d - d;
    assert (c - 1) * d == c * d - d;
    if e < c {
      Multiples(e, c - 1, d);
    } else if c < e {
      Multiples(c, e - 1, d);
    }
  }

  /**
   The number of directories meets what is asked for: the number given, if one is; the
   least number that keeps the limit, if there is one; and one if nothing is asked for.
   */
  lemma ResolvesExactly(numFiles: nat, numDirs: Option<nat>, filesPerDir: Option<nat>, dirs: nat)
    requires filesPerDir.Some? ==> filesPerDir.value > 0
    ensures ResolveNumDirs(numFiles, numDirs, filesPerDir) == Some(dirs)
       <==> && (numDirs.Some? ==> dirs == numDirs.value)
            && (filesPerDir.Some? ==> (dirs - 1) * filesPerDir.value < numFiles <= dirs * filesPerDir.value)
            && (numDirs == None && filesPerDir == None ==> dirs == 1)
  {
    if filesPerDir.Some? {
      CeilDivIsCeiling(numFiles, filesPerDir.value, dirs);
    }
  }

  /** How many files directory `d` gets: the quotient, and one more in the first directories. */
  function DirSize(numFiles: nat, numDirs: nat, d: nat): nat
    requires numDirs > 0
  {
    numFiles / numDirs + if d < numFiles % numDirs then 1 else 0
  }

  /** The first file of directory `d`. */
  function DirStart(numFiles: nat, numDirs: nat, d: nat): nat
    requires numDirs > 0
  {
    if d == 0 then 0 else DirStart(numFiles, numDirs, d - 1) + DirSize(numFiles, numDirs, d - 1)
  }

  lemma {:induction false} DirStartClosedForm(numFiles: nat, numDirs: nat, d: nat)
    requires numDirs > 0
    ensures var r := numFiles % numDirs;
            DirStart(numFiles, numDirs, d) == d * (numFiles / numDirs) + if d < r then d else r
  {
    if d > 0 {
      DirStartClosedForm(numFiles, numDirs, d - 1);
      var q := numFiles / numDirs;
      assert d * q == (d - 1) * q + q;
    }
  }

  /** The directories take up all files between them. */
  lemma AllFilesPlaced(numFiles: nat, numDirs: nat)
    requires numDirs > 0
    ensures DirStart(numFiles, numDirs, numDirs) == numFiles
  {
    DirStartClosedForm(numFiles, numDirs, numDirs);
  }

  /** The ceiling: enough directories for all files, and one fewer would not do. */
  lemma CeilDivBounds(n: nat, d: nat)
    requires n > 0 && d > 0
    ensures var c := CeilDiv(n, d); 1 <= c && n <= c * d && (c - 1) * d < n
  {
    var c, m := CeilDiv(n, d), n + d - 1;
    assert m == m / d * d + m % d;
    assert (c - 1) * d == c * d - d;
  }

  /**
   With a limit on files per directory, whichever number of directories is accepted leaves no
   directory empty and none above the limit; only the rounded-up quotient is accepted.
   */
  lemma LimitKept(numFiles: nat, numDirs: Option<nat>, filesPerDir: nat, d: nat)
    requires numFiles > 0 && filesPerDir > 0
    ensures var resolved := ResolveNumDirs(numFiles, numDirs, Some(filesPerDir));
            if resolved == None then numDirs.Some? && numDirs.value != CeilDiv(numFiles, filesPerDir)
            else resolved.value > 0 && 1 <= DirSize(numFiles, resolved.value, d) <= filesPerDir
  {
    CeilDivBounds(numFiles, filesPerDir);
    QuotientWithin(numFiles, CeilDiv(numFiles, filesPerDir), filesPerDir);
  }

  lemma QuotientWithin(n: nat, dirs: nat, limit: nat)
    requires 0 < dirs && 0 < limit && n <= dirs * limit && (dirs - 1) * limit < n
    ensures 1 <= n / dirs
    ensures n / dirs + (if n % dirs == 0 then 0 else 1) <= limit
  {
    Division(n, dirs);
    DivisionWithin(n, dirs, limit, n / dirs, n % dirs);
  }

  lemma DivisionWithin(n: nat, dirs: nat, limit: nat, q: nat, r: nat)
    requires 0 < dirs && 0 < limit && n <= dirs * limit && (dirs - 1) * limit < n
    requires n == dirs * q + r && r < dirs
    ensures 1 <= q && q + (if r == 0 then 0 else 1) <= limit
  {
    Multiples(1, limit, dirs - 1);
    if q > limit {
      Multiples(limit + 1, q, dirs);
    }
  }

  function DirName(numDirs: nat, d: nat): string {
    "dir_" + Padded(d + 1, |Decimal(numDirs)|)
  }

  function DirPath(target: Path, numDirs: nat, d: nat): Path {
    if numDirs > 1 then target + [DirName(numDirs, d)] else target
  }

  function FileName(numFiles: nat, k: nat, extension: string): string {
    "file_" + Padded(k + 1, |Decimal(numFiles)|) + "." + extension
  }

  /** File `k` belongs to directory `d`. */
  predicate InDir(numFiles: nat, numDirs: nat, d: nat, k: nat)
    requires numDirs > 0
  {
    DirStart(numFiles, numDirs, d) <= k < DirStart(numFiles, numDirs, d + 1)
  }

  lemma {:induction false} StartWithin(numFiles: nat, numDirs: nat, d: nat)
    requires 0 < numDirs && d <= numDirs
    ensures DirStart(numFiles, numDirs, d) <= numFiles
    decreases numDirs - d
  {
    if d == numDirs {
      AllFilesPlaced(numFiles, numDirs);
    } else {
      StartWithin(numFiles, numDirs, d + 1);
    }
  }

  /** Every file belongs to exactly one directory. */
  lemma {:induction false} OneDirEach(numFiles: nat, numDirs: nat, k: nat) returns (d: nat)
    requires 0 < numDirs && k < numFiles
    ensures d < numDirs && InDir(numFiles, numDirs, d, k)
    ensures forall e: nat :: InDir(numFiles, numDirs, e, k) ==> e == d
  {
    AllFilesPlaced(numFiles, numDirs);
    d := 0;
    while DirStart(numFiles, numDirs, d + 1) <= k
      invariant d < numDirs && DirStart(numFiles, numDirs, d) <= k
      decreases numDirs - d
    {
      d := d + 1;
    }
    forall e: nat | InDir(numFiles, numDirs, e, k)
      ensures e == d
    {
      if e < d {
        StartMonotone(numFiles, numDirs, e + 1, d);
      } else if d < e {
        StartMonotone(numFiles, numDirs, d + 1, e);
      }
    }
  }

  lemma {:induction false} StartMonotone(numFiles: nat, numDirs: nat, c: nat, d: nat)
    requires 0 < numDirs && c <= d
    ensures DirStart(numFiles, numDirs, c) <= DirStart(numFiles, numDirs, d)
    decreases d
  {
    if c < d {
      StartMonotone(numFiles, numDirs, c, d - 1);
    }
  }

  /** The path of file `k` in directory `d`. */
  function FilePath(target: Path, numFiles: nat, numDirs: nat, d: nat, k: nat, extension: string): Path {
    DirPath(target, numDirs, d) + [FileName(numFiles, k, extension)]
  }

  /** The files of one directory, numbered on from `first`. */
  method LayOutDir(dirPath: Path, numFiles: nat, first: nat, count: nat,
                   extensions: seq<string>) returns (paths: seq<Path>)
    requires first + count <= numFiles == |extensions|
    ensures |paths| == count
    ensures forall i :: 0 <= i < count ==> paths[i] == dirPath + [FileName(numFiles, first + i, extensions[first + i])]
  {
    paths := [];
    for i := 0 to count
      invariant |paths| == i
      invariant forall j :: 0 <= j < i ==> paths[j] == dirPath + [FileName(numFiles, first + j, extensions[first + j])]
    {
      paths := paths + [dirPath + [FileName(numFiles, first + i, extensions[first + i])]];
    }
  }

  /** The files of the first `dirs` directories are listed, each in the directory it belongs to. */
  ghost predicate LaidOut(paths: seq<Path>, target: Path, numFiles: nat, numDirs: nat, extensions: seq<string>,
                          dirs: nat)
    requires numDirs > 0 && |extensions| == numFiles
  {
    && |paths| == DirStart(numFiles, numDirs, dirs) <= numFiles
    && forall d, k :: 0 <= d < dirs && 0 <= k < |paths| && InDir(numFiles, numDirs, d, k) ==>
         paths[k] == FilePath(target, numFiles, numDirs, d, k, extensions[k])
  }

  lemma LaidOutNext(paths: seq<Path>, target: Path, numFiles: nat, numDirs: nat, extensions: seq<string>, dirs: nat,
                    more: seq<Path>)
    requires dirs < numDirs && |extensions| == numFiles
    requires LaidOut(paths, target, numFiles, numDirs, extensions, dirs)
    requires |more| == DirSize(numFiles, numDirs, dirs) && |paths| + |more| <= numFiles
    requires forall i :: 0 <= i < |more| ==>
      more[i] == FilePath(target, numFiles, numDirs, dirs, |paths| + i, extensions[|paths| + i])
    ensures LaidOut(paths + more, target, numFiles, numDirs, extensions, dirs + 1)
  {
    var all := paths + more;
    forall d, k | 0 <= d < dirs + 1 && 0 <= k < |all| && InDir(numFiles, numDirs, d, k)
      ensures all[k] == FilePath(target, numFiles, numDirs, d, k, extensions[k])
    {
      if d < dirs {
        StartMonotone(numFiles, numDirs, d + 1, dirs);
        assert all[k] == paths[k];
      } else {
        assert all[k] == more[k - |paths|];
      }
    }
  }

  /** Every file has its path in the directory it belongs to. */
  ghost predicate IsLayout(paths: seq<Path>, target: Path, numFiles: nat, numDirs: nat, extensions: seq<string>) {
    && numDirs > 0 && |paths| == |extensions| == numFiles
    && forall d, k :: 0 <= d < numDirs && 0 <= k < numFiles && InDir(numFiles, numDirs, d, k) ==>
         paths[k] == FilePath(target, numFiles, numDirs, d, k, extensions[k])
  }

  /** Lists the files to generate, directory by directory: each file in the directory it belongs to. */
  method LayOut(target: Path, numFiles: nat, numDirs: nat, extensions: seq<string>) returns (paths: seq<Path>)
    requires numDirs > 0 && |extensions| == numFiles
    ensures IsLayout(paths, target, numFiles, numDirs, extensions)
  {
    var filesInDir, extraFiles := numFiles / numDirs, numFiles % numDirs;
    paths := [];
    for d := 0 to numDirs
      invariant LaidOut(paths, target, numFiles, numDirs, extensions, d)
    {
      StartWithin(numFiles, numDirs, d + 1);
      var inDir := filesInDir + if d < extraFiles then 1 else 0;
      assert inDir == DirSize(numFiles, numDirs, d);
      var more := LayOutDir(DirPath(target, numDirs, d), numFiles, |paths|, inDir, extensions);
      LaidOutNext(paths, target, numFiles, numDirs, extensions, d, more);
      paths := paths + more;
    }
    AllFilesPlaced(numFiles, numDirs);
  }

  lemma NamesDiffer(a: string, b: string, ext1: string, ext2: string)
    requires |a| == |b| && a != b
    ensures "file_" + a + "." + ext1 != "file_" + b + "." + ext2
  {
    MiddlePart("file_", a, ".", ext1);
    MiddlePart("file_", b, ".", ext2);
  }

  lemma MiddlePart(a: string, b: string, c: string, d: string)
    ensures (a + b + c + d)[|a|..|a| + |b|] == b
  {
  }

  /** File names differ whatever their extensions, so no two generated files share a path. */
  lemma FileNamesDistinct(numFiles: nat, j: nat, k: nat, ext1: string, ext2: string)
    requires j < k < numFiles
    ensures FileName(numFiles, j, ext1) != FileName(numFiles, k, ext2)
  {
    PaddedNamesInOrder(j + 1, k + 1, numFiles);
    var width := |Decimal(numFiles)|;
    NamesDiffer(Padded(j + 1, width), Padded(k + 1, width), ext1, ext2);
  }
}
