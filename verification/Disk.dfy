/** The disk the reorganiser changes in place: the directories it makes, the moves, and the clean-up. */
module Disk {
  import opened Common
  import opened DirTrees
  import opened Moves
  import opened FileSystems

  /** Every place a walk along the first `n` components of `d` comes by. */
  function WalkedTo(d: Path, n: nat): set<Path>
    requires n <= |d|
  {
    set k | 0 <= k <= n :: Resolve(d[..k])
  }

  function Walked(d: Path): set<Path> {
    WalkedTo(d, |d|)
  }

  function AllWalked(ds: set<Path>): set<Path> {
    set d, p | d in ds && p in Walked(d) :: p
  }

  lemma AllWalkedAnd(ds: set<Path>, d: Path)
    ensures AllWalked(ds + {d}) == AllWalked(ds) + Walked(d)
  {
  }

  /** Every directory the moves need on the way to their targets. */
  function DirsNeeded(moves: seq<Move>): set<Path> {
    AllWalked(TargetDirs(moves))
  }

  function TargetDirs(moves: seq<Move>): set<Path> {
    set m | m in moves :: Parent(m.target)
  }

  /** The same moves between places on disk. */
  function OnDisk(moves: seq<Move>): (r: seq<Move>)
    ensures |r| == |moves|
    ensures forall i :: 0 <= i < |r| ==> r[i].source == moves[i].source && r[i].target == Resolve(moves[i].target)
  {
    if moves == [] then []
    else [moves[0].(target := Resolve(moves[0].target))] + OnDisk(moves[1..])
  }

  lemma WalkedStep(d: Path, k: nat)
    requires k < |d|
    ensures WalkedTo(d, k + 1) == WalkedTo(d, k) + {Resolve(d[..k + 1])}
    ensures Resolve(d[..k + 1]) == if d[k] == ".." then Parent(Resolve(d[..k])) else Resolve(d[..k]) + [d[k]]
  {
    assert Parent(d[..k + 1]) == d[..k];
  }

  lemma MkdirStep(files: Files, before: set<Path>, dirs: set<Path>, d: Path, k: nat)
    requires WellFormed(files, dirs) && k < |d| && dirs == before + WalkedTo(d, k)
    requires files.Keys !! WalkedTo(d, k) && Resolve(d[..k + 1]) !in files
    ensures var dirs' := dirs + {Resolve(d[..k + 1])};
            WellFormed(files, dirs') && dirs' == before + WalkedTo(d, k + 1) && files.Keys !! WalkedTo(d, k + 1)
  {
    WalkedStep(d, k);
    HereWalked(d, k);
    StepFits(files, dirs, Resolve(d[..k]), d[k], Resolve(d[..k + 1]));
  }

  lemma HereWalked(d: Path, k: nat)
    requires k <= |d|
    ensures Resolve(d[..k]) in WalkedTo(d, k)
  {
  }

  /** From a directory one may step back up, or into a directory made there. */
  lemma StepFits(files: Files, dirs: set<Path>, here: Path, name: string, next: Path)
    requires WellFormed(files, dirs) && here in dirs && next !in files
    requires next == if name == ".." then Parent(here) else here + [name]
    ensures WellFormed(files, dirs + {next})
  {
    if name == ".." {
      assert dirs + {next} == dirs;
    } else {
      assert Parent(next) == here && BaseName(next) == name;
    }
  }

  /** Without ".." a walk comes by the prefixes. */
  lemma PlainWalk(d: Path, p: Path)
    requires forall k :: 0 <= k < |d| ==> d[k] != ".."
    ensures p in Walked(d) <==> p <= d
  {
    forall k | 0 <= k <= |d|
      ensures Resolve(d[..k]) == d[..k]
    {
      PlainPathsResolve(d[..k]);
    }
    assert p <= d ==> p == d[..|p|];
  }

  /** `p` lies strictly below `root`. */
  predicate IsBelow(root: Path, p: Path) {
    root < p
  }

  /** A file lies somewhere below `d`. */
  ghost predicate HoldsFile(files: Files, d: Path) {
    exists f :: f in files && IsBelow(d, f)
  }

  ghost predicate DeepestFirst(paths: seq<Path>) {
    forall i, j :: 0 <= i < j < |paths| ==> |paths[i]| >= |paths[j]|
  }

  predicate IsEmptyDir(files: Files, dirs: set<Path>, d: Path) {
    d in dirs && forall p :: p in files.Keys + dirs && p != [] ==> Parent(p) != d
  }

  /** The entries below `root`, deeper ones first. */
  ghost predicate IsListing(files: Files, dirs: set<Path>, root: Path, paths: seq<Path>) {
    && DeepestFirst(paths)
    && forall p :: p in paths <==> (p in files || p in dirs) && IsBelow(root, p)
  }

  lemma {:induction false} DeepestExists(paths: set<Path>) returns (p: Path)
    requires paths != {}
    ensures p in paths && forall q :: q in paths ==> |q| <= |p|
    decreases paths
  {
    p :| p in paths;
    if paths != {p} {
      var rest := DeepestExists(paths - {p});
      p := if |rest| > |p| then rest else p;
    }
  }

  /** A directory with a file somewhere below has an entry that is a file or holds one. */
  lemma EntryTowardsFile(files: Files, dirs: set<Path>, d: Path) returns (p: Path)
    requires WellFormed(files, dirs) && HoldsFile(files, d)
    ensures p != [] && Parent(p) == d && (p in files || (p in dirs && HoldsFile(files, p)))
  {
    var f :| f in files && IsBelow(d, f);
    p := f[..|d| + 1];
    if p != f {
      PrefixesAreDirs(files, dirs, f, p);
      assert IsBelow(p, f);
    }
  }

  /** The first `i` listed entries have been looked at: of their directories, those with files are left. */
  ghost predicate Swept(files: Files, before: set<Path>, dirs: set<Path>, paths: seq<Path>, i: nat)
    requires i <= |paths|
  {
    forall d :: d in dirs <==> d in before && (d in paths[..i] ==> HoldsFile(files, d))
  }

  /**
   Bottom up, a directory is found empty exactly when no file lies below it: its
   subdirectories without files went before it.
   */
  lemma EmptyExactly(files: Files, before: set<Path>, dirs: set<Path>, root: Path, paths: seq<Path>, i: nat)
    requires WellFormed(files, before) && IsListing(files, before, root, paths) && i < |paths|
    requires Swept(files, before, dirs, paths, i)
    ensures IsEmptyDir(files, dirs, paths[i]) <==> paths[i] in dirs && !HoldsFile(files, paths[i])
  {
    if HoldsFile(files, paths[i]) {
      var p := EntryTowardsFile(files, before, paths[i]);
      assert p in files.Keys + dirs;
    } else {
      forall p | p in files.Keys + dirs && p != []
        ensures Parent(p) != paths[i]
      {
        if Parent(p) == paths[i] {
          EntryMeansFile(files, before, dirs, root, paths, i, p);
        }
      }
    }
  }

  lemma EntryMeansFile(files: Files, before: set<Path>, dirs: set<Path>, root: Path, paths: seq<Path>, i: nat, p: Path)
    requires IsListing(files, before, root, paths) && i < |paths|
    requires Swept(files, before, dirs, paths, i)
    requires p in files.Keys + dirs && p != [] && Parent(p) == paths[i]
    ensures HoldsFile(files, paths[i])
  {
    assert IsBelow(paths[i], p);
    if p !in files {
      DeeperFirst(files, before, root, paths, i, p);
      var f :| f in files && IsBelow(p, f);
      assert IsBelow(paths[i], f);
    }
  }

  lemma DeeperFirst(files: Files, dirs: set<Path>, root: Path, paths: seq<Path>, i: nat, p: Path)
    requires IsListing(files, dirs, root, paths) && i < |paths|
    requires p in dirs && IsBelow(paths[i], p)
    ensures p in paths[..i]
  {
    assert paths[i] in paths;
    assert IsBelow(root, p);
    var j :| 0 <= j < |paths| && paths[j] == p;
    assert j < i;
  }

  lemma SweepStep(files: Files, before: set<Path>, dirs: set<Path>, root: Path, paths: seq<Path>, i: nat)
    requires WellFormed(files, before) && WellFormed(files, dirs)
    requires IsListing(files, before, root, paths) && i < |paths| && Swept(files, before, dirs, paths, i)
    ensures var dirs' := if IsEmptyDir(files, dirs, paths[i]) then dirs - {paths[i]} else dirs;
            WellFormed(files, dirs') && Swept(files, before, dirs', paths, i + 1)
  {
    EmptyExactly(files, before, dirs, root, paths, i);
    assert paths[..i + 1] == paths[..i] + [paths[i]];
    if IsEmptyDir(files, dirs, paths[i]) {
      assert paths[i] in paths;
      EmptyDirRemoved(files, dirs, paths[i]);
    }
  }

  lemma EmptyDirRemoved(files: Files, dirs: set<Path>, d: Path)
    requires WellFormed(files, dirs) && IsEmptyDir(files, dirs, d) && d != []
    ensures WellFormed(files, dirs - {d})
  {
  }

  class FileSystem {
    var files: Files
    var dirs: set<Path>

    ghost predicate Valid()
      reads this
    {
      WellFormed(files, dirs)
    }

    /**
     Makes a directory and its missing parents, in the order in which the path walks by them.
     An existing directory is fine; a file in the way stops it there.
     */
    method Mkdir(d: Path) returns (ok: bool)
      requires Valid()
      modifies this`dirs
      ensures Valid()
      ensures ok <==> files.Keys !! Walked(d)
      ensures ok ==> dirs == old(dirs) + Walked(d)
      ensures !ok ==> exists k :: 0 < k <= |d| && Resolve(d[..k]) in files && dirs == old(dirs) + WalkedTo(d, k - 1)
      ensures old(dirs) <= dirs <= old(dirs) + Walked(d)
    {
      assert Resolve(d[..0]) == [];
      for k := 0 to |d|
        invariant Valid() && dirs == old(dirs) + WalkedTo(d, k) && files.Keys !! WalkedTo(d, k)
      {
        var next := Resolve(d[..k + 1]);
        if next in files {
          assert next in Walked(d);
          return false;
        }
        MkdirStep(files, old(dirs), dirs, d, k);
        dirs := dirs + {next};
      }
      return true;
    }

    /** Makes the directory of every target, in any order; stops at the first that cannot be made. */
    method MakeDirs(moves: seq<Move>) returns (ok: bool)
      requires Valid()
      modifies this`dirs
      ensures Valid()
      ensures ok <==> files.Keys !! DirsNeeded(moves)
      ensures ok ==> dirs == old(dirs) + DirsNeeded(moves)
      ensures old(dirs) <= dirs <= old(dirs) + DirsNeeded(moves)
    {
      var todo := TargetDirs(moves);
      ghost var made: set<Path> := {};
      while todo != {}
        invariant Valid() && made + todo == TargetDirs(moves)
        invariant dirs == old(dirs) + AllWalked(made) && files.Keys !! AllWalked(made)
        decreases todo
      {
        var d :| d in todo;
        AllWalkedAnd(made, d);
        AllWalkedAnd(TargetDirs(moves), d);
        assert TargetDirs(moves) + {d} == TargetDirs(moves);
        ok := Mkdir(d);
        if !ok {
          return;
        }
        todo, made := todo - {d}, made + {d};
      }
      assert made == TargetDirs(moves);
      return true;
    }

    /** One move; on failure nothing changes. A target behind a missing directory leads nowhere. */
    method Move(m: Move) returns (failure: Option<Failure>)
      modifies this`files
      ensures (files, failure)
           == if m.source in files && !(Walked(Parent(m.target)) <= dirs) then (old(files), Some(NoDirectory))
              else MoveOne(old(files), dirs, m.(target := Resolve(m.target)))
      ensures failure != None ==> files == old(files)
    {
      if m.source !in files {
        return Some(SourceMissing);
      }
      var realTarget := Resolve(m.target);
      if !(Walked(Parent(m.target)) <= dirs) {
        return Some(NoDirectory);
      }
      if realTarget in dirs {
        realTarget := realTarget + [BaseName(m.source)];
        if realTarget in files || realTarget in dirs {
          return Some(DestinationExists);
        }
      } else if Parent(realTarget) !in dirs {
        return Some(NoDirectory);
      }
      files := (files - {m.source})[realTarget := files[m.source]];
      return None;
    }

    /** All moves, once the directories they need are made; stops at the first that fails. */
    method ExecuteMoves(moves: seq<Move>) returns (failure: Option<Failure>)
      requires DirsNeeded(moves) <= dirs
      modifies this`files
      ensures (files, failure) == Run(old(files), dirs, OnDisk(moves))
    {
      assert OnDisk(moves)[0..] == OnDisk(moves);
      for i := 0 to |moves|
        invariant Run(old(files), dirs, OnDisk(moves)) == Run(files, dirs, OnDisk(moves)[i..])
      {
        assert Walked(Parent(moves[i].target)) <= DirsNeeded(moves);
        failure := Move(moves[i]);
        assert OnDisk(moves)[i..][1..] == OnDisk(moves)[i + 1..];
        if failure != None {
          return;
        }
      }
      return None;
    }

    /** Everything strictly below `root`, deeper paths before shallower ones. */
    method ListDeepestFirst(root: Path) returns (paths: seq<Path>)
      ensures IsListing(files, dirs, root, paths)
    {
      var todo := set p | p in files.Keys + dirs && IsBelow(root, p);
      ghost var all := todo;
      paths := [];
      while todo != {}
        invariant todo <= all && forall p :: p in paths <==> p in all - todo
        invariant DeepestFirst(paths)
        invariant forall p, q :: p in paths && q in todo ==> |p| >= |q|
        decreases todo
      {
        ghost var witnessed := DeepestExists(todo);
        var p :| p in todo && forall q :: q in todo ==> |q| <= |p|;
        paths := paths + [p];
        todo := todo - {p};
      }
    }

    /**
     Removes the empty directories below `root`, bottom up. A directory survives exactly when
     a file lies somewhere below it; no file is touched; the count is the number removed.
     */
    method RemoveEmptyDirs(root: Path) returns (removed: nat)
      requires Valid()
      modifies this`dirs
      ensures Valid()
      ensures forall d :: d in dirs <==> d in old(dirs) && (IsBelow(root, d) ==> HoldsFile(files, d))
      ensures removed == |old(dirs)| - |dirs|
    {
      removed := 0;
      ghost var before := dirs;
      var paths := ListDeepestFirst(root);
      for i := 0 to |paths|
        invariant Valid() && dirs <= before && removed == |before| - |dirs|
        invariant Swept(files, before, dirs, paths, i)
      {
        SweepStep(files, before, dirs, root, paths, i);
        if IsEmptyDir(files, dirs, paths[i]) {
          dirs := dirs - {paths[i]};
          removed := removed + 1;
        }
      }
      assert paths[..|paths|] == paths;
    }
  }
}
