/** Applying a tree to the disk: flatten, make directories, move, clean up. */
module Reorganizer {
  import opened Common
  import opened Naming
  import opened DirTrees
  import opened Moves
  import opened FileSystems
  import opened Disk

  /** `listed` are the files below `target`, each once. */
  ghost predicate ListsFiles(files: Files, target: Path, listed: seq<Path>) {
    && Distinct(listed)
    && forall p :: p in listed <==> p in files && IsBelow(target, p)
  }

  function PlannedMoves(t: Tree, target: Path): seq<Move> {
    MovesOf(Preorder(t), Destinations(t, target, map[]).0)
  }

  /**
   What has to hold before the script starts for its moves to do what they say. On disk, no
   file stands where a directory is needed; counting the needed directories, the targets are
   distinct places, none a directory or a file staying put; and no file is moved onto one
   that has yet to move.
   */
  ghost predicate Clean(files: Files, dirs: set<Path>, moves: seq<Move>) {
    && files.Keys !! DirsNeeded(moves)
    && TargetsApart(files, dirs + DirsNeeded(moves), OnDisk(moves))
    && NoOverwrite(OnDisk(moves))
  }

  /** What the moves leave: without a way to make the directories, everything stays. */
  function Moved(files: Files, dirs: set<Path>, moves: seq<Move>): (Files, bool) {
    if files.Keys !! DirsNeeded(moves) then
      var (after, failure) := Run(files, dirs + DirsNeeded(moves), OnDisk(moves));
      (after, failure == None)
    else (files, false)
  }

  /** Of the directories, those not below the target stay, and those with a file somewhere below. */
  ghost predicate Tidied(files: Files, before: set<Path>, target: Path, after: set<Path>) {
    forall d :: d in after <==> d in before && (IsBelow(target, d) ==> HoldsFile(files, d))
  }

  /**
   The whole application of a tree. Every file ends up at its destination with its contents
   exactly when the starting state is clean for the moves. If anything was moved, the
   directories left below the target are those with a file below them.
   */
  method ApplyTree(fs: FileSystem, node: DirNode, target: Path) returns (completed: bool, removed: nat)
    requires fs.Valid() && node.Valid() && target in fs.dirs
    requires ListsFiles(fs.files, target, Preorder(node.tree))
    modifies fs
    ensures fs.Valid()
    ensures (fs.files, completed) == Moved(old(fs.files), old(fs.dirs), PlannedMoves(node.tree, target))
    ensures completed && IsRenaming(old(fs.files), OnDisk(PlannedMoves(node.tree, target)), fs.files)
       <==> Clean(old(fs.files), old(fs.dirs), PlannedMoves(node.tree, target))
    ensures PlannedMoves(node.tree, target) == [] ==> fs.dirs == old(fs.dirs) && removed == 0
    ensures completed && PlannedMoves(node.tree, target) != [] ==>
              var made := old(fs.dirs) + DirsNeeded(PlannedMoves(node.tree, target));
              Tidied(fs.files, made, target, fs.dirs) && removed == |made| - |fs.dirs|
    ensures !completed ==>
              && old(fs.dirs) <= fs.dirs <= old(fs.dirs) + DirsNeeded(PlannedMoves(node.tree, target))
              && removed == 0
  {
    removed := 0;
    var reserved := new Reservations();
    var moves := FlattenMoves(node, target, reserved);
    assert moves == PlannedMoves(node.tree, target);
    PlannedMovesAreOfFiles(node.tree, target, fs.files);
    NoMoves(fs.files, fs.dirs);
    if moves == [] {
      return true, 0;
    }
    completed := fs.MakeDirs(moves);
    if !completed {
      return;
    }
    InPlaceExactlyWhenClean(fs.files, old(fs.dirs), moves);
    RunKeepsWellFormed(fs.files, fs.dirs, moves);
    var failure := fs.ExecuteMoves(moves);
    if failure != None {
      completed := false;
      return;
    }
    removed := fs.RemoveEmptyDirs(target);
  }

  /**
   What is done completes if and only if all directories can be made and each move succeeds
   on what the moves before it left; if a directory cannot be made, no file is touched.
   */
  lemma CompletesExactly(files: Files, dirs: set<Path>, moves: seq<Move>)
    ensures Moved(files, dirs, moves).1
       <==> files.Keys !! DirsNeeded(moves) && EachSucceeds(files, dirs + DirsNeeded(moves), OnDisk(moves))
    ensures !(files.Keys !! DirsNeeded(moves)) ==> Moved(files, dirs, moves).0 == files
  {
    RunSucceedsExactly(files, dirs + DirsNeeded(moves), OnDisk(moves));
  }

  lemma NoMoves(files: Files, dirs: set<Path>)
    ensures Moved(files, dirs, []) == (files, true)
    ensures IsRenaming(files, OnDisk([]), files) && Clean(files, dirs, [])
  {
  }

  /** Cleanness speaks of the state before any directory is made. */
  lemma InPlaceExactlyWhenClean(files: Files, dirs: set<Path>, moves: seq<Move>)
    requires WellFormed(files, dirs + DirsNeeded(moves)) && MovesFiles(files, moves)
    ensures var (after, completed) := Moved(files, dirs, moves);
            completed && IsRenaming(files, OnDisk(moves), after) <==> Clean(files, dirs, moves)
  {
    OnDiskMovesFiles(files, moves);
    MovesPlaceExactly(files, dirs + DirsNeeded(moves), OnDisk(moves));
  }

  lemma OnDiskMovesFiles(files: Files, moves: seq<Move>)
    requires MovesFiles(files, moves)
    ensures MovesFiles(files, OnDisk(moves))
  {
    var placed := OnDisk(moves);
    forall m | m in placed
      ensures m.source in files
    {
      var i :| 0 <= i < |placed| && placed[i] == m;
      assert moves[i] in moves;
    }
  }

  lemma MoveKeepsWellFormed(files: Files, dirs: set<Path>, m: Move)
    requires WellFormed(files, dirs) && BaseName(m.target) != ".."
    ensures WellFormed(MoveOne(files, dirs, m).0, dirs)
  {
    assert BaseName(m.target + [BaseName(m.source)]) == BaseName(m.source);
    assert Parent(m.target + [BaseName(m.source)]) == m.target;
  }

  lemma RunKeepsWellFormed(files: Files, dirs: set<Path>, moves: seq<Move>)
    requires WellFormed(files, dirs)
    ensures WellFormed(Run(files, dirs, OnDisk(moves)).0, dirs)
    decreases |moves|
  {
    if moves != [] {
      var first := OnDisk(moves)[0];
      ResolvedIsPlain(moves[0].target);
      MoveKeepsWellFormed(files, dirs, first);
      RunKeepsWellFormed(MoveOne(files, dirs, first).0, dirs, moves[1..]);
    }
  }

  /** The moves are the pairs that differ. */
  lemma {:induction false} MovesOfPairs(sources: seq<Path>, targets: seq<Path>, m: Move)
    requires |sources| == |targets|
    ensures m in MovesOf(sources, targets)
       <==> exists i :: 0 <= i < |sources| && m == Move(sources[i], targets[i]) && sources[i] != targets[i]
  {
    if sources != [] {
      MovesOfPairs(sources[1..], targets[1..], m);
      if i :| 0 <= i < |sources| && m == Move(sources[i], targets[i]) && sources[i] != targets[i] {
        if i > 0 {
          assert m == Move(sources[1..][i - 1], targets[1..][i - 1]);
        }
      }
      if i :| 0 <= i < |sources| - 1 && m == Move(sources[1..][i], targets[1..][i])
              && sources[1..][i] != targets[1..][i] {
        assert m == Move(sources[i + 1], targets[i + 1]);
      }
    }
  }

  lemma MoveAt(sources: seq<Path>, targets: seq<Path>, m: Move) returns (i: nat)
    requires |sources| == |targets| && m in MovesOf(sources, targets)
    ensures i < |sources| && m == Move(sources[i], targets[i]) && sources[i] != targets[i]
  {
    MovesOfPairs(sources, targets, m);
    i :| 0 <= i < |sources| && m == Move(sources[i], targets[i]) && sources[i] != targets[i];
  }

  lemma MovesComeFrom(sources: seq<Path>, targets: seq<Path>, m: Move)
    requires |sources| == |targets| && m in MovesOf(sources, targets)
    ensures m.source in sources && m.target in targets
  {
    var i := MoveAt(sources, targets, m);
  }

  lemma DistinctTail(paths: seq<Path>)
    requires paths != [] && Distinct(paths)
    ensures Distinct(paths[1..]) && paths[0] !in paths[1..]
  {
  }

  lemma SourcesPrepend(first: Move, rest: seq<Move>)
    requires SourcesDistinct(rest) && forall m :: m in rest ==> m.source != first.source
    ensures SourcesDistinct([first] + rest) && [] + rest == rest
  {
  }

  lemma TargetsPrepend(first: Move, rest: seq<Move>)
    requires TargetsDistinct(rest) && forall m :: m in rest ==> m.target != first.target
    ensures TargetsDistinct([first] + rest) && [] + rest == rest
  {
  }

  lemma {:induction false} SourcesOfMovesDistinct(sources: seq<Path>, targets: seq<Path>)
    requires |sources| == |targets| && Distinct(sources)
    ensures SourcesDistinct(MovesOf(sources, targets))
  {
    if sources != [] {
      DistinctTail(sources);
      SourcesOfMovesDistinct(sources[1..], targets[1..]);
      var first, rest := Move(sources[0], targets[0]), MovesOf(sources[1..], targets[1..]);
      forall m | m in rest
        ensures m.source != first.source
      {
        MovesComeFrom(sources[1..], targets[1..], m);
      }
      SourcesPrepend(first, rest);
    }
  }

  lemma {:induction false} TargetsOfMovesDistinct(sources: seq<Path>, targets: seq<Path>)
    requires |sources| == |targets| && Distinct(targets)
    ensures TargetsDistinct(MovesOf(sources, targets))
  {
    if targets != [] {
      DistinctTail(targets);
      TargetsOfMovesDistinct(sources[1..], targets[1..]);
      var first, rest := Move(sources[0], targets[0]), MovesOf(sources[1..], targets[1..]);
      forall m | m in rest
        ensures m.target != first.target
      {
        MovesComeFrom(sources[1..], targets[1..], m);
      }
      TargetsPrepend(first, rest);
    }
  }

  /** Planned moves are of listed files, each once. */
  lemma PlannedMovesAreOfFiles(t: Tree, target: Path, files: Files)
    requires ListsFiles(files, target, Preorder(t))
    ensures MovesFiles(files, PlannedMoves(t, target))
  {
    var sources, targets := Preorder(t), Destinations(t, target, map[]).0;
    SourcesOfMovesDistinct(sources, targets);
    forall m | m in PlannedMoves(t, target)
      ensures m.source in files
    {
      MovesComeFrom(sources, targets, m);
    }
  }

  /** With distinct sources, the moves lead every file to its own target. */
  lemma {:induction false} MovesReachTargets(sources: seq<Path>, targets: seq<Path>, i: nat)
    requires i < |sources| == |targets| && Distinct(sources)
    ensures Destination(MovesOf(sources, targets), sources[i]) == targets[i]
  {
    var rest := MovesOf(sources[1..], targets[1..]);
    assert [] + rest == rest && ([Move(sources[0], targets[0])] + rest)[1..] == rest;
    if i == 0 {
      forall k | 0 <= k < |rest|
        ensures rest[k].source != sources[0]
      {
        MovesOfPairs(sources[1..], targets[1..], rest[k]);
      }
      StaysPut(rest, sources[0]);
    } else {
      assert sources[0] != sources[i];
      MovesReachTargets(sources[1..], targets[1..], i - 1);
    }
  }

  // Destinations lie below the target.

  /** All names of directories in a tree, except those that stand for their parent. */
  function DirNames(t: Tree): set<string>
    decreases t, 0
  {
    (if StandsForParent(t.name) then {} else {t.name}) + DirNamesAll(t.children)
  }

  function DirNamesAll(ts: seq<Tree>): set<string>
    decreases ts, 1
  {
    if ts == [] then {} else DirNames(ts[0]) + DirNamesAll(ts[1..])
  }

  /** `p` lies below `parent`, and every directory in between has one of these names. */
  ghost predicate LiesWithin(parent: Path, names: set<string>, p: Path) {
    && parent < p
    && forall k :: |parent| <= k < |p| - 1 ==> p[k] in names
  }

  /** A file's name, possibly with a counter between stem and extension. */
  ghost predicate IsNumbered(name: string, base: string) {
    name == base || exists c: nat :: name == Suffixed(Stem(base), c, Suffix(base))
  }

  ghost predicate NamedAfter(p: Path, files: seq<Path>) {
    exists f :: f in files && IsNumbered(BaseName(p), BaseName(f))
  }

  /** `p` lies below `parent`, in directories with these names, under a name of one of these files. */
  ghost predicate Placed(parent: Path, names: set<string>, files: seq<Path>, p: Path) {
    LiesWithin(parent, names, p) && NamedAfter(p, files)
  }

  lemma PlacedMore(parent: Path, names: set<string>, files: seq<Path>, p: Path, names': set<string>, files': seq<Path>)
    requires Placed(parent, names, files, p) && names <= names' && forall f :: f in files ==> f in files'
    ensures Placed(parent, names', files', p)
  {
  }

  lemma PlacedHere(t: Tree, parent: Path, p: Path)
    requires p != [] && Parent(p) == Location(t.name, parent) && NamedAfter(p, t.files)
    ensures Placed(parent, DirNames(t), Preorder(t), p)
  {
    var dir := Location(t.name, parent);
    assert p == dir + [BaseName(p)];
    assert LiesWithin(parent, DirNames(t), p);
  }

  lemma PlacedBelow(t: Tree, parent: Path, p: Path)
    requires Placed(Location(t.name, parent), DirNamesAll(t.children), PreorderAll(t.children), p)
    ensures Placed(parent, DirNames(t), Preorder(t), p)
  {
    var dir := Location(t.name, parent);
    PlacedMore(dir, DirNamesAll(t.children), PreorderAll(t.children), p, DirNames(t), Preorder(t));
  }

  lemma RenameNumbers(file: Path, used: set<string>)
    ensures IsNumbered(Rename(file, used), BaseName(file))
  {
    StemAndSuffix(BaseName(file));
  }

  lemma {:induction false} AssignWithin(files: seq<Path>, dir: Path, used: set<string>)
    ensures forall p :: p in Assign(files, dir, used).0 ==> p != [] && Parent(p) == dir && NamedAfter(p, files)
  {
    if files != [] {
      RenameNumbers(files[0], used);
      assert files[0] in files;
      AssignWithin(files[1..], dir, used + {Rename(files[0], used)});
    }
  }

  /** Every destination is below the target, in directories of the tree, under a name of one of the files. */
  lemma {:induction false} DestinationsWithin(t: Tree, parent: Path, reserved: Reserved)
    ensures forall p :: p in Destinations(t, parent, reserved).0 ==> Placed(parent, DirNames(t), Preorder(t), p)
    decreases t, 0
  {
    var dir := Location(t.name, parent);
    var (here, used) := Assign(t.files, dir, UsedIn(reserved, dir));
    AssignWithin(t.files, dir, UsedIn(reserved, dir));
    DestinationsAllWithin(t.children, dir, reserved[dir := used]);
    forall p | p in Destinations(t, parent, reserved).0
      ensures Placed(parent, DirNames(t), Preorder(t), p)
    {
      if p in here {
        PlacedHere(t, parent, p);
      } else {
        PlacedBelow(t, parent, p);
      }
    }
  }

  lemma {:induction false} DestinationsAllWithin(ts: seq<Tree>, parent: Path, reserved: Reserved)
    ensures forall p :: p in DestinationsAll(ts, parent, reserved).0 ==>
              Placed(parent, DirNamesAll(ts), PreorderAll(ts), p)
    decreases ts, 1
  {
    if ts != [] {
      var (first, names) := Destinations(ts[0], parent, reserved);
      DestinationsWithin(ts[0], parent, reserved);
      DestinationsAllWithin(ts[1..], parent, names);
      forall p | p in DestinationsAll(ts, parent, reserved).0
        ensures Placed(parent, DirNamesAll(ts), PreorderAll(ts), p)
      {
        if p in first {
          PlacedMore(parent, DirNames(ts[0]), Preorder(ts[0]), p, DirNamesAll(ts), PreorderAll(ts));
        } else {
          PlacedMore(parent, DirNamesAll(ts[1..]), PreorderAll(ts[1..]), p, DirNamesAll(ts), PreorderAll(ts));
        }
      }
    }
  }

  // Trees without ".." are read off the paths themselves.

  ghost predicate IsPlain(p: Path) {
    forall k :: 0 <= k < |p| ==> p[k] != ".."
  }

  lemma PlainDirectory(files: Files, dirs: set<Path>, d: Path)
    requires WellFormed(files, dirs) && d in dirs
    ensures IsPlain(d)
  {
    EntriesResolve(files, dirs, d);
    ResolvedIsPlain(d);
  }

  lemma NumberedIsPlain(name: string, base: string)
    requires IsNumbered(name, base) && base != ".."
    ensures name != ".."
  {
    if name != base {
      var c: nat :| name == Suffixed(Stem(base), c, Suffix(base));
      assert name[|Stem(base)|] == '_';
    }
  }

  lemma PlainBelow(target: Path, names: set<string>, p: Path)
    requires IsPlain(target) && LiesWithin(target, names, p) && ".." !in names && BaseName(p) != ".."
    ensures IsPlain(p)
  {
    forall k | 0 <= k < |p|
      ensures p[k] != ".."
    {
      assert k < |target| ==> p[k] == target[k];
    }
  }

  lemma NamedAfterPlain(p: Path, files: seq<Path>)
    requires NamedAfter(p, files) && forall f :: f in files ==> BaseName(f) != ".."
    ensures BaseName(p) != ".."
  {
    var f :| f in files && IsNumbered(BaseName(p), BaseName(f));
    NumberedIsPlain(BaseName(p), BaseName(f));
  }

  /** Below a target that exists, a tree without ".." has all its destinations where their paths say. */
  lemma PlainDestination(files: Files, dirs: set<Path>, t: Tree, target: Path, p: Path)
    requires WellFormed(files, dirs) && target in dirs && ListsFiles(files, target, Preorder(t))
    requires ".." !in DirNames(t) && p in Destinations(t, target, map[]).0
    ensures IsPlain(p) && Resolve(p) == p && IsBelow(target, p)
  {
    DestinationsWithin(t, target, map[]);
    NamedAfterPlain(p, Preorder(t));
    PlainDirectory(files, dirs, target);
    PlainBelow(target, DirNames(t), p);
    PlainPathsResolve(p);
  }

  /** Moves whose targets are where their paths say. */
  ghost predicate PlainMoves(moves: seq<Move>) {
    forall m :: m in moves ==> IsPlain(m.target) && Resolve(m.target) == m.target
  }

  /** No target is a file that stays put. */
  ghost predicate NoneStaysAtTarget(files: Files, moves: seq<Move>) {
    forall m :: m in moves && m.target in files ==> IsSource(moves, m.target)
  }

  /** The planned targets are then distinct places, and never a file that stays put. */
  lemma PlannedTargetsApart(files: Files, dirs: set<Path>, t: Tree, target: Path)
    requires WellFormed(files, dirs) && target in dirs && ListsFiles(files, target, Preorder(t))
    requires ".." !in DirNames(t)
    ensures var moves := PlannedMoves(t, target);
            TargetsDistinct(moves) && PlainMoves(moves) && NoneStaysAtTarget(files, moves)
  {
    var sources, targets := Preorder(t), Destinations(t, target, map[]).0;
    var moves := PlannedMoves(t, target);
    DestinationsDistinct(t, target);
    TargetsOfMovesDistinct(sources, targets);
    forall m | m in moves
      ensures IsPlain(m.target) && Resolve(m.target) == m.target
      ensures m.target in files ==> IsSource(moves, m.target)
    {
      MovesComeFrom(sources, targets, m);
      PlainDestination(files, dirs, t, target, m.target);
      if m.target in files {
        SourceMoves(sources, targets, m);
      }
    }
  }

  /** A target that is itself a listed file moves away, since its place is taken. */
  lemma SourceMoves(sources: seq<Path>, targets: seq<Path>, m: Move)
    requires |sources| == |targets| && Distinct(targets)
    requires m in MovesOf(sources, targets) && m.target in sources
    ensures IsSource(MovesOf(sources, targets), m.target)
  {
    var i := MoveAt(sources, targets, m);
    var j :| 0 <= j < |sources| && sources[j] == targets[i];
    assert targets[j] != sources[j] by {
      assert i < j || j < i;
    }
    PairMoves(sources, targets, j);
  }

  lemma PairMoves(sources: seq<Path>, targets: seq<Path>, i: nat)
    requires i < |sources| == |targets| && sources[i] != targets[i]
    ensures IsSource(MovesOf(sources, targets), sources[i])
  {
    var m := Move(sources[i], targets[i]);
    MovesOfPairs(sources, targets, m);
    assert m in MovesOf(sources, targets) && m.source == sources[i];
  }

  ghost predicate NoFileInTheWay(files: Files, moves: seq<Move>) {
    forall f, m :: f in files && m in moves ==> !(f <= Parent(m.target))
  }

  ghost predicate NoTargetInTheWay(moves: seq<Move>) {
    forall m, n :: m in moves && n in moves ==> !(m.target <= Parent(n.target))
  }

  ghost predicate TargetsOutside(moves: seq<Move>, dirs: set<Path>) {
    forall m :: m in moves ==> m.target !in dirs
  }

  /** No file is a prefix of a needed directory, no target is or will be a directory, and nothing is overwritten. */
  ghost predicate CleanByPaths(files: Files, dirs: set<Path>, moves: seq<Move>) {
    && NoFileInTheWay(files, moves)
    && NoTargetInTheWay(moves)
    && TargetsOutside(moves, dirs)
    && NoOverwrite(moves)
  }

  lemma {:induction false} PlainOnDisk(moves: seq<Move>)
    requires PlainMoves(moves)
    ensures OnDisk(moves) == moves
  {
    if moves != [] {
      assert moves[0] in moves;
      PlainOnDisk(moves[1..]);
    }
  }

  /** All prefixes of the targets' directories are needed. */
  ghost predicate NeedsPrefixes(moves: seq<Move>, needed: set<Path>) {
    forall m, p :: m in moves && p <= Parent(m.target) ==> p in needed
  }

  /** And nothing else. */
  ghost predicate NeedsOnlyPrefixes(moves: seq<Move>, needed: set<Path>) {
    forall p :: p in needed ==> exists m :: m in moves && p <= Parent(m.target)
  }

  lemma PlainNeeded(moves: seq<Move>)
    requires PlainMoves(moves)
    ensures NeedsPrefixes(moves, DirsNeeded(moves)) && NeedsOnlyPrefixes(moves, DirsNeeded(moves))
  {
    forall m, p | m in moves
      ensures p in Walked(Parent(m.target)) <==> p <= Parent(m.target)
    {
      PlainWalk(Parent(m.target), p);
    }
    assert forall p :: p in DirsNeeded(moves) <==> exists m :: m in moves && p in Walked(Parent(m.target));
  }

  lemma FilesNotNeeded(files: Files, moves: seq<Move>, needed: set<Path>)
    requires NeedsPrefixes(moves, needed) && NeedsOnlyPrefixes(moves, needed)
    ensures files.Keys !! needed <==> NoFileInTheWay(files, moves)
  {
  }

  lemma TargetsNotNeeded(moves: seq<Move>, needed: set<Path>)
    requires NeedsPrefixes(moves, needed) && NeedsOnlyPrefixes(moves, needed)
    ensures TargetsOutside(moves, needed) <==> NoTargetInTheWay(moves)
  {
  }

  lemma ApartSpelledOut(files: Files, dirs: set<Path>, moves: seq<Move>, needed: set<Path>)
    requires TargetsDistinct(moves) && NoneStaysAtTarget(files, moves) && NeedsPrefixes(moves, needed)
    ensures TargetsApart(files, dirs + needed, moves) <==> TargetsOutside(moves, dirs) && TargetsOutside(moves, needed)
  {
    forall m | m in moves
      ensures Parent(m.target) in needed
    {
      assert Parent(m.target) <= Parent(m.target);
    }
  }

  /** What each clause of cleanness says of paths. */
  lemma PlainClauses(files: Files, dirs: set<Path>, moves: seq<Move>, needed: set<Path>)
    requires TargetsDistinct(moves) && NoneStaysAtTarget(files, moves)
    requires NeedsPrefixes(moves, needed) && NeedsOnlyPrefixes(moves, needed)
    ensures files.Keys !! needed <==> NoFileInTheWay(files, moves)
    ensures TargetsApart(files, dirs + needed, moves) <==> TargetsOutside(moves, dirs) && NoTargetInTheWay(moves)
  {
    FilesNotNeeded(files, moves, needed);
    TargetsNotNeeded(moves, needed);
    ApartSpelledOut(files, dirs, moves, needed);
  }

  lemma PlainClean(files: Files, dirs: set<Path>, moves: seq<Move>)
    requires TargetsDistinct(moves) && PlainMoves(moves) && NoneStaysAtTarget(files, moves)
    ensures Clean(files, dirs, moves) <==> CleanByPaths(files, dirs, moves)
  {
    PlainOnDisk(moves);
    PlainNeeded(moves);
    PlainClauses(files, dirs, moves, DirsNeeded(moves));
  }

  /** For a tree without "..", cleanness can be read off the paths. */
  lemma CleanWithoutDotDot(files: Files, dirs: set<Path>, t: Tree, target: Path)
    requires WellFormed(files, dirs) && target in dirs && ListsFiles(files, target, Preorder(t))
    requires ".." !in DirNames(t)
    ensures Clean(files, dirs, PlannedMoves(t, target)) <==> CleanByPaths(files, dirs, PlannedMoves(t, target))
  {
    PlannedTargetsApart(files, dirs, t, target);
    PlainClean(files, dirs, PlannedMoves(t, target));
  }
}
