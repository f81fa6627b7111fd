/**
 The reorganiser's intended input, a flat directory of files, always starts clean as long as
 no directory is called ".." or like a file. Other inputs need not: a file can be lost.
 */
module FlatDatasets {
  import opened Naming
  import opened Common
  import opened DirTrees
  import opened Moves
  import opened FileSystems
  import opened Disk
  import opened Reorganizer
  import opened Plans
  import opened Replay

  function BaseNames(files: seq<Path>): seq<string> {
    seq(|files|, i requires 0 <= i < |files| => BaseName(files[i]))
  }

  /** No file's own name is taken in any directory. */
  ghost predicate NamesFree(reserved: Reserved, files: seq<Path>) {
    forall dir, f :: f in files ==> BaseName(f) !in UsedIn(reserved, dir)
  }

  /** Reservations grow by names of these files only. */
  ghost predicate GrowsBy(before: Reserved, files: seq<Path>, after: Reserved) {
    forall dir, n :: n in UsedIn(after, dir) ==> n in UsedIn(before, dir) || n in BaseNames(files)
  }

  lemma BaseNamesConcat(a: seq<Path>, b: seq<Path>)
    ensures BaseNames(a + b) == BaseNames(a) + BaseNames(b)
  {
  }

  lemma {:induction false} AssignKeepsNames(files: seq<Path>, dir: Path, used: set<string>)
    requires Distinct(BaseNames(files)) && forall f :: f in files ==> BaseName(f) !in used
    ensures var (targets, used') := Assign(files, dir, used);
            && BaseNames(targets) == BaseNames(files)
            && forall n :: n in used' ==> n in used || n in BaseNames(files)
  {
    if files != [] {
      var name, rest := BaseName(files[0]), files[1..];
      FreshNameKept(name, used);
      assert BaseNames(files) == [name] + BaseNames(rest);
      forall f | f in rest
        ensures BaseName(f) !in used + {name}
      {
        var k :| 0 <= k < |rest| && rest[k] == f;
        assert BaseName(f) == BaseNames(files)[k + 1] != BaseNames(files)[0];
      }
      assert Distinct(BaseNames(rest)) by {
        assert forall i :: 0 <= i < |rest| ==> BaseNames(rest)[i] == BaseNames(files)[i + 1];
      }
      AssignKeepsNames(rest, dir, used + {name});
      var targets := Assign(rest, dir, used + {name}).0;
      BaseNamesConcat([dir + [name]], targets);
      assert BaseNames([dir + [name]]) == [name];
    }
  }

  lemma DistinctParts<T>(a: seq<T>, b: seq<T>)
    requires Distinct(a + b)
    ensures Distinct(a) && Distinct(b) && forall x :: x in b ==> x !in a
  {
    var all := a + b;
    assert forall i :: 0 <= i < |a| ==> a[i] == all[i];
    assert forall i :: 0 <= i < |b| ==> b[i] == all[|a| + i];
  }

  /** Files that come first leave the names of those that come later free. */
  lemma NamesStayFree(before: Reserved, a: seq<Path>, b: seq<Path>, after: Reserved)
    requires Distinct(BaseNames(a + b)) && NamesFree(before, a + b) && GrowsBy(before, a, after)
    ensures Distinct(BaseNames(a)) && NamesFree(before, a)
    ensures Distinct(BaseNames(b)) && NamesFree(after, b)
  {
    BaseNamesConcat(a, b);
    DistinctParts(BaseNames(a), BaseNames(b));
    forall f | f in b
      ensures BaseName(f) in BaseNames(b) && f in a + b
    {
      var k :| 0 <= k < |b| && b[k] == f;
      assert BaseNames(b)[k] == BaseName(f);
    }
  }

  lemma {:induction false} DestinationsKeepNames(t: Tree, parent: Path, reserved: Reserved)
    requires Distinct(BaseNames(Preorder(t))) && NamesFree(reserved, Preorder(t))
    ensures var (targets, names) := Destinations(t, parent, reserved);
            BaseNames(targets) == BaseNames(Preorder(t)) && GrowsBy(reserved, Preorder(t), names)
    decreases t, 0
  {
    var dir := Location(t.name, parent);
    var (here, used) := Assign(t.files, dir, UsedIn(reserved, dir));
    var below := DestinationsAll(t.children, dir, reserved[dir := used]).0;
    NamesStayFree(reserved, t.files, PreorderAll(t.children), reserved);
    AssignKeepsNames(t.files, dir, UsedIn(reserved, dir));
    NamesStayFree(reserved, t.files, PreorderAll(t.children), reserved[dir := used]);
    DestinationsAllKeepNames(t.children, dir, reserved[dir := used]);
    BaseNamesConcat(here, below);
    BaseNamesConcat(t.files, PreorderAll(t.children));
  }

  lemma {:induction false} DestinationsAllKeepNames(ts: seq<Tree>, parent: Path, reserved: Reserved)
    requires Distinct(BaseNames(PreorderAll(ts))) && NamesFree(reserved, PreorderAll(ts))
    ensures var (targets, names) := DestinationsAll(ts, parent, reserved);
            BaseNames(targets) == BaseNames(PreorderAll(ts)) && GrowsBy(reserved, PreorderAll(ts), names)
    decreases ts, 1
  {
    if ts != [] {
      var (first, names1) := Destinations(ts[0], parent, reserved);
      var (rest, names2) := DestinationsAll(ts[1..], parent, names1);
      NamesStayFree(reserved, Preorder(ts[0]), PreorderAll(ts[1..]), reserved);
      DestinationsKeepNames(ts[0], parent, reserved);
      NamesStayFree(reserved, Preorder(ts[0]), PreorderAll(ts[1..]), names1);
      DestinationsAllKeepNames(ts[1..], parent, names1);
      BaseNamesConcat(first, rest);
      BaseNamesConcat(Preorder(ts[0]), PreorderAll(ts[1..]));
    }
  }

  /** All files sit directly in the target. */
  ghost predicate IsFlat(files: Files, target: Path) {
    forall f :: f in files && IsBelow(target, f) ==> Parent(f) == target
  }

  /** No planned directory is "..", and none, planned or already below the target, has the name of a file. */
  ghost predicate NamesApart(files: Files, dirs: set<Path>, target: Path, t: Tree) {
    && ".." !in DirNames(t)
    && forall f :: f in files && IsBelow(target, f) ==>
      && BaseName(f) !in DirNames(t)
      && forall d :: d in dirs && IsBelow(target, d) ==> BaseName(d) != BaseName(f)
  }

  lemma FlatNamesDistinct(files: Files, target: Path, listed: seq<Path>)
    requires IsFlat(files, target) && ListsFiles(files, target, listed)
    ensures Distinct(BaseNames(listed))
  {
    forall i, j | 0 <= i < j < |listed|
      ensures BaseNames(listed)[i] != BaseNames(listed)[j]
    {
      assert listed[i] in listed && listed[j] in listed;
      assert listed[i] == target + [BaseName(listed[i])];
      assert listed[j] == target + [BaseName(listed[j])];
    }
  }

  /** Every file of a flat dataset keeps its name, somewhere below the target. */
  lemma FlatDestination(files: Files, target: Path, t: Tree, i: nat)
    requires IsFlat(files, target) && ListsFiles(files, target, Preorder(t)) && i < |Preorder(t)|
    ensures var p := Destinations(t, target, map[]).0[i];
            Preorder(t)[i] == target + [BaseName(p)] && LiesWithin(target, DirNames(t), p)
  {
    FlatDestinationName(files, target, t, i);
    DestinationPlaced(t, target, i);
  }

  lemma DestinationPlaced(t: Tree, target: Path, i: nat)
    requires i < |Preorder(t)|
    ensures LiesWithin(target, DirNames(t), Destinations(t, target, map[]).0[i])
  {
    DestinationsWithin(t, target, map[]);
    var p := Destinations(t, target, map[]).0[i];
    assert Placed(target, DirNames(t), Preorder(t), p);
  }

  lemma FlatDestinationName(files: Files, target: Path, t: Tree, i: nat)
    requires IsFlat(files, target) && ListsFiles(files, target, Preorder(t)) && i < |Preorder(t)|
    ensures Preorder(t)[i] == target + [BaseName(Destinations(t, target, map[]).0[i])]
  {
    var sources, targets := Preorder(t), Destinations(t, target, map[]).0;
    FlatNamesDistinct(files, target, sources);
    DestinationsKeepNames(t, target, map[]);
    SameNames(sources, targets, i);
    assert sources[i] in sources;
    assert sources[i] == Parent(sources[i]) + [BaseName(sources[i])];
  }

  lemma SameNames(a: seq<Path>, b: seq<Path>, i: nat)
    requires BaseNames(a) == BaseNames(b) && i < |a|
    ensures i < |b| && BaseName(a[i]) == BaseName(b[i])
  {
    assert |BaseNames(a)| == |BaseNames(b)| && BaseNames(a)[i] == BaseNames(b)[i];
  }

  /** A planned move of a flat dataset keeps the file's name and goes strictly deeper. */
  lemma FlatMove(files: Files, target: Path, t: Tree, m: Move)
    requires IsFlat(files, target) && ListsFiles(files, target, Preorder(t))
    requires m in PlannedMoves(t, target)
    ensures m.source in files && m.source == target + [BaseName(m.target)]
    ensures LiesWithin(target, DirNames(t), m.target) && |m.target| > |target| + 1
  {
    var sources := Preorder(t);
    var i := MoveAt(sources, Destinations(t, target, map[]).0, m);
    FlatDestination(files, target, t, i);
    assert sources[i] in sources;
    DeeperUnlessInPlace(target, DirNames(t), m);
  }

  lemma DeeperUnlessInPlace(target: Path, names: set<string>, m: Move)
    requires m.source == target + [BaseName(m.target)] != m.target && LiesWithin(target, names, m.target)
    ensures |m.target| > |target| + 1
  {
    assert |m.target| == |target| + 1 ==> m.target == target + [BaseName(m.target)];
  }

  /** A planned move of a flat dataset with names apart does not go where a directory is or will be. */
  lemma FlatTargetFree(files: Files, dirs: set<Path>, target: Path, t: Tree, m: Move, n: Move)
    requires IsFlat(files, target) && ListsFiles(files, target, Preorder(t)) && NamesApart(files, dirs, target, t)
    requires m in PlannedMoves(t, target) && n in PlannedMoves(t, target)
    ensures m.target !in dirs && !(m.target <= Parent(n.target)) && m.target != n.source
  {
    FlatMove(files, target, t, m);
    FlatMove(files, target, t, n);
    assert IsBelow(target, m.source) && BaseName(m.source) == BaseName(m.target);
    assert IsBelow(target, m.target);
    var k := |m.target| - 1;
    if k < |n.target| - 1 {
      assert n.target[k] in DirNames(t);
      assert n.target[k] != BaseName(m.target);
    }
  }

  lemma FlatTargetsFree(files: Files, dirs: set<Path>, target: Path, t: Tree)
    requires IsFlat(files, target) && ListsFiles(files, target, Preorder(t)) && NamesApart(files, dirs, target, t)
    ensures var moves := PlannedMoves(t, target);
            TargetsOutside(moves, dirs) && NoTargetInTheWay(moves) && NoOverwrite(moves)
  {
    var moves := PlannedMoves(t, target);
    forall m, n | m in moves && n in moves
      ensures m.target !in dirs && !(m.target <= Parent(n.target)) && m.target != n.source
    {
      FlatTargetFree(files, dirs, target, t, m, n);
    }
  }

  lemma FlatFilesNotInTheWay(files: Files, dirs: set<Path>, target: Path, t: Tree)
    requires WellFormed(files, dirs) && target in dirs
    requires IsFlat(files, target) && ListsFiles(files, target, Preorder(t)) && NamesApart(files, dirs, target, t)
    ensures NoFileInTheWay(files, PlannedMoves(t, target))
  {
    forall f, m | f in files && m in PlannedMoves(t, target)
      ensures !(f <= Parent(m.target))
    {
      FlatMove(files, target, t, m);
      FlatFileNotInTheWay(files, dirs, target, t, f, m.target);
    }
  }

  /** A flat dataset whose file names differ from all directory names is a clean start. */
  lemma FlatIsClean(files: Files, dirs: set<Path>, target: Path, t: Tree)
    requires WellFormed(files, dirs) && target in dirs
    requires IsFlat(files, target) && ListsFiles(files, target, Preorder(t)) && NamesApart(files, dirs, target, t)
    ensures Clean(files, dirs, PlannedMoves(t, target))
  {
    FlatFilesNotInTheWay(files, dirs, target, t);
    FlatTargetsFree(files, dirs, target, t);
    CleanWithoutDotDot(files, dirs, t, target);
  }

  lemma FlatFileNotInTheWay(files: Files, dirs: set<Path>, target: Path, t: Tree, f: Path, p: Path)
    requires WellFormed(files, dirs) && target in dirs && f in files
    requires IsFlat(files, target) && NamesApart(files, dirs, target, t)
    requires LiesWithin(target, DirNames(t), p)
    ensures !(f <= Parent(p))
  {
    if f <= Parent(p) {
      assert f == p[..|f|] && target == p[..|target|];
      if |f| <= |target| && f != target {
        assert f == target[..|f|];
        PrefixesAreDirs(files, dirs, target, f);
      }
    }
  }

  // Two runs that lose a file without any error.

  /** A plan of two leaves with one file each, replayed on two files. */
  lemma TwoLeaves(a: string, b: string, first: Path, second: Path)
    ensures var t := Node(".", [], [Node(a, [first], []), Node(b, [second], [])]);
            Preorder(t) == [first, second] && Replays(Plan(".", 0, [Plan(a, 1, []), Plan(b, 1, [])]), t)
  {
    var ta, tb := Node(a, [first], []), Node(b, [second], []);
    var t := Node(".", [], [ta, tb]);
    var pa, pb := Plan(a, 1, []), Plan(b, 1, []);
    LoneFile(a, first);
    LoneFile(b, second);
    assert PreorderAll([tb]) == [second] + PreorderAll([]);
    assert [ta, tb][1..] == [tb];
    assert TotalAll([]) == 0;
    assert Sizes([ta, tb]) == [1, 1] && Totals([pa, pb]) == [1, 1];
    ReplaysExactly(Plan(".", 0, [pa, pb]), t);
  }

  /**
   Nested inputs can lose a file. Two files named x, below a and b; the plan puts the
   second into a while the first, bound for c, is still there: one of the two is gone.
   */
  lemma NestedFileLost(target: Path, first: Content, second: Content)
    ensures var ax, bx, cx := target + ["a", "x"], target + ["b", "x"], target + ["c", "x"];
            var t := Node(".", [], [Node("a", [bx], []), Node("c", [ax], [])]);
            var files := map[ax := first, bx := second];
            && Replays(Plan(".", 0, [Plan("a", 1, []), Plan("c", 1, [])]), t)
            && ListsFiles(files, target, Preorder(t))
            && forall dirs :: WellFormed(files, dirs) && target in dirs && cx !in dirs ==>
                 Moved(files, dirs, PlannedMoves(t, target)) == (map[cx := second], true)
  {
    var ax, bx, cx := target + ["a", "x"], target + ["b", "x"], target + ["c", "x"];
    var t := Node(".", [], [Node("a", [bx], []), Node("c", [ax], [])]);
    var files := map[ax := first, bx := second];
    assert ax[|target|] == "a" && bx[|target|] == "b" && cx[|target|] == "c";
    TwoLeaves("a", "c", bx, ax);
    RotatedMoves(target);
    forall dirs | WellFormed(files, dirs) && target in dirs && cx !in dirs
      ensures Moved(files, dirs, PlannedMoves(t, target)) == (map[cx := second], true)
    {
      PlainDirectory(files, dirs, target);
      assert ax in files;
      SwapLosesFile(dirs, target, first, second);
    }
  }

  lemma RotatedMoves(target: Path)
    ensures var ax, bx, cx := target + ["a", "x"], target + ["b", "x"], target + ["c", "x"];
            PlannedMoves(Node(".", [], [Node("a", [bx], []), Node("c", [ax], [])]), target)
            == [Move(bx, ax), Move(ax, cx)]
  {
    var ax, bx, cx := target + ["a", "x"], target + ["b", "x"], target + ["c", "x"];
    var ta, tc := Node("a", [bx], []), Node("c", [ax], []);
    assert ax[|target|] == "a" && bx[|target|] == "b" && cx[|target|] == "c";
    TwoLeaves("a", "c", bx, ax);
    var names := map[target := {}][target + ["a"] := {"x"}];
    assert (target + ["a"])[|target|] != (target + ["c"])[|target|];
    LoneDestination("a", bx, target, map[target := {}]);
    LoneDestination("c", ax, target, names);
    assert DestinationsAll([tc], target, names).0 == [cx] by {
      assert [tc][1..] == [];
    }
    assert Destinations(Node(".", [], [ta, tc]), target, map[]).0 == [ax, cx] by {
      assert [ta, tc][1..] == [tc];
    }
    OneMove(ax, cx);
    assert [bx, ax][1..] == [ax] && [ax, cx][1..] == [cx];
  }

  lemma SwapLosesFile(dirs: set<Path>, target: Path, first: Content, second: Content)
    requires IsPlain(target) && target + ["a", "x"] !in dirs && target + ["c", "x"] !in dirs
    ensures var ax, bx, cx := target + ["a", "x"], target + ["b", "x"], target + ["c", "x"];
            Moved(map[ax := first, bx := second], dirs, [Move(bx, ax), Move(ax, cx)]) == (map[cx := second], true)
  {
    var ax, bx, cx := target + ["a", "x"], target + ["b", "x"], target + ["c", "x"];
    assert ax[|target|] == "a" && bx[|target|] == "b" && cx[|target|] == "c";
    PlainLeaf(target, "a");
    PlainLeaf(target, "c");
    RotateLosesFile(dirs, ax, bx, cx, first, second);
  }

  lemma PlainLeaf(target: Path, dir: string)
    requires IsPlain(target) && dir != ".."
    ensures IsPlain(target + [dir, "x"]) && Resolve(target + [dir, "x"]) == target + [dir, "x"]
  {
    PlainPathsResolve(target + [dir, "x"]);
  }

  lemma RotateLosesFile(dirs: set<Path>, ax: Path, bx: Path, cx: Path, first: Content, second: Content)
    requires ax != bx && ax != cx && |ax| == |bx| == |cx| > 0
    requires ax !in dirs && cx !in dirs
    requires PlainMoves([Move(bx, ax), Move(ax, cx)])
    ensures Moved(map[ax := first, bx := second], dirs, [Move(bx, ax), Move(ax, cx)]) == (map[cx := second], true)
  {
    var files, moves := map[ax := first, bx := second], [Move(bx, ax), Move(ax, cx)];
    PlainOnDisk(moves);
    RotatedDirs(moves, ax, bx, cx);
    RunRotates(dirs + DirsNeeded(moves), ax, bx, cx, first, second);
  }

  lemma RunRotates(dirs: set<Path>, ax: Path, bx: Path, cx: Path, first: Content, second: Content)
    requires ax != bx && ax != cx && ax !in dirs && cx !in dirs && Parent(ax) in dirs && Parent(cx) in dirs
    ensures Run(map[ax := first, bx := second], dirs, [Move(bx, ax), Move(ax, cx)]) == (map[cx := second], None)
  {
    MoveOnto(dirs, bx, ax, second, first);
    MoveAlone(dirs, ax, cx, second);
    assert map[bx := second, ax := first] == map[ax := first, bx := second];
    RunTwo(map[ax := first, bx := second], dirs, Move(bx, ax), Move(ax, cx), map[ax := second], map[cx := second]);
  }

  lemma RotatedDirs(moves: seq<Move>, ax: Path, bx: Path, cx: Path)
    requires moves == [Move(bx, ax), Move(ax, cx)] && |ax| == |bx| == |cx| > 0
    requires PlainMoves(moves)
    ensures ax !in DirsNeeded(moves) && bx !in DirsNeeded(moves) && cx !in DirsNeeded(moves)
    ensures Parent(ax) in DirsNeeded(moves) && Parent(cx) in DirsNeeded(moves)
  {
    PlainNeeded(moves);
    forall p | p in DirsNeeded(moves)
      ensures |p| < |ax|
    {
      var m :| m in moves && p <= Parent(m.target);
    }
    assert moves[0] in moves && Parent(ax) <= Parent(ax);
    assert moves[1] in moves && Parent(cx) <= Parent(cx);
  }

  lemma MoveOnto(dirs: set<Path>, from: Path, to: Path, moved: Content, replaced: Content)
    requires from != to && to !in dirs && Parent(to) in dirs
    ensures MoveOne(map[from := moved, to := replaced], dirs, Move(from, to)) == (map[to := moved], None)
  {
    assert MoveOne(map[from := moved, to := replaced], dirs, Move(from, to)).0 == map[to := moved];
  }

  lemma MoveAlone(dirs: set<Path>, from: Path, to: Path, moved: Content)
    requires from != to && to !in dirs && Parent(to) in dirs
    ensures MoveOne(map[from := moved], dirs, Move(from, to)) == (map[to := moved], None)
  {
    assert MoveOne(map[from := moved], dirs, Move(from, to)).0 == map[to := moved];
  }

  /**
   A plan may name a directory "..". One file x in a flat target, another x beside the
   target: the move leaves the target and replaces the other file.
   */
  lemma DotDotLeavesTarget(parent: Path, name: string, inside: Content, outside: Content)
    ensures var target, x := parent + [name], parent + ["x"];
            var t := Node(".", [], [Node("..", [target + ["x"]], [])]);
            var files := map[target + ["x"] := inside, x := outside];
            && Replays(Plan(".", 0, [Plan("..", 1, [])]), t)
            && IsFlat(files, target) && ListsFiles(files, target, Preorder(t))
            && forall dirs :: WellFormed(files, dirs) && target in dirs ==>
                 && Moved(files, dirs, PlannedMoves(t, target)) == (map[x := inside], true)
                 && !Clean(files, dirs, PlannedMoves(t, target))
  {
    var target, x := parent + [name], parent + ["x"];
    var leaf := Node("..", [target + ["x"]], []);
    var t := Node(".", [], [leaf]);
    var files := map[target + ["x"] := inside, x := outside];
    LoneFile("..", target + ["x"]);
    assert [leaf][1..] == [];
    assert Preorder(t) == [target + ["x"]];
    assert TotalAll([]) == 0;
    assert Sizes([leaf]) == [1] && Totals([Plan("..", 1, [])]) == [1];
    ReplaysExactly(Plan(".", 0, [Plan("..", 1, [])]), t);
    LoneDestination("..", target + ["x"], target, map[target := {}]);
    assert Destinations(t, target, map[]).0 == [target + ["..", "x"]];
    var m := Move(target + ["x"], target + ["..", "x"]);
    assert |m.source| < |m.target|;
    OneMove(m.source, m.target);
    forall dirs | WellFormed(files, dirs) && target in dirs
      ensures Moved(files, dirs, [m]) == (map[x := inside], true) && !Clean(files, dirs, [m])
    {
      MoveThroughDotDot(dirs, parent, name, inside, outside);
    }
  }

  lemma MoveThroughDotDot(dirs: set<Path>, parent: Path, name: string, inside: Content, outside: Content)
    requires var target, x := parent + [name], parent + ["x"];
             WellFormed(map[target + ["x"] := inside, x := outside], dirs) && target in dirs
    ensures var target, x := parent + [name], parent + ["x"];
            var files := map[target + ["x"] := inside, x := outside];
            var moves := [Move(target + ["x"], target + ["..", "x"])];
            Moved(files, dirs, moves) == (map[x := inside], true) && !Clean(files, dirs, moves)
  {
    var target, x := parent + [name], parent + ["x"];
    var files, m := map[target + ["x"] := inside, x := outside], Move(target + ["x"], target + ["..", "x"]);
    EntriesResolve(files, dirs, target);
    assert Parent(target) == parent && Parent(x) == parent && Parent(m.target) == target + [".."];
    assert Parent(target + [".."]) == target;
    assert Resolve(m.target) == x;
    assert DirsNeeded([m]) <= dirs by {
      forall p | p in DirsNeeded([m])
        ensures p in dirs
      {
        WalkStaysOnDirs(files, dirs, target, p);
      }
    }
    assert x in files && target + ["x"] != x;
    ReplacesOutside(files, dirs, m, x);
    MoveOnto(dirs, m.source, x, inside, outside);
  }

  /** A move onto another file, where all directories exist. */
  lemma ReplacesOutside(files: Files, dirs: set<Path>, m: Move, x: Path)
    requires files.Keys !! dirs && DirsNeeded([m]) <= dirs && Resolve(m.target) == x
    requires x in files && m.source in files && x != m.source && Parent(x) in dirs
    ensures Moved(files, dirs, [m]) == (MoveOne(files, dirs, Move(m.source, x)).0, true)
    ensures !Clean(files, dirs, [m])
  {
    var placed := Move(m.source, x);
    assert [m][1..] == [] && OnDisk([m]) == [placed];
    assert dirs + DirsNeeded([m]) == dirs;
    RunOne(files, dirs, placed, MoveOne(files, dirs, placed).0);
    assert placed in [placed] && !IsSource([placed], x);
  }

  /** The way to a directory that exists, and one step back up, leads past existing directories only. */
  lemma WalkStaysOnDirs(files: Files, dirs: set<Path>, target: Path, p: Path)
    requires WellFormed(files, dirs) && target in dirs && p in Walked(target + [".."])
    ensures p in dirs
  {
    var d := target + [".."];
    var k :| 0 <= k <= |d| && p == Resolve(d[..k]);
    if k <= |target| {
      assert d[..k] == target[..k];
      if k < |target| {
        PrefixesAreDirs(files, dirs, target, target[..k]);
      } else {
        assert target[..k] == target;
      }
      EntriesResolve(files, dirs, target[..k]);
    } else {
      assert d[..k] == d && Parent(d) == target;
      EntriesResolve(files, dirs, target);
    }
  }

  lemma OneMove(source: Path, target: Path)
    requires source != target
    ensures MovesOf([source], [target]) == [Move(source, target)]
  {
    assert [source][1..] == [] && [target][1..] == [];
  }

  /** Two moves in a row. */
  lemma RunTwo(files: Files, dirs: set<Path>, m: Move, n: Move, middle: Files, after: Files)
    requires MoveOne(files, dirs, m) == (middle, None) && MoveOne(middle, dirs, n) == (after, None)
    ensures Run(files, dirs, [m, n]) == (after, None)
  {
    assert [m, n][1..] == [n] && [n][1..] == [];
    assert Run(after, dirs, []) == (after, None);
    assert Run(middle, dirs, [n]) == Run(after, dirs, [n][1..]);
  }

  lemma RunOne(files: Files, dirs: set<Path>, m: Move, after: Files)
    requires MoveOne(files, dirs, m) == (after, None)
    ensures Run(files, dirs, [m]) == (after, None)
  {
    assert [m][1..] == [];
  }

  lemma LoneFile(name: string, file: Path)
    ensures Preorder(Node(name, [file], [])) == [file]
  {
    assert PreorderAll([]) == [];
  }

  lemma LoneDestination(name: string, file: Path, parent: Path, reserved: Reserved)
    requires !StandsForParent(name) && UsedIn(reserved, parent + [name]) == {}
    ensures Destinations(Node(name, [file], []), parent, reserved)
         == ([parent + [name, BaseName(file)]], reserved[parent + [name] := {BaseName(file)}])
  {
    var dir, base := parent + [name], BaseName(file);
    FreshNameKept(base, {});
    assert [file][1..] == [] && {} + {base} == {base};
    assert Assign([file], dir, {}) == ([dir + [base]] + [], {base});
    assert dir + [base] == parent + [name, base];
    assert [dir + [base]] + [] + [] == [parent + [name, base]];
  }
}
