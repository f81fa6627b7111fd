/** The reorganiser from the listed files to the tidied disk. */
module ReorganizeDataset {
  import opened Common
  import opened DirTrees
  import opened Moves
  import opened Plans
  import opened FileSystems
  import opened Disk
  import opened Reorganizer
  import opened FlatDatasets
  import opened Containment
  import BuiltTrees
  import Naming
  import Replay
  import TreeBuilder

  /** Where on disk the files of a tree go, in preorder. */
  function Places(t: Tree, target: Path): (r: seq<Path>)
    ensures |r| == |Preorder(t)|
  {
    var targets := Destinations(t, target, map[]).0;
    seq(|targets|, i requires 0 <= i < |targets| => Resolve(targets[i]))
  }

  /** Every listed file has its contents at its place, other files are as they were, and nothing else exists. */
  ghost predicate AllInPlace(before: Files, target: Path, t: Tree, after: Files) {
    var sources, places := Preorder(t), Places(t, target);
    && |after.Keys| == |before.Keys|
    && (forall i :: 0 <= i < |sources| ==>
          places[i] in after && sources[i] in before && after[places[i]] == before[sources[i]])
    && (forall p :: p in before && !IsBelow(target, p) ==> p in after && after[p] == before[p])
    && (forall q :: q in after ==> q in places || (q in before && !IsBelow(target, q)))
  }

  /** Without ".." the places are the destinations themselves, below the target in the directories of the tree. */
  lemma PlacesAreDestinations(files: Files, dirs: set<Path>, t: Tree, target: Path)
    requires WellFormed(files, dirs) && target in dirs && ListsFiles(files, target, Preorder(t))
    requires ".." !in DirNames(t)
    ensures Places(t, target) == Destinations(t, target, map[]).0
    ensures forall p :: p in Places(t, target) ==> LiesWithin(target, DirNames(t), p)
  {
    var targets := Destinations(t, target, map[]).0;
    DestinationsWithin(t, target, map[]);
    forall i | 0 <= i < |targets|
      ensures Resolve(targets[i]) == targets[i] && LiesWithin(target, DirNames(t), targets[i])
    {
      PlainDestination(files, dirs, t, target, targets[i]);
      assert Placed(target, DirNames(t), Preorder(t), targets[i]);
    }
  }

  lemma {:induction false} OnDiskDestination(moves: seq<Move>, p: Path)
    requires Resolve(p) == p
    ensures Destination(OnDisk(moves), p) == Resolve(Destination(moves, p))
  {
    if moves != [] && moves[0].source != p {
      OnDiskDestination(moves[1..], p);
    }
  }

  /** A listed file goes to its own place; any other file stays. */
  lemma PlannedDestination(files: Files, dirs: set<Path>, target: Path, t: Tree, p: Path) returns (i: nat)
    requires WellFormed(files, dirs) && ListsFiles(files, target, Preorder(t)) && p in files
    ensures var q := Destination(OnDisk(PlannedMoves(t, target)), p);
            if IsBelow(target, p) then i < |Preorder(t)| && p == Preorder(t)[i] && q == Places(t, target)[i] else q == p
  {
    var sources, targets := Preorder(t), Destinations(t, target, map[]).0;
    i := 0;
    EntriesResolve(files, dirs, p);
    OnDiskDestination(PlannedMoves(t, target), p);
    if IsBelow(target, p) {
      assert p in sources;
      i :| 0 <= i < |sources| && sources[i] == p;
      MovesReachTargets(sources, targets, i);
    } else {
      OthersStayPut(sources, targets, p);
    }
  }

  lemma ListedArrives(before: Files, dirs: set<Path>, target: Path, t: Tree, after: Files, i: nat)
    requires WellFormed(before, dirs) && ListsFiles(before, target, Preorder(t)) && i < |Preorder(t)|
    requires Arrived(before, OnDisk(PlannedMoves(t, target)), after)
    ensures var p, q := Preorder(t)[i], Places(t, target)[i]; q in after && p in before && after[q] == before[p]
  {
    var p := Preorder(t)[i];
    assert p in Preorder(t);
    var j := PlannedDestination(before, dirs, target, t, p);
    assert j == i;
  }

  /** A renaming by the planned moves puts every file where the tree says. */
  lemma RenamingPutsInPlace(before: Files, dirs: set<Path>, target: Path, t: Tree, after: Files)
    requires WellFormed(before, dirs) && ListsFiles(before, target, Preorder(t))
    requires IsRenaming(before, OnDisk(PlannedMoves(t, target)), after)
    ensures AllInPlace(before, target, t, after)
  {
    forall i | 0 <= i < |Preorder(t)|
      ensures var p, q := Preorder(t)[i], Places(t, target)[i]; q in after && p in before && after[q] == before[p]
    {
      ListedArrives(before, dirs, target, t, after, i);
    }
    forall p | p in before && !IsBelow(target, p)
      ensures p in after && after[p] == before[p]
    {
      var _ := PlannedDestination(before, dirs, target, t, p);
    }
    forall q | q in after
      ensures q in Places(t, target) || (q in before && !IsBelow(target, q))
    {
      var p :| p in before && Destination(OnDisk(PlannedMoves(t, target)), p) == q;
      var _ := PlannedDestination(before, dirs, target, t, p);
    }
  }

  /** A listed file whose place is outside is a new file there. */
  lemma PlaceOutsideIsNew(before: Files, dirs: set<Path>, target: Path, t: Tree, after: Files, i: nat)
    requires WellFormed(before, dirs) && ListsFiles(before, target, Preorder(t)) && i < |Preorder(t)|
    requires IsRenaming(before, OnDisk(PlannedMoves(t, target)), after)
    ensures Places(t, target)[i] in after
    ensures !IsBelow(target, Places(t, target)[i]) ==> Places(t, target)[i] !in before
  {
    var moves, source, place := OnDisk(PlannedMoves(t, target)), Preorder(t)[i], Places(t, target)[i];
    ListedArrives(before, dirs, target, t, after, i);
    assert source in Preorder(t);
    if place in before && !IsBelow(target, place) {
      var j := PlannedDestination(before, dirs, target, t, source);
      var _ := PlannedDestination(before, dirs, target, t, place);
      RenamingImages(before, moves, after);
      ImagesInjective(before.Keys, moves, after.Keys, source, place);
    }
  }

  lemma PlacesInsideKeepOutside(before: Files, target: Path, t: Tree, after: Files)
    requires AllInPlace(before, target, t, after) && AllBelow(target, Destinations(t, target, map[]).0)
    ensures SameOutside(target, before, after)
  {
    var targets := Destinations(t, target, map[]).0;
    forall p | p in Places(t, target)
      ensures IsBelow(target, p)
    {
      var i :| 0 <= i < |targets| && Places(t, target)[i] == p;
      assert targets[i] in targets;
    }
  }

  lemma KeptOutsideMeansInside(before: Files, dirs: set<Path>, target: Path, t: Tree, after: Files)
    requires WellFormed(before, dirs) && ListsFiles(before, target, Preorder(t))
    requires IsRenaming(before, OnDisk(PlannedMoves(t, target)), after) && SameOutside(target, before, after)
    ensures AllBelow(target, Destinations(t, target, map[]).0)
  {
    var targets := Destinations(t, target, map[]).0;
    forall p | p in targets
      ensures IsBelow(target, Resolve(p))
    {
      var i :| 0 <= i < |targets| && targets[i] == p;
      PlaceOutsideIsNew(before, dirs, target, t, after, i);
    }
  }

  /**
   A run that puts every file in place leaves everything outside the target as it was exactly
   when every directory that has files lies inside.
   */
  lemma OutsideKeptExactly(before: Files, dirs: set<Path>, target: Path, t: Tree, after: Files)
    requires WellFormed(before, dirs) && target in dirs && ListsFiles(before, target, Preorder(t))
    requires IsRenaming(before, OnDisk(PlannedMoves(t, target)), after)
    ensures SameOutside(target, before, after) <==> StaysInside(t, target, [])
  {
    ContainedExactly(before, dirs, t, target);
    if StaysInside(t, target, []) {
      RenamingPutsInPlace(before, dirs, target, t, after);
      PlacesInsideKeepOutside(before, target, t, after);
    }
    if SameOutside(target, before, after) {
      KeptOutsideMeansInside(before, dirs, target, t, after);
    }
  }

  lemma OthersStayPut(sources: seq<Path>, targets: seq<Path>, p: Path)
    requires |sources| == |targets| && p !in sources
    ensures Destination(MovesOf(sources, targets), p) == p
  {
    var moves := MovesOf(sources, targets);
    forall i | 0 <= i < |moves|
      ensures moves[i].source != p
    {
      MovesOfPairs(sources, targets, moves[i]);
    }
    StaysPut(moves, p);
  }

  /** A directory tree with a file everywhere has no hollow directory. */
  lemma {:induction false} OrganicIsNotHollow(t: Tree, room: int)
    requires BuiltTrees.Organic(t, room)
    ensures Replay.NoHollow(TreeToPlan(t))
  {
    Replay.PlanCountsFiles(t);
    forall i | 0 <= i < |t.children|
      ensures Replay.NoHollow(TreeToPlan(t).children[i])
    {
      assert t.children[i] in t.children;
      OrganicIsNotHollow(t.children[i], room - 1);
    }
  }

  /** A builder whose vocabulary has no ".." names no directory so, and its trees stay below the target. */
  lemma {:induction false} BuiltNamesNoDotDot(t: Tree, words: set<string>)
    requires BuiltTrees.Named(t, words) && ".." !in words && t.name != ".."
    ensures ".." !in DirNames(t)
    decreases t, 0
  {
    forall k | 0 <= k < |t.children|
      ensures t.children[k].name != ".." && BuiltTrees.Named(t.children[k], words)
    {
      BuiltTrees.NamedChild(t, words, k);
      var used := {} + BuiltTrees.Names(t.children[..k]);
      assert BuiltTrees.NamedAfterWord(t.children[k].name, used, words);
      WordIsNoDotDot(t.children[k].name, used, words);
    }
    AllNoDotDot(t.children, words);
  }

  lemma {:induction false} AllNoDotDot(ts: seq<Tree>, words: set<string>)
    requires ".." !in words
    requires forall k :: 0 <= k < |ts| ==> ts[k].name != ".." && BuiltTrees.Named(ts[k], words)
    ensures ".." !in DirNamesAll(ts)
    decreases ts, 1
  {
    if ts != [] {
      BuiltNamesNoDotDot(ts[0], words);
      AllNoDotDot(ts[1..], words);
    }
  }

  lemma WordIsNoDotDot(name: string, used: set<string>, words: set<string>)
    requires BuiltTrees.NamedAfterWord(name, used, words) && ".." !in words
    ensures name != ".."
  {
    var w :| w in words && name == Naming.FreshName(w, "", used);
    if name != w {
      assert w + "" == w;
      var c :| name == Naming.Suffixed(w, c, "");
      assert name[|w|] == '_';
    }
  }

  /** Saving the plan of a built tree and replaying it on the same files rebuilds that very tree. */
  lemma BuiltTreeReplaysToItself(t: Tree, room: int, replayed: Tree)
    requires BuiltTrees.Organic(t, room)
    requires Replays(TreeToPlan(t), replayed) && Preorder(replayed) == Preorder(t)
    ensures replayed == t
  {
    OrganicIsNotHollow(t, room);
    Replay.PlanRoundTrip(t, replayed);
  }

  /** No directory of a replayed tree is hollow either. */
  lemma {:induction false} ReplayIsNotHollow(plan: Plan, t: Tree)
    requires Replays(plan, t)
    ensures Replay.NoHollow(TreeToPlan(t))
  {
    Replay.PlanCountsFiles(t);
    forall i | 0 <= i < |t.children|
      ensures Replay.NoHollow(TreeToPlan(t).children[i])
    {
      ReplayIsNotHollow(plan.children[i], t.children[i]);
    }
  }

  /** So whatever tree is saved, replaying it on the same files gives that very tree. */
  lemma ReplayedTreeReplaysToItself(plan: Plan, t: Tree, replayed: Tree)
    requires Replays(plan, t)
    requires Replays(TreeToPlan(t), replayed) && Preorder(replayed) == Preorder(t)
    ensures replayed == t
  {
    ReplayIsNotHollow(plan, t);
    Replay.PlanRoundTrip(t, replayed);
  }

  /** What a run comes to, clean start or not. */
  lemma RunOutcome(before: Files, dirs: set<Path>, target: Path, t: Tree, after: Files, completed: bool)
    requires WellFormed(before, dirs) && target in dirs && ListsFiles(before, target, Preorder(t))
    requires (after, completed) == Moved(before, dirs, PlannedMoves(t, target))
    requires completed && IsRenaming(before, OnDisk(PlannedMoves(t, target)), after)
        <==> Clean(before, dirs, PlannedMoves(t, target))
    ensures Clean(before, dirs, PlannedMoves(t, target)) ==>
              && completed && AllInPlace(before, target, t, after)
              && (SameOutside(target, before, after) <==> StaysInside(t, target, []))
    ensures StaysInside(t, target, []) ==> SameOutside(target, before, after)
    ensures IsFlat(before, target) && NamesApart(before, dirs, target, t) ==>
              Clean(before, dirs, PlannedMoves(t, target))
  {
    if StaysInside(t, target, []) {
      OutsideUntouched(before, dirs, t, target);
    }
    if IsFlat(before, target) && NamesApart(before, dirs, target, t) {
      FlatIsClean(before, dirs, target, t);
    }
    if Clean(before, dirs, PlannedMoves(t, target)) {
      RenamingPutsInPlace(before, dirs, target, t, after);
      OutsideKeptExactly(before, dirs, target, t, after);
    }
  }

  /** The tree for the shuffled files: a saved plan replayed, or else a random one. */
  method MakeTree(shuffled: seq<Path>, fromPlan: Option<Plan>, setup: TreeBuilder.Setup) returns (node: DirNode)
    requires setup.Valid() && shuffled != []
    ensures node.Valid() && fresh(node.repr) && Preorder(node.tree) == shuffled
    ensures fromPlan.Some? ==> Replays(fromPlan.value, node.tree)
    ensures fromPlan.None? ==> node.tree == TreeBuilder.Built(setup, shuffled, 0, [], ".")
  {
    match fromPlan {
      case Some(plan) => node := Replay.PlanToTree(plan, shuffled, setup.argsort);
      case None =>
        node := TreeBuilder.BuildTree(setup, shuffled, 0, [], ".");
        BuiltTrees.BuiltIsOrganic(setup, shuffled, 0, [], ".");
    }
  }

  /**
   One run on the shuffled files below the target, building a random tree or replaying a
   saved plan. On a flat dataset no directory of which is named ".." or like a file it always
   completes with every file in place; on any dataset it does so exactly from a clean start.
   Files outside the target are left alone if every directory that has files lies inside.
   */
  method Reorganize(fs: FileSystem, target: Path, shuffled: seq<Path>, fromPlan: Option<Plan>,
                    setup: TreeBuilder.Setup) returns (completed: bool, ghost tree: Tree)
    requires fs.Valid() && target in fs.dirs && ListsFiles(fs.files, target, shuffled)
    requires setup.Valid()
    modifies fs
    ensures fs.Valid()
    ensures Preorder(tree) == shuffled
    ensures fromPlan.Some? && shuffled != [] ==> Plans.Replays(fromPlan.value, tree)
    ensures fromPlan.None? && shuffled != [] ==> tree == TreeBuilder.Built(setup, shuffled, 0, [], ".")
    ensures (fs.files, completed) == Moved(old(fs.files), old(fs.dirs), PlannedMoves(tree, target))
    ensures completed && IsRenaming(old(fs.files), OnDisk(PlannedMoves(tree, target)), fs.files)
       <==> Clean(old(fs.files), old(fs.dirs), PlannedMoves(tree, target))
    ensures Clean(old(fs.files), old(fs.dirs), PlannedMoves(tree, target)) ==>
              AllInPlace(old(fs.files), target, tree, fs.files)
    ensures IsFlat(old(fs.files), target) && NamesApart(old(fs.files), old(fs.dirs), target, tree) ==>
              completed && AllInPlace(old(fs.files), target, tree, fs.files)
    ensures StaysInside(tree, target, []) ==> SameOutside(target, old(fs.files), fs.files)
    ensures Clean(old(fs.files), old(fs.dirs), PlannedMoves(tree, target)) ==>
              (SameOutside(target, old(fs.files), fs.files) <==> StaysInside(tree, target, []))
    ensures PlannedMoves(tree, target) == [] ==> fs.dirs == old(fs.dirs)
    ensures completed && PlannedMoves(tree, target) != [] ==>
              Tidied(fs.files, old(fs.dirs) + DirsNeeded(PlannedMoves(tree, target)), target, fs.dirs)
  {
    if shuffled == [] {
      tree := Node(".", [], []);
      NothingPlanned(target);
      NoMoves(fs.files, fs.dirs);
      RunOutcome(fs.files, fs.dirs, target, tree, fs.files, true);
      return true, tree;
    }
    var node := MakeTree(shuffled, fromPlan, setup);
    tree := node.tree;
    ghost var files, dirs := fs.files, fs.dirs;
    var removed;
    completed, removed := ApplyTree(fs, node, target);
    RunOutcome(files, dirs, target, tree, fs.files, completed);
  }

  lemma NothingPlanned(target: Path)
    ensures Preorder(Node(".", [], [])) == [] && PlannedMoves(Node(".", [], []), target) == []
  {
  }
}
