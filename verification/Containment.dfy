/**
 Whether files stay below the target. A directory may be called "..", so a path that starts
 with the target may lead out of it, and even back in.
 */
module Containment {
  import opened Naming
  import opened Common
  import opened DirTrees
  import opened Moves
  import opened FileSystems
  import opened Disk
  import opened Reorganizer
  import opened Plans
  import opened Replay

  /** Where a walk ends: so many levels up from its start, and then down these directories. */
  datatype Way = Way(up: nat, down: Path)

  function Go(at: Way, name: string): Way {
    if name != ".." then at.(down := at.down + [name])
    else if at.down == [] then at.(up := at.up + 1)
    else at.(down := Parent(at.down))
  }

  function WayOf(walk: Path): Way {
    if walk == [] then Way(0, []) else Go(WayOf(Parent(walk)), BaseName(walk))
  }

  /** How many levels of `target` are left after going up; at the root there is nothing further up. */
  function LevelsLeft(target: Path, up: nat): nat {
    if up <= |target| then |target| - up else 0
  }

  function PlaceFrom(target: Path, way: Way): Path {
    target[..LevelsLeft(target, way.up)] + way.down
  }

  /** The walk does not leave the target, or comes back down the very directories it left by. */
  predicate Inside(target: Path, way: Way) {
    target[LevelsLeft(target, way.up)..] <= way.down
  }

  lemma GoIsResolve(target: Path, way: Way, name: string)
    ensures PlaceFrom(target, Go(way, name))
         == if name == ".." then Parent(PlaceFrom(target, way)) else PlaceFrom(target, way) + [name]
  {
    var here := PlaceFrom(target, way);
    if name == ".." && way.down == [] {
      assert here == target[..LevelsLeft(target, way.up)];
    }
  }

  lemma {:induction false} WalkLeadsTo(target: Path, walk: Path)
    requires Resolve(target) == target
    ensures Resolve(target + walk) == PlaceFrom(target, WayOf(walk))
    decreases |walk|
  {
    var p := target + walk;
    if walk == [] {
      assert p == target && target[..|target|] == target;
    } else {
      assert Parent(p) == target + Parent(walk) && BaseName(p) == BaseName(walk);
      WalkLeadsTo(target, Parent(walk));
      GoIsResolve(target, WayOf(Parent(walk)), BaseName(walk));
    }
  }

  lemma PrefixSplit(a: Path, b: Path, c: Path)
    ensures a + b <= a + c <==> b <= c
  {
    if b <= c {
      assert a + c == a + b + c[|b|..];
    }
    if a + b <= a + c {
      assert (a + c)[..|a| + |b|] == a + b;
      assert (a + c)[|a|..|a| + |b|] == b;
    }
  }

  lemma StrictlyBelow(target: Path, p: Path, name: string)
    ensures IsBelow(target, p + [name]) <==> target <= p
  {
    if IsBelow(target, p + [name]) {
      assert target == (p + [name])[..|target|] == p[..|target|];
    }
  }

  lemma InsideExactly(target: Path, way: Way)
    ensures target <= PlaceFrom(target, way) <==> Inside(target, way)
  {
    var k := LevelsLeft(target, way.up);
    assert target == target[..k] + target[k..];
    PrefixSplit(target[..k], target[k..], way.down);
  }

  /** Exactly which directories keep a file below the target, for every walk, one with ".." in it or not. */
  lemma BelowExactly(target: Path, walk: Path, p: Path)
    requires Resolve(target) == target && p != [] && Parent(p) == target + walk && BaseName(p) != ".."
    ensures IsBelow(target, Resolve(p)) <==> Inside(target, WayOf(walk))
  {
    WalkLeadsTo(target, walk);
    StrictlyBelow(target, PlaceFrom(target, WayOf(walk)), BaseName(p));
    InsideExactly(target, WayOf(walk));
  }

  // Walks that never come back.

  /** Steps down minus steps up. */
  function Descent(walk: Path): int {
    if walk == [] then 0 else Descent(Parent(walk)) + if BaseName(walk) == ".." then -1 else 1
  }

  /** The walk has at no point gone up more often than down. */
  ghost predicate NeverAbove(walk: Path) {
    forall n :: 0 <= n <= |walk| ==> Descent(walk[..n]) >= 0
  }

  lemma {:induction false} DescentOfWay(walk: Path)
    ensures Descent(walk) == |WayOf(walk).down| - WayOf(walk).up
    ensures forall name :: name in WayOf(walk).down ==> name in walk
    decreases |walk|
  {
    if walk != [] {
      DescentOfWay(Parent(walk));
      assert walk == Parent(walk) + [BaseName(walk)];
    }
  }

  lemma {:induction false} StaysUnderExactly(walk: Path)
    ensures WayOf(walk).up == 0 <==> NeverAbove(walk)
    decreases |walk|
  {
    DescentOfWay(walk);
    assert walk[..|walk|] == walk;
    if walk != [] {
      StaysUnderExactly(Parent(walk));
      assert forall n :: 0 <= n < |walk| ==> Parent(walk)[..n] == walk[..n];
      if NeverAbove(Parent(walk)) {
        assert forall n :: 0 <= n <= |walk| - 1 ==> Descent(walk[..n]) >= 0;
      }
      if NeverAbove(walk) {
        assert forall n :: 0 <= n <= |walk| - 1 ==> Descent(Parent(walk)[..n]) >= 0;
      }
    }
  }

  /** Unless a directory has the target's own name, to stay inside is never to go above it. */
  lemma NeverComesBack(target: Path, walk: Path)
    requires target != [] && BaseName(target) !in walk
    ensures Inside(target, WayOf(walk)) <==> NeverAbove(walk)
  {
    var way := WayOf(walk);
    var k := LevelsLeft(target, way.up);
    DescentOfWay(walk);
    StaysUnderExactly(walk);
    if way.up > 0 && target[k..] <= way.down {
      LastNameIn(target, k, way.down);
    }
  }

  lemma LastNameIn(target: Path, k: nat, down: Path)
    requires k < |target| && target[k..] <= down
    ensures BaseName(target) in down
  {
    assert target[k..][|target| - 1 - k] == BaseName(target);
    assert down[|target| - 1 - k] == BaseName(target);
  }

  // Trees.

  /** Every directory with files of its own lies inside the target. */
  predicate StaysInside(t: Tree, target: Path, walk: Path)
    decreases t, 0
  {
    var here := Location(t.name, walk);
    && (t.files != [] ==> Inside(target, WayOf(here)))
    && AllStayInside(t.children, target, here)
  }

  predicate AllStayInside(ts: seq<Tree>, target: Path, walk: Path)
    decreases ts, 1
  {
    ts == [] || (StaysInside(ts[0], target, walk) && AllStayInside(ts[1..], target, walk))
  }

  /** All these destinations lead below the target. */
  ghost predicate AllBelow(target: Path, targets: seq<Path>) {
    forall p :: p in targets ==> IsBelow(target, Resolve(p))
  }

  lemma AllBelowConcat(target: Path, a: seq<Path>, b: seq<Path>)
    ensures AllBelow(target, a + b) <==> AllBelow(target, a) && AllBelow(target, b)
  {
    assert forall p :: p in a + b <==> p in a || p in b;
  }

  /** No file is called "..", as on any disk. */
  ghost predicate PlainNames(files: seq<Path>) {
    forall f :: f in files ==> BaseName(f) != ".."
  }

  lemma AssignedBelow(target: Path, walk: Path, files: seq<Path>, used: set<string>)
    requires Resolve(target) == target && PlainNames(files)
    ensures AllBelow(target, Assign(files, target + walk, used).0) <==> files == [] || Inside(target, WayOf(walk))
  {
    var targets := Assign(files, target + walk, used).0;
    AssignWithin(files, target + walk, used);
    forall p | p in targets
      ensures IsBelow(target, Resolve(p)) <==> Inside(target, WayOf(walk))
    {
      NamedAfterPlain(p, files);
      BelowExactly(target, walk, p);
    }
    if files != [] {
      assert targets[0] in targets;
    }
  }

  lemma LocationBelow(name: string, target: Path, walk: Path)
    ensures Location(name, target + walk) == target + Location(name, walk)
  {
    assert target + walk + [name] == target + (walk + [name]);
  }

  lemma {:induction false} DestinationsBelow(t: Tree, target: Path, walk: Path, reserved: Reserved)
    requires Resolve(target) == target && PlainNames(Preorder(t))
    ensures AllBelow(target, Destinations(t, target + walk, reserved).0) <==> StaysInside(t, target, walk)
    decreases t, 0
  {
    var here := Location(t.name, walk);
    LocationBelow(t.name, target, walk);
    var (own, used) := Assign(t.files, target + here, UsedIn(reserved, target + here));
    AssignedBelow(target, here, t.files, UsedIn(reserved, target + here));
    var below := DestinationsAll(t.children, target + here, reserved[target + here := used]).0;
    DestinationsAllBelow(t.children, target, here, reserved[target + here := used]);
    AllBelowConcat(target, own, below);
  }

  lemma {:induction false} DestinationsAllBelow(ts: seq<Tree>, target: Path, walk: Path, reserved: Reserved)
    requires Resolve(target) == target && PlainNames(PreorderAll(ts))
    ensures AllBelow(target, DestinationsAll(ts, target + walk, reserved).0)
       <==> AllStayInside(ts, target, walk)
    decreases ts, 1
  {
    if ts != [] {
      var (first, names) := Destinations(ts[0], target + walk, reserved);
      DestinationsBelow(ts[0], target, walk, reserved);
      DestinationsAllBelow(ts[1..], target, walk, names);
      AllBelowConcat(target, first, DestinationsAll(ts[1..], target + walk, names).0);
    }
  }

  lemma ListedNamesPlain(files: Files, dirs: set<Path>, target: Path, listed: seq<Path>)
    requires WellFormed(files, dirs) && ListsFiles(files, target, listed)
    ensures PlainNames(listed)
  {
    forall f | f in listed
      ensures BaseName(f) != ".."
    {
      assert f in files;
    }
  }

  /**
   Containment, exactly: the planned places of the files all lie below the target if and
   only if every directory that has files lies inside it.
   */
  lemma ContainedExactly(files: Files, dirs: set<Path>, t: Tree, target: Path)
    requires WellFormed(files, dirs) && target in dirs && ListsFiles(files, target, Preorder(t))
    ensures AllBelow(target, Destinations(t, target, map[]).0) <==> StaysInside(t, target, [])
  {
    EntriesResolve(files, dirs, target);
    ListedNamesPlain(files, dirs, target, Preorder(t));
    assert target + [] == target;
    DestinationsBelow(t, target, [], map[]);
  }

  /** Each file on its own: its place lies below the target if and only if its directory is inside. */
  lemma PlaceBelowExactly(files: Files, dirs: set<Path>, t: Tree, target: Path, p: Path)
    requires WellFormed(files, dirs) && target in dirs && ListsFiles(files, target, Preorder(t))
    requires p in Destinations(t, target, map[]).0
    ensures target <= Parent(p)
    ensures IsBelow(target, Resolve(p)) <==> Inside(target, WayOf(Parent(p)[|target|..]))
  {
    EntriesResolve(files, dirs, target);
    ListedNamesPlain(files, dirs, target, Preorder(t));
    DestinationsWithin(t, target, map[]);
    assert Placed(target, DirNames(t), Preorder(t), p);
    NamedAfterPlain(p, Preorder(t));
    ParentWithin(target, p);
    BelowExactly(target, Parent(p)[|target|..], p);
  }

  lemma ParentWithin(target: Path, p: Path)
    requires target < p
    ensures target <= Parent(p) && target + Parent(p)[|target|..] == Parent(p)
  {
    assert p == Parent(p) + [BaseName(p)];
    StrictlyBelow(target, Parent(p), BaseName(p));
  }

  // What a run leaves alone.

  /** Away from the target the same files have the same contents. */
  ghost predicate SameOutside(target: Path, before: Files, after: Files) {
    forall p :: !IsBelow(target, p) ==>
      (p in before <==> p in after) && (p in before ==> before[p] == after[p])
  }

  lemma {:induction false} RunWithin(files: Files, dirs: set<Path>, target: Path, moves: seq<Move>)
    requires forall m :: m in moves ==> IsBelow(target, m.source) && IsBelow(target, m.target)
    ensures SameOutside(target, files, Run(files, dirs, moves).0)
    decreases |moves|
  {
    if moves != [] {
      assert moves[0] in moves;
      MoveWithin(files, dirs, target, moves[0]);
      RunWithin(MoveOne(files, dirs, moves[0]).0, dirs, target, moves[1..]);
    }
  }

  lemma MoveWithin(files: Files, dirs: set<Path>, target: Path, m: Move)
    requires IsBelow(target, m.source) && IsBelow(target, m.target)
    ensures SameOutside(target, files, MoveOne(files, dirs, m).0)
  {
    assert IsBelow(target, m.target + [BaseName(m.source)]);
  }

  /** If every directory that has files is inside, no run touches a file outside, whether it completes or not. */
  lemma OutsideUntouched(files: Files, dirs: set<Path>, t: Tree, target: Path)
    requires WellFormed(files, dirs) && target in dirs && ListsFiles(files, target, Preorder(t))
    requires StaysInside(t, target, [])
    ensures SameOutside(target, files, Moved(files, dirs, PlannedMoves(t, target)).0)
  {
    var moves := PlannedMoves(t, target);
    ContainedExactly(files, dirs, t, target);
    forall m | m in OnDisk(moves)
      ensures IsBelow(target, m.source) && IsBelow(target, m.target)
    {
      var i :| 0 <= i < |moves| && OnDisk(moves)[i] == m;
      MovesComeFrom(Preorder(t), Destinations(t, target, map[]).0, moves[i]);
    }
    RunWithin(files, dirs + DirsNeeded(moves), target, OnDisk(moves));
  }

  // Plans, before any files are dealt out.

  /** Every directory for which the plan counts files lies inside the target. */
  predicate PlanStaysInside(plan: Plan, target: Path, walk: Path)
    decreases plan, 0
  {
    var here := Location(plan.name, walk);
    && (plan.nFiles > 0 ==> Inside(target, WayOf(here)))
    && AllPlansStayInside(plan.children, target, here)
  }

  predicate AllPlansStayInside(plans: seq<Plan>, target: Path, walk: Path)
    decreases plans, 1
  {
    plans == [] || (PlanStaysInside(plans[0], target, walk) && AllPlansStayInside(plans[1..], target, walk))
  }

  lemma {:induction false} EmptyPlanStays(plan: Plan, target: Path, walk: Path)
    requires Total(plan) == 0
    ensures PlanStaysInside(plan, target, walk)
    decreases plan, 0
  {
    EmptyPlansStay(plan.children, target, Location(plan.name, walk));
  }

  lemma {:induction false} EmptyPlansStay(plans: seq<Plan>, target: Path, walk: Path)
    requires TotalAll(plans) == 0
    ensures AllPlansStayInside(plans, target, walk)
    decreases plans, 1
  {
    if plans != [] {
      EmptyPlanStays(plans[0], target, walk);
      EmptyPlansStay(plans[1..], target, walk);
    }
  }

  /** Each of these trees is a replay of its plan, and empty if the plan counts nothing. */
  ghost predicate ReplayAll(plans: seq<Plan>, ts: seq<Tree>) {
    && |ts| == |plans|
    && forall i :: 0 <= i < |plans| ==> Replays(plans[i], ts[i]) && (Total(plans[i]) == 0 ==> Preorder(ts[i]) == [])
  }

  /** A replay has files only where the plan counts some. */
  lemma {:induction false} ReplayStays(plan: Plan, t: Tree, target: Path, walk: Path)
    requires Replays(plan, t) && (Total(plan) == 0 ==> Preorder(t) == [])
    requires PlanStaysInside(plan, target, walk)
    ensures StaysInside(t, target, walk)
    decreases plan, 0
  {
    if Preorder(t) != [] && plan.children != [] {
      OwnShare(plan, t);
      forall i | 0 <= i < |plan.children|
        ensures Total(plan.children[i]) == 0 ==> Preorder(t.children[i]) == []
      {
        ChildShare(plan, t, i);
      }
      ReplaysStay(plan.children, t.children, target, Location(plan.name, walk));
    } else {
      assert t.children == [];
      assert t.files != [] ==> plan.nFiles == Total(plan) > 0 by {
        assert TotalAll([]) == 0;
      }
    }
  }

  lemma {:induction false} ReplaysStay(plans: seq<Plan>, ts: seq<Tree>, target: Path, walk: Path)
    requires ReplayAll(plans, ts) && AllPlansStayInside(plans, target, walk)
    ensures AllStayInside(ts, target, walk)
    decreases plans, 1
  {
    if plans != [] {
      ReplayStays(plans[0], ts[0], target, walk);
      ReplaysStay(plans[1..], ts[1..], target, walk);
    }
  }

  /** A tree with the plan's own counts, on copies of one file. */
  function Filled(plan: Plan, file: Path): Tree
    decreases plan, 0
  {
    Node(plan.name, seq(plan.nFiles, _ => file), if Total(plan) == 0 then [] else FilledAll(plan.children, file))
  }

  function FilledAll(plans: seq<Plan>, file: Path): (ts: seq<Tree>)
    ensures |ts| == |plans|
    ensures forall i :: 0 <= i < |plans| ==> ts[i] == Filled(plans[i], file)
    decreases plans, 1
  {
    if plans == [] then [] else [Filled(plans[0], file)] + FilledAll(plans[1..], file)
  }

  lemma {:induction false} FilledReplays(plan: Plan, file: Path)
    ensures Replays(plan, Filled(plan, file)) && |Preorder(Filled(plan, file))| == Total(plan)
    decreases plan, 0
  {
    var t := Filled(plan, file);
    FilledAllReplay(plan.children, file);
    if Total(plan) > 0 {
      SizesSum(t.children);
      TotalsSum(plan.children);
      assert Held(t) == Slots(plan);
      ReplaysExactly(plan, t);
    }
  }

  lemma {:induction false} FilledAllReplay(plans: seq<Plan>, file: Path)
    ensures ReplayAll(plans, FilledAll(plans, file)) && Sizes(FilledAll(plans, file)) == Totals(plans)
    decreases plans, 1
  {
    var ts := FilledAll(plans, file);
    forall i | 0 <= i < |plans|
      ensures Replays(plans[i], ts[i]) && |Preorder(ts[i])| == Total(plans[i])
    {
      FilledReplays(plans[i], file);
    }
  }

  lemma {:induction false} FilledStays(plan: Plan, file: Path, target: Path, walk: Path)
    requires StaysInside(Filled(plan, file), target, walk)
    ensures PlanStaysInside(plan, target, walk)
    decreases plan, 0
  {
    if Total(plan) == 0 {
      EmptyPlanStays(plan, target, walk);
    } else {
      FilledAllStay(plan.children, file, target, Location(plan.name, walk));
    }
  }

  lemma {:induction false} FilledAllStay(plans: seq<Plan>, file: Path, target: Path, walk: Path)
    requires AllStayInside(FilledAll(plans, file), target, walk)
    ensures AllPlansStayInside(plans, target, walk)
    decreases plans, 1
  {
    if plans != [] {
      FilledStays(plans[0], file, target, walk);
      assert FilledAll(plans, file)[1..] == FilledAll(plans[1..], file);
      FilledAllStay(plans[1..], file, target, walk);
    }
  }

  ghost predicate AllReplaysStay(plan: Plan, target: Path) {
    forall t :: Replays(plan, t) ==> StaysInside(t, target, [])
  }

  /** A plan that counts nothing puts all files into its root. */
  lemma EmptyPlanFillsRoot(plan: Plan, target: Path)
    requires Total(plan) == 0
    ensures AllReplaysStay(plan, target) <==> Inside(target, WayOf(Location(plan.name, [])))
  {
    forall t | Replays(plan, t)
      ensures t.name == plan.name && t.children == []
    {
    }
    var t := Node(plan.name, [[]], []);
    assert Replays(plan, t) && t.files != [];
    assert StaysInside(t, target, []) <==> Inside(target, WayOf(Location(plan.name, [])));
  }

  /**
   Read off a plan before any run: all its replays, on however many files, stay inside the
   target if and only if every directory for which it counts files does, or the root if it
   counts none at all.
   */
  lemma PlanStaysExactly(plan: Plan, target: Path)
    ensures AllReplaysStay(plan, target)
       <==> if Total(plan) > 0 then PlanStaysInside(plan, target, [])
            else Inside(target, WayOf(Location(plan.name, [])))
  {
    if Total(plan) == 0 {
      EmptyPlanFillsRoot(plan, target);
    } else {
      if PlanStaysInside(plan, target, []) {
        forall t | Replays(plan, t)
          ensures StaysInside(t, target, [])
        {
          ReplayStays(plan, t, target, []);
        }
      }
      if AllReplaysStay(plan, target) {
        FilledReplays(plan, []);
        FilledStays(plan, [], target, []);
      }
    }
  }
}
