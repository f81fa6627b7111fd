/** Flattening a tree into moves whose destinations never collide. */
module Moves {
  import opened Common
  import opened Naming
  import opened DirTrees

  datatype Move = Move(source: Path, target: Path)

  /** The basenames handed out so far, per target directory. */
  type Reserved = map<Path, set<string>>

  /** Reservations shared by the whole recursion, which every directory updates. */
  class Reservations {
    var names: Reserved

    constructor ()
      ensures names == map[]
    {
      names := map[];
    }
  }

  function BaseName(p: Path): string {
    if p == [] then "" else p[|p| - 1]
  }

  function Parent(p: Path): Path {
    if p == [] then [] else p[..|p| - 1]
  }

  /** Joining a path with "." or with nothing leaves it as it is. */
  predicate StandsForParent(name: string) {
    name == "." || name == ""
  }

  /** The directory a node stands for. */
  function Location(name: string, parent: Path): Path {
    if StandsForParent(name) then parent else parent + [name]
  }

  function UsedIn(reserved: Reserved, dir: Path): set<string> {
    if dir in reserved then reserved[dir] else {}
  }

  /** The name a file gets in a directory where `used` is taken. */
  function Rename(file: Path, used: set<string>): string {
    FreshName(Stem(BaseName(file)), Suffix(BaseName(file)), used)
  }

  /** Where the files of one directory go, and the names taken there afterwards. */
  function Assign(files: seq<Path>, dir: Path, used: set<string>): (r: (seq<Path>, set<string>))
    ensures |r.0| == |files|
  {
    if files == [] then ([], used)
    else
      var base := Rename(files[0], used);
      var (targets, used') := Assign(files[1..], dir, used + {base});
      ([dir + [base]] + targets, used')
  }

  /** Where the files of a tree go, in preorder, and the reservations afterwards. */
  function Destinations(t: Tree, parent: Path, reserved: Reserved): (r: (seq<Path>, Reserved))
    ensures |r.0| == |Preorder(t)|
    decreases t, 0
  {
    var dir := Location(t.name, parent);
    var (here, used) := Assign(t.files, dir, UsedIn(reserved, dir));
    var (below, reserved') := DestinationsAll(t.children, dir, reserved[dir := used]);
    (here + below, reserved')
  }

  function DestinationsAll(ts: seq<Tree>, parent: Path, reserved: Reserved): (r: (seq<Path>, Reserved))
    ensures |r.0| == |PreorderAll(ts)|
    decreases ts, 1
  {
    if ts == [] then ([], reserved)
    else
      var (first, reserved1) := Destinations(ts[0], parent, reserved);
      var (rest, reserved2) := DestinationsAll(ts[1..], parent, reserved1);
      (first + rest, reserved2)
  }

  /** The moves that take each source to its destination; a file already in place needs none. */
  function MovesOf(sources: seq<Path>, targets: seq<Path>): seq<Move>
    requires |sources| == |targets|
  {
    if sources == [] then []
    else
      (if sources[0] != targets[0] then [Move(sources[0], targets[0])] else [])
      + MovesOf(sources[1..], targets[1..])
  }

  lemma {:induction false} MovesOfConcat(s1: seq<Path>, t1: seq<Path>, s2: seq<Path>, t2: seq<Path>)
    requires |s1| == |t1| && |s2| == |t2|
    ensures MovesOf(s1 + s2, t1 + t2) == MovesOf(s1, t1) + MovesOf(s2, t2)
  {
    if s1 == [] {
      assert s1 + s2 == s2 && t1 + t2 == t2;
    } else {
      assert (s1 + s2)[1..] == s1[1..] + s2 && (t1 + t2)[1..] == t1[1..] + t2;
      MovesOfConcat(s1[1..], t1[1..], s2, t2);
    }
  }

  /** A free basename for a file: its own, or the stem with the least free counter before the extension. */
  method FreeBaseName(file: Path, used: set<string>) returns (base: string)
    ensures base == Rename(file, used)
  {
    base := BaseName(file);
    StemAndSuffix(base);
    if base in used {
      var stem, suffix := Stem(base), Suffix(base);
      var counter := 2;
      while Suffixed(stem, counter, suffix) in used
        invariant 2 <= counter && forall k :: 2 <= k < counter ==> Suffixed(stem, k, suffix) in used
        decreases |used| + 3 - counter
      {
        counter := counter + 1;
        TakenSuffixesBounded(stem, suffix, used, counter);
      }
      base := Suffixed(stem, counter, suffix);
      TakenSuffixesBounded(stem, suffix, used, counter);
      LeastFreeIsUnique(base, stem, suffix, used);
    }
  }

  method FlattenMoves(node: DirNode, parent: Path, reserved: Reservations) returns (moves: seq<Move>)
    requires node.Valid()
    modifies reserved
    ensures var (targets, names) := Destinations(node.tree, parent, old(reserved.names));
            reserved.names == names && moves == MovesOf(Preorder(node.tree), targets)
    decreases node.tree, 1
  {
    var current := Location(node.name, parent);
    var own := FlattenFiles(node.files, current, reserved);
    var below := FlattenChildren(node, current, reserved);
    ghost var (here, used) := Assign(node.files, current, UsedIn(old(reserved.names), current));
    MovesOfConcat(node.files, here, PreorderAll(node.tree.children),
                  DestinationsAll(node.tree.children, current, old(reserved.names)[current := used]).0);
    return own + below;
  }

  /** The first `i` files of a directory are dealt with: their moves are listed, their names are in `used`. */
  ghost predicate FilesFlattened(files: seq<Path>, dir: Path, before: set<string>, i: nat,
                                 used: set<string>, moves: seq<Move>)
    requires i <= |files|
  {
    var targets := Assign(files, dir, before).0;
    && Assign(files[i..], dir, used) == (targets[i..], Assign(files, dir, before).1)
    && moves == MovesOf(files[..i], targets[..i])
  }

  lemma FilesFlattenedStep(files: seq<Path>, dir: Path, before: set<string>, i: nat, used: set<string>,
                           moves: seq<Move>)
    requires i < |files| && FilesFlattened(files, dir, before, i, used, moves)
    ensures var base := Rename(files[i], used);
            var move := if files[i] != dir + [base] then [Move(files[i], dir + [base])] else [];
            FilesFlattened(files, dir, before, i + 1, used + {base}, moves + move)
  {
    var targets := Assign(files, dir, before).0;
    assert files[i..][1..] == files[i + 1..];
    assert targets[i..][1..] == targets[i + 1..];
    assert targets[i] == targets[i..][0] == dir + [Rename(files[i], used)];
    MovesOfSnoc(files, targets, i);
  }

  lemma AllFilesFlattened(files: seq<Path>, dir: Path, before: set<string>, used: set<string>, moves: seq<Move>)
    requires FilesFlattened(files, dir, before, |files|, used, moves)
    ensures used == Assign(files, dir, before).1 && moves == MovesOf(files, Assign(files, dir, before).0)
  {
    var targets := Assign(files, dir, before).0;
    assert files[..|files|] == files && targets[..|files|] == targets;
  }

  lemma Reassigned(names: Reserved, dir: Path, first: set<string>, second: set<string>)
    ensures names[dir := first][dir := second] == names[dir := second]
  {
  }

  /** The directory's own files, each under a basename nobody else has there. */
  method FlattenFiles(files: seq<Path>, current: Path, reserved: Reservations) returns (moves: seq<Move>)
    modifies reserved
    ensures var (targets, used) := Assign(files, current, UsedIn(old(reserved.names), current));
            reserved.names == old(reserved.names)[current := used] && moves == MovesOf(files, targets)
  {
    ghost var entry := reserved.names;
    if current !in reserved.names {
      reserved.names := reserved.names[current := {}];
    }
    var used := reserved.names[current];
    ghost var before := used;
    assert reserved.names == entry[current := used];
    moves := [];
    assert files[0..] == files;
    for i := 0 to |files|
      invariant reserved.names == entry[current := used]
      invariant FilesFlattened(files, current, before, i, used, moves)
    {
      FilesFlattenedStep(files, current, before, i, used, moves);
      var oldFile := files[i];
      var base := FreeBaseName(oldFile, used);
      Reassigned(entry, current, used, used + {base});
      used := used + {base};
      reserved.names := reserved.names[current := used];
      var newFile := current + [base];
      if oldFile != newFile {
        moves := moves + [Move(oldFile, newFile)];
      } else {
        assert moves + [] == moves;
      }
    }
    AllFilesFlattened(files, current, before, used, moves);
  }

  lemma MovesOfSnoc(sources: seq<Path>, targets: seq<Path>, i: nat)
    requires i < |sources| == |targets|
    ensures MovesOf(sources[..i + 1], targets[..i + 1])
         == MovesOf(sources[..i], targets[..i])
            + if sources[i] != targets[i] then [Move(sources[i], targets[i])] else []
  {
    assert sources[..i + 1] == sources[..i] + [sources[i]] && targets[..i + 1] == targets[..i] + [targets[i]];
    MovesOfConcat(sources[..i], targets[..i], [sources[i]], [targets[i]]);
    assert MovesOf([sources[i]][1..], [targets[i]][1..]) == [];
  }

  /** The first `i` children are dealt with. */
  ghost predicate ChildrenFlattened(ts: seq<Tree>, dir: Path, before: Reserved, i: nat, names: Reserved,
                                    moves: seq<Move>)
    requires i <= |ts|
  {
    var (targets, after) := DestinationsAll(ts, dir, before);
    var done := |PreorderAll(ts[..i])|;
    && done <= |targets|
    && DestinationsAll(ts[i..], dir, names) == (targets[done..], after)
    && moves == MovesOf(PreorderAll(ts[..i]), targets[..done])
  }

  lemma SplitFurther<T>(s: seq<T>, i: nat, a: seq<T>, b: seq<T>)
    requires i <= |s| && s[i..] == a + b
    ensures s[i + |a|..] == b && s[..i + |a|] == s[..i] + a
  {
    assert s == s[..i] + (a + b);
  }

  lemma DestinationsAllNext(ts: seq<Tree>, dir: Path, i: nat, names: Reserved)
    requires i < |ts|
    ensures var (first, names') := Destinations(ts[i], dir, names);
            var (rest, after) := DestinationsAll(ts[i + 1..], dir, names');
            DestinationsAll(ts[i..], dir, names) == (first + rest, after)
  {
    assert ts[i..][1..] == ts[i + 1..];
  }

  lemma PreorderAllNext(ts: seq<Tree>, i: nat)
    requires i < |ts|
    ensures PreorderAll(ts[..i + 1]) == PreorderAll(ts[..i]) + Preorder(ts[i])
  {
    assert ts[..i + 1] == ts[..i] + [ts[i]];
    PreorderAllSnoc(ts[..i], ts[i]);
  }

  lemma ChildrenFlattenedStep(ts: seq<Tree>, dir: Path, before: Reserved, i: nat, names: Reserved, moves: seq<Move>)
    requires i < |ts| && ChildrenFlattened(ts, dir, before, i, names, moves)
    ensures var (targets, names') := Destinations(ts[i], dir, names);
            ChildrenFlattened(ts, dir, before, i + 1, names', moves + MovesOf(Preorder(ts[i]), targets))
  {
    var targets := DestinationsAll(ts, dir, before).0;
    var (first, names') := Destinations(ts[i], dir, names);
    DestinationsAllNext(ts, dir, i, names);
    PreorderAllNext(ts, i);
    var done := |PreorderAll(ts[..i])|;
    SplitFurther(targets, done, first, DestinationsAll(ts[i + 1..], dir, names').0);
    MovesOfConcat(PreorderAll(ts[..i]), targets[..done], Preorder(ts[i]), first);
  }

  method FlattenChildren(node: DirNode, current: Path, reserved: Reservations) returns (moves: seq<Move>)
    requires node.Valid()
    modifies reserved
    ensures var (targets, names) := DestinationsAll(node.tree.children, current, old(reserved.names));
            reserved.names == names && moves == MovesOf(PreorderAll(node.tree.children), targets)
    decreases node.tree, 0
  {
    ghost var ts, before := node.tree.children, reserved.names;
    moves := [];
    assert ts[0..] == ts;
    for i := 0 to |node.children|
      invariant ChildrenFlattened(ts, current, before, i, reserved.names, moves)
    {
      ChildrenFlattenedStep(ts, current, before, i, reserved.names, moves);
      var childMoves := FlattenMoves(node.children[i], current, reserved);
      moves := moves + childMoves;
    }
    assert ts[..|ts|] == ts;
    ghost var targets := DestinationsAll(ts, current, before).0;
    assert targets[..|targets|] == targets;
  }

  // No two files ever get the same destination.

  /** Some file already has this destination. */
  ghost predicate Taken(reserved: Reserved, p: Path) {
    p != [] && BaseName(p) in UsedIn(reserved, Parent(p))
  }

  /** `targets` are new and distinct, and from `before` to `after` exactly they were taken. */
  ghost predicate NewlyTaken(before: Reserved, targets: seq<Path>, after: Reserved) {
    && Distinct(targets)
    && (forall p :: p in targets ==> !Taken(before, p))
    && (forall p :: Taken(after, p) <==> Taken(before, p) || p in targets)
  }

  lemma NewlyTakenThen(r0: Reserved, a: seq<Path>, r1: Reserved, b: seq<Path>, r2: Reserved)
    requires NewlyTaken(r0, a, r1) && NewlyTaken(r1, b, r2)
    ensures NewlyTaken(r0, a + b, r2)
  {
    forall i, j | 0 <= i < j < |a + b|
      ensures (a + b)[i] != (a + b)[j]
    {
      if i < |a| <= j {
        assert Taken(r1, a[i]) && b[j - |a|] in b;
      }
    }
  }

  lemma OneTaken(reserved: Reserved, dir: Path, base: string)
    requires base !in UsedIn(reserved, dir)
    ensures NewlyTaken(reserved, [dir + [base]], reserved[dir := UsedIn(reserved, dir) + {base}])
  {
    forall p
      ensures Taken(reserved[dir := UsedIn(reserved, dir) + {base}], p) <==> Taken(reserved, p) || p in [dir + [base]]
    {
      if p != [] {
        assert p == Parent(p) + [BaseName(p)];
      }
    }
  }

  lemma {:induction false} AssignTakes(files: seq<Path>, dir: Path, reserved: Reserved)
    ensures var (targets, used) := Assign(files, dir, UsedIn(reserved, dir));
            NewlyTaken(reserved, targets, reserved[dir := used])
  {
    var used := UsedIn(reserved, dir);
    if files == [] {
      assert forall p :: Taken(reserved[dir := used], p) <==> Taken(reserved, p);
    } else {
      var base := Rename(files[0], used);
      var reserved' := reserved[dir := used + {base}];
      OneTaken(reserved, dir, base);
      AssignTakes(files[1..], dir, reserved');
      var (targets, used') := Assign(files[1..], dir, used + {base});
      Reassigned(reserved, dir, used + {base}, used');
      NewlyTakenThen(reserved, [dir + [base]], reserved', targets, reserved[dir := used']);
    }
  }

  lemma {:induction false} DestinationsTaken(t: Tree, parent: Path, reserved: Reserved)
    ensures var (targets, names) := Destinations(t, parent, reserved); NewlyTaken(reserved, targets, names)
    decreases t, 0
  {
    var dir := Location(t.name, parent);
    var (here, used) := Assign(t.files, dir, UsedIn(reserved, dir));
    AssignTakes(t.files, dir, reserved);
    DestinationsAllTaken(t.children, dir, reserved[dir := used]);
    var (below, names) := DestinationsAll(t.children, dir, reserved[dir := used]);
    NewlyTakenThen(reserved, here, reserved[dir := used], below, names);
  }

  lemma {:induction false} DestinationsAllTaken(ts: seq<Tree>, parent: Path, reserved: Reserved)
    ensures var (targets, names) := DestinationsAll(ts, parent, reserved); NewlyTaken(reserved, targets, names)
    decreases ts, 1
  {
    if ts != [] {
      var (first, names1) := Destinations(ts[0], parent, reserved);
      var (rest, names2) := DestinationsAll(ts[1..], parent, names1);
      DestinationsTaken(ts[0], parent, reserved);
      DestinationsAllTaken(ts[1..], parent, names1);
      NewlyTakenThen(reserved, first, names1, rest, names2);
    }
  }

  /** Destination injectivity, for every tree: even with equal sibling names, "." nodes and equal basenames. */
  lemma DestinationsDistinct(t: Tree, target: Path)
    ensures Distinct(Destinations(t, target, map[]).0)
  {
    DestinationsTaken(t, target, map[]);
  }
}
