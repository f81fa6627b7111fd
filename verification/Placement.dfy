/** Where flattening puts every file: in which directory, and under which name. */
module Placement {
  import opened Naming
  import opened DirTrees
  import opened Moves

  /** For each file of a tree, in preorder, the names of the directories on the way to it. */
  function Ways(t: Tree): (ways: seq<Path>)
    ensures |ways| == |Preorder(t)|
    decreases t, 0
  {
    var below := WaysAll(t.children);
    seq(|t.files|, _ => [t.name]) + seq(|below|, i requires 0 <= i < |below| => [t.name] + below[i])
  }

  function WaysAll(ts: seq<Tree>): (ways: seq<Path>)
    ensures |ways| == |PreorderAll(ts)|
    decreases ts, 1
  {
    if ts == [] then [] else Ways(ts[0]) + WaysAll(ts[1..])
  }

  /** A way without the names that stand for no directory of their own. */
  function Spelled(way: Path): Path {
    if way == [] then []
    else if way[0] == "." || way[0] == "" then Spelled(way[1..])
    else [way[0]] + Spelled(way[1..])
  }

  lemma LocationSpelled(name: string, parent: Path, way: Path)
    ensures Location(name, parent) + Spelled(way) == parent + Spelled([name] + way)
  {
    assert ([name] + way)[1..] == way;
  }

  lemma {:induction false} AssignedTo(files: seq<Path>, dir: Path, used: set<string>, i: nat)
    requires i < |files|
    ensures var p := Assign(files, dir, used).0[i]; p != [] && Parent(p) == dir
  {
    if i > 0 {
      AssignedTo(files[1..], dir, used + {Rename(files[0], used)}, i - 1);
    }
  }

  /** Every file goes to the directory that the names on its way spell, below the parent. */
  lemma {:induction false} DestinationDir(t: Tree, parent: Path, reserved: Reserved, i: nat)
    requires i < |Preorder(t)|
    ensures var p := Destinations(t, parent, reserved).0[i]; p != [] && Parent(p) == parent + Spelled(Ways(t)[i])
    decreases t, 0
  {
    var dir := Location(t.name, parent);
    var used := Assign(t.files, dir, UsedIn(reserved, dir)).1;
    if i < |t.files| {
      AssignedTo(t.files, dir, UsedIn(reserved, dir), i);
      LocationSpelled(t.name, parent, []);
      assert [t.name] + [] == [t.name] && dir + [] == dir;
    } else {
      var k := i - |t.files|;
      DestinationDirAll(t.children, dir, reserved[dir := used], k);
      LocationSpelled(t.name, parent, WaysAll(t.children)[k]);
    }
  }

  lemma {:induction false} DestinationDirAll(ts: seq<Tree>, parent: Path, reserved: Reserved, i: nat)
    requires i < |PreorderAll(ts)|
    ensures var p := DestinationsAll(ts, parent, reserved).0[i];
            p != [] && Parent(p) == parent + Spelled(WaysAll(ts)[i])
    decreases ts, 1
  {
    var names := Destinations(ts[0], parent, reserved).1;
    if i < |Preorder(ts[0])| {
      DestinationDir(ts[0], parent, reserved, i);
    } else {
      DestinationDirAll(ts[1..], parent, names, i - |Preorder(ts[0])|);
    }
  }

  lemma {:induction false} AllSpelled(way: Path)
    requires forall k :: 0 <= k < |way| ==> way[k] != "." && way[k] != ""
    ensures Spelled(way) == way
  {
    if way != [] {
      AllSpelled(way[1..]);
    }
  }

  /** If no name stands for nothing, the directory of each file is spelled by all names on the way. */
  lemma DestinationDirPlain(t: Tree, parent: Path, reserved: Reserved, i: nat)
    requires i < |Preorder(t)|
    requires forall k :: 0 <= k < |Ways(t)[i]| ==> Ways(t)[i][k] != "." && Ways(t)[i][k] != ""
    ensures Parent(Destinations(t, parent, reserved).0[i]) == parent + Ways(t)[i]
  {
    DestinationDir(t, parent, reserved, i);
    AllSpelled(Ways(t)[i]);
  }

  // The name in the directory.

  /** The names that these paths take in a directory. */
  function NamesIn(paths: seq<Path>, dir: Path): set<string> {
    if paths == [] then {}
    else (if paths[0] != [] && Parent(paths[0]) == dir then {BaseName(paths[0])} else {}) + NamesIn(paths[1..], dir)
  }

  lemma {:induction false} NamesInHas(paths: seq<Path>, dir: Path, name: string)
    ensures name in NamesIn(paths, dir) <==> dir + [name] in paths
  {
    if paths != [] {
      NamesInHas(paths[1..], dir, name);
      var p := dir + [name];
      assert Parent(p) == dir && BaseName(p) == name;
      assert paths[0] != [] ==> paths[0] == Parent(paths[0]) + [BaseName(paths[0])];
      assert p in paths <==> p == paths[0] || p in paths[1..];
    }
  }

  /** How a file is named where some names are taken. */
  type Rule = (Path, set<string>) -> string

  /** Each has the name the rule gives it, where earlier ones took theirs. */
  ghost predicate NamedInTurn(rule: Rule, before: Reserved, sources: seq<Path>, targets: seq<Path>)
    requires |sources| == |targets|
  {
    forall i :: 0 <= i < |targets| ==> IsNamedInTurn(rule, before, sources[i], targets[..i], targets[i])
  }

  ghost predicate IsNamedInTurn(rule: Rule, before: Reserved, source: Path, earlier: seq<Path>, target: Path) {
    var dir := Parent(target);
    BaseName(target) == rule(source, UsedIn(before, dir) + NamesIn(earlier, dir))
  }

  /** The reservations have grown by exactly the names of these paths. */
  ghost predicate GrownBy(before: Reserved, targets: seq<Path>, after: Reserved) {
    forall dir :: UsedIn(after, dir) == UsedIn(before, dir) + NamesIn(targets, dir)
  }

  lemma TakenMeansGrown(before: Reserved, targets: seq<Path>, after: Reserved)
    requires NewlyTaken(before, targets, after) && forall p :: p in targets ==> p != []
    ensures GrownBy(before, targets, after)
  {
    forall dir, name
      ensures name in UsedIn(after, dir) <==> name in UsedIn(before, dir) || name in NamesIn(targets, dir)
    {
      var p := dir + [name];
      assert Parent(p) == dir && BaseName(p) == name;
      assert Taken(after, p) <==> Taken(before, p) || p in targets;
      NamesInHas(targets, dir, name);
    }
  }

  lemma {:induction false} NamesInConcat(a: seq<Path>, b: seq<Path>, dir: Path)
    ensures NamesIn(a + b, dir) == NamesIn(a, dir) + NamesIn(b, dir)
  {
    if a == [] {
      assert a + b == b;
    } else {
      assert (a + b)[1..] == a[1..] + b;
      NamesInConcat(a[1..], b, dir);
    }
  }

  lemma NamedInTurnThen(rule: Rule, before: Reserved, s1: seq<Path>, t1: seq<Path>, middle: Reserved,
                        s2: seq<Path>, t2: seq<Path>)
    requires |s1| == |t1| && |s2| == |t2|
    requires NamedInTurn(rule, before, s1, t1) && GrownBy(before, t1, middle) && NamedInTurn(rule, middle, s2, t2)
    ensures NamedInTurn(rule, before, s1 + s2, t1 + t2)
  {
    forall i | 0 <= i < |t1 + t2|
      ensures IsNamedInTurn(rule, before, (s1 + s2)[i], (t1 + t2)[..i], (t1 + t2)[i])
    {
      if i < |t1| {
        InTurnFirst(rule, before, s1, t1, s2, t2, i);
      } else {
        InTurnSecond(rule, before, s1, t1, middle, s2, t2, i - |t1|);
      }
    }
  }

  lemma InTurnFirst(rule: Rule, before: Reserved, s1: seq<Path>, t1: seq<Path>, s2: seq<Path>, t2: seq<Path>, i: nat)
    requires i < |t1| == |s1| && NamedInTurn(rule, before, s1, t1)
    ensures i < |s1 + s2| && IsNamedInTurn(rule, before, (s1 + s2)[i], (t1 + t2)[..i], (t1 + t2)[i])
  {
    assert (t1 + t2)[..i] == t1[..i];
  }

  lemma InTurnSecond(rule: Rule, before: Reserved, s1: seq<Path>, t1: seq<Path>, middle: Reserved,
                     s2: seq<Path>, t2: seq<Path>, k: nat)
    requires |s1| == |t1| && k < |t2| == |s2| && GrownBy(before, t1, middle) && NamedInTurn(rule, middle, s2, t2)
    ensures var i := |t1| + k; IsNamedInTurn(rule, before, (s1 + s2)[i], (t1 + t2)[..i], (t1 + t2)[i])
  {
    assert (t1 + t2)[..|t1| + k] == t1 + t2[..k];
    InTurnLater(rule, before, t1, middle, s2[k], t2[..k], t2[k]);
  }

  lemma InTurnLater(rule: Rule, before: Reserved, first: seq<Path>, middle: Reserved, source: Path,
                    earlier: seq<Path>, target: Path)
    requires GrownBy(before, first, middle) && IsNamedInTurn(rule, middle, source, earlier, target)
    ensures IsNamedInTurn(rule, before, source, first + earlier, target)
  {
    var dir := Parent(target);
    NamesInConcat(first, earlier, dir);
    assert UsedIn(middle, dir) == UsedIn(before, dir) + NamesIn(first, dir);
    assert UsedIn(middle, dir) + NamesIn(earlier, dir) == UsedIn(before, dir) + NamesIn(first + earlier, dir);
  }

  lemma OneNamedInTurn(before: Reserved, file: Path, dir: Path)
    ensures NamedInTurn(Rename, before, [file], [dir + [Rename(file, UsedIn(before, dir))]])
  {
    var p := dir + [Rename(file, UsedIn(before, dir))];
    assert Parent(p) == dir && [p][..0] == [];
    assert NamesIn([], dir) == {} && UsedIn(before, dir) + {} == UsedIn(before, dir);
    assert IsNamedInTurn(Rename, before, file, [p][..0], p);
  }

  lemma {:induction false} AssignNamesInTurn(files: seq<Path>, dir: Path, before: Reserved)
    ensures NamedInTurn(Rename, before, files, Assign(files, dir, UsedIn(before, dir)).0)
  {
    if files != [] {
      var used := UsedIn(before, dir);
      var base := Rename(files[0], used);
      var middle := before[dir := used + {base}];
      OneNamedInTurn(before, files[0], dir);
      OneTaken(before, dir, base);
      TakenMeansGrown(before, [dir + [base]], middle);
      AssignNamesInTurn(files[1..], dir, middle);
      NamedInTurnThen(Rename, before, [files[0]], [dir + [base]], middle,
                      files[1..], Assign(files[1..], dir, used + {base}).0);
      assert [files[0]] + files[1..] == files;
    }
  }

  lemma {:induction false} DestinationsNamedInTurn(t: Tree, parent: Path, before: Reserved)
    ensures NamedInTurn(Rename, before, Preorder(t), Destinations(t, parent, before).0)
    decreases t, 0
  {
    var dir := Location(t.name, parent);
    var (here, used) := Assign(t.files, dir, UsedIn(before, dir));
    var middle := before[dir := used];
    AssignNamesInTurn(t.files, dir, before);
    AssignTakes(t.files, dir, before);
    forall i | 0 <= i < |here|
      ensures here[i] != []
    {
      AssignedTo(t.files, dir, UsedIn(before, dir), i);
    }
    TakenMeansGrown(before, here, middle);
    DestinationsAllNamedInTurn(t.children, dir, middle);
    NamedInTurnThen(Rename, before, t.files, here, middle,
                    PreorderAll(t.children), DestinationsAll(t.children, dir, middle).0);
  }

  lemma {:induction false} DestinationsAllNamedInTurn(ts: seq<Tree>, parent: Path, before: Reserved)
    ensures NamedInTurn(Rename, before, PreorderAll(ts), DestinationsAll(ts, parent, before).0)
    decreases ts, 1
  {
    if ts != [] {
      var (first, middle) := Destinations(ts[0], parent, before);
      DestinationsNamedInTurn(ts[0], parent, before);
      DestinationsTaken(ts[0], parent, before);
      forall i | 0 <= i < |first|
        ensures first[i] != []
      {
        DestinationDir(ts[0], parent, before, i);
      }
      TakenMeansGrown(before, first, middle);
      DestinationsAllNamedInTurn(ts[1..], parent, middle);
      NamedInTurnThen(Rename, before, Preorder(ts[0]), first, middle, PreorderAll(ts[1..]),
                      DestinationsAll(ts[1..], parent, middle).0);
    }
  }

  /** A file whose name no earlier file has in its directory keeps it; others get the least free counter, from 2. */
  lemma NameExactly(t: Tree, target: Path, i: nat)
    requires i < |Preorder(t)|
    ensures var targets := Destinations(t, target, map[]).0;
            var name, taken := BaseName(Preorder(t)[i]), NamesIn(targets[..i], Parent(targets[i]));
            && BaseName(targets[i]) !in taken
            && (BaseName(targets[i]) == name <==> name !in taken)
            && IsLeastFree(BaseName(targets[i]), Stem(name), Suffix(name), taken)
            && (name in taken && Stem(name) + "_2" + Suffix(name) !in taken ==>
                  BaseName(targets[i]) == Stem(name) + "_2" + Suffix(name))
  {
    var targets := Destinations(t, target, map[]).0;
    var name, taken := BaseName(Preorder(t)[i]), NamesIn(targets[..i], Parent(targets[i]));
    DestinationsNamedInTurn(t, target, map[]);
    assert IsNamedInTurn(Rename, map[], Preorder(t)[i], targets[..i], targets[i]);
    assert UsedIn(map[], Parent(targets[i])) + taken == taken;
    assert BaseName(targets[i]) == Rename(Preorder(t)[i], taken);
    StemAndSuffix(name);
    if name in taken {
      TwoThenThree(Stem(name), Suffix(name), taken);
    }
  }
}
