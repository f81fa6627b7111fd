/** Directory trees: the heap nodes the reorganiser builds, and the values they stand for. */
module DirTrees {

  /** A path is the sequence of its components. */
  type Path = seq<string>

  datatype Tree = Node(name: string, files: seq<Path>, children: seq<Tree>)

  /** All files of a tree, each directory's own before those of its children. */
  function Preorder(t: Tree): seq<Path>
    decreases t, 0
  {
    t.files + PreorderAll(t.children)
  }

  function PreorderAll(ts: seq<Tree>): seq<Path>
    decreases ts, 1
  {
    if ts == [] then [] else Preorder(ts[0]) + PreorderAll(ts[1..])
  }

  lemma {:induction false} PreorderAllConcat(a: seq<Tree>, b: seq<Tree>)
    ensures PreorderAll(a + b) == PreorderAll(a) + PreorderAll(b)
  {
    if a == [] {
      assert a + b == b;
    } else {
      assert (a + b)[1..] == a[1..] + b;
      PreorderAllConcat(a[1..], b);
    }
  }

  lemma PreorderAllSnoc(ts: seq<Tree>, t: Tree)
    ensures PreorderAll(ts + [t]) == PreorderAll(ts) + Preorder(t)
  {
    PreorderAllConcat(ts, [t]);
    assert PreorderAll([t]) == Preorder(t) + PreorderAll([]);
  }

  /** How many files each of these trees holds. */
  function Sizes(ts: seq<Tree>): seq<int> {
    seq(|ts|, i requires 0 <= i < |ts| => |Preorder(ts[i])|)
  }

  function NodeCount(t: Tree): nat
    decreases t, 0
  {
    1 + NodeCountAll(t.children)
  }

  function NodeCountAll(ts: seq<Tree>): nat
    decreases ts, 1
  {
    if ts == [] then 0 else NodeCount(ts[0]) + NodeCountAll(ts[1..])
  }

  function Height(t: Tree): nat
    decreases t, 0
  {
    if t.children == [] then 0 else 1 + HeightAll(t.children)
  }

  function HeightAll(ts: seq<Tree>): nat
    decreases ts, 1
  {
    if ts == [] then 0
    else
      var rest := HeightAll(ts[1..]);
      if Height(ts[0]) > rest then Height(ts[0]) else rest
  }

  /** One directory of a tree under construction. */
  class DirNode {
    var name: string
    var files: seq<Path>
    var children: seq<DirNode>

    ghost var tree: Tree
    ghost var repr: set<DirNode>

    /** `tree` is the value of this node and everything below it. */
    ghost predicate Valid()
      reads this, repr
      decreases repr
    {
      && this in repr
      && tree.name == name && tree.files == files
      && |tree.children| == |children|
      && forall i :: 0 <= i < |children| ==>
        var c := children[i];
        c in repr && c.repr <= repr && this !in c.repr && c.Valid() && c.tree == tree.children[i]
    }

    constructor (name: string)
      ensures Valid() && fresh(repr)
      ensures tree == Node(name, [], [])
      ensures this.name == name && files == [] && children == []
    {
      this.name := name;
      files := [];
      children := [];
      tree := Node(name, [], []);
      repr := {this};
    }

    /** Sets the files that live directly in this directory. */
    method SetFiles(files: seq<Path>)
      requires Valid()
      modifies this`files, this`tree
      ensures Valid() && repr == old(repr) && name == old(name) && children == old(children)
      ensures tree == old(tree).(files := files)
    {
      this.files := files;
      tree := tree.(files := files);
    }

    /** Appends a finished subtree that shares no node with this one. */
    method AddChild(child: DirNode)
      requires Valid() && child.Valid() && this !in child.repr
      modifies this`children, this`tree, this`repr
      ensures Valid() && repr == old(repr) + child.repr
      ensures name == old(name) && files == old(files)
      ensures tree == old(tree).(children := old(tree).children + [child.tree])
    {
      children := children + [child];
      tree := tree.(children := tree.children + [child.tree]);
      repr := repr + child.repr;
    }
  }
}
