/** The recursive random partition of a file list into a directory tree. */
module TreeBuilder {
  import opened Sums
  import opened Naming
  import opened DirTrees
  import opened Apportionment
  import opened Randomness

  /** What stays the same throughout one build. */
  datatype Setup = Setup(maxDepth: int, draws: Draws, argsort: seq<real> -> seq<nat>) {
    ghost predicate Valid() {
      InRange(draws) && IsArgsort(argsort)
    }
  }

  function Clamp(x: int, n: nat): nat
    requires n > 0
  {
    if x < 1 then 1 else if x > n then n else x
  }

  ghost predicate AreSizes(sizes: seq<int>) {
    forall k :: 0 <= k < |sizes| ==> sizes[k] >= 0
  }

  /** The exact shares of `n` left-over files for the children of a directory. */
  ghost function ChildQuotas(setup: Setup, at: Address, n: nat): (quotas: seq<real>)
    requires setup.Valid() && n > 0
    ensures AreQuotas(quotas, n)
  {
    var count := Clamp(setup.draws.branching(at), n);
    var shares := if count == 1 then [1.0] else setup.draws.shares(at, count);
    assert [1.0][1..] == [];
    var quotas := seq(count, i requires 0 <= i < count => shares[i] * n as real);
    SharesMakeQuotas(shares, n, quotas);
    quotas
  }

  lemma SharesMakeQuotas(shares: seq<real>, n: nat, quotas: seq<real>)
    requires shares != [] && AreShares(shares, |shares|)
    requires |quotas| == |shares| && forall i :: 0 <= i < |shares| ==> quotas[i] == shares[i] * n as real
    ensures AreQuotas(quotas, n)
  {
    SumRealScale(shares, n as real, quotas);
  }

  /** How many of the `n` left-over files each child gets. */
  ghost function ChildSizes(setup: Setup, at: Address, n: nat): (sizes: seq<int>)
    requires setup.Valid() && n > 0
    ensures SumInt(sizes) == n && AreSizes(sizes)
  {
    var quotas := ChildQuotas(setup, at, n);
    SplitIsLargestRemainder(quotas, n, setup.argsort);
    QuotaRule(quotas, n, Split(quotas, n, setup.argsort));
    Split(quotas, n, setup.argsort)
  }

  /** They are a largest-remainder split of the shares: less than one file away from each, and as close as can be. */
  lemma ChildSizesSplit(setup: Setup, at: Address, n: nat)
    requires setup.Valid() && n > 0
    ensures var quotas, sizes := ChildQuotas(setup, at, n), ChildSizes(setup, at, n);
            && IsLargestRemainder(quotas, n, sizes)
            && (forall i :: 0 <= i < |sizes| ==> Distance(sizes[i], quotas[i]) < 1.0)
            && (forall other :: |other| == |quotas| && SumInt(other) == n ==>
                  Deviation(quotas, sizes) <= Deviation(quotas, other))
  {
    var quotas, sizes := ChildQuotas(setup, at, n), ChildSizes(setup, at, n);
    SplitIsLargestRemainder(quotas, n, setup.argsort);
    QuotaRule(quotas, n, sizes);
    forall other: seq<int> | |other| == |quotas| && SumInt(other) == n
      ensures Deviation(quotas, sizes) <= Deviation(quotas, other)
    {
      LargestRemainderIsOptimal(quotas, n, sizes, other);
    }
  }

  /** The tree that the draws make of a list of files. */
  ghost function Built(setup: Setup, files: seq<Path>, depth: int, at: Address, name: string): Tree
    requires setup.Valid()
    decreases |files|, 0, 0
  {
    if files == [] then Node(name, [], [])
    else
      var nHere := Clamp(setup.draws.sample(at), |files|);
      var remaining := files[nHere..];
      if remaining == [] || depth >= setup.maxDepth then Node(name, files, [])
      else
        var sizes := ChildSizes(setup, at, |remaining|);
        assert sizes[0..] == sizes;
        Node(name, files[..nHere], BuiltChildren(setup, remaining, sizes, 0, {}, depth, at))
  }

  /**
   A directory keeps as many files as the sample says, but at least one and no more than there
   are; if that is all, or there is no room below, it has no children and all files.
   */
  lemma KeptHere(setup: Setup, files: seq<Path>, depth: int, at: Address, name: string)
    requires setup.Valid() && files != []
    ensures var t, sample := Built(setup, files, depth, at, name), setup.draws.sample(at);
            && (sample >= |files| || depth >= setup.maxDepth ==> t.files == files && t.children == [])
            && (sample < |files| && depth < setup.maxDepth ==> t.files == files[..if sample < 1 then 1 else sample])
  {
    if setup.draws.sample(at) >= |files| {
      assert files[..|files|] == files;
    }
  }

  /** There are as many children's shares as the branching draw says, but no more than files are left. */
  lemma ChildSlots(setup: Setup, at: Address, n: nat)
    requires setup.Valid() && n > 0
    ensures var branching, quotas := setup.draws.branching(at), ChildQuotas(setup, at, n);
            && |quotas| == (if branching < n then branching else n)
            && (|quotas| == 1 ==> quotas[0] == n as real)
            && (|quotas| > 1 ==> forall i :: 0 <= i < |quotas| ==>
                  quotas[i] == setup.draws.shares(at, |quotas|)[i] * n as real)
  {
    var quotas := ChildQuotas(setup, at, n);
    if |quotas| == 1 {
      assert quotas[1..] == [];
      assert SumReal(quotas) == quotas[0] + SumReal(quotas[1..]);
    }
  }

  /** The children from the `i`-th on, under names that are not in `used`. */
  ghost function BuiltChildren(setup: Setup, files: seq<Path>, sizes: seq<int>, i: nat, used: set<string>,
                               depth: int, at: Address): seq<Tree>
    requires setup.Valid() && AreSizes(sizes) && i <= |sizes| && SumInt(sizes[i..]) == |files|
    decreases |files|, 1, |sizes| - i
  {
    if i == |sizes| then []
    else
      NextSize(sizes, i);
      if sizes[i] == 0 then BuiltChildren(setup, files, sizes, i + 1, used, depth, at)
      else
        var name := FreshName(setup.draws.word(at, i), "", used);
        [Built(setup, files[..sizes[i]], depth + 1, at + [i], name)]
        + BuiltChildren(setup, files[sizes[i]..], sizes, i + 1, used + {name}, depth, at)
  }

  lemma NextSize(sizes: seq<int>, i: nat)
    requires i < |sizes| && AreSizes(sizes)
    ensures SumInt(sizes[i..]) == sizes[i] + SumInt(sizes[i + 1..]) >= sizes[i]
  {
    assert sizes[i..][1..] == sizes[i + 1..];
    SumIntNonNegative(sizes[i + 1..]);
  }

  /** Of all children, `ts` are built, from the first `offset` files and the first `i` sizes. */
  ghost predicate IsGrown(setup: Setup, all: seq<Tree>, ts: seq<Tree>, files: seq<Path>, offset: nat,
                          sizes: seq<int>, i: nat, used: set<string>, depth: int, at: Address)
    requires setup.Valid() && AreSizes(sizes) && i <= |sizes|
  {
    && offset <= |files| && SumInt(sizes[i..]) == |files| - offset
    && all == ts + BuiltChildren(setup, files[offset..], sizes, i, used, depth, at)
  }

  lemma NextFits(setup: Setup, all: seq<Tree>, ts: seq<Tree>, files: seq<Path>, offset: nat,
                 sizes: seq<int>, i: nat, used: set<string>, depth: int, at: Address)
    requires setup.Valid() && AreSizes(sizes) && i < |sizes|
    requires IsGrown(setup, all, ts, files, offset, sizes, i, used, depth, at)
    ensures 0 <= sizes[i] && offset + sizes[i] <= |files|
  {
    NextSize(sizes, i);
  }

  /** The `i`-th child, unless it gets no files. */
  ghost function NextTree(setup: Setup, files: seq<Path>, sizes: seq<int>, i: nat, used: set<string>,
                          depth: int, at: Address): seq<Tree>
    requires setup.Valid() && i < |sizes| && 0 <= sizes[i] <= |files|
  {
    if sizes[i] == 0 then []
    else [Built(setup, files[..sizes[i]], depth + 1, at + [i], FreshName(setup.draws.word(at, i), "", used))]
  }

  function NextUsed(setup: Setup, sizes: seq<int>, i: nat, used: set<string>, at: Address): set<string>
    requires i < |sizes|
  {
    if sizes[i] == 0 then used else used + {FreshName(setup.draws.word(at, i), "", used)}
  }

  lemma ChildrenUnfold(setup: Setup, files: seq<Path>, sizes: seq<int>, i: nat, used: set<string>, depth: int,
                       at: Address)
    requires setup.Valid() && AreSizes(sizes) && i < |sizes| && SumInt(sizes[i..]) == |files|
    ensures sizes[i] <= |files| && SumInt(sizes[i + 1..]) == |files| - sizes[i]
    ensures BuiltChildren(setup, files, sizes, i, used, depth, at)
         == NextTree(setup, files, sizes, i, used, depth, at)
            + BuiltChildren(setup, files[sizes[i]..], sizes, i + 1, NextUsed(setup, sizes, i, used, at), depth, at)
  {
    NextSize(sizes, i);
    if sizes[i] == 0 {
      assert files[0..] == files;
    }
  }

  lemma NextGrown(setup: Setup, all: seq<Tree>, ts: seq<Tree>, files: seq<Path>, offset: nat,
                  sizes: seq<int>, i: nat, used: set<string>, depth: int, at: Address)
    requires setup.Valid() && AreSizes(sizes) && i < |sizes| && offset + sizes[i] <= |files|
    requires IsGrown(setup, all, ts, files, offset, sizes, i, used, depth, at)
    ensures IsGrown(setup, all, ts + NextTree(setup, files[offset..], sizes, i, used, depth, at), files,
                    offset + sizes[i], sizes, i + 1, NextUsed(setup, sizes, i, used, at), depth, at)
  {
    ChildrenUnfold(setup, files[offset..], sizes, i, used, depth, at);
    assert files[offset..][sizes[i]..] == files[offset + sizes[i]..];
  }

  /** Builds the tree node by node; each directory keeps at least one file, so the recursion ends at any depth limit. */
  method BuildTree(setup: Setup, files: seq<Path>, depth: int, at: Address, name: string) returns (node: DirNode)
    requires setup.Valid()
    ensures node.Valid() && fresh(node.repr)
    ensures node.tree == Built(setup, files, depth, at, name)
    decreases |files|, 0
  {
    node := new DirNode(name);
    if files == [] {
      return;
    }

    var nHere := Clamp(setup.draws.sample(at), |files|);
    node.SetFiles(files[..nHere]);
    var remaining := files[nHere..];

    if remaining == [] || depth >= setup.maxDepth {
      node.SetFiles(node.files + remaining);
      assert files[..nHere] + remaining == files;
      return;
    }

    var nChildren := Clamp(setup.draws.branching(at), |remaining|);
    var shares := if nChildren == 1 then [1.0] else setup.draws.shares(at, nChildren);
    assert [1.0][1..] == [];
    var rawCounts := seq(nChildren, i requires 0 <= i < nChildren => shares[i] * |remaining| as real);
    assert rawCounts == ChildQuotas(setup, at, |remaining|);
    var childCounts := Apportion(rawCounts, |remaining|, setup.argsort);
    GrowChildren(setup, node, remaining, childCounts[..], depth, at);
  }

  method NameChild(word: string, existing: set<string>) returns (name: string)
    ensures name == FreshName(word, "", existing)
  {
    name := DeduplicateName(word, existing);
    LeastFreeIsUnique(name, word, "", existing);
  }

  /** Gives each child with a positive count its run of the remaining files, under a name no sibling has. */
  method GrowChildren(setup: Setup, node: DirNode, remaining: seq<Path>, counts: seq<int>, depth: int, at: Address)
    requires setup.Valid() && node.Valid() && node.tree.children == []
    requires AreSizes(counts) && counts[0..] == counts && SumInt(counts) == |remaining|
    modifies node`children, node`tree, node`repr
    ensures node.Valid() && fresh(node.repr - old(node.repr))
    ensures node.tree == old(node.tree).(children := BuiltChildren(setup, remaining, counts, 0, {}, depth, at))
    decreases |remaining|, 3
  {
    ghost var all := BuiltChildren(setup, remaining, counts, 0, {}, depth, at);
    ghost var ts: seq<Tree> := [];
    var existing: set<string> := {};
    var offset: nat := 0;
    assert remaining[0..] == remaining;
    for i := 0 to |counts|
      invariant node.Valid() && fresh(node.repr - old(node.repr))
      invariant node.tree == old(node.tree).(children := ts)
      invariant IsGrown(setup, all, ts, remaining, offset, counts, i, existing, depth, at)
    {
      NextFits(setup, all, ts, remaining, offset, counts, i, existing, depth, at);
      NextGrown(setup, all, ts, remaining, offset, counts, i, existing, depth, at);
      ts := ts + NextTree(setup, remaining[offset..], counts, i, existing, depth, at);
      existing := GrowNext(setup, node, remaining[offset..], counts, i, existing, depth, at);
      offset := offset + counts[i];
    }
  }

  /** One turn of the loop: the `i`-th child, unless its count is zero. */
  method GrowNext(setup: Setup, node: DirNode, remaining: seq<Path>, counts: seq<int>, i: nat, existing: set<string>,
                  depth: int, at: Address) returns (existing': set<string>)
    requires setup.Valid() && node.Valid() && i < |counts| && 0 <= counts[i] <= |remaining|
    modifies node`children, node`tree, node`repr
    ensures node.Valid() && fresh(node.repr - old(node.repr))
    ensures node.tree == old(node.tree).(children :=
              old(node.tree.children) + NextTree(setup, remaining, counts, i, existing, depth, at))
    ensures existing' == NextUsed(setup, counts, i, existing, at)
    decreases |remaining|, 2
  {
    var count := counts[i];
    if count == 0 {
      assert node.tree.children + [] == node.tree.children;
      return existing;
    }
    var childFiles := remaining[..count];
    var childName := NameChild(setup.draws.word(at, i), existing);
    existing' := existing + {childName};
    GrowChild(setup, node, childFiles, depth + 1, at + [i], childName);
  }

  /** Builds one child and appends it. */
  method GrowChild(setup: Setup, node: DirNode, files: seq<Path>, depth: int, at: Address, name: string)
    requires setup.Valid() && node.Valid()
    modifies node`children, node`tree, node`repr
    ensures node.Valid() && fresh(node.repr - old(node.repr))
    ensures node.tree == old(node.tree).(children :=
              old(node.tree.children) + [Built(setup, files, depth, at, name)])
    decreases |files|, 1
  {
    var child := BuildTree(setup, files, depth, at, name);
    node.AddChild(child);
  }
}
