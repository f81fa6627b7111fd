/** Replaying a plan on a list of files, and what the replay promises. */
module Replay {
  import opened Sums
  import opened DirTrees
  import opened Apportionment
  import opened Plans

  method PlanToTree(plan: Plan, files: seq<Path>, argsort: seq<real> -> seq<nat>) returns (node: DirNode)
    requires IsArgsort(argsort)
    ensures node.Valid() && fresh(node.repr)
    ensures Preorder(node.tree) == files
    ensures Replays(plan, node.tree)
    decreases plan
  {
    node := new DirNode(plan.name);
    if files == [] {
      return;
    }
    var planTotal := Total(plan);
    if planTotal == 0 || plan.children == [] {
      node.SetFiles(files);
      return;
    }

    var nTotal := |files|;
    var quotas := Quotas(plan, nTotal);
    QuotasAreQuotas(plan, nTotal);
    var slotCounts := Apportion(quotas, nTotal, argsort);
    var counts := slotCounts[..];
    QuotaRule(quotas, nTotal, counts);
    assert counts == [counts[0]] + counts[1..];

    var nHere := counts[0];
    assert nHere + SumInt(counts[1..]) == nTotal;
    SumIntNonNegative(counts[1..]);
    node.SetFiles(files[..nHere]);
    ReplayChildren(node, plan.children, files[nHere..], counts[1..], argsort);
    assert files == files[..nHere] + files[nHere..];
    assert Held(node.tree) == counts;
  }

  /** Replays of `plans` side by side, holding `files` between them, `counts` files each. */
  ghost predicate Dealt(plans: seq<Plan>, ts: seq<Tree>, files: seq<Path>, counts: seq<int>) {
    && |ts| == |plans|
    && PreorderAll(ts) == files
    && Sizes(ts) == counts
    && forall i :: 0 <= i < |plans| ==> Replays(plans[i], ts[i])
  }

  lemma DealtSnoc(plans: seq<Plan>, ts: seq<Tree>, files: seq<Path>, counts: seq<int>, i: nat, offset: nat, t: Tree)
    requires i < |plans| == |counts| && 0 <= counts[i] && offset + counts[i] <= |files|
    requires Dealt(plans[..i], ts, files[..offset], counts[..i])
    requires Preorder(t) == files[offset..offset + counts[i]] && Replays(plans[i], t)
    ensures Dealt(plans[..i + 1], ts + [t], files[..offset + counts[i]], counts[..i + 1])
  {
    PreorderAllSnoc(ts, t);
    assert files[..offset + counts[i]] == files[..offset] + Preorder(t);
    assert Sizes(ts + [t]) == Sizes(ts) + [|Preorder(t)|] == counts[..i + 1];
    forall k | 0 <= k < i + 1
      ensures Replays(plans[..i + 1][k], (ts + [t])[k])
    {
      if k < i {
        assert Replays(plans[..i][k], ts[k]);
      }
    }
  }

  /** Deals each child plan its run of the files, in order. */
  method ReplayChildren(node: DirNode, plans: seq<Plan>, files: seq<Path>, counts: seq<int>,
                        argsort: seq<real> -> seq<nat>)
    requires node.Valid() && node.tree.children == []
    requires |counts| == |plans| && SumInt(counts) == |files|
    requires forall i :: 0 <= i < |counts| ==> counts[i] >= 0
    requires IsArgsort(argsort)
    modifies node`children, node`tree, node`repr
    ensures node.Valid() && fresh(node.repr - old(node.repr))
    ensures node.tree == old(node.tree).(children := node.tree.children)
    ensures Dealt(plans, node.tree.children, files, counts)
    decreases plans
  {
    var offset := 0;
    for i := 0 to |plans|
      invariant node.Valid() && fresh(node.repr - old(node.repr))
      invariant node.tree == old(node.tree).(children := node.tree.children)
      invariant 0 <= offset <= |files| && offset + SumInt(counts[i..]) == |files|
      invariant Dealt(plans[..i], node.tree.children, files[..offset], counts[..i])
    {
      assert counts[i..][1..] == counts[i + 1..];
      SumIntNonNegative(counts[i + 1..]);
      var count := counts[i];
      var childFiles := files[offset..offset + count];
      var child := PlanToTree(plans[i], childFiles, argsort);
      DealtSnoc(plans, node.tree.children, files, counts, i, offset, child.tree);
      offset := offset + count;
      node.AddChild(child);
    }
    assert files[..offset] == files && plans[..|plans|] == plans && counts[..|counts|] == counts;
  }

  /** A split that follows the plan to the file is a replay of it. */
  lemma ReplaysExactly(plan: Plan, t: Tree)
    requires t.name == plan.name && Preorder(t) != [] && |t.children| == |plan.children| && Held(t) == Slots(plan)
    requires forall i :: 0 <= i < |plan.children| ==> Replays(plan.children[i], t.children[i])
    ensures Replays(plan, t)
  {
    var n := |Preorder(t)|;
    SlotsSum(plan);
    SizesSum(t.children);
    assert Held(t)[1..] == Sizes(t.children);
    forall i | 0 <= i < |Slots(plan)|
      ensures Quotas(plan, n)[i] == Held(t)[i] as real
    {
      WholeShare(Slots(plan)[i], n);
    }
  }

  lemma WholeShare(part: nat, whole: nat)
    requires whole > 0
    ensures Share(part, whole, whole) == part as real
  {
  }

  // How far a subtree is from its exact share.

  ghost predicate IsAddress(plan: Plan, address: seq<nat>) {
    address == [] || (address[0] < |plan.children| && IsAddress(plan.children[address[0]], address[1..]))
  }

  function PlanAt(plan: Plan, address: seq<nat>): Plan
    requires IsAddress(plan, address)
  {
    if address == [] then plan else PlanAt(plan.children[address[0]], address[1..])
  }

  /** The files below an address; a subtree the replay dropped holds none. */
  function FilesAt(t: Tree, address: seq<nat>): nat {
    if address == [] then |Preorder(t)|
    else if address[0] < |t.children| then FilesAt(t.children[address[0]], address[1..])
    else 0
  }

  lemma {:induction false} PartsBelowWhole(plans: seq<Plan>, i: nat)
    requires i < |plans|
    ensures Total(plans[i]) <= TotalAll(plans)
  {
    if i > 0 {
      PartsBelowWhole(plans[1..], i - 1);
    }
  }

  lemma {:induction false} SubplanBelowWhole(plan: Plan, address: seq<nat>)
    requires IsAddress(plan, address)
    ensures Total(PlanAt(plan, address)) <= Total(plan)
  {
    if address != [] {
      PartsBelowWhole(plan.children, address[0]);
      SubplanBelowWhole(plan.children[address[0]], address[1..]);
    }
  }

  lemma {:induction false} EmptyTreeHoldsNothing(t: Tree, address: seq<nat>)
    requires Preorder(t) == []
    ensures FilesAt(t, address) == 0
  {
    if address != [] && address[0] < |t.children| {
      SubtreeWithin(t.children, address[0]);
      EmptyTreeHoldsNothing(t.children[address[0]], address[1..]);
    }
  }

  lemma {:induction false} SubtreeWithin(ts: seq<Tree>, i: nat)
    requires i < |ts|
    ensures |Preorder(ts[i])| <= |PreorderAll(ts)|
  {
    if i > 0 {
      SubtreeWithin(ts[1..], i - 1);
    }
  }

  /** Every slot of a replayed directory is within one file of its share. */
  lemma SlotShare(plan: Plan, t: Tree, s: nat)
    requires Replays(plan, t) && Total(plan) > 0 && Preorder(t) != [] && plan.children != []
    requires s <= |plan.children|
    ensures |Held(t)| == |Slots(plan)|
    ensures Distance(Held(t)[s], Share(Slots(plan)[s], Total(plan), |Preorder(t)|)) < 1.0
  {
    var n := |Preorder(t)|;
    QuotasAreQuotas(plan, n);
    QuotaRule(Quotas(plan, n), n, Held(t));
  }

  /** What one child subtree gets is within one file of its share; with no share it gets nothing. */
  lemma ChildShare(plan: Plan, t: Tree, i: nat)
    requires Replays(plan, t) && Total(plan) > 0 && Preorder(t) != [] && i < |plan.children|
    ensures |t.children| == |plan.children|
    ensures Distance(|Preorder(t.children[i])|, Share(Total(plan.children[i]), Total(plan), |Preorder(t)|)) < 1.0
    ensures Total(plan.children[i]) == 0 ==> Preorder(t.children[i]) == []
  {
    SlotShare(plan, t, i + 1);
    assert Held(t)[i + 1] == |Preorder(t.children[i])|;
    assert Slots(plan)[i + 1] == Total(plan.children[i]);
    NoShare(Total(plan), |Preorder(t)|);
  }

  /** A directory for which the plan counts no file of its own gets none. */
  lemma OwnShare(plan: Plan, t: Tree)
    requires Replays(plan, t) && Total(plan) > 0 && Preorder(t) != [] && plan.children != []
    ensures plan.nFiles == 0 ==> t.files == []
  {
    SlotShare(plan, t, 0);
    assert Held(t)[0] == |t.files| && Slots(plan)[0] == plan.nFiles;
    NoShare(Total(plan), |Preorder(t)|);
  }

  lemma NoShare(whole: nat, n: nat)
    requires whole > 0
    ensures Share(0, whole, n) == 0.0
  {
  }

  /** The share of a share is the share of the whole. */
  lemma ShareOfShare(part: nat, middle: nat, whole: nat, n: nat)
    requires 0 < middle <= whole
    ensures part as real / middle as real * Share(middle, whole, n) == Share(part, whole, n)
  {
    RatioChain(part as real, middle as real, whole as real);
    var a, b, c := part as real / middle as real, middle as real / whole as real, n as real;
    assert a * (b * c) == a * b * c;
  }

  lemma RatioChain(p: real, m: real, w: real)
    requires m > 0.0 && w > 0.0
    ensures p / m * (m / w) == p / w
  {
    var a := p / m;
    assert p == a * m;
    assert a * m / w == a * (m / w);
  }

  lemma Shrink(r: real, x: real, y: real)
    requires 0.0 <= r <= 1.0 && -1.0 < x - y < 1.0
    ensures -1.0 < r * x - r * y < 1.0
  {
    if x >= y {
      ScaleDown(r, x - y);
      assert r * (x - y) == r * x - r * y;
    } else {
      ScaleDown(r, y - x);
      assert r * (y - x) == r * y - r * x;
    }
  }

  lemma ScaleDown(r: real, d: real)
    requires 0.0 <= r <= 1.0 && 0.0 <= d
    ensures 0.0 <= r * d <= d
  {
    assert (1.0 - r) * d >= 0.0;
    assert (1.0 - r) * d == d - r * d;
  }

  lemma RatioAtMostOne(part: nat, whole: nat)
    requires 0 < whole && part <= whole
    ensures 0.0 <= part as real / whole as real <= 1.0
  {
  }

  /** Errors add up along a path. */
  lemma ErrorsAdd(files: nat, part: nat, middle: nat, whole: nat, m: nat, n: nat, slack: real)
    requires 0 < middle <= whole && part <= middle
    requires Distance(m, Share(middle, whole, n)) < 1.0
    requires Distance(files, Share(part, middle, m)) <= slack
    ensures Distance(files, Share(part, whole, n)) < slack + 1.0
  {
    var r, y := part as real / middle as real, Share(middle, whole, n);
    RatioAtMostOne(part, middle);
    ShareOfShare(part, middle, whole, n);
    Shrink(r, m as real, y);
  }

  /** Everything goes to the whole, and nothing of nothing to any part. */
  lemma TrivialShares(part: nat, whole: nat, n: nat)
    requires whole > 0
    ensures Share(whole, whole, n) == n as real
    ensures Share(part, whole, 0) == 0.0
  {
    var w, p := whole as real, part as real / whole as real;
    assert w / w == 1.0;
    assert p * 0.0 == 0.0;
  }

  /** `files` is within `depth` of the share of `part` in `whole`, and equal to it at depth 0. */
  ghost predicate NearShare(files: nat, part: nat, whole: nat, n: nat, depth: nat)
    requires whole > 0
  {
    if depth == 0 then files as real == Share(part, whole, n)
    else Distance(files, Share(part, whole, n)) < depth as real
  }

  lemma NearShareStep(files: nat, part: nat, middle: nat, whole: nat, m: nat, n: nat, depth: nat)
    requires 0 < middle <= whole && part <= middle
    requires Distance(m, Share(middle, whole, n)) < 1.0
    requires NearShare(files, part, middle, m, depth)
    ensures NearShare(files, part, whole, n, depth + 1)
  {
    ErrorsAdd(files, part, middle, whole, m, n, depth as real);
  }

  /**
   Replay is proportional at every level: the files that reach a subtree d >= 1 levels down
   differ from its exact share of all files by less than d, however ties were broken.
   */
  lemma {:induction false} ReplayErrorBelowDepth(plan: Plan, t: Tree, address: seq<nat>)
    requires Replays(plan, t) && Total(plan) > 0 && IsAddress(plan, address)
    ensures NearShare(FilesAt(t, address), Total(PlanAt(plan, address)), Total(plan), |Preorder(t)|, |address|)
  {
    TrivialShares(Total(PlanAt(plan, address)), Total(plan), |Preorder(t)|);
    if address == [] {
    } else if Preorder(t) == [] {
      EmptyTreeHoldsNothing(t, address);
    } else {
      var i, rest := address[0], address[1..];
      var child, ct := plan.children[i], t.children[i];
      ChildShare(plan, t, i);
      SubplanBelowWhole(child, rest);
      if Total(child) == 0 {
        EmptyTreeHoldsNothing(ct, rest);
        NoShare(Total(plan), |Preorder(t)|);
      } else {
        PartsBelowWhole(plan.children, i);
        ReplayErrorBelowDepth(child, ct, rest);
        NearShareStep(FilesAt(ct, rest), Total(PlanAt(child, rest)), Total(child), Total(plan),
                      |Preorder(ct)|, |Preorder(t)|, |rest|);
      }
    }
  }

  // Exact multiples.

  function Scale(plan: Plan, k: nat): Plan {
    Plan(plan.name, k * plan.nFiles,
         seq(|plan.children|, i requires 0 <= i < |plan.children| => Scale(plan.children[i], k)))
  }

  /** No directory that counts no file has children. */
  predicate NoHollow(plan: Plan) {
    && (plan.children != [] ==> Total(plan) > 0)
    && forall i :: 0 <= i < |plan.children| ==> NoHollow(plan.children[i])
  }

  /** On a multiple of the plan's files every slot gets exactly its multiple. */
  lemma WholeShares(plan: Plan, t: Tree, k: nat)
    requires Replays(plan, t) && |Preorder(t)| == k * Total(plan) && k > 0 && Total(plan) > 0
    ensures |t.files| == k * plan.nFiles
    ensures |t.children| == |plan.children|
    ensures forall i :: 0 <= i < |plan.children| ==> |Preorder(t.children[i])| == k * Total(plan.children[i])
  {
    var n := |Preorder(t)|;
    assert n > 0;
    if plan.children == [] {
      return;
    }
    var quotas, slots := Quotas(plan, n), Slots(plan);
    QuotasAreQuotas(plan, n);
    forall i | 0 <= i < |slots|
      ensures Held(t)[i] == k * slots[i]
    {
      ShareOfMultiple(slots[i], Total(plan), k);
      WholeQuotaKept(quotas, n, Held(t), i);
    }
    assert Held(t)[0] == k * slots[0];
    forall i | 0 <= i < |plan.children|
      ensures |Preorder(t.children[i])| == k * Total(plan.children[i])
    {
      assert Held(t)[i + 1] == k * slots[i + 1];
    }
  }

  lemma ShareOfMultiple(part: nat, whole: nat, k: nat)
    requires whole > 0
    ensures Share(part, whole, k * whole) == (k * part) as real
  {
    var p, w, m := part as real, whole as real, k as real;
    assert p / w * (m * w) == m * p;
  }

  /**
   Replaying on k times the plan's files gives the plan back with every count multiplied by
   k exactly when no directory without files has children.
   */
  lemma {:induction false} ReplayScales(plan: Plan, t: Tree, k: nat)
    requires k > 0 && Replays(plan, t) && |Preorder(t)| == k * Total(plan)
    ensures TreeToPlan(t) == Scale(plan, k) <==> NoHollow(plan)
  {
    var got, want := TreeToPlan(t), Scale(plan, k);
    if Total(plan) == 0 {
      assert |got.children| == 0 && |want.children| == |plan.children|;
    } else {
      WholeShares(plan, t, k);
      forall i | 0 <= i < |plan.children|
        ensures got.children[i] == want.children[i] <==> NoHollow(plan.children[i])
      {
        ReplayScales(plan.children[i], t.children[i], k);
      }
    }
  }

  lemma {:induction false} ScaleByOne(plan: Plan)
    ensures Scale(plan, 1) == plan
  {
    forall i | 0 <= i < |plan.children|
      ensures Scale(plan.children[i], 1) == plan.children[i]
    {
      ScaleByOne(plan.children[i]);
    }
  }

  /** A tree's shape and its files in order determine it. */
  lemma {:induction false} ShapeAndFilesDetermine(t: Tree, u: Tree)
    requires TreeToPlan(t) == TreeToPlan(u) && Preorder(t) == Preorder(u)
    ensures t == u
    decreases t, 0
  {
    assert t.files == Preorder(t)[..|t.files|] == u.files;
    assert PreorderAll(t.children) == Preorder(t)[|t.files|..] == PreorderAll(u.children);
    assert |t.children| == |TreeToPlan(t).children| == |TreeToPlan(u).children| == |u.children|;
    forall i | 0 <= i < |t.children|
      ensures TreeToPlan(t.children[i]) == TreeToPlan(u.children[i])
    {
      assert TreeToPlan(t.children[i]) == TreeToPlan(t).children[i];
      assert TreeToPlan(u.children[i]) == TreeToPlan(u).children[i];
    }
    SiblingsDetermined(t.children, u.children);
  }

  lemma {:induction false} SiblingsDetermined(ts: seq<Tree>, us: seq<Tree>)
    requires |ts| == |us| && PreorderAll(ts) == PreorderAll(us)
    requires forall i :: 0 <= i < |ts| ==> TreeToPlan(ts[i]) == TreeToPlan(us[i])
    ensures ts == us
    decreases ts, 1
  {
    if ts != [] {
      SamePlanSameSize(ts[0], us[0]);
      var n := |Preorder(ts[0])|;
      assert Preorder(ts[0]) == PreorderAll(ts)[..n] == Preorder(us[0]);
      assert PreorderAll(ts[1..]) == PreorderAll(ts)[n..] == PreorderAll(us[1..]);
      ShapeAndFilesDetermine(ts[0], us[0]);
      SiblingsDetermined(ts[1..], us[1..]);
    }
  }

  lemma SamePlanSameSize(t: Tree, u: Tree)
    requires TreeToPlan(t) == TreeToPlan(u)
    ensures |Preorder(t)| == |Preorder(u)|
  {
    PlanCountsFiles(t);
    PlanCountsFiles(u);
  }

  /** The saved plan counts exactly the files of the tree. */
  lemma {:induction false} PlanCountsFiles(t: Tree)
    ensures Total(TreeToPlan(t)) == |Preorder(t)|
  {
    var plan := TreeToPlan(t);
    forall i | 0 <= i < |t.children|
      ensures Total(plan.children[i]) == |Preorder(t.children[i])|
    {
      PlanCountsFiles(t.children[i]);
    }
    assert Totals(plan.children) == Sizes(t.children);
    TotalsSum(plan.children);
    SizesSum(t.children);
  }

  /**
   Round trip: a tree saved as a plan and replayed on its own files comes back unchanged
   exactly when none of its directories is hollow; otherwise the replay prunes it.
   */
  lemma PlanRoundTrip(t: Tree, replayed: Tree)
    requires Replays(TreeToPlan(t), replayed) && Preorder(replayed) == Preorder(t)
    ensures replayed == t <==> NoHollow(TreeToPlan(t))
  {
    var plan := TreeToPlan(t);
    PlanCountsFiles(t);
    ReplayScales(plan, replayed, 1);
    ScaleByOne(plan);
    if TreeToPlan(replayed) == plan {
      ShapeAndFilesDetermine(replayed, t);
    }
  }
}
