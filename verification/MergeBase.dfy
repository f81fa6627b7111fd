/** The commit a merge takes as its base: the common ancestor that is nearest to the branch merged into. */
module MergeBase {
  import opened Common
  import opened Commits

  ghost function Depth(h: History, a: Id, c: Id): (d: nat)
    requires IsAncestor(h, a, c)
    ensures IsDepth(h, a, c, d)
  {
    var e: nat :| Reaches(h, a, c, e);
    DepthExists(h, a, c, e);
    var d: nat :| IsDepth(h, a, c, d);
    d
  }

  /** All ancestors with their distances. */
  ghost function DepthsOf(h: History, a: Id): map<Id, nat> {
    map c | c in h && IsAncestor(h, a, c) :: Depth(h, a, c)
  }

  lemma DepthsAreThose(h: History, a: Id, depths: map<Id, nat>)
    requires AreDepths(h, a, depths)
    ensures depths == DepthsOf(h, a)
  {
    forall c
      ensures c in depths <==> c in h && IsAncestor(h, a, c)
      ensures c in depths ==> depths[c] == Depth(h, a, c)
    {
      if c in depths {
        ReachedIsThere(h, a, c, depths[c]);
      }
    }
  }

  ghost predicate IsCommon(h: History, base: Id, merge: Id, c: Id) {
    IsAncestor(h, base, c) && IsAncestor(h, merge, c)
  }

  /** A common ancestor as near to the base as any. */
  ghost predicate IsNearest(h: History, base: Id, merge: Id, c: Id) {
    IsCommon(h, base, merge, c) && forall o :: IsCommon(h, base, merge, o) ==> Depth(h, base, c) <= Depth(h, base, o)
  }

  /** A common ancestor that no other common ancestor descends from. */
  ghost predicate IsLowest(h: History, base: Id, merge: Id, c: Id) {
    IsCommon(h, base, merge, c) && forall o :: IsCommon(h, base, merge, o) && IsAncestor(h, o, c) ==> o == c
  }

  // The choice, which depends on the order in which the ancestors of the merge commit come.

  ghost predicate Lists(order: seq<Id>, keys: set<Id>) {
    forall c :: c in order <==> c in keys
  }

  /** How a hash map happens to be gone through. */
  ghost predicate IsIteration(iterate: set<Id> -> seq<Id>) {
    forall keys :: Lists(iterate(keys), keys)
  }

  function Nearer(depths: map<Id, nat>, c: Id, best: Option<Id>): bool
    requires best.Some? ==> best.value in depths
  {
    c in depths && (best == None || depths[c] < depths[best.value])
  }

  function Pick(depths: map<Id, nat>, order: seq<Id>, best: Option<Id>): (r: Option<Id>)
    requires best.Some? ==> best.value in depths
    decreases |order|
  {
    if order == [] then best
    else Pick(depths, order[1..], if Nearer(depths, order[0], best) then Some(order[0]) else best)
  }

  /** The first of those with the least distance. */
  lemma {:induction false} PickIsLeast(depths: map<Id, nat>, order: seq<Id>, best: Option<Id>)
    requires best.Some? ==> best.value in depths
    ensures var r := Pick(depths, order, best);
            && (r == None <==> best == None && forall c :: c in order ==> c !in depths)
            && (r.Some? ==> r.value in depths && (r == best || r.value in order))
            && (r.Some? && best.Some? ==> depths[r.value] <= depths[best.value])
            && forall c :: c in order && c in depths ==> r.Some? && depths[r.value] <= depths[c]
    decreases |order|
  {
    if order != [] {
      var next := if Nearer(depths, order[0], best) then Some(order[0]) else best;
      PickIsLeast(depths, order[1..], next);
      assert forall c :: c in order <==> c == order[0] || c in order[1..];
    }
  }

  lemma {:induction false} LeastStays(depths: map<Id, nat>, order: seq<Id>, c: Id)
    requires c in depths && forall o :: o in order && o in depths ==> depths[c] <= depths[o]
    ensures Pick(depths, order, Some(c)) == Some(c)
    decreases |order|
  {
    if order != [] {
      assert order[0] in order;
      LeastStays(depths, order[1..], c);
    }
  }

  /** The elements of a set in some order. */
  ghost function SomeOrder(keys: set<Id>): (order: seq<Id>)
    ensures Lists(order, keys)
  {
    if keys == {} then []
    else
      var c :| c in keys;
      [c] + SomeOrder(keys - {c})
  }

  /** There is a way to go through every set. */
  lemma IterationExists()
    ensures exists iterate :: IsIteration(iterate)
  {
    assert IsIteration((keys: set<Id>) => SomeOrder(keys));
  }

  /** What the choice can be: nothing without common ancestors, and otherwise a nearest one. */
  lemma PickedIsNearest(h: History, base: Id, merge: Id, order: seq<Id>)
    requires Lists(order, DepthsOf(h, merge).Keys)
    ensures var r := Pick(DepthsOf(h, base), order, None);
            if r.Some? then IsNearest(h, base, merge, r.value) else forall c :: !IsCommon(h, base, merge, c)
  {
    var depths := DepthsOf(h, base);
    PickIsLeast(depths, order, None);
    forall c | IsCommon(h, base, merge, c)
      ensures c in order && c in depths && depths[c] == Depth(h, base, c)
    {
      CommonIsListed(h, base, merge, c);
    }
  }

  lemma CommonIsListed(h: History, base: Id, merge: Id, c: Id)
    requires IsCommon(h, base, merge, c)
    ensures c in DepthsOf(h, base) && c in DepthsOf(h, merge)
  {
    var d: nat :| Reaches(h, base, c, d);
    ReachedIsThere(h, base, c, d);
  }

  /** And each nearest one is the choice for some order. */
  lemma NearestCanBePicked(h: History, base: Id, merge: Id, c: Id) returns (order: seq<Id>)
    requires IsNearest(h, base, merge, c)
    ensures Lists(order, DepthsOf(h, merge).Keys) && Pick(DepthsOf(h, base), order, None) == Some(c)
  {
    var rest := SomeOrder(DepthsOf(h, merge).Keys);
    order := [c] + rest;
    CommonIsListed(h, base, merge, c);
    forall o | o in rest && o in DepthsOf(h, base)
      ensures DepthsOf(h, base)[c] <= DepthsOf(h, base)[o]
    {
      assert IsCommon(h, base, merge, o);
    }
    LeastStays(DepthsOf(h, base), rest, c);
    assert order[1..] == rest;
  }

  /**
   Lists both histories with their distances and picks, in whatever order the second one is
   gone through, the first commit in both that is nearest to the base.
   */
  method LowestCommonAncestorFromCommits(h: History, base: Id, merge: Id, iterate: set<Id> -> seq<Id>,
                                         ghost rank: Id -> nat) returns (lca: Option<Id>)
    requires IsAcyclic(h, rank) && base in h && IsIteration(iterate)
    ensures lca == Pick(DepthsOf(h, base), iterate(DepthsOf(h, merge).Keys), None)
    ensures if lca.Some? then IsNearest(h, base, merge, lca.value) else forall c :: !IsCommon(h, base, merge, c)
  {
    var fromHead := ListFromWithDepth(h, base, rank);
    var fromMerge := ListFromWithDepth(h, merge, rank);
    DepthsAreThose(h, base, fromHead);
    DepthsAreThose(h, merge, fromMerge);
    var order := iterate(fromMerge.Keys);
    PickedIsNearest(h, base, merge, order);
    lca := None;
    for i := 0 to |order|
      invariant lca.Some? ==> lca.value in fromHead
      invariant Pick(fromHead, order[i..], lca) == Pick(fromHead, order, None)
    {
      assert order[i..][1..] == order[i + 1..];
      if order[i] in fromHead && (lca == None || fromHead[order[i]] < fromHead[lca.value]) {
        lca := Some(order[i]);
      }
    }
  }

  // Fast-forward merges are recognised.

  lemma OnlyStartIsNowhereBack(h: History, a: Id, c: Id)
    requires a in h
    ensures IsAncestor(h, a, a) && Depth(h, a, a) == 0
    ensures IsAncestor(h, a, c) && Depth(h, a, c) == 0 ==> c == a
  {
    assert Reaches(h, a, a, 0);
  }

  /** The choice is the base itself exactly when the base is an ancestor of the merge commit. */
  lemma FastForwardExactly(h: History, base: Id, merge: Id, order: seq<Id>)
    requires base in h && Lists(order, DepthsOf(h, merge).Keys)
    ensures Pick(DepthsOf(h, base), order, None) == Some(base) <==> IsAncestor(h, merge, base)
  {
    PickedIsNearest(h, base, merge, order);
    OnlyStartIsNowhereBack(h, base, base);
    if IsAncestor(h, merge, base) {
      assert IsCommon(h, base, merge, base);
      var r := Pick(DepthsOf(h, base), order, None);
      OnlyStartIsNowhereBack(h, base, r.value);
    }
  }

  // When the nearest common ancestor is a lowest one.

  /** All ways back from `a` to the same commit are equally long. */
  ghost predicate WaysAgree(h: History, a: Id) {
    forall c, d: nat, e: nat :: Reaches(h, a, c, d) && Reaches(h, a, c, e) ==> d == e
  }

  lemma AncestorOfAncestor(h: History, a: Id, b: Id, c: Id)
    requires IsAncestor(h, a, b) && IsAncestor(h, b, c)
    ensures IsAncestor(h, a, c)
  {
    var d: nat :| Reaches(h, a, b, d);
    var e: nat :| Reaches(h, b, c, e);
    ReachesThen(h, a, b, c, d, e);
  }

  /** A common ancestor is lowest exactly when it is the parent of no other. */
  lemma LowestExactly(h: History, base: Id, merge: Id, c: Id, rank: Id -> nat)
    requires IsAcyclic(h, rank) && IsCommon(h, base, merge, c)
    ensures IsLowest(h, base, merge, c) <==> forall y :: IsCommon(h, base, merge, y) ==> !IsParent(h, y, c)
  {
    forall y | IsCommon(h, base, merge, y) && IsParent(h, y, c)
      ensures IsAncestor(h, y, c) && y != c
    {
      assert Reaches(h, c, c, 0);
      assert Reaches(h, y, c, 1);
    }
    forall o | IsCommon(h, base, merge, o) && IsAncestor(h, o, c) && o != c
      ensures exists y :: IsCommon(h, base, merge, y) && IsParent(h, y, c)
    {
      var d: nat :| Reaches(h, o, c, d);
      var y := LastStep(h, o, c, d);
      assert IsAncestor(h, o, y);
      AncestorOfAncestor(h, base, o, y);
      AncestorOfAncestor(h, merge, o, y);
    }
  }

  /** The choice for these two commits is a lowest common ancestor, in whatever order. */
  ghost predicate LowestInEveryOrder(h: History, base: Id, merge: Id) {
    forall order: seq<Id> :: Lists(order, DepthsOf(h, merge).Keys) ==>
      var r := Pick(DepthsOf(h, base), order, None); r.Some? ==> IsLowest(h, base, merge, r.value)
  }

  /** No nearest common ancestor is the parent of a common ancestor. */
  ghost predicate NearestHaveNoCommonChild(h: History, base: Id, merge: Id) {
    forall c, y :: IsNearest(h, base, merge, c) && IsCommon(h, base, merge, y) ==> !IsParent(h, y, c)
  }

  /** For one given pair of commits, exactly when the choice is a lowest common ancestor in every order. */
  lemma PairLowestExactly(h: History, base: Id, merge: Id, rank: Id -> nat)
    requires IsAcyclic(h, rank)
    ensures LowestInEveryOrder(h, base, merge) <==> NearestHaveNoCommonChild(h, base, merge)
  {
    if NearestHaveNoCommonChild(h, base, merge) {
      forall order: seq<Id> | Lists(order, DepthsOf(h, merge).Keys)
        ensures var r := Pick(DepthsOf(h, base), order, None); r.Some? ==> IsLowest(h, base, merge, r.value)
      {
        PickedIsNearest(h, base, merge, order);
        var r := Pick(DepthsOf(h, base), order, None);
        if r.Some? {
          LowestExactly(h, base, merge, r.value, rank);
        }
      }
    }
    if LowestInEveryOrder(h, base, merge) {
      forall c, y | IsNearest(h, base, merge, c) && IsCommon(h, base, merge, y)
        ensures !IsParent(h, y, c)
      {
        var order := NearestCanBePicked(h, base, merge, c);
        LowestExactly(h, base, merge, c, rank);
      }
    }
  }

  /** Where ways agree, a parent lies one step further back. */
  lemma ParentOneFurther(h: History, a: Id, y: Id, x: Id)
    requires WaysAgree(h, a) && IsAncestor(h, a, y) && IsParent(h, y, x)
    ensures IsAncestor(h, a, x) && Depth(h, a, x) == Depth(h, a, y) + 1
  {
    ReachesParent(h, a, y, x, Depth(h, a, y));
  }

  lemma NearestHasNoCommonChild(h: History, base: Id, merge: Id)
    requires WaysAgree(h, base)
    ensures NearestHaveNoCommonChild(h, base, merge)
  {
    forall c, y | IsNearest(h, base, merge, c) && IsCommon(h, base, merge, y)
      ensures !IsParent(h, y, c)
    {
      if IsParent(h, y, c) {
        ParentOneFurther(h, base, y, c);
      }
    }
  }

  /** Every parent lies further back than its child. */
  ghost predicate ParentsFurther(h: History, a: Id) {
    forall y, x :: IsAncestor(h, a, y) && IsParent(h, y, x) ==> IsAncestor(h, a, x) && Depth(h, a, y) < Depth(h, a, x)
  }

  lemma FurtherByOne(h: History, a: Id, y: Id, x: Id, d: nat)
    requires ParentsFurther(h, a) && IsAncestor(h, a, y) && Depth(h, a, y) == d
    requires IsParent(h, y, x) && Reaches(h, a, x, d + 1)
    ensures IsAncestor(h, a, x) && Depth(h, a, x) == d + 1
  {
  }

  lemma {:induction false} FurtherMeansWaysAgree(h: History, a: Id, c: Id, d: nat)
    requires ParentsFurther(h, a) && a in h && Reaches(h, a, c, d)
    ensures IsAncestor(h, a, c) && Depth(h, a, c) == d
    decreases d
  {
    if d == 0 {
      OnlyStartIsNowhereBack(h, a, c);
    } else {
      var y := LastStep(h, a, c, d);
      FurtherMeansWaysAgree(h, a, y, d - 1);
      FurtherByOne(h, a, y, c, d - 1);
    }
  }

  /** An edge on which the distance does not grow is a merge that goes wrong. */
  lemma ShortcutPicksTooFar(h: History, base: Id, y: Id, x: Id, rank: Id -> nat) returns (order: seq<Id>)
    requires IsAcyclic(h, rank) && base in h
    requires IsAncestor(h, base, y) && IsParent(h, y, x) && IsAncestor(h, base, x)
    requires Depth(h, base, x) <= Depth(h, base, y)
    ensures Lists(order, DepthsOf(h, y).Keys)
    ensures var r := Pick(DepthsOf(h, base), order, None); r.Some? && !IsLowest(h, base, y, r.value)
  {
    assert Reaches(h, y, y, 0) && Reaches(h, x, x, 0);
    assert Reaches(h, y, x, 1);
    assert IsCommon(h, base, y, y) && IsCommon(h, base, y, x);
    var rest := SomeOrder(DepthsOf(h, y).Keys);
    order := [x] + rest;
    CommonIsListed(h, base, y, x);
    PickedIsNearest(h, base, y, order);
    var depths, r := DepthsOf(h, base), Pick(DepthsOf(h, base), order, None);
    assert order[1..] == rest;
    assert r == Pick(depths, rest, Some(x));
    PickIsLeast(depths, rest, Some(x));
    PickStaysOrImproves(depths, rest, x);
    CommonIsListed(h, base, y, y);
    assert r.value != y;
    assert IsAncestor(h, y, r.value);
  }

  lemma {:induction false} PickStaysOrImproves(depths: map<Id, nat>, order: seq<Id>, c: Id)
    requires c in depths
    ensures var r := Pick(depths, order, Some(c));
            r == Some(c) || (r.Some? && r.value in depths && depths[r.value] < depths[c])
    decreases |order|
  {
    if order != [] {
      if Nearer(depths, order[0], Some(c)) {
        PickIsLeast(depths, order[1..], Some(order[0]));
      } else {
        PickStaysOrImproves(depths, order[1..], c);
      }
    }
  }

  /** The choice is a lowest common ancestor, whatever is merged and in whatever order. */
  ghost predicate AlwaysLowest(h: History, base: Id) {
    forall merge :: LowestInEveryOrder(h, base, merge)
  }

  /**
   Exactly when the function keeps the promise of its name: for every merge commit and every
   order of iteration, if and only if all ways back from the base to the same commit are
   equally long.
   */
  lemma AlwaysLowestExactly(h: History, base: Id, rank: Id -> nat)
    requires IsAcyclic(h, rank) && base in h
    ensures AlwaysLowest(h, base) <==> WaysAgree(h, base)
  {
    if WaysAgree(h, base) {
      forall merge
        ensures LowestInEveryOrder(h, base, merge)
      {
        NearestHasNoCommonChild(h, base, merge);
        PairLowestExactly(h, base, merge, rank);
      }
    }
    if AlwaysLowest(h, base) {
      LowestMeansFurther(h, base, rank);
      forall c, d: nat, e: nat | Reaches(h, base, c, d) && Reaches(h, base, c, e)
        ensures d == e
      {
        FurtherMeansWaysAgree(h, base, c, d);
        FurtherMeansWaysAgree(h, base, c, e);
      }
    }
  }

  lemma LowestMeansFurther(h: History, base: Id, rank: Id -> nat)
    requires IsAcyclic(h, rank) && base in h && AlwaysLowest(h, base)
    ensures ParentsFurther(h, base)
  {
    forall y, x | IsAncestor(h, base, y) && IsParent(h, y, x)
      ensures IsAncestor(h, base, x) && Depth(h, base, y) < Depth(h, base, x)
    {
      ReachesParent(h, base, y, x, Depth(h, base, y));
      assert LowestInEveryOrder(h, base, y);
      if Depth(h, base, x) <= Depth(h, base, y) {
        var order := ShortcutPicksTooFar(h, base, y, x, rank);
      }
    }
  }

  // A history on which it fails.

  /** Main line b, p, q, s, r; f was branched off at r and merged into b; m is branched off at s. */
  function OldBranch(): History {
    map["b" := ["p", "f"], "p" := ["q"], "q" := ["s"], "f" := ["r"], "m" := ["s"], "s" := ["r"], "r" := []]
  }

  lemma OneStep(h: History, a: Id, c: Id)
    ensures Reaches(h, a, c, 1) <==> IsParent(h, a, c)
  {
    if IsParent(h, a, c) {
      assert Reaches(h, c, c, 0);
    }
  }

  lemma TwoSteps(h: History, a: Id, c: Id)
    ensures Reaches(h, a, c, 2) <==> exists p :: IsParent(h, a, p) && IsParent(h, p, c)
  {
    forall p
      ensures Reaches(h, p, c, 1) <==> IsParent(h, p, c)
    {
      OneStep(h, p, c);
    }
  }

  lemma SAndRAreCommon()
    ensures IsCommon(OldBranch(), "b", "m", "s") && IsCommon(OldBranch(), "b", "m", "r")
    ensures Reaches(OldBranch(), "b", "r", 2)
  {
    ForkPointsCommon(OldBranch(), "b", "p", "q", "s", "f", "r", "m");
  }

  lemma ForkPointsCommon(h: History, b: Id, p: Id, q: Id, s: Id, f: Id, r: Id, m: Id)
    requires IsParent(h, b, p) && IsParent(h, p, q) && IsParent(h, q, s) && IsParent(h, m, s)
    requires IsParent(h, b, f) && IsParent(h, f, r) && IsParent(h, s, r)
    ensures IsCommon(h, b, m, s) && IsCommon(h, b, m, r) && Reaches(h, b, r, 2)
  {
    OneStep(h, m, s);
    TwoSteps(h, m, r);
    TwoSteps(h, b, q);
    TwoSteps(h, b, r);
    ReachesParent(h, b, q, s, 2);
  }

  lemma SIsThreeBack()
    ensures forall d: nat :: Reaches(OldBranch(), "b", "s", d) ==> d > 2
  {
    var h := OldBranch();
    OneStep(h, "b", "s");
    TwoSteps(h, "b", "s");
    forall p | IsParent(h, "b", p)
      ensures !IsParent(h, p, "s")
    {
      assert p == "p" || p == "f";
    }
    assert !Reaches(h, "b", "s", 0) && !Reaches(h, "b", "s", 1) && !Reaches(h, "b", "s", 2);
    forall d: nat | Reaches(h, "b", "s", d)
      ensures d > 2
    {
      assert d != 0 && d != 1 && d != 2;
    }
  }

  lemma OnlyMSAndR(c: Id, d: nat)
    requires Reaches(OldBranch(), "m", c, d)
    ensures c == "m" || c == "s" || c == "r"
  {
    if d > 0 {
      var p :| IsParent(OldBranch(), "m", p) && Reaches(OldBranch(), p, c, d - 1);
      assert p == "s";
      OnlySAndR(c, d - 1);
    }
  }

  lemma OnlySAndR(c: Id, d: nat)
    requires Reaches(OldBranch(), "s", c, d)
    ensures c == "s" || c == "r"
  {
    if d > 0 {
      var p :| IsParent(OldBranch(), "s", p) && Reaches(OldBranch(), p, c, d - 1);
      assert p == "r";
      NothingBeforeRoot(OldBranch(), "r", c, d - 1);
    }
  }

  lemma NothingBeforeRoot(h: History, root: Id, c: Id, d: nat)
    requires root in h && h[root] == [] && Reaches(h, root, c, d)
    ensures c == root
  {
  }

  lemma MIsNotMerged()
    ensures !IsAncestor(OldBranch(), "b", "m")
  {
    if d: nat :| Reaches(OldBranch(), "b", "m", d) {
      assert d > 0;
      var child := LastStep(OldBranch(), "b", "m", d);
    }
  }

  /**
   A branch f with a commit of its own was merged into the base b. Its fork point r is now
   nearer to b than the fork point s of the branch m that is merged next: in every order the
   choice is r, although s is common and has r as a parent.
   */
  lemma OldBranchMisleads(order: seq<Id>)
    requires Lists(order, DepthsOf(OldBranch(), "m").Keys)
    ensures Pick(DepthsOf(OldBranch(), "b"), order, None) == Some("r")
    ensures IsCommon(OldBranch(), "b", "m", "s") && IsParent(OldBranch(), "s", "r")
  {
    SAndRAreCommon();
    SIsThreeBack();
    MIsNotMerged();
    PickedIsNearest(OldBranch(), "b", "m", order);
    var r := Pick(DepthsOf(OldBranch(), "b"), order, None);
    OnlyMSAndR(r.value, Depth(OldBranch(), "m", r.value));
  }
}
