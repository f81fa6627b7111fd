/** Saved tree shapes, and their replay on another number of files. */
module Plans {
  import opened Sums
  import opened DirTrees
  import opened Apportionment

  datatype Plan = Plan(name: string, nFiles: nat, children: seq<Plan>)

  function TreeToPlan(t: Tree): Plan {
    Plan(t.name, |t.files|, seq(|t.children|, i requires 0 <= i < |t.children| => TreeToPlan(t.children[i])))
  }

  /** All files a plan counts. */
  function Total(plan: Plan): nat
    decreases plan, 0
  {
    plan.nFiles + TotalAll(plan.children)
  }

  function TotalAll(plans: seq<Plan>): nat
    decreases plans, 1
  {
    if plans == [] then 0 else Total(plans[0]) + TotalAll(plans[1..])
  }

  function Share(part: nat, whole: nat, n: nat): real
    requires whole > 0
  {
    part as real / whole as real * n as real
  }

  /** The slots files are dealt to: the directory itself, then each child subtree. */
  function Slots(plan: Plan): seq<nat> {
    [plan.nFiles] + Totals(plan.children)
  }

  function Totals(plans: seq<Plan>): seq<nat> {
    seq(|plans|, i requires 0 <= i < |plans| => Total(plans[i]))
  }

  function Quotas(plan: Plan, n: nat): seq<real>
    requires Total(plan) > 0
  {
    var slots := Slots(plan);
    seq(|slots|, i requires 0 <= i < |slots| => Share(slots[i], Total(plan), n))
  }

  /** How many files each slot of a tree holds. */
  function Held(t: Tree): seq<int> {
    [|t.files|] + Sizes(t.children)
  }

  /**
   `t` is what replaying `plan` on the files of `t` may give: same names, and at every
   directory a largest-remainder split of the files over the slots. A subtree that gets no
   file, and a plan that counts none, keeps no children.
   */
  ghost predicate Replays(plan: Plan, t: Tree) {
    var n := |Preorder(t)|;
    && t.name == plan.name
    && if n == 0 || Total(plan) == 0 then t.children == []
       else
         && |t.children| == |plan.children|
         && (plan.children != [] ==> IsLargestRemainder(Quotas(plan, n), n, Held(t)))
         && forall i :: 0 <= i < |plan.children| ==> Replays(plan.children[i], t.children[i])
  }

  lemma SlotsSum(plan: Plan)
    ensures SumInt(Slots(plan)) == Total(plan)
  {
    TotalsSum(plan.children);
    SumIntConcat([plan.nFiles], Totals(plan.children));
    assert SumInt([plan.nFiles]) == plan.nFiles;
  }

  lemma {:induction false} TotalsSum(plans: seq<Plan>)
    ensures SumInt(Totals(plans)) == TotalAll(plans)
  {
    if plans != [] {
      assert Totals(plans)[1..] == Totals(plans[1..]);
      TotalsSum(plans[1..]);
    }
  }

  lemma {:induction false} SharesSum(slots: seq<nat>, whole: nat, n: nat, quotas: seq<real>)
    requires whole > 0 && |quotas| == |slots|
    requires forall i :: 0 <= i < |slots| ==> quotas[i] == Share(slots[i], whole, n)
    ensures SumReal(quotas) == Share(1, whole, n) * SumInt(slots) as real
    ensures forall i :: 0 <= i < |slots| ==> quotas[i] >= 0.0
  {
    if slots != [] {
      SharesSum(slots[1..], whole, n, quotas[1..]);
      var unit := Share(1, whole, n);
      ShareIsMultiple(slots[0], whole, n);
      assert unit * (slots[0] + SumInt(slots[1..])) as real
          == unit * slots[0] as real + unit * SumInt(slots[1..]) as real;
    }
  }

  lemma ShareIsMultiple(part: nat, whole: nat, n: nat)
    requires whole > 0
    ensures Share(part, whole, n) == Share(1, whole, n) * part as real >= 0.0
  {
  }

  lemma QuotasAreQuotas(plan: Plan, n: nat)
    requires Total(plan) > 0
    ensures AreQuotas(Quotas(plan, n), n)
  {
    SlotsSum(plan);
    SharesSum(Slots(plan), Total(plan), n, Quotas(plan, n));
  }

  lemma {:induction false} SizesSum(ts: seq<Tree>)
    ensures SumInt(Sizes(ts)) == |PreorderAll(ts)|
  {
    if ts != [] {
      assert Sizes(ts)[1..] == Sizes(ts[1..]);
      SizesSum(ts[1..]);
    }
  }
}
