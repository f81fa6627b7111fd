/**
 Largest-remainder apportionment, the integer split that both the tree builder and the
 plan replay perform: every slot gets the floor of its exact quota, and the units left
 over go to the slots with the largest fractional parts.
 */
module Apportionment {
  import opened Sums

  function Fraction(q: real): (f: real)
    ensures 0.0 <= f < 1.0
  {
    q - q.Floor as real
  }

  function Fractions(quotas: seq<real>): seq<real> {
    seq(|quotas|, i requires 0 <= i < |quotas| => Fraction(quotas[i]))
  }

  function Floors(quotas: seq<real>): seq<int> {
    seq(|quotas|, i requires 0 <= i < |quotas| => quotas[i].Floor)
  }

  predicate AreIndices(keys: seq<real>, order: seq<nat>) {
    forall i :: 0 <= i < |order| ==> order[i] < |keys|
  }

  /** Distinct indices by ascending key. */
  ghost predicate IsAscending(keys: seq<real>, order: seq<nat>) {
    && AreIndices(keys, order)
    && (forall i, j :: 0 <= i < j < |order| ==> order[i] != order[j] && keys[order[i]] <= keys[order[j]])
  }

  /** `order` lists every index of `keys` once, by ascending key; equal keys may come in any order. */
  ghost predicate IsAscendingOrder(keys: seq<real>, order: seq<nat>) {
    && |order| == |keys|
    && IsAscending(keys, order)
    && (forall k :: 0 <= k < |keys| ==> k in order)
  }

  /** The index-sorting routine: any function that sorts, whatever it does with ties. */
  ghost predicate IsArgsort(argsort: seq<real> -> seq<nat>) {
    forall keys :: IsAscendingOrder(keys, argsort(keys))
  }

  // There is such a routine: insertion by key.

  /** Puts index `i` before the first index of a larger key. */
  function Insert(keys: seq<real>, order: seq<nat>, i: nat): seq<nat>
    requires i < |keys| && AreIndices(keys, order)
  {
    if order == [] then [i]
    else if keys[i] < keys[order[0]] then [i] + order
    else [order[0]] + Insert(keys, order[1..], i)
  }

  lemma {:induction false} InsertHas(keys: seq<real>, order: seq<nat>, i: nat, k: nat)
    requires i < |keys| && AreIndices(keys, order)
    ensures k in Insert(keys, order, i) <==> k in order || k == i
    ensures |Insert(keys, order, i)| == |order| + 1
  {
    if order != [] {
      InsertHas(keys, order[1..], i, k);
      assert k in order <==> k == order[0] || k in order[1..];
    }
  }

  lemma {:induction false} InsertAscends(keys: seq<real>, order: seq<nat>, i: nat)
    requires IsAscending(keys, order) && i < |keys| && i !in order
    ensures IsAscending(keys, Insert(keys, order, i))
  {
    if order != [] && keys[i] >= keys[order[0]] {
      var rest := order[1..];
      InsertAscends(keys, rest, i);
      forall k | k in Insert(keys, rest, i)
        ensures k < |keys| && k != order[0] && keys[order[0]] <= keys[k]
      {
        InsertHas(keys, rest, i, k);
      }
      AscendingPrepend(keys, order[0], Insert(keys, rest, i));
    } else {
      AscendingPrepend(keys, i, order);
    }
  }

  lemma AscendingPrepend(keys: seq<real>, first: nat, rest: seq<nat>)
    requires first < |keys| && IsAscending(keys, rest)
    requires forall k :: k in rest ==> k < |keys| && k != first && keys[first] <= keys[k]
    ensures IsAscending(keys, [first] + rest)
  {
  }

  /** The first `n` indices by ascending key. */
  ghost predicate IsSorted(keys: seq<real>, n: nat, order: seq<nat>) {
    |order| == n && IsAscending(keys, order) && forall k: nat :: k in order <==> k < n
  }

  lemma InsertSorts(keys: seq<real>, n: nat, before: seq<nat>)
    requires n < |keys| && IsSorted(keys, n, before)
    ensures IsSorted(keys, n + 1, Insert(keys, before, n))
  {
    InsertAscends(keys, before, n);
    InsertHas(keys, before, n, n);
    forall k: nat
      ensures k in Insert(keys, before, n) <==> k < n + 1
    {
      InsertHas(keys, before, n, k);
    }
  }

  function Sorted(keys: seq<real>, n: nat): (order: seq<nat>)
    requires n <= |keys|
    ensures IsSorted(keys, n, order)
  {
    if n == 0 then []
    else
      var before := Sorted(keys, n - 1);
      InsertSorts(keys, n - 1, before);
      Insert(keys, before, n - 1)
  }

  function InsertionOrder(keys: seq<real>): seq<nat> {
    Sorted(keys, |keys|)
  }

  lemma InsertionIsArgsort()
    ensures IsArgsort(InsertionOrder)
  {
    forall keys: seq<real>
      ensures IsAscendingOrder(keys, InsertionOrder(keys))
    {
      assert IsSorted(keys, |keys|, InsertionOrder(keys));
    }
  }

  /** Exact non-negative quotas for `n` units. */
  ghost predicate AreQuotas(quotas: seq<real>, n: nat) {
    && quotas != []
    && (forall i :: 0 <= i < |quotas| ==> quotas[i] >= 0.0)
    && SumReal(quotas) == n as real
  }

  ghost predicate Bumped(quotas: seq<real>, counts: seq<int>, i: nat)
    requires |counts| == |quotas| && i < |quotas|
  {
    counts[i] == quotas[i].Floor + 1
  }

  /**
   What the split has to be, for some way of breaking ties: all units given out, each slot
   at its floor or one above, and no slot passed over in favour of a smaller fraction.
   */
  ghost predicate IsLargestRemainder(quotas: seq<real>, n: nat, counts: seq<int>) {
    && |counts| == |quotas|
    && SumInt(counts) == n
    && (forall i :: 0 <= i < |counts| ==> counts[i] == quotas[i].Floor || counts[i] == quotas[i].Floor + 1)
    && (forall i, j :: 0 <= i < |counts| && 0 <= j < |counts| && Bumped(quotas, counts, i) && !Bumped(quotas, counts, j)
          ==> Fraction(quotas[i]) >= Fraction(quotas[j]))
  }

  /** How far an allocation is from the exact quotas, summed over the slots. */
  function Deviation(quotas: seq<real>, counts: seq<int>): real
    requires |counts| == |quotas|
  {
    if quotas == [] then 0.0
    else Distance(counts[0], quotas[0]) + Deviation(quotas[1..], counts[1..])
  }

  function Distance(c: int, q: real): real {
    if c as real >= q then c as real - q else q - c as real
  }

  lemma {:induction false} FloorsBelowQuotas(quotas: seq<real>)
    ensures SumInt(Floors(quotas)) as real <= SumReal(quotas)
    ensures quotas != [] ==> SumReal(quotas) < (SumInt(Floors(quotas)) + |quotas|) as real
  {
    if quotas != [] {
      assert Floors(quotas)[1..] == Floors(quotas[1..]);
      FloorsBelowQuotas(quotas[1..]);
    }
  }

  /** The units left after the floors are fewer than the slots, and never negative. */
  lemma DeficitRange(quotas: seq<real>, n: nat)
    requires AreQuotas(quotas, n)
    ensures 0 <= n - SumInt(Floors(quotas)) < |quotas|
  {
    FloorsBelowQuotas(quotas);
  }

  /** The floors, with one more unit for each of the last `extra` slots of `order`. */
  function Raised(quotas: seq<real>, order: seq<nat>, extra: nat): seq<int>
    requires extra <= |order|
  {
    seq(|quotas|, i requires 0 <= i < |quotas| => quotas[i].Floor + if i in order[|order| - extra..] then 1 else 0)
  }

  lemma RaiseOne(quotas: seq<real>, order: seq<nat>, extra: nat)
    requires IsAscendingOrder(Fractions(quotas), order) && extra < |order|
    ensures var top, before := order[|order| - 1 - extra], Raised(quotas, order, extra);
            Raised(quotas, order, extra + 1) == before[top := before[top] + 1]
  {
    var last := |order| - 1 - extra;
    assert order[last..] == [order[last]] + order[last + 1..];
  }

  lemma {:induction false} RaisedSum(quotas: seq<real>, order: seq<nat>, extra: nat)
    requires IsAscendingOrder(Fractions(quotas), order) && extra <= |order|
    ensures SumInt(Raised(quotas, order, extra)) == SumInt(Floors(quotas)) + extra
  {
    if extra == 0 {
      assert Raised(quotas, order, 0) == Floors(quotas);
    } else {
      RaisedSum(quotas, order, extra - 1);
      RaiseOne(quotas, order, extra - 1);
      var before, top := Raised(quotas, order, extra - 1), order[|order| - extra];
      SumIntUpdate(before, top, before[top] + 1);
    }
  }

  /** The counts that largest remainder comes to, given how ties are ordered. */
  ghost function Split(quotas: seq<real>, n: nat, argsort: seq<real> -> seq<nat>): seq<int>
    requires AreQuotas(quotas, n) && IsArgsort(argsort)
  {
    DeficitRange(quotas, n);
    var order := argsort(Fractions(quotas));
    assert IsAscendingOrder(Fractions(quotas), order);
    Raised(quotas, order, n - SumInt(Floors(quotas)))
  }

  lemma SplitIsLargestRemainder(quotas: seq<real>, n: nat, argsort: seq<real> -> seq<nat>)
    requires AreQuotas(quotas, n) && IsArgsort(argsort)
    ensures IsLargestRemainder(quotas, n, Split(quotas, n, argsort))
  {
    DeficitRange(quotas, n);
    var order, counts := argsort(Fractions(quotas)), Split(quotas, n, argsort);
    assert IsAscendingOrder(Fractions(quotas), order);
    var deficit := n - SumInt(Floors(quotas));
    RaisedSum(quotas, order, deficit);
    forall i, j | 0 <= i < |counts| && 0 <= j < |counts| && Bumped(quotas, counts, i) && !Bumped(quotas, counts, j)
      ensures Fraction(quotas[i]) >= Fraction(quotas[j])
    {
      assert i in order[|order| - deficit..] && j !in order[|order| - deficit..];
      LaterIsLarger(Fractions(quotas), order, deficit, i, j);
    }
  }

  /** What is among the last of an ascending order is no smaller than what is not. */
  lemma LaterIsLarger(keys: seq<real>, order: seq<nat>, last: nat, i: nat, j: nat)
    requires IsAscendingOrder(keys, order) && last <= |order| && j < |keys|
    requires i in order[|order| - last..] && j !in order[|order| - last..]
    ensures i < |keys| && keys[i] >= keys[j]
  {
    assert j in order;
    var mi :| |order| - last <= mi < |order| && order[mi] == i;
    var mj :| 0 <= mj < |order| && order[mj] == j;
    InTail(order, |order| - last, mj);
  }

  lemma InTail(order: seq<nat>, from: nat, m: nat)
    requires from <= |order| && m < |order|
    ensures from <= m ==> order[m] in order[from..]
  {
    if from <= m {
      assert order[from..][m - from] == order[m];
    }
  }

  /** The in-place split: floors first, then one extra unit for each of the `deficit` largest fractions. */
  method Apportion(quotas: seq<real>, n: nat, argsort: seq<real> -> seq<nat>) returns (counts: array<int>)
    requires AreQuotas(quotas, n) && IsArgsort(argsort)
    ensures fresh(counts)
    ensures counts[..] == Split(quotas, n, argsort)
    ensures IsLargestRemainder(quotas, n, counts[..])
  {
    counts := new int[|quotas|](i requires 0 <= i < |quotas| => quotas[i].Floor);
    assert counts[..] == Floors(quotas);
    var deficit := n - SumInt(counts[..]);
    DeficitRange(quotas, n);
    var order := argsort(Fractions(quotas));
    assert IsAscendingOrder(Fractions(quotas), order);
    for k := 0 to deficit
      invariant counts[..] == Raised(quotas, order, k)
    {
      RaiseOne(quotas, order, k);
      var top := order[|order| - 1 - k];
      counts[top] := counts[top] + 1;
    }
    SplitIsLargestRemainder(quotas, n, argsort);
  }

  lemma {:induction false} DifferenceSum(quotas: seq<real>, counts: seq<int>, diffs: seq<real>)
    requires |counts| == |quotas| == |diffs|
    requires forall i :: 0 <= i < |diffs| ==> diffs[i] == counts[i] as real - quotas[i]
    ensures SumReal(diffs) == SumInt(counts) as real - SumReal(quotas)
  {
    if diffs != [] {
      DifferenceSum(quotas[1..], counts[1..], diffs[1..]);
    }
  }

  /** A slot with no fractional part is never bumped: there are always enough larger fractions. */
  lemma WholeQuotaKept(quotas: seq<real>, n: nat, counts: seq<int>, i: nat)
    requires AreQuotas(quotas, n) && IsLargestRemainder(quotas, n, counts)
    requires i < |quotas| && Fraction(quotas[i]) == 0.0
    ensures counts[i] == quotas[i].Floor
  {
    if Bumped(quotas, counts, i) {
      var diffs := seq(|quotas|, k requires 0 <= k < |quotas| => counts[k] as real - quotas[k]);
      DifferenceSum(quotas, counts, diffs);
      forall k | 0 <= k < |diffs|
        ensures diffs[k] >= 0.0
      {
        assert Bumped(quotas, counts, k) || Fraction(quotas[k]) <= 0.0;
      }
      SumRealAtLeast(diffs, i);
      assert false;
    }
  }

  /** Quota rule: every slot gets the floor or the ceiling of its quota, so a whole quota is met exactly. */
  lemma QuotaRule(quotas: seq<real>, n: nat, counts: seq<int>)
    requires AreQuotas(quotas, n) && IsLargestRemainder(quotas, n, counts)
    ensures forall i :: 0 <= i < |quotas| ==> 0 <= counts[i] && Distance(counts[i], quotas[i]) < 1.0
  {
    forall i | 0 <= i < |quotas|
      ensures 0 <= counts[i] && Distance(counts[i], quotas[i]) < 1.0
    {
      if Fraction(quotas[i]) == 0.0 {
        WholeQuotaKept(quotas, n, counts, i);
      }
    }
  }

  ghost predicate InPrice(q: real, count: int, price: real) {
    || (count == q.Floor && price <= 1.0 - 2.0 * Fraction(q))
    || (count == q.Floor + 1 && 1.0 - 2.0 * Fraction(q) <= price)
  }

  /**
   The price of one unit: where an extra unit went it cost at most `price`, and where none
   went it would have cost at least that much. (An extra unit at fraction f costs 1 - 2f.)
   */
  ghost predicate IsPrice(quotas: seq<real>, counts: seq<int>, price: real) {
    && |counts| == |quotas|
    && -1.0 <= price <= 1.0
    && forall i :: 0 <= i < |quotas| ==> InPrice(quotas[i], counts[i], price)
  }

  lemma PriceExists(quotas: seq<real>, n: nat, counts: seq<int>) returns (price: real)
    requires IsLargestRemainder(quotas, n, counts)
    ensures IsPrice(quotas, counts, price)
  {
    var theta := 1.0;
    for i := 0 to |quotas|
      invariant 0.0 <= theta <= 1.0
      invariant forall k :: 0 <= k < i && Bumped(quotas, counts, k) ==> Fraction(quotas[k]) >= theta
      invariant theta == 1.0 || exists k :: 0 <= k < i && Bumped(quotas, counts, k) && Fraction(quotas[k]) == theta
    {
      if Bumped(quotas, counts, i) && Fraction(quotas[i]) < theta {
        theta := Fraction(quotas[i]);
      }
    }
    price := 1.0 - 2.0 * theta;
    forall i | 0 <= i < |quotas|
      ensures InPrice(quotas[i], counts[i], price)
    {
      assert Bumped(quotas, counts, i) || Fraction(quotas[i]) <= theta;
    }
  }

  /** What `units` extra units cost. */
  function Cost(price: real, units: int): real {
    price * units as real
  }

  lemma CostAdd(price: real, x: int, y: int)
    ensures Cost(price, x + y) == Cost(price, x) + Cost(price, y)
  {
    assert (x + y) as real == x as real + y as real;
  }

  lemma CostMonotone(low: real, high: real, units: int)
    requires low <= high
    ensures units >= 0 ==> Cost(low, units) <= Cost(high, units)
    ensures units <= 0 ==> Cost(high, units) <= Cost(low, units)
  {
    assert (high - low) * units as real == Cost(high, units) - Cost(low, units);
  }

  lemma MoreUnits(unit: real, units: int)
    requires 0.0 <= unit && 1 <= units
    ensures unit <= Cost(unit, units)
  {
    assert unit * (units - 1) as real >= 0.0;
    CostAdd(unit, units - 1, 1);
  }

  /** One slot: moving from the chosen count `a` to any `b` costs at least the price per unit. */
  lemma SlotPrice(q: real, a: int, b: int, price: real)
    requires -1.0 <= price <= 1.0 && InPrice(q, a, price)
    ensures Distance(b, q) - Distance(a, q) >= Cost(price, b - a)
  {
    var f := Fraction(q);
    if b > a {
      if a == q.Floor {
        CostMonotone(price, 1.0 - 2.0 * f, b - a);
        MoreUnits(2.0 * f, b - a);
      } else {
        CostMonotone(price, 1.0, b - a);
      }
    } else if b < a {
      if a == q.Floor {
        CostMonotone(-1.0, price, b - a);
      } else {
        CostMonotone(1.0 - 2.0 * f, price, b - a);
        MoreUnits(2.0 * (1.0 - f), a - b);
      }
    }
  }

  lemma {:induction false} TotalPrice(quotas: seq<real>, a: seq<int>, b: seq<int>, price: real)
    requires |b| == |quotas| && IsPrice(quotas, a, price)
    ensures Deviation(quotas, b) - Deviation(quotas, a) >= Cost(price, SumInt(b) - SumInt(a))
  {
    if quotas != [] {
      SlotPrice(quotas[0], a[0], b[0], price);
      assert IsPrice(quotas[1..], a[1..], price);
      TotalPrice(quotas[1..], a[1..], b[1..], price);
      CostAdd(price, b[0] - a[0], SumInt(b[1..]) - SumInt(a[1..]));
    }
  }

  /**
   Optimality: among all integer allocations of the same total, negative entries included,
   no other is closer to the quotas, however the ties were broken.
   */
  lemma LargestRemainderIsOptimal(quotas: seq<real>, n: nat, counts: seq<int>, other: seq<int>)
    requires IsLargestRemainder(quotas, n, counts)
    requires |other| == |quotas| && SumInt(other) == n
    ensures Deviation(quotas, counts) <= Deviation(quotas, other)
  {
    var price := PriceExists(quotas, n, counts);
    TotalPrice(quotas, counts, other, price);
    assert Cost(price, 0) == 0.0;
  }

  /** For exact quotas the price can be taken strictly between what lies outside floor and ceiling costs. */
  lemma StrictPriceExists(quotas: seq<real>, n: nat, counts: seq<int>) returns (price: real)
    requires AreQuotas(quotas, n) && IsLargestRemainder(quotas, n, counts)
    ensures IsPrice(quotas, counts, price) && -1.0 < price < 1.0
  {
    price := PriceExists(quotas, n, counts);
    if i :| 0 <= i < |quotas| && Bumped(quotas, counts, i) {
      price := StrictPrice(quotas, n, counts, i);
    } else {
      price := 0.0;
      forall i | 0 <= i < |quotas|
        ensures counts[i] == quotas[i].Floor && Fraction(quotas[i]) == 0.0
      {
        assert !Bumped(quotas, counts, i);
        AllFloorsMeansWhole(quotas, n, counts, i);
      }
    }
  }

  lemma {:induction false} BelowQuotas(quotas: seq<real>, counts: seq<int>)
    requires |counts| == |quotas| && forall i :: 0 <= i < |quotas| ==> counts[i] as real <= quotas[i]
    ensures SumInt(counts) as real <= SumReal(quotas)
    ensures (exists i :: 0 <= i < |quotas| && counts[i] as real < quotas[i]) ==>
              SumInt(counts) as real < SumReal(quotas)
  {
    if quotas != [] {
      BelowQuotas(quotas[1..], counts[1..]);
      if i :| 0 < i < |quotas| && counts[i] as real < quotas[i] {
        assert counts[1..][i - 1] as real < quotas[1..][i - 1];
      }
    }
  }

  lemma AllFloorsMeansWhole(quotas: seq<real>, n: nat, counts: seq<int>, i: nat)
    requires AreQuotas(quotas, n) && IsLargestRemainder(quotas, n, counts) && i < |quotas|
    requires forall k :: 0 <= k < |quotas| ==> !Bumped(quotas, counts, k)
    ensures Fraction(quotas[i]) == 0.0
  {
    forall k | 0 <= k < |quotas|
      ensures counts[k] as real <= quotas[k]
    {
      assert !Bumped(quotas, counts, k);
    }
    BelowQuotas(quotas, counts);
    assert !Bumped(quotas, counts, i);
  }

  /** The least fraction that got an extra unit is not zero, so it sets a strict price. */
  lemma StrictPrice(quotas: seq<real>, n: nat, counts: seq<int>, bumped: nat) returns (price: real)
    requires AreQuotas(quotas, n) && IsLargestRemainder(quotas, n, counts)
    requires bumped < |quotas| && Bumped(quotas, counts, bumped)
    ensures IsPrice(quotas, counts, price) && -1.0 < price < 1.0
  {
    var least: nat := bumped;
    for i := 0 to |quotas|
      invariant least < |quotas| && Bumped(quotas, counts, least)
      invariant forall k :: 0 <= k < i && Bumped(quotas, counts, k) ==> Fraction(quotas[k]) >= Fraction(quotas[least])
    {
      if Bumped(quotas, counts, i) && Fraction(quotas[i]) < Fraction(quotas[least]) {
        least := i;
      }
    }
    if Fraction(quotas[least]) == 0.0 {
      WholeQuotaKept(quotas, n, counts, least);
    }
    price := 1.0 - 2.0 * Fraction(quotas[least]);
    forall i | 0 <= i < |quotas|
      ensures InPrice(quotas[i], counts[i], price)
    {
      assert Bumped(quotas, counts, i) || Fraction(quotas[i]) <= Fraction(quotas[least]);
    }
  }

  /** A move that costs no more than its units' price keeps to the price. */
  lemma SlotTight(q: real, a: int, b: int, price: real)
    requires -1.0 < price < 1.0 && InPrice(q, a, price)
    requires Distance(b, q) - Distance(a, q) <= Cost(price, b - a)
    ensures InPrice(q, b, price)
  {
    var low := q.Floor;
    if b > low + 1 {
      SlotPrice(q, a, low + 1, price);
      CostAdd(price, low + 1 - a, b - low - 1);
      CostMonotone(price, 1.0, b - low - 1);
      CheaperAbove(price, b - low - 1);
    } else if b < low {
      SlotPrice(q, a, low, price);
      CostAdd(price, low - a, b - low);
      CheaperBelow(price, low - b);
    } else if b != a {
      assert Cost(price, 1) == price && Cost(price, -1) == -price;
    }
  }

  lemma CheaperAbove(price: real, units: int)
    requires price < 1.0 && units >= 1
    ensures Cost(price, units) < units as real
  {
    MoreUnits(1.0 - price, units);
    assert Cost(1.0 - price, units) == units as real - Cost(price, units);
  }

  lemma CheaperBelow(price: real, units: int)
    requires -1.0 < price && units >= 1
    ensures Cost(price, -units) < units as real
  {
    MoreUnits(1.0 + price, units);
    assert Cost(1.0 + price, units) == units as real + Cost(price, units);
    assert Cost(price, -units) == -Cost(price, units);
  }

  lemma {:induction false} TotalTight(quotas: seq<real>, a: seq<int>, b: seq<int>, price: real)
    requires |b| == |quotas| && IsPrice(quotas, a, price) && -1.0 < price < 1.0
    requires Deviation(quotas, b) - Deviation(quotas, a) <= Cost(price, SumInt(b) - SumInt(a))
    ensures IsPrice(quotas, b, price)
  {
    if quotas != [] {
      assert IsPrice(quotas[1..], a[1..], price);
      SlotPrice(quotas[0], a[0], b[0], price);
      TotalPrice(quotas[1..], a[1..], b[1..], price);
      CostAdd(price, b[0] - a[0], SumInt(b[1..]) - SumInt(a[1..]));
      SlotTight(quotas[0], a[0], b[0], price);
      TotalTight(quotas[1..], a[1..], b[1..], price);
      forall i | 0 < i < |quotas|
        ensures InPrice(quotas[i], b[i], price)
      {
        assert InPrice(quotas[1..][i - 1], b[1..][i - 1], price);
      }
    }
  }

  lemma PriceMeansLargestRemainder(quotas: seq<real>, n: nat, counts: seq<int>, price: real)
    requires IsPrice(quotas, counts, price) && SumInt(counts) == n
    ensures IsLargestRemainder(quotas, n, counts)
  {
    forall i, j | 0 <= i < |counts| && 0 <= j < |counts| && Bumped(quotas, counts, i) && !Bumped(quotas, counts, j)
      ensures Fraction(quotas[i]) >= Fraction(quotas[j])
    {
      assert InPrice(quotas[i], counts[i], price) && InPrice(quotas[j], counts[j], price);
    }
    forall i | 0 <= i < |counts|
      ensures counts[i] == quotas[i].Floor || counts[i] == quotas[i].Floor + 1
    {
      assert InPrice(quotas[i], counts[i], price);
    }
  }

  /**
   And the other way round: of all integer allocations of the units, those as close to the
   quotas as a largest-remainder split are exactly the largest-remainder splits.
   */
  lemma OnlyLargestRemainderIsOptimal(quotas: seq<real>, n: nat, counts: seq<int>, other: seq<int>)
    requires AreQuotas(quotas, n) && IsLargestRemainder(quotas, n, counts)
    requires |other| == |quotas| && SumInt(other) == n
    ensures Deviation(quotas, other) == Deviation(quotas, counts) <==> IsLargestRemainder(quotas, n, other)
  {
    LargestRemainderIsOptimal(quotas, n, counts, other);
    if IsLargestRemainder(quotas, n, other) {
      LargestRemainderIsOptimal(quotas, n, other, counts);
    }
    if Deviation(quotas, other) == Deviation(quotas, counts) {
      var price := StrictPriceExists(quotas, n, counts);
      assert Cost(price, 0) == 0.0;
      TotalTight(quotas, counts, other, price);
      PriceMeansLargestRemainder(quotas, n, other, price);
    }
  }
}
