/** Finite sums over sequences, and the few facts about them that apportionment needs. */
module Sums {

  function SumInt(s: seq<int>): int {
    if s == [] then 0 else s[0] + SumInt(s[1..])
  }

  function SumReal(s: seq<real>): real {
    if s == [] then 0.0 else s[0] + SumReal(s[1..])
  }

  lemma {:induction false} SumIntUpdate(s: seq<int>, i: nat, v: int)
    requires i < |s|
    ensures SumInt(s[i := v]) == SumInt(s) - s[i] + v
  {
    if i == 0 {
      assert s[0 := v][1..] == s[1..];
    } else {
      assert s[i := v][1..] == s[1..][i - 1 := v];
      SumIntUpdate(s[1..], i - 1, v);
    }
  }

  lemma {:induction false} SumIntConcat(a: seq<int>, b: seq<int>)
    ensures SumInt(a + b) == SumInt(a) + SumInt(b)
  {
    if a == [] {
      assert a + b == b;
    } else {
      assert (a + b)[1..] == a[1..] + b;
      SumIntConcat(a[1..], b);
    }
  }

  lemma {:induction false} SumIntNonNegative(s: seq<int>)
    requires forall i :: 0 <= i < |s| ==> s[i] >= 0
    ensures SumInt(s) >= 0
  {
    if s != [] {
      SumIntNonNegative(s[1..]);
    }
  }

  /** A sum of non-negative terms is at least any single term. */
  lemma {:induction false} SumRealAtLeast(s: seq<real>, i: nat)
    requires i < |s|
    requires forall k :: 0 <= k < |s| ==> s[k] >= 0.0
    ensures SumReal(s) >= s[i]
  {
    if |s| > 1 {
      SumRealAtLeast(s[1..], if i == 0 then 0 else i - 1);
    }
  }

  /** Scaling every term scales the sum. */
  lemma {:induction false} SumRealScale(s: seq<real>, k: real, t: seq<real>)
    requires |t| == |s|
    requires forall i :: 0 <= i < |s| ==> t[i] == s[i] * k
    ensures SumReal(t) == SumReal(s) * k
  {
    if s != [] {
      SumRealScale(s[1..], k, t[1..]);
    }
  }
}
