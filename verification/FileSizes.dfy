/** Sampled file sizes: no size below one, and just enough of them to reach a target. */
module FileSizes {
  import opened Sums

  const ATTEMPTS := 100
  const BATCH := 1024

  predicate AllPositive(s: seq<int>) {
    forall i :: 0 <= i < |s| ==> s[i] >= 1
  }

  /** The sizes drawn again for the non-positive ones, by attempt and position. */
  type Redraws = (nat, nat) -> int

  /** The `i`-th size after some attempts: drawn again as long as it is not positive. */
  function Redrawn(raw: int, i: nat, redraws: Redraws, attempts: nat): int {
    if attempts == 0 then raw
    else
      var x := Redrawn(raw, i, redraws, attempts - 1);
      if x <= 0 then redraws(attempts - 1, i) else x
  }

  /** All attempts made, what is still not positive becomes one. */
  function Settled(raw: int, i: nat, redraws: Redraws): int {
    var x := Redrawn(raw, i, redraws, ATTEMPTS);
    if x <= 0 then 1 else x
  }

  lemma {:induction false} RedrawnWhileBad(raw: int, i: nat, redraws: Redraws, attempts: nat)
    requires raw <= 0 && forall k: nat :: k + 1 < attempts ==> redraws(k, i) <= 0
    ensures Redrawn(raw, i, redraws, attempts) == if attempts == 0 then raw else redraws(attempts - 1, i)
    decreases attempts
  {
    if attempts > 0 {
      RedrawnWhileBad(raw, i, redraws, attempts - 1);
    }
  }

  /** A size is the first positive of what was drawn for it and then drawn again, up to a hundred times; else one. */
  lemma SettledIsFirstPositive(raw: int, i: nat, redraws: Redraws)
    ensures raw >= 1 ==> Settled(raw, i, redraws) == raw
    ensures forall k: nat ::
              raw <= 0 && k < 100 && redraws(k, i) >= 1 && (forall j: nat :: j < k ==> redraws(j, i) <= 0) ==>
                Settled(raw, i, redraws) == redraws(k, i)
    ensures raw <= 0 && (forall k: nat :: k < 100 ==> redraws(k, i) <= 0) ==> Settled(raw, i, redraws) == 1
  {
    if raw >= 1 {
      PositiveStays(raw, i, redraws, 0, ATTEMPTS);
    } else {
      forall k: nat | k < 100 && redraws(k, i) >= 1 && forall j: nat :: j < k ==> redraws(j, i) <= 0
        ensures Settled(raw, i, redraws) == redraws(k, i)
      {
        RedrawnWhileBad(raw, i, redraws, k + 1);
        PositiveStays(raw, i, redraws, k + 1, ATTEMPTS);
      }
      if forall k: nat :: k < 100 ==> redraws(k, i) <= 0 {
        RedrawnWhileBad(raw, i, redraws, ATTEMPTS);
      }
    }
  }

  function Clamped(raws: seq<int>, redraws: Redraws): (r: seq<int>)
    ensures |r| == |raws|
  {
    seq(|raws|, i requires 0 <= i < |raws| => Settled(raws[i], i, redraws))
  }

  /** A positive size stays as it is for good. */
  lemma {:induction false} PositiveStays(raw: int, i: nat, redraws: Redraws, attempts: nat, more: nat)
    requires attempts <= more && Redrawn(raw, i, redraws, attempts) >= 1
    ensures Redrawn(raw, i, redraws, more) == Redrawn(raw, i, redraws, attempts)
    decreases more
  {
    if attempts < more {
      PositiveStays(raw, i, redraws, attempts, more - 1);
    }
  }

  /** Clamping leaves only positive sizes, and those that were stay as they were. */
  lemma ClampedPositive(raws: seq<int>, redraws: Redraws)
    ensures AllPositive(Clamped(raws, redraws))
    ensures forall i :: 0 <= i < |raws| && raws[i] >= 1 ==> Clamped(raws, redraws)[i] == raws[i]
  {
    forall i | 0 <= i < |raws| && raws[i] >= 1
      ensures Clamped(raws, redraws)[i] == raws[i]
    {
      PositiveStays(raws[i], i, redraws, 0, ATTEMPTS);
    }
  }

  /** Draws the non-positive sizes again in place, up to a hundred times, and then sets what is left of them to one. */
  method ClampPositive(sizes: array<int>, redraws: Redraws)
    modifies sizes
    ensures sizes[..] == Clamped(old(sizes[..]), redraws)
  {
    ghost var raws := sizes[..];
    var attempt := 0;
    while attempt < ATTEMPTS && !AllPositive(sizes[..])
      invariant attempt <= ATTEMPTS
      invariant forall k :: 0 <= k < sizes.Length ==> sizes[k] == Redrawn(raws[k], k, redraws, attempt)
      decreases ATTEMPTS - attempt
    {
      for i := 0 to sizes.Length
        invariant forall k :: 0 <= k < i ==> sizes[k] == Redrawn(raws[k], k, redraws, attempt + 1)
        invariant forall k :: i <= k < sizes.Length ==> sizes[k] == Redrawn(raws[k], k, redraws, attempt)
      {
        if sizes[i] <= 0 {
          sizes[i] := redraws(attempt, i);
        }
      }
      attempt := attempt + 1;
    }
    forall k | 0 <= k < sizes.Length
      ensures Settled(raws[k], k, redraws) == if sizes[k] <= 0 then 1 else sizes[k]
    {
      if attempt < ATTEMPTS {
        assert sizes[k] == sizes[..][k] >= 1;
        PositiveStays(raws[k], k, redraws, attempt, ATTEMPTS);
      }
    }
    if attempt == ATTEMPTS {
      for i := 0 to sizes.Length
        invariant forall k :: 0 <= k < i ==> sizes[k] == Settled(raws[k], k, redraws)
        invariant forall k :: i <= k < sizes.Length ==>
                    Settled(raws[k], k, redraws) == if sizes[k] <= 0 then 1 else sizes[k]
      {
        if sizes[i] <= 0 {
          sizes[i] := 1;
        }
      }
    }
  }

  /** What is drawn, batch by batch: the rounded sizes, and those drawn again. */
  datatype Draws = Draws(batch: nat -> seq<int>, redraws: nat -> Redraws)

  ghost predicate FullBatches(draws: Draws) {
    forall b :: |draws.batch(b)| == 1024
  }

  /** The clamped sizes of the first `n` batches. */
  function Stream(draws: Draws, n: nat): seq<int> {
    if n == 0 then [] else Stream(draws, n - 1) + Clamped(draws.batch(n - 1), draws.redraws(n - 1))
  }

  /** The sizes come batch by batch, in the order drawn, each settled with the redraws of its own batch and place. */
  lemma {:induction false} StreamAt(draws: Draws, n: nat, b: nat, i: nat)
    requires FullBatches(draws) && b < n && i < 1024
    ensures |Stream(draws, n)| == 1024 * n
    ensures Stream(draws, n)[1024 * b + i] == Settled(draws.batch(b)[i], i, draws.redraws(b))
  {
    if n > 1 {
      StreamAt(draws, n - 1, if b < n - 1 then b else 0, i);
    }
  }

  /** No shorter prefix sums to `total`. */
  ghost predicate ReachesLate(collected: seq<int>, total: int) {
    forall k :: 0 <= k < |collected| ==> SumInt(collected[..k]) < total
  }

  /** The shortest prefix of `stream` that sums to at least `total`. */
  ghost predicate IsShortestReaching(collected: seq<int>, stream: seq<int>, total: int) {
    collected <= stream && SumInt(collected) >= total && ReachesLate(collected, total)
  }

  /** However many batches are looked at, the same sizes are the shortest prefix. */
  lemma {:induction false} ShortestIsUnique(draws: Draws, m: nat, n: nat, a: seq<int>, b: seq<int>, total: int)
    requires m <= n
    requires IsShortestReaching(a, Stream(draws, m), total) && IsShortestReaching(b, Stream(draws, n), total)
    ensures a == b
  {
    StreamGrows(draws, m, n);
    PrefixesAgree(a, b, Stream(draws, n));
    if |a| == |b| {
      assert b[..|a|] == b;
    }
  }

  lemma PrefixesAgree(a: seq<int>, b: seq<int>, s: seq<int>)
    requires a <= s && b <= s
    ensures if |a| <= |b| then b[..|a|] == a else a[..|b|] == b
  {
  }

  lemma {:induction false} StreamGrows(draws: Draws, m: nat, n: nat)
    requires m <= n
    ensures Stream(draws, m) <= Stream(draws, n)
    decreases n
  {
    if m < n {
      StreamGrows(draws, m, n - 1);
    }
  }

  /**
   Samples in batches until the sizes reach `total`: the result is the shortest prefix of
   the clamped sizes that does. It ends because no clamped size is below one.
   */
  method SampleUntil(total: int, draws: Draws) returns (collected: seq<int>, ghost batches: nat)
    requires FullBatches(draws)
    ensures IsShortestReaching(collected, Stream(draws, batches), if total > 0 then total else 0)
    ensures AllPositive(collected)
  {
    collected, batches := [], 0;
    var n := 0;
    var remaining := total;
    while remaining > 0
      invariant batches == n && collected <= Stream(draws, n) && AllPositive(collected)
      invariant remaining == total - SumInt(collected)
      invariant remaining > 0 ==> collected == Stream(draws, n)
      invariant ReachesLate(collected, total)
      invariant total <= 0 ==> collected == []
      decreases remaining
    {
      var raws := draws.batch(n);
      var batch := new int[BATCH](i requires 0 <= i < BATCH => raws[i]);
      assert batch[..] == raws;
      ClampPositive(batch, draws.redraws(n));
      var clamped := batch[..];
      ClampedPositive(raws, draws.redraws(n));
      collected, remaining := TakeFrom(collected, clamped, remaining, total);
      n := n + 1;
      batches := n;
    }
  }

  /** Goes on with the sizes of one batch, as long as the target is not reached. */
  method TakeFrom(before: seq<int>, clamped: seq<int>, missing: int, total: int)
    returns (collected: seq<int>, remaining: int)
    requires missing == total - SumInt(before) > 0 && clamped != [] && AllPositive(before) && AllPositive(clamped)
    requires ReachesLate(before, total)
    ensures before <= collected <= before + clamped && AllPositive(collected)
    ensures remaining == total - SumInt(collected) < missing
    ensures remaining > 0 ==> collected == before + clamped
    ensures ReachesLate(collected, total)
  {
    collected, remaining := before, missing;
    var i := 0;
    while i < |clamped| && remaining > 0
      invariant 0 <= i <= |clamped| && collected == before + clamped[..i]
      invariant remaining == total - SumInt(collected)
      invariant i > 0 ==> remaining < missing
      invariant ReachesLate(collected, total)
    {
      Collect(collected, clamped[i], total);
      assert clamped[..i + 1] == clamped[..i] + [clamped[i]];
      collected := collected + [clamped[i]];
      remaining := remaining - clamped[i];
      i := i + 1;
    }
    assert clamped == clamped[..i] + clamped[i..];
    assert before + clamped == collected + clamped[i..];
  }

  lemma Collect(collected: seq<int>, size: int, total: int)
    requires ReachesLate(collected, total) && SumInt(collected) < total
    ensures SumInt(collected + [size]) == SumInt(collected) + size
    ensures ReachesLate(collected + [size], total)
  {
    SumIntConcat(collected, [size]);
    assert [size][1..] == [];
    forall k | 0 <= k <= |collected|
      ensures SumInt((collected + [size])[..k]) < total
    {
      assert (collected + [size])[..k] == collected[..k];
      assert collected[..|collected|] == collected;
    }
  }
}
