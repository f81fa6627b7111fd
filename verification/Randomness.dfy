/** Random draws: arbitrary values in their ranges. */
module Randomness {
  import opened Sums

  /** Proportions: non-negative and summing to one. */
  predicate AreShares(shares: seq<real>, n: nat) {
    && |shares| == n
    && (forall i :: 0 <= i < n ==> shares[i] >= 0.0)
    && SumReal(shares) == 1.0
  }

  /** A directory under construction, by the child indices that lead to it from the root. */
  type Address = seq<nat>

  /**
   What is drawn for each directory: the rounded sample of files kept there, the branching
   factor, the proportions for a given number of children, and a word for each child's name.
   */
  datatype Draws = Draws(
    sample: Address -> int,
    branching: Address -> int,
    shares: (Address, nat) -> seq<real>,
    word: (Address, nat) -> string)

  /** A geometric draw is at least one, and Dirichlet proportions sum to one. */
  ghost predicate InRange(draws: Draws) {
    && (forall at :: draws.branching(at) >= 1)
    && (forall at, n: nat :: n > 0 ==> AreShares(draws.shares(at, n), n))
  }
}
