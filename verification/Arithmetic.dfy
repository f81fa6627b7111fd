/** Facts about products and quotients that several modules need. */
module Arithmetic {

  lemma Division(n: nat, d: nat)
    requires d > 0
    ensures n / d >= 0 && 0 <= n % d < d && n == d * (n / d) + n % d
    ensures n / d * d <= n < n / d * d + d
  {
  }

  lemma Multiples(a: nat, b: nat, size: nat)
    requires a <= b
    ensures a * size <= b * size
    ensures (a + 1) * size == a * size + size
  {
  }
}
