/** Products, quotients and remainders by a divisor that is not a constant, and powers of two. */
module Arithmetic {

  lemma MulMonotone(x: nat, y: nat, m: nat)
    ensures x <= y ==> x * m <= y * m
  {
  }

  /** Quotient and remainder are determined by their defining equation. */
  lemma DivModUnique(k: nat, m: nat, q: nat, r: nat)
    requires r < m && k == q * m + r
    ensures k / m == q && k % m == r
  {
    assert k == (k / m) * m + k % m;
    MulMonotone(q + 1, k / m, m);
    MulMonotone(k / m + 1, q, m);
  }

  lemma DivModDefinition(k: nat, m: nat)
    requires m > 0
    ensures k == (k / m) * m + k % m && k % m < m
  {
  }

  lemma MulAssociative(x: nat, y: nat, z: nat)
    ensures (x * y) * z == x * (y * z)
  {
  }

  lemma MulDistributes(x: nat, y: nat, m: nat)
    ensures (x + y) * m == x * m + y * m && m * (x + y) == m * x + m * y
  {
  }

  lemma ModSmall(x: nat, m: nat)
    requires x < m
    ensures x / m == 0 && x % m == x
  {
    DivModUnique(x, m, 0, x);
  }

  lemma ModStep(x: nat, m: nat)
    requires m > 0
    ensures (x + m) % m == x % m && (x + m) / m == x / m + 1
  {
    assert x + m == (x / m + 1) * m + x % m;
    DivModUnique(x + m, m, x / m + 1, x % m);
  }

  lemma ModOnce(a: nat, n: nat)
    requires 0 < n <= a < 2 * n
    ensures a % n == a - n
  {
    DivModUnique(a, n, 1, a - n);
  }

  /** Two numbers with the same remainder are at least one divisor apart. */
  lemma Spacing(i: nat, j: nat, m: nat)
    requires m > 0 && i < j && i % m == j % m
    ensures j >= i + m
  {
    assert i == i / m * m + i % m && j == j / m * m + j % m;
    MulMonotone(j / m, i / m, m);
    MulMonotone(i / m + 1, j / m, m);
  }

  // ---- powers of two -------------------------------------------------------------------------

  function Power2(p: nat): nat {
    if p == 0 then 1 else 2 * Power2(p - 1)
  }

  lemma {:induction false} PowerPositive(p: nat)
    ensures Power2(p) > 0
  {
    if p > 0 {
      PowerPositive(p - 1);
    }
  }

  lemma {:induction false} PowerGrows(i: nat, j: nat)
    requires i <= j
    ensures Power2(i) <= Power2(j)
    decreases j
  {
    if i < j {
      PowerGrows(i, j - 1);
    }
  }
}
