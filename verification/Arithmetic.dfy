/** Products and quotients of variables. */
module Arithmetic {
  lemma {:induction false} MulStep(x: nat, y: nat, j: nat)
    requires x < y
    ensures x * j + j <= y * j
  {
    if x + 1 < y { MulStep(x, y - 1, j); }
    assert y * j == (y - 1) * j + j;
  }

  lemma SameQuotient(n: nat, p: nat, m: nat, q: nat, r: nat)
    requires m < n && r < n && p * n + m == q * n + r
    ensures p == q && m == r
  {
    if p < q { MulStep(p, q, n); }
    if q < p { MulStep(q, p, n); }
  }

  lemma DivMod(x: nat, n: nat, q: nat, r: nat)
    requires r < n && x == q * n + r
    ensures x / n == q && x % n == r
  {
    SameQuotient(n, x / n, x % n, q, r);
  }
}
