/** Division facts shared by the byte-level and rational models. */
module Arithmetic {
  lemma AtLeastOne(d: int, m: int)
    requires d != 0 && m > 0
    ensures d * m >= m || d * m <= -m
  {
  }

  /** Quotient and remainder are determined by their defining equation. */
  lemma DivModIs(n: int, m: int, q: int, r: int)
    requires 0 <= r < m && n == q * m + r
    ensures n / m == q && n % m == r
  {
    var d := n / m - q;
    assert d * m == n / m * m - q * m;
    if d != 0 {
      AtLeastOne(d, m);
    }
  }

  lemma MultipleMod(k: int, m: int)
    requires m > 0
    ensures (k * m) % m == 0 && (k * m) / m == k
  {
    DivModIs(k * m, m, k, 0);
  }

  lemma ExactQuotient(n: int, m: int)
    requires m > 0 && n % m == 0
    ensures n == n / m * m
  {
  }
}
