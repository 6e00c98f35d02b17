/** Small functions on integers, and division facts that the solver does not find on its own. */
module Arith {

  function Min(a: int, b: int): int { if a < b then a else b }

  function Max(a: int, b: int): int { if a < b then b else a }

  function Pow2(n: nat): nat { if n == 0 then 1 else 2 * Pow2(n - 1) }

  lemma MulAtLeast(a: int, m: int)
    requires a >= 1 && m > 0
    ensures a * m >= m
  {
  }

  lemma MulDiff(a: int, b: int, m: int)
    ensures a * m - b * m == (a - b) * m
  {
  }

  /** Quotient and remainder are unique. */
  lemma DivUnique(x: int, m: int, q: int, r: int)
    requires 0 <= r < m && x == q * m + r
    ensures x / m == q && x % m == r
  {
    var q', r' := x / m, x % m;
    MulDiff(q, q', m);
    if q > q' { MulAtLeast(q - q', m); }
    if q < q' { MulAtLeast(q' - q, m); MulDiff(q', q, m); }
  }

  lemma DivStep(e: nat, m: nat)
    requires m > 0
    ensures e % m == m - 1 ==> (e + 1) / m == e / m + 1 && (e + 1) % m == 0
    ensures e % m != m - 1 ==> (e + 1) / m == e / m && (e + 1) % m == e % m + 1
  {
    var q, r := e / m, e % m;
    if r == m - 1 {
      MulDiff(q + 1, q, m);
      DivUnique(e + 1, m, q + 1, 0);
    } else {
      DivUnique(e + 1, m, q, r + 1);
    }
  }
}
