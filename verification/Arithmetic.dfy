/** Powers of two; uniqueness of quotient and remainder. */
module Arithmetic {

  function Power2(n: nat): nat {
    if n == 0 then 1 else 2 * Power2(n - 1)
  }

  lemma MulGap(p: int, q: int, d: int)
    requires p > q && d > 0
    ensures p * d >= q * d + d
  {
    assert (p - q - 1) * d >= 0;
    assert (p - q - 1) * d == p * d - q * d - d;
  }

  lemma DivModUnique(a: int, d: int, q: int, r: int)
    requires d > 0 && a == q * d + r && 0 <= r < d
    ensures a / d == q && a % d == r
  {
    var p, s := a / d, a % d;
    assert p * d + s == a && 0 <= s < d;
    if p > q {
      MulGap(p, q, d);
    } else if p < q {
      MulGap(q, p, d);
    }
  }

  lemma DivTwice(n: nat, m: nat)
    requires m > 0
    ensures n / 2 / m == n / (2 * m)
  {
    var q, r := n / 2 / m, n / 2 % m;
    assert q * (2 * m) == 2 * (q * m);
    DivModUnique(n, 2 * m, q, 2 * r + n % 2);
  }
}
