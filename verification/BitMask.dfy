/** Bitwise AND on naturals: the power-of-two test and the index mask. */
module BitMask {
  import opened Arithmetic

  function And(a: nat, b: nat): nat {
    if a == 0 || b == 0 then 0
    else 2 * And(a / 2, b / 2) + if a % 2 == 1 && b % 2 == 1 then 1 else 0
  }

  lemma {:induction false} AndBound(a: nat, b: nat)
    ensures And(a, b) <= b
    decreases a
  {
    if a != 0 && b != 0 {
      AndBound(a / 2, b / 2);
    }
  }

  lemma HalfMod(p: nat, m: nat)
    requires m > 0
    ensures p % (2 * m) == 2 * (p / 2 % m) + p % 2
  {
    var q, r := p / 2 / m, p / 2 % m;
    assert p / 2 == q * m + r;
    assert q * (2 * m) == 2 * (q * m);
    DivModUnique(p, 2 * m, q, 2 * r + p % 2);
  }

  /** Masking a position with size - 1 wraps it round a ring of a power-of-two size. */
  lemma {:induction false} AndMask(p: nat, k: nat)
    ensures Power2(k) > 0 && And(p, Power2(k) - 1) == p % Power2(k)
    decreases k
  {
    if k > 0 {
      AndMask(p / 2, k - 1);
      HalfMod(p, Power2(k - 1));
      AndOddMask(p, Power2(k - 1));
    }
  }

  lemma AndOddMask(p: nat, m: nat)
    requires m > 0
    ensures And(p, 2 * m - 1) == 2 * And(p / 2, m - 1) + p % 2
  {
    assert (2 * m - 1) / 2 == m - 1;
  }

  /** n & (n - 1) is zero for powers of two and for no other positive number. */
  lemma {:induction false} PowerOfTwoTest(n: nat)
    requires n > 0
    ensures And(n, n - 1) == 0 <==> exists k: nat :: n == Power2(k)
    decreases n
  {
    if n == 1 {
      assert n == Power2(0);
    } else {
      PowerOfTwoTest(n / 2);
      if n % 2 == 0 {
        assert (n - 1) / 2 == n / 2 - 1;
        if k: nat :| n / 2 == Power2(k) {
          assert n == Power2(k + 1);
        }
        if k: nat :| n == Power2(k) {
          assert n / 2 == Power2(k - 1);
        }
      } else {
        assert (n - 1) / 2 == n / 2;
        AndSelf(n / 2);
        forall k: nat ensures n != Power2(k) {
        }
      }
    }
  }

  lemma {:induction false} AndSelf(n: nat)
    ensures And(n, n) == n
  {
    if n > 0 {
      AndSelf(n / 2);
    }
  }

  /** So a size that passes the test makes size - 1 a mask for wrapping. */
  lemma MaskIsModulo(n: nat, p: nat)
    requires n > 0 && And(n, n - 1) == 0
    ensures And(p, n - 1) == p % n
  {
    PowerOfTwoTest(n);
    var k: nat :| n == Power2(k);
    AndMask(p, k);
  }
}
