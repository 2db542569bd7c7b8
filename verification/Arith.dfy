/** Division facts with a variable divisor. */
module Arith {
  lemma MulStep(p: nat, q: nat, d: nat)
    ensures p < q ==> p * d + d <= q * d
  {
    if p < q {
      assert (p + 1) * d <= q * d;
    }
  }

  lemma DivModUnique(x: nat, d: nat, q: nat, r: nat)
    requires d > 0 && r < d && x == q * d + r
    ensures x / d == q && x % d == r
  {
    MulStep(x / d, q, d);
    MulStep(q, x / d, d);
  }

  lemma DivZero(x: nat, d: nat)
    requires d > 0
    ensures x / d == 0 <==> x < d
  {
    if x < d {
      DivModUnique(x, d, 0, x);
    }
  }

  /** A quotient taken back times the divisor does not exceed the number. */
  lemma CapTimes(c: nat, x: nat, d: nat)
    requires d > 0 && c <= x / d
    ensures c * d <= x
  {
    MulStep(c, x / d, d);
  }

  /** Products of three and four factors, regrouped. */
  lemma Regroup(a: nat, b: nat, c: nat)
    ensures a * b * c * 8 == 8 * (b * (a * c))
  {
    assert a * b * c == b * (a * c);
  }

  /** Counting up by one crosses a multiple of d exactly when it lands on it. */
  lemma DivSucc(x: nat, d: nat)
    requires d > 0
    ensures (x + 1) / d == x / d + (if (x + 1) % d == 0 then 1 else 0)
    ensures (x + 1) % d == if x % d == d - 1 then 0 else x % d + 1
  {
    var q, r := x / d, x % d;
    if r == d - 1 {
      assert (q + 1) * d == q * d + d;
      DivModUnique(x + 1, d, q + 1, 0);
    } else {
      DivModUnique(x + 1, d, q, r + 1);
    }
  }
}
