/** Facts about products, quotients and remainders. */
module Arithmetic {

  lemma {:induction false} MulMonotone(t: nat, x: int, y: int)
    requires x <= y
    ensures t * x <= t * y
  {
    if t == 0 {
    } else {
      MulMonotone(t - 1, x, y);
      assert t * x == (t - 1) * x + x && t * y == (t - 1) * y + y;
    }
  }

  /** Quotient and remainder are the only ones. */
  lemma QuotientRemainder(t: nat, q: nat, d: nat)
    requires d < t
    ensures (t * q + d) % t == d && (t * q + d) / t == q
  {
    var n := t * q + d;
    var q' := n / t;
    assert n == t * q' + n % t;
    assert t * (q + 1) == t * q + t && t * (q' + 1) == t * q' + t;
    if q < q' {
      MulMonotone(t, q + 1, q');
    }
    if q' < q {
      MulMonotone(t, q' + 1, q);
    }
  }

  lemma SmallRemainder(k: nat, m: nat)
    requires k < m
    ensures k % m == k
  {
    QuotientRemainder(m, 0, k);
  }

  /** Taking the modulus off once leaves the remainder. */
  lemma ModStep(k: nat, m: nat)
    requires 0 < m <= k
    ensures k % m == (k - m) % m
  {
    var q, r := (k - m) / m, (k - m) % m;
    assert k == m * (q + 1) + r;
    QuotientRemainder(m, q + 1, r);
  }
}
