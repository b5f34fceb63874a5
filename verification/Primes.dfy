/** Prime numbers. */
module Primes {
  import opened Numbers

  ghost predicate Prime(p: nat) {
    p >= 2 && forall k :: 1 < k < p ==> p % k != 0
  }

  /** A number without divisors up to its square root is prime. */
  lemma SmallDivisors(p: nat, k: nat)
    requires p >= 2 && (forall d :: 2 <= d <= k ==> p % d != 0) && p < (k + 1) * (k + 1)
    ensures Prime(p)
  {
    forall d | 1 < d < p
      ensures p % d != 0
    {
      if d > k {
        var q := p / d;
        assert p == q * d + p % d;
        if p % d == 0 {
          Cofactor(p, d, q, k);
          MulSwap(q, d);
          DivMod(p, q, d, 0);
        }
      }
    }
  }

  lemma MulSwap(a: int, b: int)
    ensures a * b == b * a
  {}

  lemma Cofactor(p: nat, d: nat, q: nat, k: nat)
    requires p == q * d && k < d < p && p < (k + 1) * (k + 1)
    ensures 1 < q <= k
  {
    if q >= k + 1 {
      MulMono(k + 1, q, d);
      MulMono(k + 1, d, k + 1);
      MulSwap(k + 1, d);
    }
    if q <= 1 { MulMono(q, 1, d); }
  }

  /** A prime divides no product of two smaller numbers. */
  lemma {:induction false} NoProduct(p: nat, d: nat, k: nat)
    requires Prime(p) && 0 < k < p && 0 < d < p
    ensures (k * d) % p != 0
    decreases k
  {
    if (k * d) % p == 0 {
      var q, r := p / k, p % k;
      Remainder(p, k, d);
      if r == 0 {
        DivMod(d, p, 0, d);
      } else {
        NoProduct(p, d, r);
      }
    }
  }

  /** If `p` divides `k * d`, it divides `(p % k) * d`. */
  lemma Remainder(p: nat, k: nat, d: nat)
    requires 0 < k < p && (k * d) % p == 0
    ensures (p % k * d) % p == 0
  {
    var q, r, m := p / k, p % k, k * d / p;
    assert k * d == m * p;
    assert p == q * k + r;
    assert r * d == (d - q * m) * p by {
      Distribute(q * k, r, d);
      assert p * d == q * k * d + r * d;
      MulAssoc(q, k, d);
      MulAssoc(q, m, p);
      Distribute(d - q * m, q * m, p);
      MulSwap(p, d);
    }
    DivMod(r * d, p, d - q * m, 0);
  }
}
