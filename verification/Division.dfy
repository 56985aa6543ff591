/** Quotients and remainders of natural numbers. */
module Division {
  lemma AtLeast(k: int, d: nat)
    requires k >= 1
    ensures k * d >= d && -k * d == -(k * d)
  {
    assert k * d == (k - 1) * d + d;
  }

  lemma Divided(n: nat, d: nat, q: nat, r: nat)
    requires r < d && n == q * d + r
    ensures n / d == q && n % d == r
  {
    var k: int := q - n / d;
    assert n == n / d * d + n % d;
    assert k * d == q * d - n / d * d;
    if k >= 1 { AtLeast(k, d); }
    if k <= -1 { AtLeast(-k, d); }
  }

  /** Adding less than the divisor wraps at most once. */
  lemma AddWraps(n: nat, s: nat, d: nat)
    requires s < d
    ensures (n + s) % d == if n % d + s < d then n % d + s else n % d + s - d
    ensures (n + s) / d == if n % d + s < d then n / d else n / d + 1
  {
    var q, r := n / d, n % d;
    assert n == q * d + r;
    if r + s < d {
      Divided(n + s, d, q, r + s);
    } else {
      assert (q + 1) * d == q * d + d;
      Divided(n + s, d, q + 1, r + s - d);
    }
  }
}
