/** Quotients and remainders. */
module Division {
  lemma DivisionIs(n: nat, d: nat, q: nat, r: nat)
    requires d > 0 && n == d * q + r && r < d
    ensures n / d == q && n % d == r
  {
    var k := n / d - q;
    assert d * (n / d) + n % d == n;
    assert d * k == d * (n / d) - d * q;
    MultipleApart(d, k);
  }

  /** The only multiple of `d` nearer to zero than `d` is zero. */
  lemma MultipleApart(d: nat, k: int)
    ensures k >= 1 ==> d * k >= d
    ensures k <= -1 ==> d * k <= -(d as int)
  {
    assert k >= 1 ==> d * (k - 1) >= 0;
    assert k <= -1 ==> d * (-k - 1) >= 0;
  }
}
