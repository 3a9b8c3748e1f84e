/**
 Division with remainder is unique.
 */
module Quotients {
  lemma Quotient(n: nat, d: nat, q: int, r: nat)
    requires d > 0 && r < d && n == d * q + r
    ensures n / d == q && n % d == r
  {
    var e := n / d - q;
    assert n == d * (n / d) + n % d;
    assert d * e == d * (n / d) - d * q;
    assert e > 0 ==> d * e >= d;
    assert e < 0 ==> d * e + d <= 0;
  }
}
