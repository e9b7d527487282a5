/**
  Facts about products and quotients that proofs call by name.
 */
module Arithmetic {

  lemma MultiplyMonotone(a: int, b: int, c: nat)
    requires a <= b
    ensures a * c <= b * c
  {
    assert (b - a) * c >= 0;
  }

  lemma QuotientAtMost(x: nat, d: nat)
    requires d > 0
    ensures 0 <= x / d <= x
  {
    MultiplyMonotone(1, d, x / d);
    assert d * (x / d) <= x;
  }

  lemma QuotientUnique(x: nat, b: nat, q: nat, r: nat)
    requires b > 0 && x == q * b + r && r < b
    ensures x / b == q && x % b == r
  {
    var d := x / b - q;
    assert x == (x / b) * b + x % b;
    assert d * b == r - x % b;
    if d > 0 {
      MultiplyMonotone(1, d, b);
    } else if d < 0 {
      MultiplyMonotone(d, -1, b);
    }
  }

  /** Dividing twice is dividing by the product. */
  lemma DividedTwice(n: nat, a: nat, p: nat)
    requires a > 0 && p > 0
    ensures a * p > 0 && n / (a * p) == n / a / p
  {
    var x, r := n / a, n % a;
    QuotientAtMost(n, a);
    QuotientAtMost(x, p);
    var y, s := x / p, x % p;
    MultiplyMonotone(1, a, p);
    MultiplyMonotone(s, p - 1, a);
    Regroup(n, a, x, r, p, y, s);
    QuotientUnique(n, a * p, y, s * a + r);
  }

  lemma Regroup(n: nat, a: nat, x: nat, r: nat, p: nat, y: nat, s: nat)
    requires n == x * a + r && x == y * p + s
    ensures n == y * (a * p) + (s * a + r)
  {
    assert x * a == y * p * a + s * a;
    assert y * p * a == y * (a * p);
  }
}
