/** Small facts about products and quotients of real numbers. */
module Reals {
  lemma Distribute(a: real, b: real, c: real)
    ensures (a + b) * c == a * c + b * c
  {
  }

  lemma NonNegative(a: real, b: real)
    requires a >= 0.0 && b >= 0.0
    ensures a * b >= 0.0
  {
  }

  lemma TimesGrows(a: real, b: real, c: real)
    requires a <= b && c >= 0.0
    ensures a * c <= b * c
  {
    NonNegative(b - a, c);
    Distribute(b - a, a, c);
  }

  lemma Unscale(x: real, d: real)
    requires d != 0.0
    ensures d * (x / d) == x
  {
  }

  lemma QuotientIs(x: real, d: real, q: real)
    requires d != 0.0 && d * q == x
    ensures x / d == q
  {
  }

  lemma QuotientSplit(x: real, y: real, d: real)
    requires d != 0.0
    ensures (x - y) / d == x / d - y / d
  {
    Unscale(x, d);
    Unscale(y, d);
    Distribute(x / d, - (y / d), d);
    QuotientIs(x - y, d, x / d - y / d);
  }

  lemma QuotientSign(x: real, d: real)
    requires d > 0.0
    ensures x / d > 0.0 <==> x > 0.0
    ensures x / d >= 0.0 <==> x >= 0.0
  {
  }

  lemma Cancel(p: real, q: real, c: real)
    requires c > 0.0 && p * c <= q * c
    ensures p <= q
  {
    if p > q { Positive(p - q, c); Distribute(p - q, q, c); }
  }

  lemma Positive(a: real, b: real)
    requires a > 0.0 && b > 0.0
    ensures a * b > 0.0
  {
  }

  lemma CountStep(n: nat, x: real)
    ensures (n + 1) as real * x == n as real * x + x
  {
    Distribute(n as real, 1.0, x);
  }

  lemma Regroup(a: real, b: real, c: real)
    ensures (a * b) * c == a * (c * b)
  {
  }
}
