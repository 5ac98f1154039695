/** Facts about products, quotients and remainders that other modules use by name. */
module Arithmetic {

  lemma Grows(d: nat, a: int, b: int)
    requires a <= b
    ensures d * a <= d * b
  {}

  lemma Distributes(d: nat, p: nat, a: int, b: int)
    ensures d * (p * a + b) == (d * p) * a + d * b
  {}

  lemma Positive(a: nat, b: nat)
    requires a > 0 && b > 0
    ensures a * b > 0
  {}

  // There is one quotient and one remainder.
  lemma Uniquely(n: int, d: nat, q: int, r: nat)
    requires n == d * q + r && r < d
    ensures n / d == q && n % d == r
  {
    assert n == d * (n / d) + n % d;
    if n / d < q {
      Grows(d, n / d + 1, q);
      assert false;
    } else if q < n / d {
      Grows(d, q + 1, n / d);
      assert false;
    }
  }

  lemma Nested(n: nat, a: nat, b: nat, m: nat, s: nat, q: nat, r: nat)
    requires n == a * m + s && s < a && m == b * q + r && r < b
    ensures a * b > 0 && n / (a * b) == q
  {
    Positive(a, b);
    Distributes(a, b, q, r);
    Grows(a, r + 1, b);
    assert a * (r + 1) == a * r + a;
    Uniquely(n, a * b, q, a * r + s);
  }

  lemma DivMod(n: nat, d: nat)
    requires d > 0
    ensures n == d * (n / d) + n % d
  {}

  lemma DivideTwice(n: nat, a: nat, b: nat)
    requires a > 0 && b > 0
    ensures a * b > 0 && n / a / b == n / (a * b)
  {
    DivMod(n, a);
    DivMod(n / a, b);
    Nested(n, a, b, n / a, n % a, n / a / b, n / a % b);
  }
}
