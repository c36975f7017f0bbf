/** Facts about products of reals that the proofs use one at a time. */
module Reals {
  /** Products of two variables under names, which the proofs hide. */
  function Product(a: real, b: real): real {
    a * b
  }

  function Square(x: real): real {
    x * x
  }

  function Pow(x: real, n: nat): real {
    if n == 0 then 1.0 else Product(x, Pow(x, n - 1))
  }

  lemma PositiveProduct(a: real, b: real, c: real)
    requires a > 0.0 && b > 0.0 && c == a * b
    ensures c > 0.0
  {
  }

  lemma NonNegativeProduct(a: real, b: real)
    requires a >= 0.0 && b >= 0.0
    ensures a * b >= 0.0
  {
  }

  lemma PositiveQuotient(a: real, b: real)
    requires a > 0.0 && b > 0.0
    ensures a / b > 0.0
  {
  }

  lemma BelowQuotient(x: real, d: real, top: real)
    requires d > 0.0 && x <= top * d
    ensures x / d <= top
  {
    var q := x / d;
    assert q * d == x;
    if q > top { PositiveProduct(q - top, d, q * d - top * d); }
  }

  lemma NegatedQuotient(x: real, d: real)
    requires d != 0.0
    ensures (-x) / d == -(x / d)
  {
  }

  /** A product is within the product of the bounds of its factors. */
  lemma BoundedProduct(x: real, y: real, a: real, b: real)
    requires -a <= x <= a && -b <= y <= b
    ensures -Product(a, b) <= Product(x, y) <= Product(a, b)
  {
    NonNegativeProduct(a - x, b + y);
    NonNegativeProduct(a + x, b - y);
    NonNegativeProduct(a - x, b - y);
    NonNegativeProduct(a + x, b + y);
  }
}
