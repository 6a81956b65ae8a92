/** Products and remainders with a divisor that is not a constant, one nonlinear fact at a time. */
module Arithmetic {

  /** The only fact about products that is left to the solver. */
  lemma Product(a: nat, b: nat)
    ensures a * b >= 0
  {
  }

  lemma Monotone(g: nat, a: int, b: int)
    requires a <= b
    ensures g * a <= g * b
  {
    Product(g, b - a);
    assert g * (b - a) == g * b - g * a;
  }

  lemma StrictlyMonotone(g: nat, a: int, b: int)
    requires g > 0 && a < b
    ensures g * a < g * b
  {
    Monotone(g, a + 1, b);
    assert g * (a + 1) == g * a + g;
  }

  /** A multiple of `g` that is smaller than `g` is zero. */
  lemma SmallMultiple(g: int, d: int)
    requires 0 < g && -g < g * d < g
    ensures d == 0
  {
    assert g * -1 == -g;
    if d >= 1 {
      Monotone(g, 1, d);
    } else if d <= -1 {
      Monotone(g, d, -1);
    }
  }

  /** Quotient and remainder are determined by their defining equation. */
  lemma Quotient(x: int, g: nat, q: int, r: int)
    requires 0 <= r < g && x == g * q + r
    ensures x / g == q && x % g == r
  {
    var q', r' := x / g, x % g;
    assert x == g * q' + r';
    assert g * (q - q') == g * q - g * q';
    SmallMultiple(g, q - q');
  }
}
