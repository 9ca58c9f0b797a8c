/** Multiplication and division facts over the reals, kept apart from the models that use them. */
module RealArithmetic {

  lemma MulLe(a: real, b: real, c: real)
    requires a <= b && c >= 0.0
    ensures a * c <= b * c && c * a <= c * b
  {}

  lemma MulLt(a: real, b: real, c: real)
    requires a < b && c > 0.0
    ensures a * c < b * c && c * a < c * b
  {}

  lemma MulPositive(a: real, b: real)
    requires a > 0.0 && b > 0.0
    ensures a * b > 0.0
  {}

  lemma MulNonNegative(a: real, b: real)
    requires a >= 0.0 && b >= 0.0
    ensures a * b >= 0.0
  {}

  lemma DivCancels(a: real, b: real)
    requires b != 0.0
    ensures (a / b) * b == a && b * (a / b) == a
  {}

  /** A quotient is whatever times the divisor gives the dividend. */
  lemma DivIs(a: real, b: real, q: real)
    requires b != 0.0 && q * b == a
    ensures a / b == q
  {
    DivCancels(a, b);
    assert (a / b - q) * b == 0.0;
  }

  lemma DivPositive(a: real, b: real)
    requires a > 0.0 && b > 0.0
    ensures a / b > 0.0
  {
    DivCancels(a, b);
  }

  lemma DivNonNegative(a: real, b: real)
    requires a >= 0.0 && b > 0.0
    ensures a / b >= 0.0
  {
    DivCancels(a, b);
  }

  lemma DivLe(a: real, b: real, t: real)
    requires b > 0.0
    ensures a / b <= t <==> a <= t * b
    ensures t <= a / b <==> t * b <= a
  {
    DivCancels(a, b);
    if a / b < t { MulLt(a / b, t, b); }
    if t < a / b { MulLt(t, a / b, b); }
  }

  lemma DivLt(a: real, b: real, d: real)
    requires d > 0.0 && a < b
    ensures a / d < b / d
  {
    DivLe(b, d, a / d);
    DivCancels(a, d);
  }

  /** Cross-multiplied comparison of two quotients. */
  lemma CrossLe(a: real, b: real, c: real, d: real)
    requires b > 0.0 && d > 0.0
    ensures a / b <= c / d <==> a * d <= c * b
  {
    DivLe(a, b, c / d);
    DivCancels(c, d);
    var q := c / d;
    assert q * b * d == c * b;
    if a <= q * b { MulLe(a, q * b, d); } else { MulLt(q * b, a, d); }
  }

  lemma DivDistributes(a: real, b: real, c: real)
    requires c != 0.0
    ensures (a + b) / c == a / c + b / c
  {}

  lemma MulDiv(a: real, b: real, c: real)
    requires c != 0.0
    ensures a * b / c == a * (b / c)
  {
    DivCancels(b, c);
    DivIs(a * b, c, a * (b / c));
  }

  lemma Expand(a: real, b: real, c: real)
    ensures (a + b) * c == a * c + b * c
  {}

  /** Scaling up a quotient that is off by at most `d` is off by at most `d` scaled. */
  lemma ScaleAbove(q: real, d: real, x: real, t: real)
    requires t > 0.0 && x <= q + d
    ensures x * t <= q * t + d * t
  {
    calc {
      x * t;
    <= { MulLe(x, q + d, t); }
      (q + d) * t;
    == { Expand(q, d, t); }
      q * t + d * t;
    }
  }
}
