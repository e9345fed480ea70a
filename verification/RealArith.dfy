/** Products and quotients of reals: the steps a nonlinear argument is made of. */
module RealArith {
  function Abs(x: real): real { if x < 0.0 then -x else x }

  function Min(a: real, b: real): real { if a <= b then a else b }

  function Max(a: real, b: real): real { if a >= b then a else b }

  lemma DivSplit(n: real, a: real, d: real)
    requires d > 0.0 && n == a * d
    ensures n / d == a
  {
  }

  lemma ScaleLess(x: real, y: real, s: real)
    requires s > 0.0 && x < y
    ensures x * s < y * s && s * x < s * y
  {
  }

  lemma ProductNonNegative(x: real, y: real)
    requires (x >= 0.0 && y >= 0.0) || (x <= 0.0 && y <= 0.0)
    ensures x * y >= 0.0
  {
  }

  lemma PositiveFactor(x: real, b: real)
    requires b > 0.0 && x * b > 0.0
    ensures x > 0.0
  {
    if x <= 0.0 {
      ProductNonNegative(-x, b);
    }
  }

  lemma NonNegativeFactor(x: real, b: real)
    requires b > 0.0 && x * b >= 0.0
    ensures x >= 0.0
  {
    if x < 0.0 {
      ScaleLess(x, 0.0, b);
    }
  }

  lemma NegDiv(n: real, d: real)
    requires d > 0.0
    ensures (-n) / d == -(n / d)
  {
  }

  lemma ScaledBy(x: real, y: real, s: real, t: real)
    requires 0.0 <= x <= y && 0.0 <= s <= t
    ensures 0.0 <= x * s <= y * t
  {
    ProductNonNegative(x, s);
    ProductNonNegative(y - x, s);
    ProductNonNegative(y, t - s);
    assert y * t == x * s + (y - x) * s + y * (t - s);
  }

  lemma DivideBounds(x: real, n: real, lo: real, hi: real)
    requires n > 0.0 && lo * n <= x <= hi * n
    ensures lo <= x / n <= hi
  {
    var q := x / n;
    assert q * n == x;
    if q < lo { ScaleLess(q, lo, n); }
    if q > hi { ScaleLess(hi, q, n); }
  }

  lemma QuotientNonNegative(a: real, b: real)
    requires a >= 0.0 && b > 0.0
    ensures a / b >= 0.0
  {
    var q := a / b;
    assert q * b == a;
    NonNegativeFactor(q, b);
  }

  lemma QuotientMonotone(a: real, b: real, c: real)
    requires 0.0 <= a <= b && c > 0.0
    ensures 0.0 <= a / c <= b / c
  {
    QuotientNonNegative(a, c);
    QuotientNonNegative(b - a, c);
    assert b / c == a / c + (b - a) / c;
  }

  lemma QuotientPositive(x: real, y: real)
    requires x > 0.0 && y > 0.0
    ensures x / y > 0.0
  {
    assert (x / y) * y == x;
    PositiveFactor(x / y, y);
  }
}
