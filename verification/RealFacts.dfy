/** Scalar facts about real products, kept apart from the vectors that use them. */
module RealFacts {
  /** The product, under a name of its own: equal factors then give equal products by
      congruence, without any search over nonlinear terms. */
  function Times(x: real, y: real): real {
    x * y
  }

  lemma TimesAssoc(s: real, t: real, d: real)
    ensures Times(s, Times(t, d)) == Times(Times(s, t), d)
  {
  }

  lemma TimesAdd(c: real, x: real, y: real)
    ensures Times(c, x + y) == Times(c, x) + Times(c, y)
  {
  }

  lemma PositiveProduct(x: real, z: real, y: real)
    requires x > 0.0 && z > 0.0
    requires y == x * z
    ensures y > 0.0
  {
  }

  lemma PositiveSquare(x: real, y: real)
    requires x != 0.0
    requires y == x * x
    ensures y > 0.0
  {
    if x > 0.0 {
      PositiveProduct(x, x, y);
    } else {
      var z := -x;
      assert y == z * z;
      PositiveProduct(z, z, y);
    }
  }

  lemma SquareOfZero(x: real, y: real)
    requires y == x * x && y <= 0.0
    ensures x == 0.0
  {
    if x != 0.0 { PositiveSquare(x, y); }
  }

  lemma Square(x: real, y: real)
    requires y == x * x
    ensures y >= 0.0
  {
    if x != 0.0 { PositiveSquare(x, y); }
  }

  /** The discriminant step of Cauchy-Schwarz. */
  lemma Discriminant(a: real, b: real, c: real, p: real, q: real, r: real)
    requires a > 0.0 && p - 2.0 * q + r >= 0.0
    requires p == Times(Times(a, a), c) && q == Times(Times(a, b), b) && r == Times(Times(b, b), a)
    ensures b * b <= a * c
  {
    var d := b * b - a * c;
    assert p - 2.0 * q + r == -(a * d);
    if d > 0.0 { PositiveProduct(a, d, a * d); }
  }

  lemma NonNegProduct(x: real, z: real, y: real)
    requires x >= 0.0 && z >= 0.0
    requires y == x * z
    ensures y >= 0.0
  {
    if x > 0.0 && z > 0.0 { PositiveProduct(x, z, y); }
  }

  /** Dividing by a t in (0, 1] does not shrink a square. */
  lemma QuotientSquare(e: real, t: real, d: real)
    requires 0.0 < t <= 1.0 && d == e / t
    ensures e * e <= d * d
  {
    var q, u := d * d, t * t;
    Square(d, q);
    assert e == d * t;
    assert e * e == q * u;
    NonNegProduct(t, 1.0 - t, t - u);
    NonNegProduct(q, 1.0 - u, q - q * u);
  }

  lemma RatioOrder(a: real, b: real, d: real)
    requires d > 0.0 && a <= b
    ensures a / d <= b / d
  {
  }

  lemma UnitRatio(a: real, b: real)
    requires 0.0 <= a <= b && b > 0.0
    ensures 0.0 <= a / b <= 1.0
  {
    RatioOrder(0.0, a, b);
    RatioOrder(a, b, b);
  }
}
