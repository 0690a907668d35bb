/** The Jaccard distance between proxy signatures is a metric. */
module Jaccard {
  import opened RealFacts

  function JaccardDistance<T(==)>(a: set<T>, b: set<T>): real {
    if a + b == {} then 0.0 else 1.0 - |a * b| as real / |a + b| as real
  }

  ghost function Share(n: nat, all: nat): real
    requires all > 0
  {
    n as real / all as real
  }

  /** The elements on which the sets differ. */
  ghost function Difference<T>(a: set<T>, b: set<T>): set<T> {
    (a - b) + (b - a)
  }

  lemma Sizes<T>(a: set<T>, b: set<T>)
    ensures |a + b| == |a * b| + |Difference(a, b)|
    ensures a + b == {} ==> Difference(a, b) == {}
  {
    assert a + b == (a * b) + Difference(a, b);
    assert (a * b) !! Difference(a, b);
  }

  lemma SplitRatio(i: real, d: real, u: real)
    requires u > 0.0 && u == i + d
    ensures 1.0 - i / u == d / u
  {
    assert (i + d) / u == i / u + d / u;
  }

  lemma DistanceIsRatio<T>(a: set<T>, b: set<T>)
    requires a + b != {}
    ensures JaccardDistance(a, b) == |Difference(a, b)| as real / |a + b| as real
  {
    Sizes(a, b);
    assert |a + b| > 0;
    SplitRatio(|a * b| as real, |Difference(a, b)| as real, |a + b| as real);
  }

  lemma Symmetric<T>(a: set<T>, b: set<T>)
    ensures JaccardDistance(a, b) == JaccardDistance(b, a)
  {
    assert a + b == b + a && a * b == b * a;
  }

  lemma Bounded<T>(a: set<T>, b: set<T>)
    ensures 0.0 <= JaccardDistance(a, b) <= 1.0
  {
    if a + b != {} {
      Sizes(a, b);
      DistanceIsRatio(a, b);
      UnitRatio(|Difference(a, b)| as real, |a + b| as real);
    }
  }

  lemma ZeroRatio(n: real, u: real)
    requires u > 0.0
    ensures n / u == 0.0 <==> n == 0.0
  {
    assert (n / u) * u == n;
  }

  lemma ZeroIffEqual<T>(a: set<T>, b: set<T>)
    ensures JaccardDistance(a, b) == 0.0 <==> a == b
  {
    if a + b == {} {
      assert a == {} && b == {};
    } else {
      DistanceIsRatio(a, b);
      ZeroRatio(|Difference(a, b)| as real, |a + b| as real);
      assert Difference(a, b) == {} <==> a == b;
    }
  }

  /** Adding r to both parts of a fraction at most one does not lower it. */
  lemma RaiseFraction(n: real, d: real, r: real)
    requires 0.0 <= n <= d && d > 0.0 && r >= 0.0
    ensures n / d <= (n + r) / (d + r)
  {
    var x, y := n / d, (n + r) / (d + r);
    assert x * d == n;
    assert y * (d + r) == n + r;
    UnitRatio(n, d);
    NonNegProduct(1.0 - x, r, r - x * r);
    assert (x - y) * (d + r) == x * d + x * r - (n + r) <= 0.0;
    if x > y { PositiveProduct(x - y, d + r, (x - y) * (d + r)); }
  }

  lemma SmallerDenominator(n: real, d: real, e: real)
    requires n >= 0.0 && 0.0 < d <= e
    ensures n / e <= n / d
  {
    var x, y := n / e, n / d;
    assert x * e == n && y * d == n;
    UnitNonNeg(n, e);
    NonNegProduct(x, e - d, x * e - x * d);
    if x > y { PositiveProduct(x - y, d, (x - y) * d); }
  }

  lemma UnitNonNeg(n: real, d: real)
    requires n >= 0.0 && d > 0.0
    ensures n / d >= 0.0
  {
    RatioOrder(0.0, n, d);
  }

  /** Going through b counts every difference between a and c, and everything only in b twice. */
  lemma DifferencesAdd<T>(a: set<T>, b: set<T>, c: set<T>)
    ensures |Difference(a, c)| + |b - (a + c)| <= |Difference(a, b)| + |Difference(b, c)|
  {
    var ab, bc, ac, only := Difference(a, b), Difference(b, c), Difference(a, c), b - (a + c);
    assert ab + bc == (ab - bc) + (bc - ab) + (ab * bc);
    assert |ab + bc| + |ab * bc| == |ab| + |bc|;
    assert ac + only <= ab + bc && only <= ab * bc;
    Subset(ac, ab + bc);
    Subset(only, ab * bc);
  }

  lemma Subset<T>(s: set<T>, t: set<T>)
    requires s <= t
    ensures |s| <= |t|
  {
    assert |t - s| == |t| - |s|;
  }

  /** The distance over any larger ground set is at most the distance itself. */
  lemma WiderGround<T>(a: set<T>, b: set<T>, all: set<T>)
    requires a + b <= all && all != {}
    ensures Share(|Difference(a, b)|, |all|) <= JaccardDistance(a, b)
  {
    Subset(a + b, all);
    Sizes(a, b);
    if a + b == {} {
      ZeroRatio(0.0, |all| as real);
    } else {
      DistanceIsRatio(a, b);
      SmallerDenominator(|Difference(a, b)| as real, |a + b| as real, |all| as real);
    }
  }

  lemma SharesAdd(x: nat, y: nat, z: nat, u: nat)
    requires u > 0 && x <= y + z
    ensures Share(x, u) <= Share(y, u) + Share(z, u)
  {
    RatioOrder(x as real, y as real + z as real, u as real);
    assert (y as real + z as real) / u as real == Share(y, u) + Share(z, u);
  }

  /** Counting elements outside both sets as further differences does not lower the distance. */
  lemma ExtraRaises<T>(a: set<T>, c: set<T>, extra: set<T>, all: set<T>)
    requires a + c != {} && extra !! a + c && all == a + c + extra
    ensures |all| > 0
    ensures JaccardDistance(a, c) <= Share(|Difference(a, c)| + |extra|, |all|)
  {
    assert |all| == |a + c| + |extra|;
    DistanceIsRatio(a, c);
    Sizes(a, c);
    RaiseFraction(|Difference(a, c)| as real, |a + c| as real, |extra| as real);
  }

  lemma SharesThrough<T>(a: set<T>, b: set<T>, c: set<T>, all: set<T>)
    requires |all| > 0
    ensures Share(|Difference(a, c)| + |b - (a + c)|, |all|)
            <= Share(|Difference(a, b)|, |all|) + Share(|Difference(b, c)|, |all|)
  {
    DifferencesAdd(a, b, c);
    SharesAdd(|Difference(a, c)| + |b - (a + c)|, |Difference(a, b)|, |Difference(b, c)|, |all|);
  }

  /** The two distances through b cover the counted differences, and so the direct distance. */
  lemma ThroughB<T>(a: set<T>, b: set<T>, c: set<T>, all: set<T>)
    requires all == a + b + c && |all| > 0
    ensures Share(|Difference(a, c)| + |b - (a + c)|, |all|) <= JaccardDistance(a, b) + JaccardDistance(b, c)
  {
    SharesThrough(a, b, c, all);
    WiderGround(a, b, all);
    WiderGround(b, c, all);
  }

  lemma TriangleInequality<T>(a: set<T>, b: set<T>, c: set<T>)
    ensures JaccardDistance(a, c) <= JaccardDistance(a, b) + JaccardDistance(b, c)
  {
    if a + c == {} {
      Bounded(a, b);
      Bounded(b, c);
    } else {
      var all := a + b + c;
      ExtraRaises(a, c, b - (a + c), all);
      ThroughB(a, b, c, all);
    }
  }
}
