/** When the verdict "singular design matrix (collinear channels)" is right, for one channel. */
module SingleChannel {
  import opened RealFacts
  import opened LinearAlgebra
  import opened GaussJordan
  import opened LeastSquares
  import opened Wrappers
  import opened Regression
  import opened Collinearity

  lemma {:induction false} DotConstant(c: real, x: Vector)
    ensures Dot(Constant(|x|, c), x) == c * Sum(x)
  {
    if x != [] {
      assert Constant(|x|, c)[1..] == Constant(|x| - 1, c);
      DotConstant(c, x[1..]);
    }
  }

  lemma MeanTimesCount(x: Vector)
    requires |x| > 0
    ensures |x| as real * Mean(x) == Sum(x)
  {
  }

  lemma VariationFormula(x: Vector, mean: real, product: real)
    requires |x| > 0 && mean == Mean(x) && product == Sum(x) * mean
    ensures Variation(x) == Dot(x, x) - product
  {
    var c := Constant(|x|, mean);
    CentredParts(x, mean, c, product);
    SquareSub(x, c);
  }

  lemma CentredParts(x: Vector, mean: real, c: Vector, product: real)
    requires |x| > 0 && mean == Mean(x) && c == Constant(|x|, mean) && product == Sum(x) * mean
    ensures -2.0 * Dot(x, c) + Dot(c, c) == -product
  {
    assert Dot(x, c) == product by { DotConstant(mean, x); DotComm(x, c); }
    assert Dot(c, c) == product by {
      DotConstant(mean, c);
      SumConst(|x|, mean);
      MeanTimesCount(x);
    }
  }

  lemma DotOfPairs(u: Vector, v: Vector)
    requires |u| == |v| == 2
    ensures Dot(u, v) == u[0] * v[0] + u[1] * v[1]
  {
    assert Dot(u[1..], v[1..]) == u[1] * v[1] + Dot(u[1..][1..], v[1..][1..]);
  }

  lemma SumOfDeviations(x: Vector)
    requires |x| > 0
    ensures Sum(Deviations(x)) == 0.0
  {
    assert Add(Deviations(x), Constant(|x|, Mean(x))) == x;
    SumAdd(Deviations(x), Constant(|x|, Mean(x)));
    SumConst(|x|, Mean(x));
    MeanTimesCount(x);
  }

  /** A column a + x is the deviations shifted by a constant, so its square is at least the variation. */
  lemma ShiftedSquare(x: Vector, a: real, v: Vector)
    requires |x| > 0 && |v| == |x| && forall i :: 0 <= i < |x| ==> v[i] == a + x[i]
    ensures Dot(v, v) >= Variation(x)
    ensures a == -Mean(x) ==> Dot(v, v) == Variation(x)
  {
    var d, c := Deviations(x), Constant(|x|, a + Mean(x));
    assert v == Add(d, c);
    SquareAdd(d, c);
    SumOfDeviations(x);
    DotConstant(a + Mean(x), d);
    DotComm(d, c);
    SquareNonNeg(c);
    if a == -Mean(x) { DotZero(|x|, c); assert c == Zero(|x|); }
  }

  /** The channel keeps its distance from the intercept iff it varies by at least the tolerance. */
  lemma SingleChannelDistance(x: Vector)
    requires |x| > 0
    ensures KeepsDistance(Design([x], |x|), 2, 0)
    ensures KeepsDistance(Design([x], |x|), 2, 1) <==> Variation(x) >= TOLERANCE
  {
    var X := Design([x], |x|);
    forall g: Vector | |g| == 2 && UpTo(g, 0) ensures Dot(Mul(X, g), Mul(X, g)) >= TOLERANCE {
      forall i | 0 <= i < |x| ensures Mul(X, g)[i] == 1.0 { SingleChannelRow(x, i, g); }
      SquareBound(Mul(X, g), 0);
    }
    forall g: Vector | |g| == 2 && UpTo(g, 1)
      ensures Dot(Mul(X, g), Mul(X, g)) >= Variation(x)
    {
      forall i | 0 <= i < |x| ensures Mul(X, g)[i] == g[0] + x[i] { SingleChannelRow(x, i, g); }
      ShiftedSquare(x, g[0], Mul(X, g));
    }
    var h := [-Mean(x), 1.0];
    forall i | 0 <= i < |x| ensures Mul(X, h)[i] == -Mean(x) + x[i] { SingleChannelRow(x, i, h); }
    ShiftedSquare(x, -Mean(x), Mul(X, h));
    assert UpTo(h, 1);
  }

  /** With one channel no swap is ever on offer: the fit raises iff the channel varies by less
      than the tolerance ... */
  lemma SingleChannelRaises(x: Vector)
    requires |x| > 0
    ensures Inverse(GramOf([x], |x|)) == None <==> Variation(x) < TOLERANCE
  {
    var X := Design([x], |x|);
    SingleChannelDistance(x);
    forall k: nat | k < 2 && FirstClose(X, 2, 0, k) ensures NoRescue(X, 2, k) {
      assert k == 1;
    }
    RaisesIffClose([x], |x|);
    assert Apart(X, 2) <==> KeepsDistance(X, 2, 0) && KeepsDistance(X, 2, 1);
  }

  /** ... while it is collinear with the intercept iff it does not vary at all. */
  lemma SingleChannelCollinear(x: Vector)
    requires |x| > 0
    ensures !Independent(Design([x], |x|), 2) <==> Variation(x) == 0.0
  {
    var X := Design([x], |x|);
    if Variation(x) == 0.0 {
      SquareZero(Deviations(x));
      var v := [Mean(x), -1.0];
      forall i | 0 <= i < |x| ensures Dot(X[i], v) == 0.0 {
        assert Deviations(x)[i] == 0.0;
        SingleChannelRow(x, i, v);
      }
      assert Mul(X, v) == Zero(|x|);
      assert v[1] != Zero(2)[1];
    }
    forall v: Vector | |v| == 2 && Mul(X, v) == Zero(|x|) && v != Zero(2) ensures Variation(x) == 0.0 {
      forall i | 0 <= i < |x| ensures v[0] + x[i] * v[1] == 0.0 {
        SingleChannelRow(x, i, v);
        assert Mul(X, v)[i] == 0.0;
      }
      assert v[0] != 0.0 || v[1] != 0.0 by {
        assert v[0] != Zero(2)[0] || v[1] != Zero(2)[1];
      }
      ConstantChannel(x, v);
    }
  }

  lemma SingleChannelRow(x: Vector, i: nat, v: Vector)
    requires i < |x| && |v| == 2
    ensures Dot(Design([x], |x|)[i], v) == v[0] + x[i] * v[1]
  {
    var row := Design([x], |x|)[i];
    assert row == [1.0] + Col([x], i);
    DotOfPairs(row, v);
  }

  lemma SlopeNonZero(a: real, b: real, x: real)
    requires a != 0.0 || b != 0.0
    requires a + x * b == 0.0
    ensures b != 0.0
  {
  }

  lemma ConstantChannel(x: Vector, v: Vector)
    requires |x| > 0 && |v| == 2 && (v[0] != 0.0 || v[1] != 0.0)
    requires forall i :: 0 <= i < |x| ==> v[0] + x[i] * v[1] == 0.0
    ensures Variation(x) == 0.0
  {
    SlopeNonZero(v[0], v[1], x[0]);
    var c := -v[0] / v[1];
    forall i | 0 <= i < |x| ensures x[i] == c { SolveFor(v[0], v[1], x[i]); }
    assert x == Constant(|x|, c);
    SumConst(|x|, c);
    assert Mean(x) == c;
    assert Sub(x, Constant(|x|, c)) == Zero(|x|);
    DotZero(|x|, Zero(|x|));
  }

  lemma SolveFor(a: real, b: real, x: real)
    requires b != 0.0 && a + x * b == 0.0
    ensures x == -a / b
  {
  }

  lemma VariesIfDistinct(x: Vector, i: nat, j: nat)
    requires i < |x| && j < |x| && x[i] != x[j]
    ensures Variation(x) > 0.0
  {
    var d := Deviations(x);
    assert d[i] - d[j] == x[i] - x[j];
    var k := if d[i] != 0.0 then i else j;
    SquareBound(d, k);
    PositiveSquare(d[k], d[k] * d[k]);
  }

  lemma FoldOfChannel(x: Vector, i: nat)
    requires |x| == 3 && i < 3
    ensures Without(Design([x], 3), i) == Design([Without(x, i)], 2)
  {
    forall k | 0 <= k < 2 ensures Without(Design([x], 3), i)[k] == Design([Without(x, i)], 2)[k] {
      assert Design([Without(x, i)], 2)[k] == [1.0] + Col([Without(x, i)], k);
    }
  }

  /** And "singular design matrix in LOO fold" is reported for a design whose folds all have full rank. */
  lemma FullRankFoldsRejected()
    ensures var columns, y := [[0.0, 0.0000001, 1.0]], [0.0, 0.0, 1.0];
            && Solvable(columns, y) && HasFullLeverage(FitOf(columns, y))
            && forall i: nat :: !LosesRank(Design(columns, 3), 2, i)
  {
    var x, y := [0.0, 0.0000001, 1.0], [0.0, 0.0, 1.0];
    var X := Design([x], 3);
    VariesIfDistinct(y, 0, 2);
    assert Sum(x) == 1.0000001;
    assert Deviations(x)[2] == 1.0 - Mean(x) > 0.6;
    SquareBound(Deviations(x), 2);
    SingleChannelRaises(x);
    CloseLastRow(x, y);
    forall i: nat | i < 3 ensures !LosesRank(X, 2, i) {
      FoldOfChannel(x, i);
      VariesIfDistinct(Without(x, i), 0, 1);
      SingleChannelCollinear(Without(x, i));
    }
  }

  lemma CloseLastRow(x: Vector, y: Vector)
    requires x == [0.0, 0.0000001, 1.0] && |y| == 3 && Solvable([x], y)
    ensures HasFullLeverage(FitOf([x], y))
  {
    var X, v, G := Design([x], 3), [0.0, 1.0], Inverse(GramOf([x], 3)).value;
    GramSymmetric(X, 2);
    InverseInverts(Gram(X, 2), G);
    LeverageGap(X, 2, G, 2, v);
    forall i | 0 <= i < 3 ensures Mul(X, v)[i] == x[i] { SingleChannelRow(x, i, v); }
    var gap := Sub(Unit(3, 2), Mul(X, v));
    assert gap == [0.0, -0.0000001, 0.0];
    var rest := [-0.0000001, 0.0];
    assert gap[1..] == rest;
    DotOfPairs(rest, rest);
    assert Dot(gap, gap) == 0.00000000000001;
    assert FitOf([x], y).leverage[2] == Leverage(X[2], G);
  }

  /** So the message "collinear channels" can be wrong: a varying channel that still raises. */
  lemma IndependentDesignThatRaises()
    ensures var x := [0.0, 0.0, 0.000001];
            Independent(Design([x], 3), 2) && Inverse(GramOf([x], 3)) == None
  {
    var x := [0.0, 0.0, 0.000001];
    assert x[1..] == [0.0, 0.000001] && x[1..][1..] == [0.000001];
    assert Sum(x) == 0.000001 && Dot(x, x) == 0.000000000001;
    assert Mean(x) == 0.000001 / 3.0;
    assert 0.0 < Variation(x) < TOLERANCE by { VariationFormula(x, Mean(x), 0.000001 * Mean(x)); }
    SingleChannelRaises(x);
    SingleChannelCollinear(x);
  }
}
