/** Ordinary least squares: normal equations, optimality, leverage and deleted residuals. */
module LeastSquares {
  import opened RealFacts
  import opened LinearAlgebra
  import opened GaussJordan

  function Gram(X: Matrix, p: nat): (A: Matrix)
    requires Rect(X, p)
    ensures |A| == p && Rect(A, p)
  {
    seq(p, a requires 0 <= a < p =>
      seq(p, b requires 0 <= b < p => Dot(Col(X, a), Col(X, b))))
  }

  function Moments(X: Matrix, p: nat, y: Vector): (m: Vector)
    requires Rect(X, p) && |y| == |X|
    ensures |m| == p
  {
    Mul(Transpose(X, p), y)
  }

  function Residual(X: Matrix, y: Vector, b: Vector): (r: Vector)
    requires Rect(X, |b|) && |y| == |X|
    ensures |r| == |y|
  {
    Sub(y, Mul(X, b))
  }

  function SquaredError(X: Matrix, y: Vector, b: Vector): real
    requires Rect(X, |b|) && |y| == |X|
  {
    Dot(Residual(X, y, b), Residual(X, y, b))
  }

  ghost predicate Minimises(X: Matrix, y: Vector, b: Vector) {
    && Rect(X, |b|) && |y| == |X|
    && forall c: Vector :: |c| == |b| ==> SquaredError(X, y, b) <= SquaredError(X, y, c)
  }

  ghost predicate Normal(X: Matrix, y: Vector, b: Vector) {
    && Rect(X, |b|) && |y| == |X|
    && Moments(X, |b|, Residual(X, y, b)) == Zero(|b|)
  }

  ghost predicate Independent(X: Matrix, p: nat)
    requires Rect(X, p)
  {
    forall v: Vector :: |v| == p && Mul(X, v) == Zero(|X|) ==> v == Zero(p)
  }

  // ---------- The Gram matrix as a map ----------

  lemma GramSymmetric(X: Matrix, p: nat)
    requires Rect(X, p)
    ensures Symmetric(Gram(X, p))
  {
    forall a, b | 0 <= a < p && 0 <= b < p ensures Gram(X, p)[a][b] == Gram(X, p)[b][a] {
      DotComm(Col(X, a), Col(X, b));
    }
  }

  lemma GramAction(X: Matrix, v: Vector)
    requires Rect(X, |v|)
    ensures Mul(Gram(X, |v|), v) == Moments(X, |v|, Mul(X, v))
  {
    var p := |v|;
    forall a | 0 <= a < p ensures Mul(Gram(X, p), v)[a] == Moments(X, p, Mul(X, v))[a] {
      Adjoint(X, p, Col(X, a), v);
      forall b | 0 <= b < p ensures Gram(X, p)[a][b] == Mul(Transpose(X, p), Col(X, a))[b] {
        DotComm(Col(X, a), Col(X, b));
      }
      assert Gram(X, p)[a] == Mul(Transpose(X, p), Col(X, a));
    }
  }

  lemma GramForm(X: Matrix, u: Vector, v: Vector)
    requires |u| == |v| && Rect(X, |u|)
    ensures Dot(Mul(X, u), Mul(X, v)) == Dot(Mul(Gram(X, |u|), u), v)
  {
    Adjoint(X, |u|, Mul(X, u), v);
    GramAction(X, u);
  }

  // ---------- Normal equations and optimality ----------

  lemma ResidualShift(X: Matrix, y: Vector, b: Vector, d: Vector)
    requires Rect(X, |b|) && |y| == |X| && |d| == |b|
    ensures Residual(X, y, Sub(b, d)) == Add(Residual(X, y, b), Mul(X, d))
  {
    MulSub(X, b, d);
  }

  /** The error of any other coefficients exceeds that of b by the square of the shift in fit. */
  lemma ErrorOfShift(X: Matrix, y: Vector, b: Vector, d: Vector)
    requires Rect(X, |b|) && |y| == |X| && |d| == |b|
    ensures SquaredError(X, y, Sub(b, d)) ==
            SquaredError(X, y, b) + 2.0 * Dot(Moments(X, |b|, Residual(X, y, b)), d) + Dot(Mul(X, d), Mul(X, d))
  {
    var r, f := Residual(X, y, b), Mul(X, d);
    ResidualShift(X, y, b, d);
    SquareAdd(r, f);
    Adjoint(X, |b|, r, d);
  }

  lemma Pythagoras(X: Matrix, y: Vector, b: Vector, c: Vector)
    requires Normal(X, y, b) && |c| == |b|
    ensures SquaredError(X, y, c) ==
            SquaredError(X, y, b) + Dot(Mul(X, Sub(b, c)), Mul(X, Sub(b, c)))
  {
    var d := Sub(b, c);
    assert Sub(b, d) == c;
    ErrorOfShift(X, y, b, d);
    DotZero(|b|, d);
  }

  lemma NormalMinimises(X: Matrix, y: Vector, b: Vector)
    requires Normal(X, y, b)
    ensures Minimises(X, y, b)
  {
    forall c: Vector | |c| == |b| ensures SquaredError(X, y, b) <= SquaredError(X, y, c) {
      Pythagoras(X, y, b, c);
      SquareNonNeg(Mul(X, Sub(b, c)));
    }
  }

  lemma DescentStep(g: real, k: real, t: real, slope: real, curve: real)
    requires g > 0.0 && k >= 0.0
    requires t == g / (k + 1.0)
    requires slope == Times(-t, g) && curve == Times(Times(-t, -t), k)
    ensures 2.0 * slope + curve < 0.0
  {
    assert t > 0.0;
    assert t * (k + 1.0) == g;
    var u := 2.0 * g - t * k;
    assert u == g + t;
    assert 2.0 * slope + curve == -(t * u);
    PositiveProduct(t, u, t * u);
  }

  /** Unless the normal equations hold, a short step along their defect lowers the error. */
  lemma Descent(X: Matrix, y: Vector, b: Vector, g: Vector)
    requires Rect(X, |b|) && |y| == |X|
    requires g == Moments(X, |b|, Residual(X, y, b)) && Dot(g, g) > 0.0
    ensures exists c: Vector :: |c| == |b| && SquaredError(X, y, c) < SquaredError(X, y, b)
  {
    var f := Mul(X, g);
    SquareNonNeg(f);
    var t := Dot(g, g) / (Dot(f, f) + 1.0);
    var d := Scale(-t, g);
    ErrorOfShift(X, y, b, d);
    DotScaleRight(g, -t, g);
    MulScale(X, -t, g);
    ScaledDot(-t, f, -t, f);
    DescentStep(Dot(g, g), Dot(f, f), t, Dot(g, d), Dot(Mul(X, d), Mul(X, d)));
  }

  /** The least-squares coefficients are exactly the solutions of the normal equations. */
  lemma MinimisesIffNormal(X: Matrix, y: Vector, b: Vector)
    requires Rect(X, |b|) && |y| == |X|
    ensures Minimises(X, y, b) <==> Normal(X, y, b)
  {
    if Normal(X, y, b) { NormalMinimises(X, y, b); }
    if Minimises(X, y, b) {
      var g := Moments(X, |b|, Residual(X, y, b));
      if Dot(g, g) > 0.0 { Descent(X, y, b, g); }
      SquareZero(g);
    }
  }

  lemma UniqueMinimiser(X: Matrix, y: Vector, b: Vector, c: Vector)
    requires Normal(X, y, b) && Minimises(X, y, c) && |c| == |b|
    requires Independent(X, |b|)
    ensures c == b
  {
    var d := Sub(b, c);
    Pythagoras(X, y, b, c);
    SquareZero(Mul(X, d));
    assert d == Zero(|b|);
    forall i | 0 <= i < |b| ensures c[i] == b[i] { assert d[i] == 0.0; }
  }

  // ---------- The fit through the inverse ----------

  function Coefficients(X: Matrix, p: nat, y: Vector, G: Matrix): (b: Vector)
    requires Rect(X, p) && |y| == |X| && |G| == p && Rect(G, p)
    ensures |b| == p
  {
    Mul(G, Moments(X, p, y))
  }

  /** The sum over a and b of x[a] * inverse[a][b] * x[b]. */
  function Leverage(x: Vector, G: Matrix): real
    requires |G| == |x| && Rect(G, |x|)
  {
    Dot(x, Mul(G, x))
  }

  ghost predicate FitInverse(X: Matrix, p: nat, G: Matrix) {
    Rect(X, p) && |G| == p && Inverts(G, Gram(X, p))
  }

  lemma MomentsSub(X: Matrix, p: nat, u: Vector, v: Vector)
    requires Rect(X, p) && |u| == |v| == |X|
    ensures Moments(X, p, Sub(u, v)) == Sub(Moments(X, p, u), Moments(X, p, v))
  {
    MulSub(Transpose(X, p), u, v);
  }

  lemma CoefficientsNormal(X: Matrix, p: nat, y: Vector, G: Matrix)
    requires FitInverse(X, p, G) && |y| == |X|
    ensures Normal(X, y, Coefficients(X, p, y, G))
  {
    var b := Coefficients(X, p, y, G);
    GramAction(X, b);
    MomentsSub(X, p, y, Mul(X, b));
    UndoRight(G, Gram(X, p), Moments(X, p, y));
  }

  lemma InvertibleIsIndependent(X: Matrix, p: nat, G: Matrix)
    requires FitInverse(X, p, G)
    ensures Independent(X, p)
  {
    forall v: Vector | |v| == p && Mul(X, v) == Zero(|X|) ensures v == Zero(p) {
      GramAction(X, v);
      MulZero(Transpose(X, p), |X|);
      MulZero(G, p);
      UndoLeft(G, Gram(X, p), v);
    }
  }

  lemma MulZero(X: Matrix, n: nat)
    requires Rect(X, n)
    ensures Mul(X, Zero(n)) == Zero(|X|)
  {
    forall i | 0 <= i < |X| ensures Mul(X, Zero(n))[i] == 0.0 {
      DotZero(n, X[i]); DotComm(Zero(n), X[i]);
    }
  }

  // ---------- Leverage ----------

  /** The hat column X G x_i has square h_i, and its own entry i is h_i. */
  lemma HatColumn(X: Matrix, p: nat, G: Matrix, i: nat)
    requires FitInverse(X, p, G) && i < |X|
    ensures var f := Mul(X, Mul(G, X[i]));
            f[i] == Leverage(X[i], G) && Dot(f, f) == Leverage(X[i], G)
  {
    var w := Mul(G, X[i]);
    Adjoint(X, p, Mul(X, w), w);
    GramAction(X, w);
    UndoRight(G, Gram(X, p), X[i]);
  }

  lemma AtMostOne(h: real, s: real)
    requires s == h * h && h >= s
    ensures 0.0 <= h <= 1.0
  {
    Square(h, s);
    if h > 1.0 { PositiveProduct(h, h - 1.0, s - h); }
  }

  lemma LeverageBounds(X: Matrix, p: nat, G: Matrix, i: nat)
    requires FitInverse(X, p, G) && i < |X|
    ensures 0.0 <= Leverage(X[i], G) <= 1.0
  {
    HatColumn(X, p, G, i);
    var f := Mul(X, Mul(G, X[i]));
    SquareBound(f, i);
    AtMostOne(f[i], f[i] * f[i]);
  }

  /** One minus the leverage is at most the squared distance of the unit vector of the row from any fit. */
  lemma LeverageGap(X: Matrix, p: nat, G: Matrix, i: nat, v: Vector)
    requires FitInverse(X, p, G) && i < |X| && |v| == p
    ensures var gap := Sub(Unit(|X|, i), Mul(X, v)); 1.0 - Leverage(X[i], G) <= Dot(gap, gap)
  {
    var e, f, u := Unit(|X|, i), Mul(X, Mul(G, X[i])), Mul(X, v);
    HatColumn(X, p, G, i);
    GramForm(X, Mul(G, X[i]), v);
    UndoRight(G, Gram(X, p), X[i]);
    assert Dot(f, u) == u[i];
    DotUnit(|X|, i, u);
    DotUnit(|X|, i, e);
    SquareSub(e, u);
    SquareSub(f, u);
    SquareNonNeg(Sub(f, u));
  }

  /** The leverages sum to the number of coefficients. */
  lemma LeverageTotal(X: Matrix, p: nat, G: Matrix)
    requires FitInverse(X, p, G)
    ensures Sum(seq(|X|, i requires 0 <= i < |X| => Leverage(X[i], G))) == p as real
  {
    var Z := seq(|X|, i requires 0 <= i < |X| => Mul(G, X[i]));
    RowsOrColumns(X, Z, p);
    assert seq(|X|, i requires 0 <= i < |X| => Leverage(X[i], G))
        == seq(|X|, i requires 0 <= i < |X| => Dot(X[i], Z[i]));
    var cols := seq(p, a requires 0 <= a < p => Dot(Col(X, a), Col(Z, a)));
    forall a | 0 <= a < p ensures cols[a] == 1.0 {
      TraceEntry(X, p, G, Z, a);
    }
    assert cols == seq(p, i => 1.0);
    SumConst(p, 1.0);
  }

  lemma TraceEntry(X: Matrix, p: nat, G: Matrix, Z: Matrix, a: nat)
    requires FitInverse(X, p, G) && a < p
    requires |Z| == |X| && Rect(Z, p) && forall i :: 0 <= i < |X| ==> Z[i] == Mul(G, X[i])
    ensures Dot(Col(X, a), Col(Z, a)) == 1.0
  {
    assert Col(Z, a) == Mul(X, G[a]) by {
      forall i | 0 <= i < |X| ensures Col(Z, a)[i] == Mul(X, G[a])[i] { DotComm(G[a], X[i]); }
    }
    GramAction(X, G[a]);
    assert Mul(Gram(X, p), G[a]) == Unit(p, a);
    assert Moments(X, p, Mul(X, G[a]))[a] == Dot(Col(X, a), Mul(X, G[a]));
  }

  // ---------- Leave-one-out: the PRESS identity ----------

  lemma GramWithout(X: Matrix, p: nat, i: nat, d: Vector)
    requires Rect(X, p) && i < |X| && |d| == p
    ensures Rect(Without(X, i), p)
    ensures Moments(Without(X, i), p, Mul(Without(X, i), d))
         == Sub(Mul(Gram(X, p), d), Scale(Dot(X[i], d), X[i]))
  {
    MulWithout(X, d, i);
    TransposeWithout(X, p, Mul(X, d), i);
    GramAction(X, d);
  }

  /** The closed-form leave-one-out error of a row with residual e and leverage h. */
  function LooError(e: real, h: real): real
    requires h != 1.0
  {
    e / (1.0 - h)
  }

  function DeletedCoefficients(X: Matrix, p: nat, y: Vector, G: Matrix, i: nat): (b: Vector)
    requires Rect(X, p) && |y| == |X| && |G| == p && Rect(G, p) && i < |X|
    requires Leverage(X[i], G) != 1.0
    ensures |b| == p
  {
    var e := Residual(X, y, Coefficients(X, p, y, G))[i];
    Sub(Coefficients(X, p, y, G), Scale(LooError(e, Leverage(X[i], G)), Mul(G, X[i])))
  }

  lemma Cancel(e: real, h: real, s: real)
    requires h != 1.0 && s == LooError(e, h)
    ensures s == e + Times(s, h)
  {
    assert s * (1.0 - h) == e;
  }

  lemma ShiftedResidualAt(X: Matrix, p: nat, y: Vector, G: Matrix, i: nat, b: Vector, s: real)
    requires FitInverse(X, p, G) && i < |X| && |b| == p && Normal(X, y, b)
    requires s == Residual(X, y, b)[i] + Times(s, Leverage(X[i], G))
    ensures y[i] - Dot(X[i], Sub(b, Scale(s, Mul(G, X[i])))) == s
  {
    DotSubRight(X[i], b, Scale(s, Mul(G, X[i])));
    DotScaleRight(X[i], s, Mul(G, X[i]));
  }

  lemma ShiftedMoments(X: Matrix, p: nat, y: Vector, G: Matrix, i: nat, b: Vector, s: real)
    requires FitInverse(X, p, G) && i < |X| && |b| == p && Normal(X, y, b)
    ensures Moments(X, p, Residual(X, y, Sub(b, Scale(s, Mul(G, X[i]))))) == Scale(s, X[i])
  {
    var w := Mul(G, X[i]);
    var f := Mul(X, w);
    ResidualShift(X, y, b, Scale(s, w));
    MulScale(X, s, w);
    MulAdd(Transpose(X, p), Residual(X, y, b), Scale(s, f));
    MulScale(Transpose(X, p), s, f);
    GramAction(X, w);
    UndoRight(G, Gram(X, p), X[i]);
  }

  /** Moving the fit by s G x_i, with s fixed by s = e_i + s h_i, solves the normal equations
      of the other rows and leaves the residual s at row i. */
  lemma ShiftedFit(X: Matrix, p: nat, y: Vector, G: Matrix, i: nat, b: Vector, s: real)
    requires FitInverse(X, p, G) && i < |X| && |b| == p && Normal(X, y, b)
    requires s == Residual(X, y, b)[i] + Times(s, Leverage(X[i], G))
    ensures Normal(Without(X, i), Without(y, i), Sub(b, Scale(s, Mul(G, X[i]))))
    ensures y[i] - Dot(X[i], Sub(b, Scale(s, Mul(G, X[i])))) == s
  {
    var c := Sub(b, Scale(s, Mul(G, X[i])));
    var r := Residual(X, y, c);
    ShiftedResidualAt(X, p, y, G, i, b, s);
    ShiftedMoments(X, p, y, G, i, b, s);
    TransposeWithout(X, p, r, i);
    MulWithout(X, c, i);
    assert Residual(Without(X, i), Without(y, i), c) == Without(r, i);
  }

  lemma DeletedNormal(X: Matrix, p: nat, y: Vector, G: Matrix, i: nat)
    requires FitInverse(X, p, G) && |y| == |X| && i < |X|
    requires Leverage(X[i], G) != 1.0
    ensures Normal(Without(X, i), Without(y, i), DeletedCoefficients(X, p, y, G, i))
    ensures y[i] - Dot(X[i], DeletedCoefficients(X, p, y, G, i))
         == LooError(Residual(X, y, Coefficients(X, p, y, G))[i], Leverage(X[i], G))
  {
    var b := Coefficients(X, p, y, G);
    var e, h := Residual(X, y, b)[i], Leverage(X[i], G);
    var s := LooError(e, h);
    assert Normal(X, y, b) by { CoefficientsNormal(X, p, y, G); }
    assert s == e + Times(s, h) by { Cancel(e, h, s); }
    assert DeletedCoefficients(X, p, y, G, i) == Sub(b, Scale(s, Mul(G, X[i])));
    ShiftedFit(X, p, y, G, i, b, s);
  }

  /** Deleting row i keeps the design full rank exactly when its leverage is below one. */
  lemma DeletionKeepsRank(X: Matrix, p: nat, G: Matrix, i: nat)
    requires FitInverse(X, p, G) && i < |X|
    ensures Rect(Without(X, i), p)
    ensures Independent(Without(X, i), p) <==> Leverage(X[i], G) < 1.0
  {
    var X' := Without(X, i);
    var h := Leverage(X[i], G);
    LeverageBounds(X, p, G, i);
    if h == 1.0 {
      var w := Mul(G, X[i]);
      var f := Mul(X, w);
      HatColumn(X, p, G, i);
      DotWithout(f, f, i);
      MulWithout(X, w, i);
      SquareZero(Without(f, i));
      assert Mul(X', w) == Zero(|X'|);
      if w == Zero(p) { DotZero(p, X[i]); DotComm(X[i], w); assert false; }
    } else {
      forall d: Vector | |d| == p && Mul(X', d) == Zero(|X'|) ensures d == Zero(p) {
        KernelAfterDeletion(X, p, G, i, d);
      }
    }
  }

  lemma KernelAfterDeletion(X: Matrix, p: nat, G: Matrix, i: nat, d: Vector)
    requires FitInverse(X, p, G) && i < |X| && Leverage(X[i], G) != 1.0
    requires |d| == p && Rect(Without(X, i), p)
    requires Mul(Without(X, i), d) == Zero(|X| - 1)
    ensures d == Zero(p)
  {
    var c, w := Dot(X[i], d), Mul(G, X[i]);
    GramWithout(X, p, i, d);
    MulZero(Transpose(Without(X, i), p), |X| - 1);
    var Ad := Mul(Gram(X, p), d);
    assert Ad == Scale(c, X[i]) by {
      forall a | 0 <= a < p ensures Ad[a] == Scale(c, X[i])[a] {
        assert Sub(Ad, Scale(c, X[i]))[a] == 0.0;
      }
    }
    MulScale(G, c, X[i]);
    UndoLeft(G, Gram(X, p), d);
    assert d == Scale(c, w);
    DotScaleRight(X[i], c, w);
    NoFixedPoint(c, Leverage(X[i], G));
  }

  lemma NoFixedPoint(c: real, h: real)
    requires h != 1.0 && c == Times(c, h)
    ensures c == 0.0
  {
    var t := 1.0 - h;
    assert c * t == 0.0;
    assert c == (c * t) / t;
  }

  /** PRESS: every least-squares fit of the other rows has residual e_i / (1 - h_i) at row i. */
  lemma DeletedResidual(X: Matrix, p: nat, y: Vector, G: Matrix, i: nat, c: Vector)
    requires FitInverse(X, p, G) && |y| == |X| && i < |X|
    requires Leverage(X[i], G) < 1.0
    requires |c| == p && Minimises(Without(X, i), Without(y, i), c)
    ensures c == DeletedCoefficients(X, p, y, G, i)
    ensures y[i] - Dot(X[i], c)
         == LooError(Residual(X, y, Coefficients(X, p, y, G))[i], Leverage(X[i], G))
  {
    DeletedNormal(X, p, y, G, i);
    DeletionKeepsRank(X, p, G, i);
    UniqueMinimiser(Without(X, i), Without(y, i), DeletedCoefficients(X, p, y, G, i), c);
  }
}
