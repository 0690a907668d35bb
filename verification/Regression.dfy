/** The public regression calls: _ols_fit and ols_multichannel_r2. */
module Regression {
  import opened RealFacts
  import opened LinearAlgebra
  import opened GaussJordan
  import opened LeastSquares
  import opened Wrappers

  datatype Failure =
    | TooFewRows | ZeroVariance | ColumnMismatch | SingularDesign | SingularFold

  datatype Fit = Fit(beta: Vector, yHat: Vector, leverage: Vector)

  datatype Report = Report(r2: real, r2Adjusted: real, r2Loo: real, beta: Vector)

  /** A leading 1 and then one entry of every channel. */
  function Design(columns: Matrix, n: nat): (X: Matrix)
    requires Rect(columns, n)
    ensures |X| == n && Rect(X, |columns| + 1)
    ensures forall i :: 0 <= i < n ==> X[i][0] == 1.0
  {
    seq(n, i requires 0 <= i < n => [1.0] + Col(columns, i))
  }

  /** What coefficients b predict for row i: the intercept and each channel by its own factor. */
  lemma DesignPredicts(columns: Matrix, n: nat, b: Vector, i: nat)
    requires Rect(columns, n) && |b| == |columns| + 1 && i < n
    ensures Mul(Design(columns, n), b)[i] == b[0] + Dot(Col(columns, i), b[1..])
  {
    var row := Design(columns, n)[i];
    assert row == [1.0] + Col(columns, i) && row[1..] == Col(columns, i);
  }

  // ---------- The constant fit ----------

  /** The coefficients (c, 0, ..., 0) fit the constant c. */
  lemma InterceptOnly(columns: Matrix, n: nat, c: real)
    requires Rect(columns, n)
    ensures Mul(Design(columns, n), Scale(c, Unit(|columns| + 1, 0))) == Constant(n, c)
  {
    var X, e := Design(columns, n), Unit(|columns| + 1, 0);
    forall i | 0 <= i < n ensures Mul(X, Scale(c, e))[i] == c {
      DotScaleRight(X[i], c, e);
      DotComm(X[i], e);
      DotUnit(|columns| + 1, 0, X[i]);
    }
  }

  lemma FitBeatsMean(columns: Matrix, y: Vector, b: Vector)
    requires |y| > 0 && Rect(columns, |y|)
    requires |b| == |columns| + 1 && Minimises(Design(columns, |y|), y, b)
    ensures 0.0 <= SquaredError(Design(columns, |y|), y, b) <= Variation(y)
  {
    InterceptOnly(columns, |y|, Mean(y));
    var c := Scale(Mean(y), Unit(|columns| + 1, 0));
    assert SquaredError(Design(columns, |y|), y, c) == Variation(y);
    SquareNonNeg(Residual(Design(columns, |y|), y, b));
  }

  lemma {:induction false} OnesDot(n: nat, u: Vector, v: Vector)
    requires |u| == |v| == n && forall i :: 0 <= i < n ==> u[i] == 1.0
    ensures Dot(u, v) == Sum(v)
  {
    if n != 0 { OnesDot(n - 1, u[1..], v[1..]); }
  }

  /** The residuals of a least-squares fit with intercept cancel. */
  lemma ResidualsCancel(columns: Matrix, y: Vector, b: Vector)
    requires Rect(columns, |y|) && |b| == |columns| + 1 && Normal(Design(columns, |y|), y, b)
    ensures Sum(Residual(Design(columns, |y|), y, b)) == 0.0
  {
    var X := Design(columns, |y|);
    var e := Residual(X, y, b);
    assert Moments(X, |b|, e)[0] == Zero(|b|)[0];
    assert Moments(X, |b|, e)[0] == Dot(Col(X, 0), e);
    OnesDot(|y|, Col(X, 0), e);
  }

  lemma SameMean(y: Vector, e: Vector, f: Vector)
    requires |y| == |e| == |f| > 0 && e == Sub(y, f) && Sum(e) == 0.0
    ensures Mean(f) == Mean(y)
  {
    assert y == Add(e, f);
    SumAdd(e, f);
  }

  /** The variation of the response is the error of the fit plus the variation of the fitted values. */
  lemma VariationSplits(columns: Matrix, y: Vector, b: Vector)
    requires |y| > 0 && Rect(columns, |y|) && |b| == |columns| + 1 && Normal(Design(columns, |y|), y, b)
    ensures Variation(y) == SquaredError(Design(columns, |y|), y, b) + Variation(Mul(Design(columns, |y|), b))
  {
    var X := Design(columns, |y|);
    var f, c := Mul(X, b), Scale(Mean(y), Unit(|columns| + 1, 0));
    InterceptOnly(columns, |y|, Mean(y));
    ResidualsCancel(columns, y, b);
    SameMean(y, Residual(X, y, b), f);
    Pythagoras(X, y, b, c);
    MulSub(X, b, c);
    assert Residual(X, y, c) == Deviations(y) && Mul(X, Sub(b, c)) == Deviations(f);
  }

  // ---------- The fit ----------

  function GramOf(columns: Matrix, n: nat): (A: Matrix)
    requires Rect(columns, n)
    ensures |A| == |columns| + 1 && Rect(A, |A|)
  {
    Gram(Design(columns, n), |columns| + 1)
  }

  /** Every least-squares fit of the rows other than i misses y[i] by the given amount. */
  ghost predicate MissesBy(X: Matrix, p: nat, y: Vector, i: nat, miss: real) {
    && Rect(X, p) && |y| == |X| && i < |X| && Rect(Without(X, i), p)
    && forall c: Vector :: |c| == p && Minimises(Without(X, i), Without(y, i), c) ==>
         y[i] - Dot(X[i], c) == miss
  }

  /** Row i may be deleted without losing rank iff its leverage h is below one; then the other
      rows have a least-squares fit, and each such fit misses y[i] by e / (1 - h). */
  ghost predicate PressAt(X: Matrix, p: nat, y: Vector, i: nat, e: real, h: real) {
    && Rect(X, p) && |y| == |X| && i < |X| && Rect(Without(X, i), p)
    && (Independent(Without(X, i), p) <==> h < 1.0)
    && (h < 1.0 ==> exists c: Vector :: |c| == p && Minimises(Without(X, i), Without(y, i), c))
    && (h < 1.0 ==> MissesBy(X, p, y, i, LooError(e, h)))
  }

  /** The hat matrix has its diagonal in [0, 1] and its trace is the number of coefficients. */
  ghost predicate HatDiagonal(X: Matrix, p: nat, leverage: Vector) {
    && |leverage| == |X| && Sum(leverage) == p as real
    && forall i :: 0 <= i < |X| ==> 0.0 <= leverage[i] <= 1.0
  }

  /** What a successful fit promises. */
  ghost predicate Fits(X: Matrix, p: nat, y: Vector, fit: Fit) {
    && Rect(X, p) && |y| == |X| && |fit.beta| == p
    && Minimises(X, y, fit.beta) && Normal(X, y, fit.beta) && Independent(X, p)
    && fit.yHat == Mul(X, fit.beta)
    && HatDiagonal(X, p, fit.leverage)
    && forall i :: 0 <= i < |X| ==> PressAt(X, p, y, i, Residual(X, y, fit.beta)[i], fit.leverage[i])
  }

  function FitWith(X: Matrix, p: nat, y: Vector, G: Matrix): (fit: Fit)
    requires Rect(X, p) && |y| == |X| && |G| == p && Rect(G, p)
    ensures |fit.beta| == p && |fit.yHat| == |fit.leverage| == |X|
  {
    var beta := Coefficients(X, p, y, G);
    Fit(beta, Mul(X, beta), seq(|X|, i requires 0 <= i < |X| => Leverage(X[i], G)))
  }

  lemma PressHolds(X: Matrix, p: nat, y: Vector, G: Matrix, i: nat)
    requires FitInverse(X, p, G) && |y| == |X| && i < |X|
    ensures PressAt(X, p, y, i, Residual(X, y, Coefficients(X, p, y, G))[i], Leverage(X[i], G))
  {
    var e, h := Residual(X, y, Coefficients(X, p, y, G))[i], Leverage(X[i], G);
    DeletionKeepsRank(X, p, G, i);
    if h < 1.0 {
      DeletedNormal(X, p, y, G, i);
      NormalMinimises(Without(X, i), Without(y, i), DeletedCoefficients(X, p, y, G, i));
      var miss := LooError(e, h);
      assert MissesBy(X, p, y, i, miss) by {
        forall c: Vector | |c| == p && Minimises(Without(X, i), Without(y, i), c)
          ensures y[i] - Dot(X[i], c) == miss
        {
          DeletedResidual(X, p, y, G, i, c);
        }
      }
    }
  }

  lemma HatHolds(X: Matrix, p: nat, y: Vector, G: Matrix)
    requires FitInverse(X, p, G) && |y| == |X|
    ensures HatDiagonal(X, p, FitWith(X, p, y, G).leverage)
  {
    LeverageTotal(X, p, G);
    forall i | 0 <= i < |X| ensures 0.0 <= Leverage(X[i], G) <= 1.0 { LeverageBounds(X, p, G, i); }
  }

  lemma FitWithFits(X: Matrix, p: nat, y: Vector, G: Matrix)
    requires Rect(X, p) && |y| == |X| && Inverse(Gram(X, p)) == Some(G)
    ensures Fits(X, p, y, FitWith(X, p, y, G))
  {
    var fit := FitWith(X, p, y, G);
    assert FitInverse(X, p, G) by { GramSymmetric(X, p); InverseInverts(Gram(X, p), G); }
    assert Normal(X, y, fit.beta) by { CoefficientsNormal(X, p, y, G); }
    assert Minimises(X, y, fit.beta) by { NormalMinimises(X, y, fit.beta); }
    assert Independent(X, p) by { InvertibleIsIndependent(X, p, G); }
    assert HatDiagonal(X, p, fit.leverage) by { HatHolds(X, p, y, G); }
    forall i | 0 <= i < |X| ensures PressAt(X, p, y, i, Residual(X, y, fit.beta)[i], fit.leverage[i]) {
      PressHolds(X, p, y, G, i);
    }
  }

  function FitOf(columns: Matrix, y: Vector): (fit: Fit)
    requires Rect(columns, |y|) && Inverse(GramOf(columns, |y|)).Some?
    ensures |fit.beta| == |columns| + 1 && |fit.yHat| == |fit.leverage| == |y|
  {
    FitWith(Design(columns, |y|), |columns| + 1, y, Inverse(GramOf(columns, |y|)).value)
  }

  method OlsFit(columns: Matrix, y: Vector) returns (r: Result<Fit, Failure>)
    ensures r.Err? ==> r.error in {ColumnMismatch, SingularDesign}
    ensures r == Err(ColumnMismatch) <==> !Rect(columns, |y|)
    ensures Rect(columns, |y|) ==> (r.Err? <==> Inverse(GramOf(columns, |y|)) == None)
    ensures r.Ok? ==> r.value == FitOf(columns, y) && Fits(Design(columns, |y|), |columns| + 1, y, r.value)
    ensures r.Ok? ==> forall i :: 0 <= i < |y| ==>
      r.value.yHat[i] == r.value.beta[0] + Dot(Col(columns, i), r.value.beta[1..])
  {
    if exists j :: 0 <= j < |columns| && |columns[j]| != |y| { return Err(ColumnMismatch); }
    var X, p := Design(columns, |y|), |columns| + 1;
    var inverse := Invert(Gram(X, p));
    if inverse == None { return Err(SingularDesign); }
    FitWithFits(X, p, y, inverse.value);
    forall i | 0 <= i < |y| { DesignPredicts(columns, |y|, FitWith(X, p, y, inverse.value).beta, i); }
    r := Ok(FitWith(X, p, y, inverse.value));
  }

  /** A design with dependent columns never gets past the elimination. */
  lemma DependentDesignRaises(columns: Matrix, n: nat)
    requires Rect(columns, n)
    requires !Independent(Design(columns, n), |columns| + 1)
    ensures Inverse(GramOf(columns, n)) == None
  {
    var X, p := Design(columns, n), |columns| + 1;
    if Inverse(GramOf(columns, n)).Some? {
      var G := Inverse(GramOf(columns, n)).value;
      GramSymmetric(X, p);
      InverseInverts(Gram(X, p), G);
      InvertibleIsIndependent(X, p, G);
    }
  }

  // ---------- R-squared, adjusted and leave-one-out ----------

  function SquaredLooErrors(y: Vector, fit: Fit): (v: Vector)
    requires |fit.yHat| == |fit.leverage| == |y|
    requires forall i :: 0 <= i < |y| ==> fit.leverage[i] != 1.0
    ensures |v| == |y|
  {
    seq(|y|, i requires 0 <= i < |y| =>
      var miss := LooError(y[i] - fit.yHat[i], fit.leverage[i]);
      miss * miss)
  }

  lemma PressExceedsError(y: Vector, fit: Fit)
    requires |fit.yHat| == |fit.leverage| == |y|
    requires forall i :: 0 <= i < |y| ==> 0.0 <= fit.leverage[i] < 1.0
    ensures Dot(Sub(y, fit.yHat), Sub(y, fit.yHat)) <= Sum(SquaredLooErrors(y, fit))
  {
    var e := Sub(y, fit.yHat);
    DotIsSum(e, e);
    forall i | 0 <= i < |y| ensures Products(e, e)[i] <= SquaredLooErrors(y, fit)[i] {
      QuotientSquare(e[i], 1.0 - fit.leverage[i], LooError(e[i], fit.leverage[i]));
    }
    SumBound(Products(e, e), SquaredLooErrors(y, fit));
  }

  /** The share of the variation that an error leaves explained. */
  function RSquared(error: real, total: real): real
    requires total != 0.0
  {
    1.0 - error / total
  }

  /** R-squared corrected for k channels fitted to n rows. */
  function AdjustedRSquared(r2: real, n: nat, k: nat): real
    requires n >= k + 2
  {
    1.0 - (1.0 - r2) * (n - 1) as real / (n - k - 1) as real
  }

  lemma AdjustmentLowers(r2: real, n: nat, k: nat)
    requires r2 <= 1.0 && n >= k + 2
    ensures AdjustedRSquared(r2, n, k) <= r2
  {
    var u, a, b := 1.0 - r2, (n - 1) as real, (n - k - 1) as real;
    NonNegProduct(u, a - b, u * a - u * b);
    RatioOrder(u * b, u * a, b);
    assert u * b / b == u;
  }

  /** The three scores follow from a fit of a response that varies. */
  ghost predicate Scores(X: Matrix, y: Vector, fit: Fit, report: Report)
    requires |y| == |X| >= |fit.beta| + 1 && |fit.beta| > 0
  {
    && Variation(y) > 0.0
    && Fits(X, |fit.beta|, y, fit) && report.beta == fit.beta
    && (forall i :: 0 <= i < |y| ==> 1.0 - fit.leverage[i] > TOLERANCE)
    && report.r2 == RSquared(SquaredError(X, y, fit.beta), Variation(y))
    && report.r2Adjusted == AdjustedRSquared(report.r2, |y|, |fit.beta| - 1)
    && report.r2Loo == RSquared(Sum(SquaredLooErrors(y, fit)), Variation(y))
  }

  lemma ScoreOrder(columns: Matrix, y: Vector, fit: Fit, report: Report)
    requires |y| >= |columns| + 2 && Rect(columns, |y|) && |fit.beta| == |columns| + 1
    requires Scores(Design(columns, |y|), y, fit, report)
    ensures 0.0 <= report.r2 <= 1.0
    ensures report.r2Loo <= report.r2 && report.r2Adjusted <= report.r2
  {
    var error := SquaredError(Design(columns, |y|), y, fit.beta);
    FitBeatsMean(columns, y, fit.beta);
    UnitRatio(error, Variation(y));
    PressExceedsError(y, fit);
    RatioOrder(error, Sum(SquaredLooErrors(y, fit)), Variation(y));
    AdjustmentLowers(report.r2, |y|, |columns|);
  }

  // ---------- What the scores mean ----------

  /** Enough rows of a response that varies, and a design that the elimination gets through. */
  predicate Solvable(columns: Matrix, y: Vector) {
    && |y| >= |columns| + 2 && Variation(y) != 0.0
    && Rect(columns, |y|) && Inverse(GramOf(columns, |y|)).Some?
  }

  /** Some leverage is within the tolerance of one. */
  predicate HasFullLeverage(fit: Fit) {
    exists i :: 0 <= i < |fit.leverage| && 1.0 - fit.leverage[i] <= TOLERANCE
  }

  /** c is a least-squares fit of the rows other than i. */
  ghost predicate IsRefit(X: Matrix, p: nat, y: Vector, i: nat, c: Vector) {
    && i < |X| == |y| && |c| == p && Rect(Without(X, i), p)
    && Minimises(Without(X, i), Without(y, i), c)
  }

  /** One refit without each row. */
  ghost predicate AreRefits(X: Matrix, p: nat, y: Vector, refits: seq<Vector>) {
    |refits| == |X| == |y| && forall i :: 0 <= i < |y| ==> IsRefit(X, p, y, i, refits[i])
  }

  /** By how much each refit misses the row it did not see. */
  function Misses(X: Matrix, p: nat, y: Vector, refits: seq<Vector>): (v: Vector)
    requires Rect(X, p) && |refits| == |X| == |y| && Rect(refits, p)
    ensures |v| == |y|
  {
    seq(|y|, i requires 0 <= i < |y| => y[i] - Dot(X[i], refits[i]))
  }

  /** The leave-one-out errors that the closed form gives. */
  function LooErrors(y: Vector, fit: Fit): (v: Vector)
    requires |fit.yHat| == |fit.leverage| == |y|
    requires forall i :: 0 <= i < |y| ==> fit.leverage[i] != 1.0
    ensures |v| == |y|
  {
    seq(|y|, i requires 0 <= i < |y| => LooError(y[i] - fit.yHat[i], fit.leverage[i]))
  }

  lemma FittedRow(X: Matrix, p: nat, y: Vector, G: Matrix, i: nat)
    requires FitInverse(X, p, G) && |y| == |X| && i < |X|
    ensures var fit := FitWith(X, p, y, G);
            && y[i] - fit.yHat[i] == Residual(X, y, Coefficients(X, p, y, G))[i]
            && fit.leverage[i] == Leverage(X[i], G)
  {
  }

  lemma DeletedMiss(X: Matrix, p: nat, y: Vector, G: Matrix, i: nat, c: Vector)
    requires FitInverse(X, p, G) && |y| == |X| && i < |X| && Leverage(X[i], G) < 1.0 && IsRefit(X, p, y, i, c)
    ensures y[i] - Dot(X[i], c) == LooError(Residual(X, y, Coefficients(X, p, y, G))[i], Leverage(X[i], G))
  {
    DeletedResidual(X, p, y, G, i, c);
  }

  lemma RefitMisses(X: Matrix, p: nat, y: Vector, G: Matrix, i: nat, c: Vector)
    requires FitInverse(X, p, G) && |y| == |X| && i < |X| && Leverage(X[i], G) < 1.0 && IsRefit(X, p, y, i, c)
    ensures var fit := FitWith(X, p, y, G); y[i] - Dot(X[i], c) == LooError(y[i] - fit.yHat[i], fit.leverage[i])
  {
    DeletedMiss(X, p, y, G, i, c);
    FittedRow(X, p, y, G, i);
  }

  lemma SomeRefit(X: Matrix, p: nat, y: Vector, G: Matrix, i: nat) returns (c: Vector)
    requires FitInverse(X, p, G) && |y| == |X| && i < |X| && Leverage(X[i], G) < 1.0
    ensures IsRefit(X, p, y, i, c)
  {
    c := DeletedCoefficients(X, p, y, G, i);
    DeletedNormal(X, p, y, G, i);
    NormalMinimises(Without(X, i), Without(y, i), c);
  }

  ghost predicate NoFullLeverage(X: Matrix, p: nat, y: Vector, G: Matrix) {
    && FitInverse(X, p, G) && |y| == |X|
    && forall i :: 0 <= i < |X| ==> Leverage(X[i], G) < 1.0
  }

  lemma {:induction false} SomeRefits(X: Matrix, p: nat, y: Vector, G: Matrix, n: nat) returns (refits: seq<Vector>)
    requires NoFullLeverage(X, p, y, G) && n <= |X|
    ensures |refits| == n && forall i :: 0 <= i < n ==> IsRefit(X, p, y, i, refits[i])
  {
    if n == 0 {
      refits := [];
    } else {
      var init := SomeRefits(X, p, y, G, n - 1);
      var c := SomeRefit(X, p, y, G, n - 1);
      refits := init + [c];
      forall i | 0 <= i < n ensures IsRefit(X, p, y, i, refits[i]) {
        assert refits[i] == if i < n - 1 then init[i] else c;
      }
    }
  }

  lemma RefitShape(X: Matrix, p: nat, y: Vector, refits: seq<Vector>)
    requires AreRefits(X, p, y, refits)
    ensures Rect(refits, p)
  {
    forall i | 0 <= i < |refits| ensures |refits[i]| == p { assert IsRefit(X, p, y, i, refits[i]); }
  }

  lemma RefitAt(X: Matrix, p: nat, y: Vector, refits: seq<Vector>, i: nat)
    requires AreRefits(X, p, y, refits) && i < |y|
    ensures IsRefit(X, p, y, i, refits[i])
  {
  }

  lemma PressRow(X: Matrix, p: nat, y: Vector, G: Matrix, i: nat, c: Vector)
    requires NoFullLeverage(X, p, y, G) && i < |y| && IsRefit(X, p, y, i, c)
    ensures y[i] - Dot(X[i], c) == LooErrors(y, FitWith(X, p, y, G))[i]
  {
    RefitMisses(X, p, y, G, i, c);
  }

  /** The leave-one-out errors are the misses of the actual refits, whichever those are. */
  lemma PressIsRefits(X: Matrix, p: nat, y: Vector, G: Matrix, refits: seq<Vector>)
    requires NoFullLeverage(X, p, y, G) && AreRefits(X, p, y, refits)
    ensures Rect(refits, p) && Misses(X, p, y, refits) == LooErrors(y, FitWith(X, p, y, G))
  {
    RefitShape(X, p, y, refits);
    forall i | 0 <= i < |y| ensures Misses(X, p, y, refits)[i] == LooErrors(y, FitWith(X, p, y, G))[i] {
      RefitAt(X, p, y, refits, i);
      PressRow(X, p, y, G, i, refits[i]);
    }
  }

  lemma SquareAt(y: Vector, fit: Fit, i: nat)
    requires |fit.yHat| == |fit.leverage| == |y| && i < |y|
    requires forall i :: 0 <= i < |y| ==> fit.leverage[i] != 1.0
    ensures var miss := LooErrors(y, fit)[i]; SquaredLooErrors(y, fit)[i] == miss * miss
  {
  }

  lemma SquaresOfLoo(y: Vector, fit: Fit)
    requires |fit.yHat| == |fit.leverage| == |y|
    requires forall i :: 0 <= i < |y| ==> fit.leverage[i] != 1.0
    ensures Sum(SquaredLooErrors(y, fit)) == Dot(LooErrors(y, fit), LooErrors(y, fit))
  {
    var loo := LooErrors(y, fit);
    DotIsSum(loo, loo);
    forall i | 0 <= i < |y| ensures Products(loo, loo)[i] == SquaredLooErrors(y, fit)[i] { SquareAt(y, fit, i); }
    assert Products(loo, loo) == SquaredLooErrors(y, fit);
  }

  lemma ShareExplained(error: real, total: real)
    requires total != 0.0
    ensures Times(RSquared(error, total), total) == total - error && Times(1.0 - RSquared(error, total), total) == error
  {
    assert (error / total) * total == error;
  }

  lemma Adjusted(r2: real, n: nat, k: nat)
    requires n >= k + 2
    ensures Times(1.0 - AdjustedRSquared(r2, n, k), (n - k - 1) as real) == Times(1.0 - r2, (n - 1) as real)
  {
    var a, b := (1.0 - r2) * (n - 1) as real, (n - k - 1) as real;
    assert (a / b) * b == a;
  }

  /** The unexplained shares before and after the correction for k channels, by their degrees of freedom. */
  predicate Corrects(r2: real, adjusted: real, n: int, k: int) {
    Times(1.0 - adjusted, (n - k - 1) as real) == Times(1.0 - r2, (n - 1) as real)
  }

  /** r2 is the share of the variation that the fitted values have; the adjusted score weighs the rest by
      its degrees of freedom; the leave-one-out score puts the misses of actual refits in its place. */
  ghost predicate ScoresMean(columns: Matrix, y: Vector, fit: Fit, report: Report)
    requires Rect(columns, |y|) && |y| >= |columns| + 2 && |fit.yHat| == |y|
  {
    var n, k := |y|, |columns|;
    && Times(report.r2, Variation(y)) == Variation(fit.yHat)
    && Corrects(report.r2, report.r2Adjusted, n, k)
    && RefitScore(Design(columns, n), k + 1, y, report.r2Loo)
  }

  /** There are refits, and whichever one takes, their squared misses stand in for the unexplained share. */
  ghost predicate RefitScore(X: Matrix, p: nat, y: Vector, r2Loo: real)
    requires Rect(X, p) && |y| == |X| > 0
  {
    && (exists refits :: AreRefits(X, p, y, refits))
    && forall refits :: AreRefits(X, p, y, refits) ==> LeftBy(X, p, y, r2Loo, refits)
  }

  predicate LeftBy(X: Matrix, p: nat, y: Vector, r2Loo: real, refits: seq<Vector>)
    requires Rect(X, p) && |y| == |X| > 0
  {
    && |refits| == |X| && Rect(refits, p)
    && Times(1.0 - r2Loo, Variation(y)) == Dot(Misses(X, p, y, refits), Misses(X, p, y, refits))
  }

  lemma FitExplains(columns: Matrix, y: Vector, b: Vector, r2: real)
    requires |y| > 0 && Rect(columns, |y|) && |b| == |columns| + 1 && Normal(Design(columns, |y|), y, b)
    requires Variation(y) != 0.0 && r2 == RSquared(SquaredError(Design(columns, |y|), y, b), Variation(y))
    ensures Times(r2, Variation(y)) == Variation(Mul(Design(columns, |y|), b))
  {
    VariationSplits(columns, y, b);
    ShareExplained(SquaredError(Design(columns, |y|), y, b), Variation(y));
  }

  lemma RefitsExplain(X: Matrix, p: nat, y: Vector, G: Matrix, r2Loo: real, refits: seq<Vector>)
    requires |y| > 0 && NoFullLeverage(X, p, y, G) && AreRefits(X, p, y, refits) && Variation(y) != 0.0
    requires r2Loo == RSquared(Sum(SquaredLooErrors(y, FitWith(X, p, y, G))), Variation(y))
    ensures LeftBy(X, p, y, r2Loo, refits)
  {
    PressIsRefits(X, p, y, G, refits);
    SquaresOfLoo(y, FitWith(X, p, y, G));
    ShareExplained(Sum(SquaredLooErrors(y, FitWith(X, p, y, G))), Variation(y));
  }

  lemma RefitsScore(X: Matrix, p: nat, y: Vector, G: Matrix, r2Loo: real)
    requires |y| > 0 && NoFullLeverage(X, p, y, G) && Variation(y) != 0.0
    requires r2Loo == RSquared(Sum(SquaredLooErrors(y, FitWith(X, p, y, G))), Variation(y))
    ensures RefitScore(X, p, y, r2Loo)
  {
    var some := SomeRefits(X, p, y, G, |y|);
    assert AreRefits(X, p, y, some);
    forall refits | AreRefits(X, p, y, refits) ensures LeftBy(X, p, y, r2Loo, refits) {
      RefitsExplain(X, p, y, G, r2Loo, refits);
    }
  }

  lemma InverseFits(columns: Matrix, y: Vector)
    requires Solvable(columns, y) && !HasFullLeverage(FitOf(columns, y))
    ensures NoFullLeverage(Design(columns, |y|), |columns| + 1, y, Inverse(GramOf(columns, |y|)).value)
  {
    var X, p, G := Design(columns, |y|), |columns| + 1, Inverse(GramOf(columns, |y|)).value;
    GramSymmetric(X, p);
    InverseInverts(Gram(X, p), G);
    forall i | 0 <= i < |X| ensures Leverage(X[i], G) < 1.0 {
      assert Leverage(X[i], G) == FitOf(columns, y).leverage[i];
    }
  }

  lemma FitIsNormal(X: Matrix, p: nat, y: Vector, G: Matrix)
    requires NoFullLeverage(X, p, y, G)
    ensures var fit := FitWith(X, p, y, G); |fit.beta| == p && Normal(X, y, fit.beta) && fit.yHat == Mul(X, fit.beta)
  {
    CoefficientsNormal(X, p, y, G);
  }

  lemma R2Explains(columns: Matrix, y: Vector, G: Matrix, fit: Fit, r2: real)
    requires Rect(columns, |y|) && |y| > 0 && Variation(y) != 0.0
    requires NoFullLeverage(Design(columns, |y|), |columns| + 1, y, G)
    requires fit == FitWith(Design(columns, |y|), |columns| + 1, y, G)
    requires r2 == RSquared(SquaredError(Design(columns, |y|), y, fit.beta), Variation(y))
    ensures Times(r2, Variation(y)) == Variation(fit.yHat)
  {
    FitIsNormal(Design(columns, |y|), |columns| + 1, y, G);
    FitExplains(columns, y, fit.beta, r2);
  }

  lemma LooExplains(X: Matrix, p: nat, y: Vector, G: Matrix, fit: Fit, r2Loo: real)
    requires |y| > 0 && NoFullLeverage(X, p, y, G) && Variation(y) != 0.0 && fit == FitWith(X, p, y, G)
    requires r2Loo == RSquared(Sum(SquaredLooErrors(y, fit)), Variation(y))
    ensures RefitScore(X, p, y, r2Loo)
  {
    RefitsScore(X, p, y, G, r2Loo);
  }

  lemma AdjustedExplains(r2: real, adjusted: real, n: nat, k: nat)
    requires n >= k + 2 && adjusted == AdjustedRSquared(r2, n, k)
    ensures Corrects(r2, adjusted, n, k)
  {
    Adjusted(r2, n, k);
  }

  lemma ScoresExplain(columns: Matrix, y: Vector, G: Matrix, fit: Fit, report: Report)
    requires Rect(columns, |y|) && |y| >= |columns| + 2 && Variation(y) != 0.0
    requires NoFullLeverage(Design(columns, |y|), |columns| + 1, y, G)
    requires fit == FitWith(Design(columns, |y|), |columns| + 1, y, G)
    requires report.r2 == RSquared(SquaredError(Design(columns, |y|), y, fit.beta), Variation(y))
    requires Corrects(report.r2, report.r2Adjusted, |y|, |columns|)
    requires report.r2Loo == RSquared(Sum(SquaredLooErrors(y, fit)), Variation(y))
    ensures ScoresMean(columns, y, fit, report)
  {
    R2Explains(columns, y, G, fit, report.r2);
    LooExplains(Design(columns, |y|), |columns| + 1, y, G, fit, report.r2Loo);
  }

  ghost predicate LosesRank(X: Matrix, p: nat, i: nat) {
    i < |X| && Rect(Without(X, i), p) && !Independent(Without(X, i), p)
  }

  /** "singular design matrix in LOO fold" is reported exactly when a fold is singular, if and only
      if some leverage is one or all of them clear the tolerance. */
  lemma FoldVerdictRightIff(columns: Matrix, y: Vector)
    requires Solvable(columns, y)
    ensures var fit := FitOf(columns, y);
            (HasFullLeverage(fit) <==> exists i: nat :: LosesRank(Design(columns, |y|), |fit.beta|, i))
            <==> (exists i :: 0 <= i < |y| && fit.leverage[i] == 1.0) || forall i :: 0 <= i < |y| ==> fit.leverage[i] < 1.0 - TOLERANCE
  {
    var X, p, G := Design(columns, |y|), |columns| + 1, Inverse(GramOf(columns, |y|)).value;
    GramSymmetric(X, p);
    InverseInverts(Gram(X, p), G);
    forall i: nat | i < |y|
      ensures FitOf(columns, y).leverage[i] <= 1.0 && Rect(Without(X, i), p)
      ensures LosesRank(X, p, i) <==> FitOf(columns, y).leverage[i] == 1.0
    {
      LeverageBounds(X, p, G, i);
      DeletionKeepsRank(X, p, G, i);
    }
  }

  /** What the report says of a fit without a full leverage. */
  ghost predicate Reports(columns: Matrix, y: Vector, fit: Fit, report: Report)
    requires Solvable(columns, y) && |fit.beta| == |columns| + 1 && |fit.yHat| == |y|
  {
    && Scores(Design(columns, |y|), y, fit, report) && ScoresMean(columns, y, fit, report)
    && 0.0 <= report.r2 <= 1.0 && report.r2Adjusted <= report.r2 && report.r2Loo <= report.r2
  }

  lemma ReportHolds(columns: Matrix, y: Vector, fit: Fit, report: Report)
    requires Solvable(columns, y) && fit == FitOf(columns, y) && !HasFullLeverage(fit)
    requires Fits(Design(columns, |y|), |columns| + 1, y, fit) && report.beta == fit.beta
    requires report.r2 == RSquared(Dot(Sub(y, fit.yHat), Sub(y, fit.yHat)), Variation(y))
    requires report.r2Adjusted == AdjustedRSquared(report.r2, |y|, |columns|)
    requires report.r2Loo == RSquared(Sum(SquaredLooErrors(y, fit)), Variation(y))
    ensures Reports(columns, y, fit, report)
  {
    SquareNonNeg(Deviations(y));
    ScoreOrder(columns, y, fit, report);
    InverseFits(columns, y);
    AdjustedExplains(report.r2, report.r2Adjusted, |y|, |columns|);
    ScoresExplain(columns, y, Inverse(GramOf(columns, |y|)).value, fit, report);
  }

  method OlsMultichannelR2(columns: Matrix, y: Vector) returns (r: Result<Report, Failure>)
    ensures r == Err(TooFewRows) <==> |y| < |columns| + 2
    ensures r == Err(ZeroVariance) <==> |y| >= |columns| + 2 && Variation(y) == 0.0
    ensures r == Err(ColumnMismatch) <==>
      |y| >= |columns| + 2 && Variation(y) != 0.0 && !Rect(columns, |y|)
    ensures r == Err(SingularDesign) <==>
      && |y| >= |columns| + 2 && Variation(y) != 0.0 && Rect(columns, |y|)
      && Inverse(GramOf(columns, |y|)) == None
    ensures r == Err(SingularFold) <==>
      Solvable(columns, y) && exists i :: 0 <= i < |y| && 1.0 - FitOf(columns, y).leverage[i] <= 0.000000000001
    ensures r.Ok? <==> Solvable(columns, y) && !HasFullLeverage(FitOf(columns, y))
    ensures r.Ok? ==> Reports(columns, y, FitOf(columns, y), r.value)
  {
    var n, k := |y|, |columns|;
    if n < k + 2 { return Err(TooFewRows); }
    var total := Variation(y);
    SquareNonNeg(Deviations(y));
    if total == 0.0 { return Err(ZeroVariance); }
    var outcome := OlsFit(columns, y);
    if outcome.Err? { return Err(outcome.error); }
    var fit := outcome.value;
    var error := Dot(Sub(y, fit.yHat), Sub(y, fit.yHat));
    var r2 := RSquared(error, total);
    var r2Adjusted := AdjustedRSquared(r2, n, k);
    if HasFullLeverage(fit) { return Err(SingularFold); }
    var press := Sum(SquaredLooErrors(y, fit));
    var report := Report(r2, r2Adjusted, RSquared(press, total), fit.beta);
    ReportHolds(columns, y, fit, report);
    r := Ok(report);
  }
}
