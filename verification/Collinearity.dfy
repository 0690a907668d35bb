/** When the elimination gets through and when it reports "collinear channels": for every design,
    in terms of how far each column lies from the span of the columns before it. */
module Collinearity {
  import opened LinearAlgebra
  import opened GaussJordan
  import opened LeastSquares
  import opened Wrappers
  import opened Regression

  /** g takes column i once and no later column. */
  ghost predicate UpTo(g: Vector, i: nat) {
    i < |g| && g[i] == 1.0 && forall c :: i < c < |g| ==> g[c] == 0.0
  }

  /** Column i keeps a squared distance of at least the tolerance from the span of the earlier ones. */
  ghost predicate KeepsDistance(X: Matrix, p: nat, i: nat)
    requires Rect(X, p) && i < p
  {
    forall g: Vector :: |g| == p && UpTo(g, i) ==> Dot(Mul(X, g), Mul(X, g)) >= TOLERANCE
  }

  ghost predicate ApartFrom(X: Matrix, p: nat, i: nat)
    requires Rect(X, p)
  {
    forall j: nat :: i <= j < p ==> KeepsDistance(X, p, j)
  }

  ghost predicate Apart(X: Matrix, p: nat)
    requires Rect(X, p)
  {
    ApartFrom(X, p, 0)
  }

  /** X h is column r less its projection on the columns before i. */
  ghost predicate IsResidual(X: Matrix, p: nat, i: nat, r: nat, h: Vector)
    requires Rect(X, p)
  {
    && i <= r < p && |h| == p && h[r] == 1.0
    && (forall c :: i <= c < p && c != r ==> h[c] == 0.0)
    && forall c :: 0 <= c < i ==> Mul(Gram(X, p), h)[c] == 0.0
  }

  /** No later column can replace column i as a pivot: what is left of it after projection is
      orthogonal to column i within the tolerance. */
  ghost predicate NoRescue(X: Matrix, p: nat, i: nat)
    requires Rect(X, p) && i < p
  {
    forall r: nat, h: Vector :: i < r && IsResidual(X, p, i, r, h) ==> Abs(Mul(Gram(X, p), h)[i]) <= TOLERANCE
  }

  // ---------- The pivot is a squared distance ----------

  lemma {:induction false} DotOneTerm(u: Vector, v: Vector, i: nat)
    requires |u| == |v| && i < |u|
    requires forall c :: 0 <= c < |u| && c != i ==> u[c] == 0.0 || v[c] == 0.0
    ensures Dot(u, v) == u[i] * v[i]
    decreases u
  {
    if i == 0 {
      DotNoTerm(u[1..], v[1..]);
    } else {
      DotOneTerm(u[1..], v[1..], i - 1);
    }
  }

  lemma {:induction false} DotNoTerm(u: Vector, v: Vector)
    requires |u| == |v| && forall c :: 0 <= c < |u| ==> u[c] == 0.0 || v[c] == 0.0
    ensures Dot(u, v) == 0.0
    decreases u
  {
    if u != [] { DotNoTerm(u[1..], v[1..]); }
  }

  lemma ResidualProduct(X: Matrix, p: nat, i: nat, g: Vector, h: Vector)
    requires Rect(X, p) && IsResidual(X, p, i, i, g) && |h| == p && UpTo(h, i)
    ensures Dot(Mul(X, g), Mul(X, h)) == Mul(Gram(X, p), g)[i]
  {
    GramForm(X, g, h);
    DotOneTerm(Mul(Gram(X, p), g), h, i);
  }

  /** The residual of column i is the shortest way from it to the span of the earlier columns. */
  lemma PivotIsDistance(X: Matrix, p: nat, i: nat, g: Vector)
    requires Rect(X, p) && IsResidual(X, p, i, i, g)
    ensures KeepsDistance(X, p, i) <==> Mul(Gram(X, p), g)[i] >= TOLERANCE
  {
    ResidualProduct(X, p, i, g, g);
    forall h: Vector | |h| == p && UpTo(h, i)
      ensures Dot(Mul(X, h), Mul(X, h)) >= Mul(Gram(X, p), g)[i]
    {
      ResidualProduct(X, p, i, g, h);
      DotComm(Mul(X, g), Mul(X, h));
      SquareSub(Mul(X, h), Mul(X, g));
      SquareNonNeg(Sub(Mul(X, h), Mul(X, g)));
    }
    assert UpTo(g, i);
  }

  // ---------- Stages without a swap ----------

  /** The right block still has its unit columns from i on. */
  ghost predicate Untouched(m: Matrix, i: nat)
    requires Shape(m, |m|)
  {
    forall r, c :: 0 <= r < |m| && |m| + i <= c < 2 * |m| ==> m[r][c] == if c == |m| + r then 1.0 else 0.0
  }

  lemma StageUntouched(m: Matrix, i: nat)
    requires Shape(m, |m|) && i < |m| && m[i][i] != 0.0 && Untouched(m, i)
    ensures Untouched(Stage(m, i, i), i + 1)
  {
    var p, prow := |m|, Divided(m[i], i, m[i][i]);
    assert m[i := m[i]][i := m[i]] == m;
    var d := m[i := prow];
    forall c | p + i + 1 <= c < 2 * p ensures prow[c] == 0.0 { }
    forall r, c | 0 <= r < p && p + i + 1 <= c < 2 * p
      ensures ClearedFrom(d, i, 0)[r][c] == if c == p + r then 1.0 else 0.0
    {
      ClearedKeeps(d[r], prow, i, c);
    }
  }

  lemma ClearedKeeps(row: Vector, prow: Vector, i: nat, c: nat)
    requires |row| == |prow| && i < |row| && c < |row| && prow[c] == 0.0
    ensures Cleared(row, prow, i)[c] == row[c]
  {
  }

  /** The rows from i on hold the residuals of their columns, and in column i the residual products. */
  lemma RowIsResidual(X: Matrix, p: nat, m: Matrix, i: nat, r: nat)
    requires Rect(X, p) && Progress(Gram(X, p), m, i) && Untouched(m, i) && i <= r < p
    ensures IsResidual(X, p, i, r, m[r][p..]) && m[r][i] == Mul(Gram(X, p), m[r][p..])[i]
  {
    var A, g := Gram(X, p), m[r][p..];
    GramSymmetric(X, p);
    TransposeSymmetric(A);
    assert Linked(A, m[r]);
    forall c | 0 <= c < p ensures m[r][c] == Mul(A, g)[c] {
      assert Transpose(A, p)[c] == Col(A, c);
    }
    forall c | i <= c < p ensures g[c] == if c == r then 1.0 else 0.0 {
      assert g[c] == m[r][p + c] && (p + c == p + r <==> c == r);
    }
  }

  /** The first usable row of column i is row i itself exactly when the column keeps its distance. */
  lemma InPlaceIffKeepsDistance(X: Matrix, p: nat, m: Matrix, i: nat)
    requires Rect(X, p) && Progress(Gram(X, p), m, i) && Untouched(m, i) && i < p
    ensures m[i][i] >= 0.0
    ensures KeepsDistance(X, p, i) <==> PivotRow(m, i) == Some(i)
  {
    var g := m[i][p..];
    RowIsResidual(X, p, m, i, i);
    PivotIsDistance(X, p, i, g);
    ResidualProduct(X, p, i, g, g);
    SquareNonNeg(Mul(X, g));
  }

  lemma NextStage(X: Matrix, p: nat, m: Matrix, i: nat)
    requires Rect(X, p) && Progress(Gram(X, p), m, i) && Untouched(m, i) && i < p && PivotRow(m, i) == Some(i)
    ensures Progress(Gram(X, p), Stage(m, i, i), i + 1) && Untouched(Stage(m, i, i), i + 1)
    ensures Reduce(m, i) == Reduce(Stage(m, i, i), i + 1)
  {
    StageProgress(Gram(X, p), m, i, i);
    StageUntouched(m, i);
  }

  /** From stage i on every pivot is used where it stands. */
  ghost predicate NeverSwaps(m: Matrix, i: nat)
    requires Shape(m, |m|) && i <= |m|
    decreases |m| - i
  {
    i == |m| || (PivotRow(m, i) == Some(i) && NeverSwaps(Stage(m, i, i), i + 1))
  }

  lemma {:induction false} NeverSwapsSucceeds(m: Matrix, i: nat)
    requires Shape(m, |m|) && i <= |m| && NeverSwaps(m, i)
    ensures Reduce(m, i).Some?
    decreases |m| - i
  {
    if i < |m| { NeverSwapsSucceeds(Stage(m, i, i), i + 1); }
  }

  lemma ApartLater(X: Matrix, p: nat, i: nat)
    requires Rect(X, p) && i < p
    ensures ApartFrom(X, p, i) <==> KeepsDistance(X, p, i) && ApartFrom(X, p, i + 1)
  {
  }

  lemma {:induction false} NeverSwapsFrom(X: Matrix, p: nat, m: Matrix, i: nat)
    requires Rect(X, p) && Progress(Gram(X, p), m, i) && Untouched(m, i)
    ensures NeverSwaps(m, i) <==> ApartFrom(X, p, i)
    decreases p - i
  {
    if i < p {
      ApartLater(X, p, i);
      InPlaceIffKeepsDistance(X, p, m, i);
      if PivotRow(m, i) == Some(i) {
        NextStage(X, p, m, i);
        NeverSwapsFrom(X, p, Stage(m, i, i), i + 1);
      }
    }
  }

  lemma {:induction false} FindsNone(m: Matrix, i: nat, r: nat)
    requires Shape(m, |m|) && i < |m| && r <= |m|
    ensures FindSwap(m, i, r) == None <==> forall s :: r <= s < |m| ==> Abs(m[s][i]) <= TOLERANCE
    decreases |m| - r
  {
    if r < |m| { FindsNone(m, i, r + 1); }
  }

  /** Two residuals of the same column have the same products with every column. */
  lemma ResidualUnique(X: Matrix, p: nat, i: nat, r: nat, g: Vector, h: Vector)
    requires Rect(X, p) && IsResidual(X, p, i, r, g) && IsResidual(X, p, i, r, h)
    ensures Mul(Gram(X, p), g) == Mul(Gram(X, p), h)
  {
    var A, d := Gram(X, p), Sub(g, h);
    MulSub(A, g, h);
    GramForm(X, d, d);
    DotNoTerm(Mul(A, d), d);
    SquareZero(Mul(X, d));
    GramAction(X, d);
    MulZero(Transpose(X, p), |X|);
    forall c | 0 <= c < p ensures Mul(A, g)[c] == Mul(A, h)[c] {
      assert Sub(Mul(A, g), Mul(A, h))[c] == Zero(p)[c];
    }
  }

  /** At the stage of a close column there is no pivot exactly when no later column can replace it. */
  lemma NoPivotIffNoRescue(X: Matrix, p: nat, m: Matrix, i: nat)
    requires Rect(X, p) && Progress(Gram(X, p), m, i) && Untouched(m, i) && i < p && !KeepsDistance(X, p, i)
    ensures PivotRow(m, i) == None <==> NoRescue(X, p, i)
  {
    InPlaceIffKeepsDistance(X, p, m, i);
    FindsNone(m, i, i + 1);
    forall r: nat | i < r < p ensures IsResidual(X, p, i, r, m[r][p..]) && m[r][i] == Mul(Gram(X, p), m[r][p..])[i] {
      RowIsResidual(X, p, m, i, r);
    }
    forall r: nat, h: Vector | i < r && IsResidual(X, p, i, r, h) ensures Mul(Gram(X, p), h)[i] == m[r][i] {
      ResidualUnique(X, p, i, r, m[r][p..], h);
    }
  }

  /** From stage i on every pivot is used where it stands, until column k has none. */
  ghost predicate RaisesAt(m: Matrix, i: nat, k: nat)
    requires Shape(m, |m|) && i <= k < |m|
    decreases k - i
  {
    if i == k then PivotRow(m, k) == None
    else PivotRow(m, i) == Some(i) && RaisesAt(Stage(m, i, i), i + 1, k)
  }

  lemma {:induction false} RaisingFails(m: Matrix, i: nat, k: nat)
    requires Shape(m, |m|) && i <= k < |m| && RaisesAt(m, i, k)
    ensures Reduce(m, i) == None
    decreases k - i
  {
    if i < k { RaisingFails(Stage(m, i, i), i + 1, k); }
  }

  /** Of the columns from i on, k is the first close one. */
  ghost predicate FirstClose(X: Matrix, p: nat, i: nat, k: nat)
    requires Rect(X, p) && k < p
  {
    !KeepsDistance(X, p, k) && forall j: nat :: i <= j < k ==> KeepsDistance(X, p, j)
  }

  lemma RaisesHere(X: Matrix, p: nat, m: Matrix, k: nat)
    requires Rect(X, p) && Progress(Gram(X, p), m, k) && Untouched(m, k) && k < p
    ensures RaisesAt(m, k, k) <==> FirstClose(X, p, k, k) && NoRescue(X, p, k)
  {
    InPlaceIffKeepsDistance(X, p, m, k);
    if !KeepsDistance(X, p, k) { NoPivotIffNoRescue(X, p, m, k); }
  }

  lemma {:induction false} RaisesAtFrom(X: Matrix, p: nat, m: Matrix, i: nat, k: nat)
    requires Rect(X, p) && Progress(Gram(X, p), m, i) && Untouched(m, i) && i <= k < p
    ensures RaisesAt(m, i, k) <==> FirstClose(X, p, i, k) && NoRescue(X, p, k)
    decreases k - i
  {
    if i == k {
      RaisesHere(X, p, m, k);
    } else {
      FirstCloseLater(X, p, i, k);
      InPlaceIffKeepsDistance(X, p, m, i);
      if PivotRow(m, i) == Some(i) {
        NextStage(X, p, m, i);
        RaisesAtFrom(X, p, Stage(m, i, i), i + 1, k);
      }
    }
  }

  lemma FirstCloseLater(X: Matrix, p: nat, i: nat, k: nat)
    requires Rect(X, p) && i < k < p
    ensures FirstClose(X, p, i, k) <==> KeepsDistance(X, p, i) && FirstClose(X, p, i + 1, k)
  {
  }

  // ---------- Designs with any number of channels ----------

  lemma StartUntouched(A: Matrix)
    requires Rect(A, |A|)
    ensures Untouched(Augmented(A), 0)
  {
    forall r, c | 0 <= r < |A| && |A| <= c < 2 * |A|
      ensures Augmented(A)[r][c] == if c == |A| + r then 1.0 else 0.0
    {
      assert Augmented(A)[r] == A[r] + Unit(|A|, r);
    }
  }

  /** The elimination runs through without a swap exactly when every column keeps its distance. */
  lemma ApartIffNeverSwaps(columns: Matrix, n: nat)
    requires Rect(columns, n)
    ensures Apart(Design(columns, n), |columns| + 1) <==> NeverSwaps(Augmented(GramOf(columns, n)), 0)
    ensures Apart(Design(columns, n), |columns| + 1) ==> Inverse(GramOf(columns, n)).Some?
  {
    AugmentedProgress(GramOf(columns, n));
    StartUntouched(GramOf(columns, n));
    NeverSwapsFrom(Design(columns, n), |columns| + 1, Augmented(GramOf(columns, n)), 0);
    if NeverSwaps(Augmented(GramOf(columns, n)), 0) { NeverSwapsSucceeds(Augmented(GramOf(columns, n)), 0); }
  }

  /** Without a swap before it, column k raises exactly when it is the first close column and no
      later one can replace it. */
  lemma RaisesAtIff(columns: Matrix, n: nat, k: nat)
    requires Rect(columns, n) && k <= |columns|
    ensures RaisesAt(Augmented(GramOf(columns, n)), 0, k) <==>
              && FirstClose(Design(columns, n), |columns| + 1, 0, k)
              && NoRescue(Design(columns, n), |columns| + 1, k)
    ensures RaisesAt(Augmented(GramOf(columns, n)), 0, k) ==> Inverse(GramOf(columns, n)) == None
  {
    AugmentedProgress(GramOf(columns, n));
    StartUntouched(GramOf(columns, n));
    RaisesAtFrom(Design(columns, n), |columns| + 1, Augmented(GramOf(columns, n)), 0, k);
    if RaisesAt(Augmented(GramOf(columns, n)), 0, k) { RaisingFails(Augmented(GramOf(columns, n)), 0, k); }
  }

  ghost predicate NoSwapOffered(X: Matrix, p: nat)
    requires Rect(X, p)
  {
    forall k: nat :: k < p && FirstClose(X, p, 0, k) ==> NoRescue(X, p, k)
  }

  lemma {:induction false} FirstCloseExists(X: Matrix, p: nat, i: nat) returns (k: nat)
    requires Rect(X, p) && i < p && !KeepsDistance(X, p, i)
    ensures k <= i && FirstClose(X, p, 0, k)
    decreases i
  {
    if j: nat :| j < i && !KeepsDistance(X, p, j) {
      k := FirstCloseExists(X, p, j);
    } else {
      k := i;
    }
  }

  /** Unless a swap is on offer at the first close column, the fit raises exactly when some column
      is closer than the tolerance to the span of the earlier ones. */
  lemma RaisesIffClose(columns: Matrix, n: nat)
    requires Rect(columns, n)
    requires NoSwapOffered(Design(columns, n), |columns| + 1)
    ensures Inverse(GramOf(columns, n)) == None <==> !Apart(Design(columns, n), |columns| + 1)
  {
    var X, p := Design(columns, n), |columns| + 1;
    ApartIffNeverSwaps(columns, n);
    if i: nat :| i < p && !KeepsDistance(X, p, i) {
      var k := FirstCloseExists(X, p, i);
      RaisesAtIff(columns, n, k);
    }
  }

  // ---------- A swap can save a close column ----------

  lemma DotOfFours(u: Vector, v: Vector)
    requires |u| == |v| == 4
    ensures Dot(u, v) == u[0] * v[0] + u[1] * v[1] + u[2] * v[2] + u[3] * v[3]
  {
    var u', v' := u[2..], v[2..];
    assert u[1..][1..] == u' && v[1..][1..] == v';
    assert Dot(u'[1..], v'[1..]) == u[3] * v[3] + Dot(u'[1..][1..], v'[1..][1..]);
    assert Dot(u, v) == u[0] * v[0] + (u[1] * v[1] + Dot(u', v'));
  }

  lemma CloseColumns(x: Vector, z: Vector)
    requires |x| == |z| == 4
    ensures var X := Design([x, z], 4); Col(X, 0) == [1.0, 1.0, 1.0, 1.0] && Col(X, 1) == x && Col(X, 2) == z
  {
    var X := Design([x, z], 4);
    forall i | 0 <= i < 4 ensures X[i] == [1.0, x[i], z[i]] { assert X[i] == [1.0] + Col([x, z], i); }
  }

  lemma CloseGram()
    ensures GramOf([[0.0000001, -0.0000001, 0.0, 0.0], [1.0, -1.0, 1.0, -1.0]], 4)
         == [[4.0, 0.0, 0.0], [0.0, 0.00000000000002, 0.0000002], [0.0, 0.0000002, 4.0]]
  {
    var ones, x, z := [1.0, 1.0, 1.0, 1.0], [0.0000001, -0.0000001, 0.0, 0.0], [1.0, -1.0, 1.0, -1.0];
    CloseColumns(x, z);
    DotOfFours(ones, ones); DotOfFours(ones, x); DotOfFours(ones, z);
    DotOfFours(x, x); DotOfFours(x, z); DotOfFours(z, z);
    DotComm(ones, x); DotComm(ones, z); DotComm(x, z);
    GramRow(Design([x, z], 4), 0, [4.0, 0.0, 0.0]);
    GramRow(Design([x, z], 4), 1, [0.0, 0.00000000000002, 0.0000002]);
    GramRow(Design([x, z], 4), 2, [0.0, 0.0000002, 4.0]);
  }

  lemma GramRow(X: Matrix, a: nat, row: Vector)
    requires Rect(X, 3) && a < 3 && |row| == 3
    requires forall b :: 0 <= b < 3 ==> Dot(Col(X, a), Col(X, b)) == row[b]
    ensures Gram(X, 3)[a] == row
  {
  }

  /** Column 0 is cleared already, so the first stage leaves the other rows alone. */
  lemma FirstStage(m0: Matrix)
    requires Shape(m0, 3) && m0[0][0] == 4.0 && m0[1][0] == 0.0 && m0[2][0] == 0.0
    ensures PivotRow(m0, 0) == Some(0) && Stage(m0, 0, 0)[1] == m0[1] && Stage(m0, 0, 0)[2] == m0[2]
  {
    var top := Divided(m0[0], 0, 4.0);
    assert m0[0 := m0[0]][0 := m0[0]] == m0;
    forall r | 1 <= r < 3 ensures Cleared(m0[r], top, 0) == m0[r] { }
    assert Stage(m0, 0, 0)[1] == Cleared(m0[1], top, 0) && Stage(m0, 0, 0)[2] == Cleared(m0[2], top, 0);
  }

  /** The second stage swaps its rows, and what it leaves below is far from zero. */
  lemma SecondStage(m1: Matrix)
    requires Shape(m1, 3) && m1[1][1] == 0.00000000000002 && m1[1][2] == 0.0000002
    requires m1[2][1] == 0.0000002 && m1[2][2] == 4.0
    ensures PivotRow(m1, 1) == Some(2) && Stage(m1, 1, 2)[2][2] == -0.0000002
  {
    assert FindSwap(m1, 1, 2) == Some(2);
    var e, mid := m1[1 := m1[2]][2 := m1[1]], Divided(m1[2], 1, 0.0000002);
    assert e[1] == m1[2] && e[2] == m1[1];
    assert Stage(m1, 1, 2)[2] == Cleared(m1[1], mid, 1);
    assert mid[2] == 20000000.0;
  }

  lemma ThirdStage(m2: Matrix)
    requires Shape(m2, 3) && m2[2][2] == -0.0000002
    ensures Reduce(m2, 2).Some?
  {
    assert PivotRow(m2, 2) == Some(2);
    assert Reduce(m2, 2) == Reduce(Stage(m2, 2, 2), 3);
  }

  lemma SwapGetsThrough(A: Matrix)
    requires A == [[4.0, 0.0, 0.0], [0.0, 0.00000000000002, 0.0000002], [0.0, 0.0000002, 4.0]]
    ensures Inverse(A).Some?
  {
    var m0 := Augmented(A);
    assert m0[0] == A[0] + Unit(3, 0) && m0[1] == A[1] + Unit(3, 1) && m0[2] == A[2] + Unit(3, 2);
    FirstStage(m0);
    var m1 := Stage(m0, 0, 0);
    SecondStage(m1);
    ThirdStage(Stage(m1, 1, 2));
    assert Reduce(m1, 1) == Reduce(Stage(m1, 1, 2), 2);
    assert Reduce(m0, 0) == Reduce(m1, 1);
  }

  lemma SecondColumnClose()
    ensures !KeepsDistance(Design([[0.0000001, -0.0000001, 0.0, 0.0], [1.0, -1.0, 1.0, -1.0]], 4), 3, 1)
  {
    var x, z := [0.0000001, -0.0000001, 0.0, 0.0], [1.0, -1.0, 1.0, -1.0];
    var X, g := Design([x, z], 4), [0.0, 1.0, 0.0];
    forall i | 0 <= i < 4 ensures Mul(X, g)[i] == x[i] {
      assert X[i] == [1.0] + Col([x, z], i);
      DotOneTerm(X[i], g, 1);
    }
    assert Mul(X, g) == x;
    DotOfFours(x, x);
    assert UpTo(g, 1);
  }

  /** A column closer than the tolerance need not raise: here the next one is swapped in. */
  lemma SwapCanRescue()
    ensures var columns := [[0.0000001, -0.0000001, 0.0, 0.0], [1.0, -1.0, 1.0, -1.0]];
            !Apart(Design(columns, 4), 3) && Inverse(GramOf(columns, 4)).Some?
  {
    SecondColumnClose();
    CloseGram();
    SwapGetsThrough(GramOf([[0.0000001, -0.0000001, 0.0, 0.0], [1.0, -1.0, 1.0, -1.0]], 4));
  }
}
