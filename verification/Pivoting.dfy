/** When the elimination reports "collinear channels", for every design and whatever rows it swaps:
    it pivots among the columns by what is left of them after an oblique projection, and raises
    exactly when no column is left to choose. */
module Pivoting {
  import opened RealFacts
  import opened LinearAlgebra
  import opened GaussJordan
  import opened LeastSquares
  import opened Wrappers
  import opened Regression
  import opened Collinearity

  // ---------- Row operations lose nothing ----------

  /** w is the combination of the rows of m with these coefficients. */
  ghost predicate Makes(m: Matrix, coef: Vector, w: Vector)
    requires Shape(m, |m|)
  {
    |coef| == |m| && Mul(Transpose(m, 2 * |m|), coef) == w
  }

  /** Whatever the rows of [A | I] make, the rows of m make. */
  ghost predicate Spanning(A: Matrix, m: Matrix)
    requires Rect(A, |A|) && Shape(m, |m|)
  {
    forall d, w :: Makes(Augmented(A), d, w) ==> exists coef :: Makes(m, coef, w)
  }

  lemma MadeEntry(m: Matrix, coef: Vector, w: Vector, c: nat)
    requires Shape(m, |m|) && Makes(m, coef, w) && c < 2 * |m|
    ensures |w| == 2 * |m| && w[c] == Dot(Col(m, c), coef)
  {
    assert w == Mul(Transpose(m, 2 * |m|), coef);
  }

  lemma DotMinus(u: Vector, v: Vector, i: nat)
    requires |u| == |v| && i < |u|
    ensures Dot(u, v) == Dot(Without(u, i), Without(v, i)) + Times(u[i], v[i])
  {
    DotWithout(u, v, i);
  }

  lemma DotUpdate(u: Vector, v: Vector, i: nat, a: real, b: real)
    requires |u| == |v| && i < |u|
    ensures Dot(u[i := a], v[i := b]) == Dot(u, v) - Times(u[i], v[i]) + Times(a, b)
  {
    var u', v' := u[i := a], v[i := b];
    DotMinus(u, v, i);
    DotMinus(u', v', i);
    assert Without(u', i) == Without(u, i) && Without(v', i) == Without(v, i);
  }

  function Exchanged<T>(s: seq<T>, i: nat, k: nat): (r: seq<T>)
    requires i < |s| && k < |s|
    ensures |r| == |s|
  {
    s[i := s[k]][k := s[i]]
  }

  lemma DotExchanged(u: Vector, v: Vector, i: nat, k: nat)
    requires |u| == |v| && i < |u| && k < |u|
    ensures Dot(Exchanged(u, i, k), Exchanged(v, i, k)) == Dot(u, v)
  {
    DotUpdate(u, v, i, u[k], v[k]);
    DotUpdate(u[i := u[k]], v[i := v[k]], k, u[i], v[i]);
  }

  lemma MakesExchanged(m: Matrix, i: nat, k: nat, coef: Vector, w: Vector)
    requires Shape(m, |m|) && i < |m| && k < |m| && Makes(m, coef, w)
    ensures Makes(Exchanged(m, i, k), Exchanged(coef, i, k), w)
  {
    var e := Exchanged(m, i, k);
    forall c | 0 <= c < 2 * |m| ensures Dot(Col(e, c), Exchanged(coef, i, k)) == w[c] {
      assert Col(e, c) == Exchanged(Col(m, c), i, k);
      DotExchanged(Col(m, c), coef, i, k);
      MadeEntry(m, coef, w, c);
    }
    assert Mul(Transpose(e, 2 * |m|), Exchanged(coef, i, k)) == w;
  }

  /** Divide row i by its pivot and clear column i in the other rows. */
  function Pivoted(e: Matrix, i: nat): (m: Matrix)
    requires Shape(e, |e|) && i < |e| && e[i][i] != 0.0
    ensures Shape(m, |e|)
  {
    ClearedFrom(e[i := Divided(e[i], i, e[i][i])], i, 0)
  }

  lemma StageIsPivoted(m: Matrix, i: nat, s: nat)
    requires Shape(m, |m|) && i < |m| && s < |m| && m[s][i] != 0.0
    ensures Exchanged(m, i, s)[i] == m[s] && Stage(m, i, s) == Pivoted(Exchanged(m, i, s), i)
  {
  }

  lemma PivotedRow(e: Matrix, i: nat, r: nat)
    requires Shape(e, |e|) && i < |e| && e[i][i] != 0.0 && r < |e|
    ensures var prow := Divided(e[i], i, e[i][i]);
            Pivoted(e, i)[r] == if r == i then prow else Cleared(e[r], prow, i)
  {
  }

  lemma DividedEntry(row: Vector, i: nat, c: nat)
    requires i < |row| && c < |row| && row[i] != 0.0 && forall b :: 0 <= b < i ==> row[b] == 0.0
    ensures Times(Divided(row, i, row[i])[c], row[i]) == row[c]
    ensures c < i ==> Divided(row, i, row[i])[c] == 0.0
  {
  }

  lemma TimesComm(x: real, y: real)
    ensures Times(x, y) == Times(y, x)
  {
  }

  lemma PivotedEntry(e: Matrix, i: nat, r: nat, c: nat)
    requires Shape(e, |e|) && i < |e| && e[i][i] != 0.0 && r < |e| && r != i && c < 2 * |e|
    requires forall b :: 0 <= b < i ==> e[i][b] == 0.0
    ensures Pivoted(e, i)[r][c] == e[r][c] - Times(Pivoted(e, i)[i][c], e[r][i])
  {
    PivotedRow(e, i, i);
    PivotedRow(e, i, r);
    DividedEntry(e[i], i, c);
    TimesComm(e[r][i], Pivoted(e, i)[i][c]);
  }

  lemma PivotedColumn(e: Matrix, i: nat, c: nat)
    requires Shape(e, |e|) && i < |e| && e[i][i] != 0.0 && c < 2 * |e|
    requires forall b :: 0 <= b < i ==> e[i][b] == 0.0
    ensures var m := Pivoted(e, i);
            Col(m, c) == Sub(Col(e, c), Scale(m[i][c], Col(e, i)))[i := m[i][c]]
    ensures Times(Pivoted(e, i)[i][c], e[i][i]) == e[i][c]
  {
    var m := Pivoted(e, i);
    PivotedRow(e, i, i);
    DividedEntry(e[i], i, c);
    forall r | 0 <= r < |e| && r != i ensures m[r][c] == e[r][c] - Times(m[i][c], e[r][i]) {
      PivotedEntry(e, i, r, c);
    }
  }

  lemma MakesPivoted(e: Matrix, i: nat, coef: Vector, w: Vector)
    requires Shape(e, |e|) && i < |e| && e[i][i] != 0.0 && Makes(e, coef, w)
    requires forall b :: 0 <= b < i ==> e[i][b] == 0.0
    ensures Makes(Pivoted(e, i), coef[i := w[i]], w)
  {
    var m := Pivoted(e, i);
    forall c | 0 <= c < 2 * |e| ensures Dot(Col(m, c), coef[i := w[i]]) == w[c] {
      ColumnMakes(e, i, coef, w, c);
    }
    assert Mul(Transpose(m, 2 * |e|), coef[i := w[i]]) == w;
  }

  lemma ColumnMakes(e: Matrix, i: nat, coef: Vector, w: Vector, c: nat)
    requires Shape(e, |e|) && i < |e| && e[i][i] != 0.0 && c < 2 * |e| && Makes(e, coef, w)
    requires forall b :: 0 <= b < i ==> e[i][b] == 0.0
    ensures Dot(Col(Pivoted(e, i), c), coef[i := w[i]]) == w[c]
  {
    var q := Pivoted(e, i)[i][c];
    var u := Sub(Col(e, c), Scale(q, Col(e, i)));
    PivotedColumn(e, i, c);
    DotUpdate(u, coef, i, q, w[i]);
    DotSub(Col(e, c), Scale(q, Col(e, i)), coef);
    DotScale(q, Col(e, i), coef);
    MadeEntry(e, coef, w, c);
    MadeEntry(e, coef, w, i);
    assert u[i] == 0.0 && Times(u[i], coef[i]) == 0.0;
  }

  lemma StageSpans(A: Matrix, m: Matrix, i: nat, s: nat)
    requires Progress(A, m, i) && i <= s < |A| && m[s][i] != 0.0 && Spanning(A, m)
    ensures Spanning(A, Stage(m, i, s))
  {
    forall d, w | Makes(Augmented(A), d, w) ensures exists coef :: Makes(Stage(m, i, s), coef, w) {
      var coef :| Makes(m, coef, w);
      var e := Exchanged(m, i, s);
      MakesExchanged(m, i, s, coef, w);
      assert forall b :: 0 <= b < i ==> e[i][b] == 0.0;
      MakesPivoted(e, i, Exchanged(coef, i, s), w);
      StageIsPivoted(m, i, s);
    }
  }

  // ---------- Which columns have been used ----------

  /** order lists the columns: those before position i have been pivots, the others wait. */
  ghost predicate IsOrder(order: seq<nat>, p: nat) {
    |order| == p && forall k :: 0 <= k < p ==> order[k] < p
  }

  /** X h is the waiting column at position r plus a combination of the used ones, and orthogonal
      to the first i columns. */
  ghost predicate IsOblique(X: Matrix, p: nat, order: seq<nat>, i: nat, r: nat, h: Vector)
    requires Rect(X, p) && IsOrder(order, p)
  {
    && i <= r < p && |h| == p
    && (forall s :: i <= s < p ==> h[order[s]] == if s == r then 1.0 else 0.0)
    && forall c :: 0 <= c < i ==> Mul(Gram(X, p), h)[c] == 0.0
  }

  /** The right block has its unit columns at the waiting ones. */
  ghost predicate Waiting(m: Matrix, order: seq<nat>, i: nat)
    requires Shape(m, |m|) && IsOrder(order, |m|)
  {
    forall r: nat, s: nat :: r < |m| && i <= s < |m| ==> UnitAt(m, order, r, s)
  }

  ghost predicate UnitAt(m: Matrix, order: seq<nat>, r: nat, s: nat)
    requires Shape(m, |m|) && IsOrder(order, |m|) && r < |m| && s < |m|
  {
    m[r][|m| + order[s]] == if r == s then 1.0 else 0.0
  }

  /** What the elimination has reached after i stages. */
  ghost predicate Reached(X: Matrix, p: nat, m: Matrix, order: seq<nat>, i: nat) {
    && Rect(X, p) && Progress(Gram(X, p), m, i) && IsOrder(order, p)
    && Waiting(m, order, i) && Spanning(Gram(X, p), m)
  }

  /** The waiting rows hold oblique residuals, and in column i their products with it. */
  lemma RowIsOblique(X: Matrix, p: nat, m: Matrix, order: seq<nat>, i: nat, r: nat)
    requires Reached(X, p, m, order, i) && i <= r < p
    ensures IsOblique(X, p, order, i, r, m[r][p..]) && m[r][i] == Mul(Gram(X, p), m[r][p..])[i]
  {
    var A, h := Gram(X, p), m[r][p..];
    GramSymmetric(X, p);
    TransposeSymmetric(A);
    assert Linked(A, m[r]);
    forall c | 0 <= c < p ensures m[r][c] == Mul(A, h)[c] {
      assert Transpose(A, p)[c] == Col(A, c);
    }
    forall s | i <= s < p ensures h[order[s]] == if s == r then 1.0 else 0.0 {
      assert UnitAt(m, order, r, s);
    }
  }

  lemma AugmentedColumns(A: Matrix, d: Vector, c: nat)
    requires Rect(A, |A|) && Symmetric(A) && |d| == |A| && c < |A|
    ensures Dot(Col(Augmented(A), c), d) == Mul(A, d)[c] && Dot(Col(Augmented(A), |A| + c), d) == d[c]
  {
    forall r | 0 <= r < |A|
      ensures Augmented(A)[r][c] == A[c][r] && Augmented(A)[r][|A| + c] == Unit(|A|, c)[r]
    {
      assert Augmented(A)[r] == A[r] + Unit(|A|, r);
    }
    assert Col(Augmented(A), c) == A[c];
    assert Col(Augmented(A), |A| + c) == Unit(|A|, c);
    DotUnit(|A|, c, d);
  }

  /** Each coefficient can be read off the unit column of its row. */
  lemma CoefAt(A: Matrix, m: Matrix, order: seq<nat>, i: nat, coef: Vector, w: Vector, r: nat)
    requires Progress(A, m, i) && IsOrder(order, |m|) && Waiting(m, order, i) && r < |m| && Makes(m, coef, w)
    ensures |w| == 2 * |m| && coef[r] == if r < i then w[r] else w[|m| + order[r]]
  {
    var c := if r < i then r else |m| + order[r];
    forall k: nat | k < |m| ensures m[k][c] == if k == r then 1.0 else 0.0 {
      if r >= i { assert UnitAt(m, order, k, r); }
    }
    assert Col(m, c) == Unit(|m|, r);
    DotUnit(|m|, r, coef);
    MadeEntry(m, coef, w, c);
  }

  /** Rows that make the augmented row of d are all unused when d is supported on the used columns
      and orthogonal to the first i. */
  lemma CoefsZero(A: Matrix, m: Matrix, order: seq<nat>, i: nat, d: Vector, coef: Vector, w: Vector)
    requires Symmetric(A) && Progress(A, m, i) && IsOrder(order, |A|) && Waiting(m, order, i) && |d| == |A|
    requires Makes(Augmented(A), d, w) && Makes(m, coef, w)
    requires forall s :: i <= s < |A| ==> d[order[s]] == 0.0
    requires forall c :: 0 <= c < i ==> Mul(A, d)[c] == 0.0
    ensures forall r :: 0 <= r < |A| ==> coef[r] == 0.0
  {
    forall r | 0 <= r < |A| ensures coef[r] == 0.0 {
      var c := if r < i then r else order[r];
      CoefAt(A, m, order, i, coef, w, r);
      AugmentedColumns(A, d, c);
      MadeEntry(Augmented(A), d, w, if r < i then c else |A| + c);
    }
  }

  /** Nothing but zero is supported on the used columns and orthogonal to the first i. */
  lemma ObliqueZero(X: Matrix, p: nat, m: Matrix, order: seq<nat>, i: nat, d: Vector)
    requires Reached(X, p, m, order, i) && |d| == p
    requires forall s :: i <= s < p ==> d[order[s]] == 0.0
    requires forall c :: 0 <= c < i ==> Mul(Gram(X, p), d)[c] == 0.0
    ensures d == Zero(p)
  {
    var A := Gram(X, p);
    var w := Mul(Transpose(Augmented(A), 2 * p), d);
    GramSymmetric(X, p);
    assert Makes(Augmented(A), d, w);
    var coef :| Makes(m, coef, w);
    CoefsZero(A, m, order, i, d, coef, w);
    forall k | 0 <= k < p ensures d[k] == 0.0 { ZeroMade(A, m, d, coef, w, k); }
  }

  lemma ZeroMade(A: Matrix, m: Matrix, d: Vector, coef: Vector, w: Vector, k: nat)
    requires Symmetric(A) && Shape(m, |A|) && |d| == |A| && k < |A|
    requires Makes(Augmented(A), d, w) && Makes(m, coef, w) && forall r :: 0 <= r < |A| ==> coef[r] == 0.0
    ensures d[k] == 0.0
  {
    AugmentedColumns(A, d, k);
    MadeEntry(Augmented(A), d, w, |A| + k);
    MadeEntry(m, coef, w, |A| + k);
    DotNoTerm(Col(m, |A| + k), coef);
  }

  lemma ObliqueUnique(X: Matrix, p: nat, m: Matrix, order: seq<nat>, i: nat, r: nat, g: Vector, h: Vector)
    requires Reached(X, p, m, order, i) && IsOblique(X, p, order, i, r, g) && IsOblique(X, p, order, i, r, h)
    ensures g == h
  {
    var d := Sub(g, h);
    MulSub(Gram(X, p), g, h);
    ObliqueZero(X, p, m, order, i, d);
    forall k | 0 <= k < p ensures g[k] == h[k] { assert d[k] == Zero(p)[k]; }
  }

  // ---------- The choice of a pivot ----------

  /** What the code demands of a pivot: its own column may be at the tolerance, another one not. */
  predicate BigEnough(own: bool, v: real) {
    var t := 0.000000000001;
    if own then v <= -t || v >= t else v < -t || v > t
  }

  /** The column waiting at position r can be the pivot of stage i. */
  ghost predicate Usable(X: Matrix, p: nat, order: seq<nat>, i: nat, r: nat)
    requires Rect(X, p) && IsOrder(order, p) && i < p
  {
    exists h :: IsOblique(X, p, order, i, r, h) && BigEnough(r == i, Mul(Gram(X, p), h)[i])
  }

  ghost predicate FirstUsable(X: Matrix, p: nat, order: seq<nat>, i: nat, r: nat)
    requires Rect(X, p) && IsOrder(order, p) && i < p
  {
    Usable(X, p, order, i, r) && forall s: nat :: i <= s < r ==> !Usable(X, p, order, i, s)
  }

  /** From stage i on, some stage finds no usable column, when each takes the first one. */
  ghost predicate GetsStuck(X: Matrix, p: nat, order: seq<nat>, i: nat)
    requires Rect(X, p) && IsOrder(order, p) && i <= p
    decreases p - i
  {
    i < p && forall r: nat :: i <= r < p && FirstUsable(X, p, order, i, r) ==>
                              GetsStuck(X, p, Exchanged(order, i, r), i + 1)
  }

  lemma UsableIff(X: Matrix, p: nat, m: Matrix, order: seq<nat>, i: nat, r: nat)
    requires Reached(X, p, m, order, i) && i <= r < p
    ensures Usable(X, p, order, i, r) <==> BigEnough(r == i, m[r][i])
  {
    RowIsOblique(X, p, m, order, i, r);
    forall h | IsOblique(X, p, order, i, r, h) ensures h == m[r][p..] {
      ObliqueUnique(X, p, m, order, i, r, h, m[r][p..]);
    }
  }

  lemma {:induction false} FindsFirst(m: Matrix, i: nat, r: nat, k: nat)
    requires Shape(m, |m|) && i < |m| && r <= k < |m|
    ensures FindSwap(m, i, r) == Some(k) <==>
              Abs(m[k][i]) > TOLERANCE && forall s :: r <= s < k ==> Abs(m[s][i]) <= TOLERANCE
    decreases |m| - r
  {
    if r < k { FindsFirst(m, i, r + 1, k); }
  }

  /** The code takes the first entry of column i that is big enough. */
  lemma PivotIsFirst(m: Matrix, i: nat, r: nat)
    requires Shape(m, |m|) && i <= r < |m|
    ensures PivotRow(m, i) == Some(r) <==>
              BigEnough(r == i, m[r][i]) && forall s :: i <= s < r ==> !BigEnough(s == i, m[s][i])
  {
    if r > i {
      FindsFirst(m, i, i + 1, r);
      assert PivotRow(m, i) == Some(r) ==> !BigEnough(true, m[i][i]);
    }
  }

  lemma PivotIsFirstUsable(X: Matrix, p: nat, m: Matrix, order: seq<nat>, i: nat, r: nat)
    requires Reached(X, p, m, order, i) && i <= r < p
    ensures PivotRow(m, i) == Some(r) <==> FirstUsable(X, p, order, i, r)
  {
    PivotIsFirst(m, i, r);
    forall s: nat | i <= s <= r ensures Usable(X, p, order, i, s) <==> BigEnough(s == i, m[s][i]) {
      UsableIff(X, p, m, order, i, s);
    }
  }

  lemma ExchangedWaiting(m: Matrix, order: seq<nat>, i: nat, s: nat, r: nat, t: nat)
    requires Shape(m, |m|) && IsOrder(order, |m|) && i <= s < |m| && Waiting(m, order, i) && r < |m| && i < t < |m|
    ensures Exchanged(order, i, s)[t] < |m|
    ensures Exchanged(m, i, s)[r][|m| + Exchanged(order, i, s)[t]] == if r == t then 1.0 else 0.0
  {
    var row, column := if r == i then s else if r == s then i else r, if t == s then i else t;
    assert Exchanged(m, i, s)[r] == m[row] && Exchanged(order, i, s)[t] == order[column];
    assert UnitAt(m, order, row, column);
  }

  lemma PivotedKeeps(e: Matrix, i: nat, r: nat, c: nat)
    requires Shape(e, |e|) && i < |e| && e[i][i] != 0.0 && r < |e| && i <= c < 2 * |e| && e[i][c] == 0.0
    ensures Pivoted(e, i)[r][c] == e[r][c]
  {
    var prow := Divided(e[i], i, e[i][i]);
    PivotedRow(e, i, r);
    assert prow[c] == 0.0;
    if r != i { ClearedKeeps(e[r], prow, i, c); }
  }

  lemma WaitingEntry(m: Matrix, order: seq<nat>, i: nat, s: nat, r: nat, t: nat)
    requires Shape(m, |m|) && IsOrder(order, |m|) && i <= s < |m| && m[s][i] != 0.0 && Waiting(m, order, i)
    requires r < |m| && i < t < |m|
    ensures UnitAt(Stage(m, i, s), Exchanged(order, i, s), r, t)
  {
    StageIsPivoted(m, i, s);
    ExchangedWaiting(m, order, i, s, r, t);
    ExchangedWaiting(m, order, i, s, i, t);
    PivotedKeeps(Exchanged(m, i, s), i, r, |m| + Exchanged(order, i, s)[t]);
  }

  lemma StageWaiting(m: Matrix, order: seq<nat>, i: nat, s: nat)
    requires Shape(m, |m|) && IsOrder(order, |m|) && i <= s < |m| && m[s][i] != 0.0 && Waiting(m, order, i)
    ensures Waiting(Stage(m, i, s), Exchanged(order, i, s), i + 1)
  {
    forall r: nat, t: nat | r < |m| && i + 1 <= t < |m|
      ensures UnitAt(Stage(m, i, s), Exchanged(order, i, s), r, t)
    {
      WaitingEntry(m, order, i, s, r, t);
    }
  }

  lemma StageReached(X: Matrix, p: nat, m: Matrix, order: seq<nat>, i: nat, s: nat)
    requires Reached(X, p, m, order, i) && i < p && PivotRow(m, i) == Some(s)
    ensures IsOrder(Exchanged(order, i, s), p)
    ensures Reached(X, p, Stage(m, i, s), Exchanged(order, i, s), i + 1)
    ensures Reduce(m, i) == Reduce(Stage(m, i, s), i + 1)
  {
    StageProgress(Gram(X, p), m, i, s);
    StageWaiting(m, order, i, s);
    StageSpans(Gram(X, p), m, i, s);
  }

  lemma {:induction false} RaisesFrom(X: Matrix, p: nat, m: Matrix, order: seq<nat>, i: nat)
    requires Reached(X, p, m, order, i)
    ensures Reduce(m, i) == None <==> GetsStuck(X, p, order, i)
    decreases p - i
  {
    if i < p {
      forall r: nat | i <= r < p ensures PivotRow(m, i) == Some(r) <==> FirstUsable(X, p, order, i, r) {
        PivotIsFirstUsable(X, p, m, order, i, r);
      }
      if PivotRow(m, i).Some? {
        var s := PivotRow(m, i).value;
        StageReached(X, p, m, order, i, s);
        RaisesFrom(X, p, Stage(m, i, s), Exchanged(order, i, s), i + 1);
      }
    }
  }

  // ---------- Every design ----------

  function InOrder(p: nat): (order: seq<nat>)
    ensures IsOrder(order, p)
  {
    seq(p, k requires 0 <= k < p => k)
  }

  /** While nothing has been swapped, what is left of a column is its residual. */
  lemma ResidualIsOblique(X: Matrix, p: nat, i: nat, r: nat, h: Vector)
    requires Rect(X, p)
    ensures IsOblique(X, p, InOrder(p), i, r, h) <==> IsResidual(X, p, i, r, h)
  {
    if IsOblique(X, p, InOrder(p), i, r, h) {
      forall c | i <= c < p ensures h[c] == if c == r then 1.0 else 0.0 { assert InOrder(p)[c] == c; }
    }
  }

  lemma StartReached(X: Matrix, p: nat)
    requires Rect(X, p)
    ensures Reached(X, p, Augmented(Gram(X, p)), InOrder(p), 0)
  {
    AugmentedProgress(Gram(X, p));
    StartUntouched(Gram(X, p));
  }

  /** For every design: the fit raises exactly when some stage finds every waiting column, less the
      combination of the used ones that makes it orthogonal to the first ones, too nearly orthogonal
      to the next. */
  lemma RaisesIff(columns: Matrix, n: nat)
    requires Rect(columns, n)
    ensures Inverse(GramOf(columns, n)) == None <==>
              GetsStuck(Design(columns, n), |columns| + 1, InOrder(|columns| + 1), 0)
  {
    StartReached(Design(columns, n), |columns| + 1);
    RaisesFrom(Design(columns, n), |columns| + 1, Augmented(GramOf(columns, n)), InOrder(|columns| + 1), 0);
  }
}
