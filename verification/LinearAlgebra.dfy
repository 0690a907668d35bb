/** Exact real vectors and matrices, as the row lists of src/ztare/experiment_stats.py. */
module LinearAlgebra {
  import opened RealFacts

  type Vector = seq<real>
  type Matrix = seq<Vector>

  predicate Rect(X: Matrix, width: nat) {
    forall i :: 0 <= i < |X| ==> |X[i]| == width
  }

  function Dot(u: Vector, v: Vector): real
    requires |u| == |v|
  {
    if u == [] then 0.0 else u[0] * v[0] + Dot(u[1..], v[1..])
  }

  function Add(u: Vector, v: Vector): (w: Vector)
    requires |u| == |v|
    ensures |w| == |u|
  {
    seq(|u|, i requires 0 <= i < |u| => u[i] + v[i])
  }

  function Scale(c: real, v: Vector): (w: Vector)
    ensures |w| == |v|
  {
    seq(|v|, i requires 0 <= i < |v| => Times(c, v[i]))
  }

  function Sub(u: Vector, v: Vector): (w: Vector)
    requires |u| == |v|
    ensures |w| == |u|
  {
    seq(|u|, i requires 0 <= i < |u| => u[i] - v[i])
  }

  function Zero(n: nat): (w: Vector)
    ensures |w| == n
  {
    seq(n, i => 0.0)
  }

  function Unit(n: nat, k: nat): (w: Vector)
    ensures |w| == n
  {
    seq(n, i => if i == k then 1.0 else 0.0)
  }

  /** Mul(X, v)[i] is the sum over a of X[i][a] * v[a]. */
  function Mul(X: Matrix, v: Vector): (w: Vector)
    requires Rect(X, |v|)
    ensures |w| == |X|
    ensures forall i :: 0 <= i < |X| ==> w[i] == Dot(X[i], v)
  {
    seq(|X|, i requires 0 <= i < |X| => Dot(X[i], v))
  }

  function Col(X: Matrix, a: nat): (w: Vector)
    requires forall i :: 0 <= i < |X| ==> a < |X[i]|
    ensures |w| == |X|
  {
    seq(|X|, i requires 0 <= i < |X| => X[i][a])
  }

  function Transpose(X: Matrix, width: nat): (T: Matrix)
    requires Rect(X, width)
    ensures |T| == width && Rect(T, |X|)
  {
    seq(width, a requires 0 <= a < width => Col(X, a))
  }

  predicate Symmetric(A: Matrix) {
    Rect(A, |A|) && forall i, j :: 0 <= i < |A| && 0 <= j < |A| ==> A[i][j] == A[j][i]
  }

  // ---------- The dot product is a symmetric bilinear form ----------

  lemma {:induction false} DotComm(u: Vector, v: Vector)
    requires |u| == |v|
    ensures Dot(u, v) == Dot(v, u)
  {
    if u != [] { DotComm(u[1..], v[1..]); }
  }

  lemma {:induction false} DotAdd(u: Vector, v: Vector, w: Vector)
    requires |u| == |v| == |w|
    ensures Dot(Add(u, v), w) == Dot(u, w) + Dot(v, w)
  {
    if u != [] {
      assert Add(u, v)[1..] == Add(u[1..], v[1..]);
      DotAdd(u[1..], v[1..], w[1..]);
    }
  }

  lemma ScaleTail(c: real, u: Vector)
    requires u != []
    ensures Scale(c, u)[1..] == Scale(c, u[1..])
  {
    forall i | 0 <= i < |u| - 1 ensures Scale(c, u)[1..][i] == Scale(c, u[1..])[i] {
      assert u[1..][i] == u[i + 1];
    }
  }

  lemma {:induction false} DotScale(c: real, u: Vector, w: Vector)
    requires |u| == |w|
    ensures Dot(Scale(c, u), w) == Times(c, Dot(u, w))
  {
    if u != [] {
      ScaleTail(c, u);
      DotScale(c, u[1..], w[1..]);
      TimesAdd(c, u[0] * w[0], Dot(u[1..], w[1..]));
      assert Times(c, u[0]) * w[0] == Times(c, u[0] * w[0]);
    }
  }

  lemma DotSub(u: Vector, v: Vector, w: Vector)
    requires |u| == |v| == |w|
    ensures Dot(Sub(u, v), w) == Dot(u, w) - Dot(v, w)
  {
    assert Sub(u, v) == Add(u, Scale(-1.0, v));
    DotAdd(u, Scale(-1.0, v), w);
    DotScale(-1.0, v, w);
  }

  lemma DotSubRight(w: Vector, u: Vector, v: Vector)
    requires |u| == |v| == |w|
    ensures Dot(w, Sub(u, v)) == Dot(w, u) - Dot(w, v)
  {
    DotComm(w, Sub(u, v)); DotComm(w, u); DotComm(w, v);
    DotSub(u, v, w);
  }

  lemma DotScaleRight(w: Vector, c: real, u: Vector)
    requires |u| == |w|
    ensures Dot(w, Scale(c, u)) == Times(c, Dot(w, u))
  {
    DotComm(w, Scale(c, u)); DotComm(w, u);
    DotScale(c, u, w);
  }

  lemma {:induction false} DotZero(n: nat, v: Vector)
    requires |v| == n
    ensures Dot(Zero(n), v) == 0.0
  {
    if n != 0 {
      assert Zero(n)[1..] == Zero(n - 1);
      DotZero(n - 1, v[1..]);
    }
  }

  lemma {:induction false} DotUnit(n: nat, k: nat, v: Vector)
    requires |v| == n && k < n
    ensures Dot(Unit(n, k), v) == v[k]
  {
    if k == 0 {
      assert Unit(n, 0)[1..] == Zero(n - 1);
      DotZero(n - 1, v[1..]);
    } else {
      assert Unit(n, k)[1..] == Unit(n - 1, k - 1);
      DotUnit(n - 1, k - 1, v[1..]);
    }
  }

  /** A square is at least the square of any one coordinate. */
  lemma {:induction false} SquareBound(v: Vector, k: nat)
    requires k < |v|
    ensures Dot(v, v) >= v[k] * v[k]
    decreases v
  {
    SquareNonNeg(v[1..]);
    assert v[0] * v[0] >= 0.0;
    if k != 0 { SquareBound(v[1..], k - 1); }
  }

  lemma {:induction false} SquareNonNeg(v: Vector)
    ensures Dot(v, v) >= 0.0
  {
    if v != [] { SquareNonNeg(v[1..]); }
  }

  lemma SquareZero(v: Vector)
    requires Dot(v, v) <= 0.0
    ensures v == Zero(|v|)
  {
    forall k | 0 <= k < |v| ensures v[k] == 0.0 {
      SquareBound(v, k);
      SquareOfZero(v[k], v[k] * v[k]);
    }
  }

  lemma SquareSub(u: Vector, v: Vector)
    requires |u| == |v|
    ensures Dot(Sub(u, v), Sub(u, v)) == Dot(u, u) - 2.0 * Dot(u, v) + Dot(v, v)
  {
    DotSub(u, v, Sub(u, v));
    DotSubRight(u, u, v); DotSubRight(v, u, v); DotComm(u, v);
  }

  lemma SquareAdd(u: Vector, v: Vector)
    requires |u| == |v|
    ensures Dot(Add(u, v), Add(u, v)) == Dot(u, u) + 2.0 * Dot(u, v) + Dot(v, v)
  {
    DotAdd(u, v, Add(u, v));
    DotComm(u, Add(u, v)); DotComm(v, Add(u, v));
    DotAdd(u, v, u); DotAdd(u, v, v); DotComm(u, v);
  }

  lemma ScaledDot(s: real, u: Vector, t: real, v: Vector)
    requires |u| == |v|
    ensures Dot(Scale(s, u), Scale(t, v)) == Times(Times(s, t), Dot(u, v))
  {
    DotScale(s, u, Scale(t, v));
    DotScaleRight(u, t, v);
    TimesAssoc(s, t, Dot(u, v));
  }

  /** Cauchy-Schwarz, from the square of Scale(b, u) - Scale(a, v). */
  lemma CauchySchwarz(u: Vector, v: Vector)
    requires |u| == |v|
    ensures Dot(u, v) * Dot(u, v) <= Dot(u, u) * Dot(v, v)
  {
    var a, b, c := Dot(u, u), Dot(u, v), Dot(v, v);
    SquareNonNeg(u); SquareNonNeg(v);
    if a == 0.0 {
      SquareZero(u);
      DotZero(|u|, v);
    } else {
      var w := Sub(Scale(a, v), Scale(b, u));
      SquareNonNeg(w);
      SquareSub(Scale(a, v), Scale(b, u));
      DotComm(u, v);
      ScaledDot(a, v, a, v); ScaledDot(a, v, b, u); ScaledDot(b, u, b, u);
      var p, q, r := Dot(Scale(a, v), Scale(a, v)), Dot(Scale(a, v), Scale(b, u)), Dot(Scale(b, u), Scale(b, u));
      Discriminant(a, b, c, p, q, r);
    }
  }

  // ---------- Matrices as linear maps ----------

  lemma MulSub(X: Matrix, u: Vector, v: Vector)
    requires |u| == |v| && Rect(X, |u|)
    ensures Mul(X, Sub(u, v)) == Sub(Mul(X, u), Mul(X, v))
  {
    forall i | 0 <= i < |X| ensures Mul(X, Sub(u, v))[i] == Sub(Mul(X, u), Mul(X, v))[i] {
      DotSubRight(X[i], u, v);
    }
  }

  lemma MulAdd(X: Matrix, u: Vector, v: Vector)
    requires |u| == |v| && Rect(X, |u|)
    ensures Mul(X, Add(u, v)) == Add(Mul(X, u), Mul(X, v))
  {
    forall i | 0 <= i < |X| ensures Mul(X, Add(u, v))[i] == Add(Mul(X, u), Mul(X, v))[i] {
      DotComm(X[i], Add(u, v)); DotComm(X[i], u); DotComm(X[i], v);
      DotAdd(u, v, X[i]);
    }
  }

  lemma MulScale(X: Matrix, c: real, v: Vector)
    requires Rect(X, |v|)
    ensures Mul(X, Scale(c, v)) == Scale(c, Mul(X, v))
  {
    forall i | 0 <= i < |X| ensures Mul(X, Scale(c, v))[i] == Scale(c, Mul(X, v))[i] {
      DotScaleRight(X[i], c, v);
    }
  }

  lemma TransposeTail(X: Matrix, width: nat, u: Vector)
    requires Rect(X, width) && |u| == |X| > 0
    ensures Mul(Transpose(X, width), u)
         == Add(Scale(u[0], X[0]), Mul(Transpose(X[1..], width), u[1..]))
  {
    forall a | 0 <= a < width
      ensures Mul(Transpose(X, width), u)[a]
           == Add(Scale(u[0], X[0]), Mul(Transpose(X[1..], width), u[1..]))[a]
    {
      assert Col(X, a)[1..] == Col(X[1..], a);
    }
  }

  /** The transpose is the adjoint: (u, Xv) = (X'u, v). */
  lemma {:induction false} Adjoint(X: Matrix, width: nat, u: Vector, v: Vector)
    requires Rect(X, width) && |u| == |X| && |v| == width
    ensures Dot(u, Mul(X, v)) == Dot(Mul(Transpose(X, width), u), v)
    decreases |X|
  {
    var t := Mul(Transpose(X, width), u);
    if X == [] {
      forall a | 0 <= a < width ensures t[a] == 0.0 { }
      assert t == Zero(width);
      DotZero(width, v);
    } else {
      var rest := Mul(Transpose(X[1..], width), u[1..]);
      TransposeTail(X, width, u);
      DotAdd(Scale(u[0], X[0]), rest, v);
      DotScale(u[0], X[0], v);
      assert Mul(X, v)[1..] == Mul(X[1..], v);
      Adjoint(X[1..], width, u[1..], v);
    }
  }

  lemma TransposeSymmetric(A: Matrix)
    requires Symmetric(A)
    ensures Transpose(A, |A|) == A
  {
    forall a | 0 <= a < |A| ensures Transpose(A, |A|)[a] == A[a] {
      assert forall i :: 0 <= i < |A| ==> Transpose(A, |A|)[a][i] == A[a][i];
    }
  }

  lemma SelfAdjoint(A: Matrix, u: Vector, v: Vector)
    requires Symmetric(A) && |u| == |v| == |A|
    ensures Dot(u, Mul(A, v)) == Dot(Mul(A, u), v)
  {
    Adjoint(A, |A|, u, v);
    TransposeSymmetric(A);
  }

  // ---------- Deleting one row ----------

  function Without<T>(s: seq<T>, i: nat): (r: seq<T>)
    requires i < |s|
    ensures |r| == |s| - 1
  {
    s[..i] + s[i + 1..]
  }

  lemma {:induction false} DotWithout(u: Vector, v: Vector, i: nat)
    requires |u| == |v| && i < |u|
    ensures Dot(Without(u, i), Without(v, i)) == Dot(u, v) - u[i] * v[i]
  {
    if i == 0 {
      assert Without(u, 0) == u[1..] && Without(v, 0) == v[1..];
    } else {
      assert Without(u, i)[0] == u[0] && Without(v, i)[0] == v[0];
      assert Without(u, i)[1..] == Without(u[1..], i - 1);
      assert Without(v, i)[1..] == Without(v[1..], i - 1);
      DotWithout(u[1..], v[1..], i - 1);
    }
  }

  lemma MulWithout(X: Matrix, v: Vector, i: nat)
    requires Rect(X, |v|) && i < |X|
    ensures Rect(Without(X, i), |v|)
    ensures Mul(Without(X, i), v) == Without(Mul(X, v), i)
  {
  }

  lemma TransposeWithout(X: Matrix, width: nat, u: Vector, i: nat)
    requires Rect(X, width) && |u| == |X| && i < |X|
    ensures Rect(Without(X, i), width)
    ensures Mul(Transpose(Without(X, i), width), Without(u, i))
         == Sub(Mul(Transpose(X, width), u), Scale(u[i], X[i]))
  {
    forall a | 0 <= a < width
      ensures Mul(Transpose(Without(X, i), width), Without(u, i))[a]
           == Sub(Mul(Transpose(X, width), u), Scale(u[i], X[i]))[a]
    {
      assert Col(Without(X, i), a) == Without(Col(X, a), i);
      DotWithout(Col(X, a), u, i);
    }
  }

  // ---------- Sums ----------

  function Sum(v: Vector): real {
    if v == [] then 0.0 else v[0] + Sum(v[1..])
  }

  lemma {:induction false} SumAdd(u: Vector, v: Vector)
    requires |u| == |v|
    ensures Sum(Add(u, v)) == Sum(u) + Sum(v)
  {
    if u != [] {
      assert Add(u, v)[1..] == Add(u[1..], v[1..]);
      SumAdd(u[1..], v[1..]);
    }
  }

  lemma {:induction false} SumBound(u: Vector, v: Vector)
    requires |u| == |v|
    requires forall i :: 0 <= i < |u| ==> u[i] <= v[i]
    ensures Sum(u) <= Sum(v)
  {
    if u != [] { SumBound(u[1..], v[1..]); }
  }

  lemma {:induction false} SumConst(n: nat, c: real)
    ensures Sum(seq(n, i => c)) == n as real * c
  {
    if n != 0 {
      var s := seq(n, i => c);
      assert s[1..] == seq(n - 1, i => c);
      SumConst(n - 1, c);
      assert n as real * c == (n - 1) as real * c + c;
    }
  }

  function Products(u: Vector, v: Vector): (w: Vector)
    requires |u| == |v|
    ensures |w| == |u|
    ensures forall i :: 0 <= i < |u| ==> w[i] == u[i] * v[i]
  {
    seq(|u|, i requires 0 <= i < |u| => u[i] * v[i])
  }

  lemma {:induction false} DotIsSum(u: Vector, v: Vector)
    requires |u| == |v|
    ensures Dot(u, v) == Sum(Products(u, v))
  {
    if u != [] {
      var s, t := Products(u, v), Products(u[1..], v[1..]);
      assert forall i :: 0 <= i < |t| ==> s[1..][i] == u[i + 1] * v[i + 1] == t[i];
      assert s[1..] == t;
      DotIsSum(u[1..], v[1..]);
    }
  }

  /** Summing a product table by rows or by columns gives the same total. */
  lemma {:induction false} RowsOrColumns(X: Matrix, Z: Matrix, width: nat)
    requires Rect(X, width) && Rect(Z, width) && |X| == |Z|
    ensures Sum(seq(|X|, i requires 0 <= i < |X| => Dot(X[i], Z[i])))
         == Sum(seq(width, a requires 0 <= a < width => Dot(Col(X, a), Col(Z, a))))
  {
    var rows := seq(|X|, i requires 0 <= i < |X| => Dot(X[i], Z[i]));
    var cols := seq(width, a requires 0 <= a < width => Dot(Col(X, a), Col(Z, a)));
    if X == [] {
      assert cols == seq(width, a => 0.0);
      SumConst(width, 0.0);
    } else {
      var X', Z' := X[1..], Z[1..];
      var cols' := seq(width, a requires 0 <= a < width => Dot(Col(X', a), Col(Z', a)));
      var first := Products(X[0], Z[0]);
      RowsOrColumns(X', Z', width);
      assert rows[1..] == seq(|X'|, i requires 0 <= i < |X'| => Dot(X'[i], Z'[i]));
      DotIsSum(X[0], Z[0]);
      forall a | 0 <= a < width ensures cols[a] == first[a] + cols'[a] {
        assert Col(X, a)[1..] == Col(X', a) && Col(Z, a)[1..] == Col(Z', a);
      }
      assert cols == Add(first, cols');
      SumAdd(first, cols');
    }
  }

  // ---------- Deviations from the mean ----------

  function Constant(n: nat, c: real): (v: Vector)
    ensures |v| == n
  {
    seq(n, i => c)
  }

  function Mean(v: Vector): real
    requires |v| > 0
  {
    Sum(v) / |v| as real
  }

  function Deviations(v: Vector): (d: Vector)
    requires |v| > 0
    ensures |d| == |v|
  {
    Sub(v, Constant(|v|, Mean(v)))
  }

  function Variation(v: Vector): real
    requires |v| > 0
  {
    Dot(Deviations(v), Deviations(v))
  }
}
