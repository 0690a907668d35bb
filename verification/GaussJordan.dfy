/** The Gauss-Jordan inversion inside _ols_fit: conditional row swaps, columns left of the
    pivot untouched, failure when no entry of the pivot column exceeds the tolerance. */
module GaussJordan {
  import opened RealFacts
  import opened LinearAlgebra
  import opened Wrappers

  const TOLERANCE := 0.000000000001

  function Abs(x: real): real {
    if x < 0.0 then -x else x
  }

  predicate Shape(m: Matrix, p: nat) {
    |m| == p && Rect(m, 2 * p)
  }

  function Augmented(A: Matrix): (m: Matrix)
    requires Rect(A, |A|)
    ensures Shape(m, |A|)
  {
    seq(|A|, i requires 0 <= i < |A| => A[i] + Unit(|A|, i))
  }

  /** The first row from r on whose entry in column i exceeds the tolerance. */
  function FindSwap(m: Matrix, i: nat, r: nat): (s: Option<nat>)
    requires Shape(m, |m|) && i < |m| && r <= |m|
    ensures s.Some? ==> r <= s.value < |m| && Abs(m[s.value][i]) > TOLERANCE
    decreases |m| - r
  {
    if r == |m| then None
    else if Abs(m[r][i]) > TOLERANCE then Some(r)
    else FindSwap(m, i, r + 1)
  }

  function PivotRow(m: Matrix, i: nat): (s: Option<nat>)
    requires Shape(m, |m|) && i < |m|
    ensures s.Some? ==> i <= s.value < |m| && m[s.value][i] != 0.0
  {
    if Abs(m[i][i]) < TOLERANCE then FindSwap(m, i, i + 1) else Some(i)
  }

  function Divided(row: Vector, i: nat, pivot: real): (w: Vector)
    requires pivot != 0.0
    ensures |w| == |row|
  {
    seq(|row|, c requires 0 <= c < |row| => if c < i then row[c] else row[c] / pivot)
  }

  function Cleared(row: Vector, prow: Vector, i: nat): (w: Vector)
    requires |row| == |prow| && i < |row|
    ensures |w| == |row|
  {
    seq(|row|, c requires 0 <= c < |row| => if c < i then row[c] else row[c] - Times(row[i], prow[c]))
  }

  function ClearedFrom(m: Matrix, i: nat, from: nat): (m': Matrix)
    requires Shape(m, |m|) && i < |m| && from <= |m|
    ensures Shape(m', |m|)
  {
    seq(|m|, r requires 0 <= r < |m| => if r < from || r == i then m[r] else Cleared(m[r], m[i], i))
  }

  function Stage(m: Matrix, i: nat, s: nat): (m': Matrix)
    requires Shape(m, |m|) && i < |m| && s < |m| && m[s][i] != 0.0
    ensures Shape(m', |m|)
  {
    var e := m[i := m[s]][s := m[i]];
    ClearedFrom(e[i := Divided(e[i], i, e[i][i])], i, 0)
  }

  function Reduce(m: Matrix, i: nat): (o: Option<Matrix>)
    requires Shape(m, |m|) && i <= |m|
    ensures o.Some? ==> Shape(o.value, |m|)
    decreases |m| - i
  {
    if i == |m| then Some(m)
    else match PivotRow(m, i)
      case None => None
      case Some(s) => Reduce(Stage(m, i, s), i + 1)
  }

  function RightBlock(m: Matrix): (G: Matrix)
    requires Shape(m, |m|)
    ensures |G| == |m| && Rect(G, |m|)
  {
    seq(|m|, r requires 0 <= r < |m| => m[r][|m|..])
  }

  function Inverse(A: Matrix): (o: Option<Matrix>)
    requires Rect(A, |A|)
    ensures o.Some? ==> |o.value| == |A| && Rect(o.value, |A|)
  {
    match Reduce(Augmented(A), 0)
    case None => None
    case Some(m) => Some(RightBlock(m))
  }

  // ---------- The invariant: left block = right block * A, first i columns are units ----------

  ghost predicate Linked(A: Matrix, row: Vector)
    requires Rect(A, |A|)
  {
    |row| == 2 * |A| && forall b :: 0 <= b < |A| ==> row[b] == Dot(Col(A, b), row[|A|..])
  }

  ghost predicate UnitColumns(m: Matrix, i: nat)
    requires Shape(m, |m|) && i <= |m|
  {
    forall r, c :: 0 <= r < |m| && 0 <= c < i ==> m[r][c] == if r == c then 1.0 else 0.0
  }

  ghost predicate Progress(A: Matrix, m: Matrix, i: nat) {
    && Rect(A, |A|) && Shape(m, |A|) && i <= |A|
    && UnitColumns(m, i)
    && forall r :: 0 <= r < |A| ==> Linked(A, m[r])
  }

  lemma LinkedScale(A: Matrix, row: Vector, c: real)
    requires Rect(A, |A|) && Linked(A, row)
    ensures Linked(A, Scale(c, row))
  {
    var p := |A|;
    assert Scale(c, row)[p..] == Scale(c, row[p..]) by {
      forall k | 0 <= k < p ensures Scale(c, row)[p..][k] == Scale(c, row[p..])[k] {
        assert row[p..][k] == row[p + k];
      }
    }
    forall b | 0 <= b < p ensures Scale(c, row)[b] == Dot(Col(A, b), Scale(c, row)[p..]) {
      DotScaleRight(Col(A, b), c, row[p..]);
    }
  }

  lemma LinkedSub(A: Matrix, row: Vector, other: Vector)
    requires Rect(A, |A|) && Linked(A, row) && Linked(A, other)
    ensures Linked(A, Sub(row, other))
  {
    var p := |A|;
    assert Sub(row, other)[p..] == Sub(row[p..], other[p..]);
    forall b | 0 <= b < p ensures Sub(row, other)[b] == Dot(Col(A, b), Sub(row, other)[p..]) {
      DotSubRight(Col(A, b), row[p..], other[p..]);
    }
  }

  lemma DivisionScales(x: real, d: real)
    requires d != 0.0
    ensures x / d == Times(1.0 / d, x)
  {
  }

  lemma DividedIsScale(row: Vector, i: nat, pivot: real)
    requires pivot != 0.0 && i <= |row|
    requires forall c :: 0 <= c < i ==> row[c] == 0.0
    ensures Divided(row, i, pivot) == Scale(1.0 / pivot, row)
  {
    forall c | 0 <= c < |row| ensures Divided(row, i, pivot)[c] == Scale(1.0 / pivot, row)[c] {
      DivisionScales(row[c], pivot);
    }
  }

  lemma ClearedIsSub(row: Vector, prow: Vector, i: nat)
    requires |row| == |prow| && i < |row|
    requires forall c :: 0 <= c < i ==> prow[c] == 0.0
    ensures Cleared(row, prow, i) == Sub(row, Scale(row[i], prow))
  {
    forall c | 0 <= c < |row| ensures Cleared(row, prow, i)[c] == Sub(row, Scale(row[i], prow))[c] {
    }
  }

  lemma DivideProgress(A: Matrix, e: Matrix, i: nat)
    requires Progress(A, e, i) && i < |A| && e[i][i] != 0.0
    ensures var prow := Divided(e[i], i, e[i][i]);
            prow[i] == 1.0 && Progress(A, e[i := prow], i)
  {
    DividedIsScale(e[i], i, e[i][i]);
    LinkedScale(A, e[i], 1.0 / e[i][i]);
    forall c | 0 <= c < i ensures Divided(e[i], i, e[i][i])[c] == 0.0 { }
  }

  lemma ClearProgress(A: Matrix, d: Matrix, i: nat)
    requires Progress(A, d, i) && i < |A| && d[i][i] == 1.0
    ensures Progress(A, ClearedFrom(d, i, 0), i + 1)
  {
    var m := ClearedFrom(d, i, 0);
    forall r | 0 <= r < |A| ensures Linked(A, m[r]) {
      if r != i {
        ClearedIsSub(d[r], d[i], i);
        LinkedScale(A, d[i], d[r][i]);
        LinkedSub(A, d[r], Scale(d[r][i], d[i]));
      }
    }
    forall r, c | 0 <= r < |A| && 0 <= c < i + 1 ensures m[r][c] == if r == c then 1.0 else 0.0 {
      if r != i { assert m[r] == Cleared(d[r], d[i], i); }
    }
  }

  lemma StageProgress(A: Matrix, m: Matrix, i: nat, s: nat)
    requires Progress(A, m, i) && i <= s < |A| && m[s][i] != 0.0
    ensures Progress(A, Stage(m, i, s), i + 1)
  {
    var e := m[i := m[s]][s := m[i]];
    assert Progress(A, e, i);
    DivideProgress(A, e, i);
    ClearProgress(A, e[i := Divided(e[i], i, e[i][i])], i);
  }

  lemma {:induction false} ReduceProgress(A: Matrix, m: Matrix, i: nat)
    requires Progress(A, m, i)
    ensures Reduce(m, i).Some? ==> Progress(A, Reduce(m, i).value, |A|)
    decreases |A| - i
  {
    if i < |A| && PivotRow(m, i).Some? {
      var s := PivotRow(m, i).value;
      StageProgress(A, m, i, s);
      ReduceProgress(A, Stage(m, i, s), i + 1);
    }
  }

  lemma AugmentedProgress(A: Matrix)
    requires Rect(A, |A|)
    ensures Progress(A, Augmented(A), 0)
  {
    var p := |A|;
    forall r | 0 <= r < p ensures Linked(A, Augmented(A)[r]) {
      var row := Augmented(A)[r];
      assert row[p..] == Unit(p, r);
      forall b | 0 <= b < p ensures row[b] == Dot(Col(A, b), row[p..]) {
        DotUnit(p, r, Col(A, b));
        DotComm(Unit(p, r), Col(A, b));
      }
    }
  }

  /** For any square A: when no stage fails, row r of the result times A is row r of the identity. */
  lemma InverseIsLeftInverse(A: Matrix, r: nat)
    requires Rect(A, |A|) && Inverse(A).Some? && r < |A|
    ensures Mul(Transpose(A, |A|), Inverse(A).value[r]) == Unit(|A|, r)
  {
    AugmentedProgress(A);
    ReduceProgress(A, Augmented(A), 0);
    var m := Reduce(Augmented(A), 0).value;
    assert Linked(A, m[r]);
    forall b | 0 <= b < |A|
      ensures Mul(Transpose(A, |A|), Inverse(A).value[r])[b] == Unit(|A|, r)[b]
    {
      assert m[r][b] == Dot(Col(A, b), m[r][|A|..]);
    }
  }

  // ---------- Symmetric A: the result is a symmetric two-sided inverse ----------

  /** Row r of G is the solution of A x = e_r; both matrices are symmetric. */
  ghost predicate Inverts(G: Matrix, A: Matrix) {
    && Symmetric(A) && Symmetric(G) && |G| == |A|
    && forall r :: 0 <= r < |A| ==> Mul(A, G[r]) == Unit(|A|, r)
  }

  lemma InverseRows(A: Matrix, G: Matrix, r: nat)
    requires Symmetric(A) && Inverse(A) == Some(G) && r < |A|
    ensures Mul(A, G[r]) == Unit(|A|, r)
  {
    InverseIsLeftInverse(A, r);
    TransposeSymmetric(A);
  }

  lemma InverseSymmetric(A: Matrix, G: Matrix)
    requires Symmetric(A) && Inverse(A) == Some(G)
    ensures Symmetric(G)
  {
    forall r, s | 0 <= r < |A| && 0 <= s < |A| ensures G[r][s] == G[s][r] {
      InverseRows(A, G, r); InverseRows(A, G, s);
      DotUnit(|A|, s, G[r]); DotUnit(|A|, r, G[s]);
      SelfAdjoint(A, G[s], G[r]);
      DotComm(G[s], Unit(|A|, r));
    }
  }

  /** Whenever no stage fails, the right block is a symmetric inverse. */
  lemma InverseInverts(A: Matrix, G: Matrix)
    requires Symmetric(A) && Inverse(A) == Some(G)
    ensures Inverts(G, A)
  {
    InverseSymmetric(A, G);
    forall r | 0 <= r < |A| ensures Mul(A, G[r]) == Unit(|A|, r) { InverseRows(A, G, r); }
  }

  lemma UndoLeft(G: Matrix, A: Matrix, v: Vector)
    requires Inverts(G, A) && |v| == |A|
    ensures Mul(G, Mul(A, v)) == v
  {
    forall r | 0 <= r < |A| ensures Mul(G, Mul(A, v))[r] == v[r] {
      SelfAdjoint(A, G[r], v);
      DotUnit(|A|, r, v);
    }
  }

  lemma UndoRight(G: Matrix, A: Matrix, v: Vector)
    requires Inverts(G, A) && |v| == |A|
    ensures Mul(A, Mul(G, v)) == v
  {
    forall s | 0 <= s < |A| ensures Mul(A, Mul(G, v))[s] == v[s] {
      SelfAdjoint(G, A[s], v);
      assert Mul(G, A[s]) == Unit(|A|, s) by {
        forall r | 0 <= r < |A| ensures Dot(G[r], A[s]) == Unit(|A|, s)[r] {
          assert Mul(A, G[r])[s] == Unit(|A|, r)[s];
          DotComm(G[r], A[s]);
        }
      }
      DotUnit(|A|, s, v);
    }
  }

  // ---------- The elimination as it runs, in place ----------

  method DivideRow(aug: array<Vector>, i: nat, pivot: real)
    requires i < aug.Length && pivot != 0.0 && i <= |aug[i]|
    modifies aug
    ensures aug[..] == old(aug[..])[i := Divided(old(aug[i]), i, pivot)]
  {
    ghost var row := aug[i];
    for c := i to |aug[i]|
      invariant |aug[i]| == |row|
      invariant forall k :: 0 <= k < |row| ==> aug[i][k] == if i <= k < c then Divided(row, i, pivot)[k] else row[k]
      invariant aug[..] == old(aug[..])[i := aug[i]]
    {
      aug[i] := aug[i][c := aug[i][c] / pivot];
    }
    assert aug[i] == Divided(row, i, pivot);
  }

  method ClearRow(aug: array<Vector>, r: nat, i: nat)
    requires i < aug.Length && r < aug.Length && r != i
    requires |aug[r]| == |aug[i]| && i < |aug[i]|
    modifies aug
    ensures aug[..] == old(aug[..])[r := Cleared(old(aug[r]), old(aug[i]), i)]
  {
    ghost var row := aug[r];
    var factor := aug[r][i];
    if factor == 0.0 {
      assert row == Cleared(row, aug[i], i);
      return;
    }
    for c := i to |aug[r]|
      invariant |aug[r]| == |row| && aug[i] == old(aug[i])
      invariant forall k :: 0 <= k < |row| ==> aug[r][k] == if i <= k < c then Cleared(row, aug[i], i)[k] else row[k]
      invariant aug[..] == old(aug[..])[r := aug[r]]
    {
      aug[r] := aug[r][c := aug[r][c] - factor * aug[i][c]];
    }
    assert aug[r] == Cleared(row, aug[i], i);
  }

  method ClearColumn(aug: array<Vector>, i: nat)
    requires Shape(aug[..], aug.Length) && i < aug.Length
    modifies aug
    ensures aug[..] == ClearedFrom(old(aug[..]), i, 0)
  {
    ghost var m := aug[..];
    for r := 0 to aug.Length
      invariant forall k :: 0 <= k < aug.Length ==>
        aug[k] == if k < r then ClearedFrom(m, i, 0)[k] else m[k]
    {
      if r != i {
        ClearRow(aug, r, i);
      }
    }
    assert aug[..] == ClearedFrom(m, i, 0);
  }

  /** Brings a usable pivot to row i, or reports that there is none. */
  method BringPivot(aug: array<Vector>, i: nat) returns (s: Option<nat>)
    requires Shape(aug[..], aug.Length) && i < aug.Length
    modifies aug
    ensures s == PivotRow(old(aug[..]), i)
    ensures aug[..] == match s
                       case None => old(aug[..])
                       case Some(r) => old(aug[..])[i := old(aug[r])][r := old(aug[i])]
  {
    ghost var m := aug[..];
    if Abs(aug[i][i]) >= TOLERANCE { return Some(i); }
    var r := i + 1;
    while r < aug.Length && Abs(aug[r][i]) <= TOLERANCE
      invariant i < r <= aug.Length && FindSwap(m, i, i + 1) == FindSwap(m, i, r)
    {
      r := r + 1;
    }
    if r == aug.Length { return None; }
    aug[i], aug[r] := aug[r], aug[i];
    s := Some(r);
  }

  method RunStage(aug: array<Vector>, i: nat) returns (found: bool)
    requires Shape(aug[..], aug.Length) && i < aug.Length
    modifies aug
    ensures found == PivotRow(old(aug[..]), i).Some?
    ensures found ==> aug[..] == Stage(old(aug[..]), i, PivotRow(old(aug[..]), i).value)
  {
    var s := BringPivot(aug, i);
    if s == None { return false; }
    DivideRow(aug, i, aug[i][i]);
    ClearColumn(aug, i);
    found := true;
  }

  /** None stands for the ValueError "singular design matrix". */
  method Invert(A: Matrix) returns (inverse: Option<Matrix>)
    requires Rect(A, |A|)
    ensures inverse == Inverse(A)
  {
    var p := |A|;
    var aug := new Vector[p](i requires 0 <= i < p => A[i] + Unit(p, i));
    assert aug[..] == Augmented(A);
    for i := 0 to p
      invariant Shape(aug[..], p)
      invariant Reduce(Augmented(A), 0) == Reduce(aug[..], i)
    {
      var found := RunStage(aug, i);
      if !found { return None; }
    }
    inverse := Some(RightBlock(aug[..]));
  }
}
