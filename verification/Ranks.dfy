/** Tie-averaged ranks and Spearman's rho. */
module Ranks {
  import opened RealFacts
  import opened LinearAlgebra
  import opened Ordering
  import opened Lists
  import opened Wrappers

  /** #less + (#equal + 1) / 2, for a value v against the sample. */
  function MidRank(vs: seq<real>, v: real): real {
    (Count(vs, v, false) + Count(vs, v, true) + 1) as real / 2.0
  }

  function RankVector(vs: seq<real>): (r: Vector)
    ensures |r| == |vs|
  {
    seq(|vs|, m requires 0 <= m < |vs| => MidRank(vs, vs[m]))
  }

  lemma BlockRank(vs: seq<real>, idx: seq<nat>, i: nat, j: nat)
    requires idx == SortIndices(vs) && i < j <= |vs|
    requires forall k :: i <= k < j ==> vs[idx[k]] == vs[idx[i]]
    requires i > 0 ==> vs[idx[i - 1]] < vs[idx[i]]
    requires j < |vs| ==> vs[idx[i]] < vs[idx[j]]
    ensures MidRank(vs, vs[idx[i]]) == (i + j - 1) as real / 2.0 + 1.0
  {
    var s, v := Pick(vs, idx), vs[idx[i]];
    SortedBlock(s, i, j);
    SortIndicesCounts(vs, v, false);
    SortIndicesCounts(vs, v, true);
  }

  method FillBlock(ranks: array<real>, idx: seq<nat>, i: nat, j: nat, rank: real)
    requires Distinct(idx) && i <= j < |idx| && forall k :: 0 <= k < |idx| ==> idx[k] < ranks.Length
    modifies ranks
    ensures forall l :: i <= l <= j ==> ranks[idx[l]] == rank
    ensures forall l :: 0 <= l < |idx| && !(i <= l <= j) ==> ranks[idx[l]] == old(ranks[idx[l]])
  {
    for k := i to j + 1
      invariant forall l :: i <= l < k ==> ranks[idx[l]] == rank
      invariant forall l :: 0 <= l < |idx| && !(i <= l < k) ==> ranks[idx[l]] == old(ranks[idx[l]])
    {
      ranks[idx[k]] := rank;
    }
  }

  method AverageRanks(vs: seq<real>) returns (r: seq<real>)
    ensures r == RankVector(vs)
  {
    var n, idx := |vs|, SortIndices(vs);
    var ranks := new real[n](_ => 0.0);
    var i := 0;
    while i < n
      invariant 0 <= i <= n
      invariant 0 < i < n ==> vs[idx[i - 1]] < vs[idx[i]]
      invariant forall k :: 0 <= k < i ==> ranks[idx[k]] == MidRank(vs, vs[idx[k]])
    {
      var j := i;
      while j + 1 < n && vs[idx[j + 1]] == vs[idx[i]]
        invariant i <= j < n
        invariant forall k :: i <= k <= j ==> vs[idx[k]] == vs[idx[i]]
      {
        j := j + 1;
      }
      var averageRank := (i + j) as real / 2.0 + 1.0;
      if j + 1 < n { assert Pick(vs, idx)[i] <= Pick(vs, idx)[j + 1]; }
      BlockRank(vs, idx, i, j + 1);
      FillBlock(ranks, idx, i, j, averageRank);
      i := j + 1;
    }
    forall m | 0 <= m < n ensures ranks[m] == MidRank(vs, vs[m]) {
      assert m in idx;
    }
    r := ranks[..];
  }

  // ---------- The ranks sum to n (n + 1) / 2 ----------

  function SumCounts(a: seq<real>, b: seq<real>, closed: bool): nat {
    if a == [] then 0 else Count(b, a[0], closed) + SumCounts(a[1..], b, closed)
  }

  lemma {:induction false} SumCountsCons(x: real, a: seq<real>, b: seq<real>)
    ensures SumCounts(b, [x] + a, true) == |b| - Count(b, x, false) + SumCounts(b, a, true)
  {
    if b != [] {
      assert ([x] + a)[1..] == a;
      SumCountsCons(x, a, b[1..]);
    }
  }

  lemma OneMoreRow(m: nat, n: nat)
    ensures (m + 1) * n == m * n + n
  {
  }

  /** Of every pair, either the second is below the first or the first is at most the second. */
  lemma {:induction false} PairsSplit(a: seq<real>, b: seq<real>)
    ensures SumCounts(a, b, false) + SumCounts(b, a, true) == |a| * |b|
    decreases a
  {
    if a == [] {
      EmptyCounts(b);
    } else {
      PairsSplit(a[1..], b);
      SumCountsCons(a[0], a[1..], b);
      assert a == [a[0]] + a[1..];
      OneMoreRow(|a| - 1, |b|);
    }
  }

  lemma {:induction false} EmptyCounts(b: seq<real>)
    ensures SumCounts(b, [], true) == 0
  {
    if b != [] { EmptyCounts(b[1..]); }
  }

  lemma {:induction false} SumOfMidRanks(a: seq<real>, vs: seq<real>)
    ensures Sum(seq(|a|, m requires 0 <= m < |a| => MidRank(vs, a[m])))
         == (SumCounts(a, vs, false) + SumCounts(a, vs, true) + |a|) as real / 2.0
  {
    if a != [] {
      var s := seq(|a|, m requires 0 <= m < |a| => MidRank(vs, a[m]));
      assert s[1..] == seq(|a[1..]|, m requires 0 <= m < |a[1..]| => MidRank(vs, a[1..][m]));
      SumOfMidRanks(a[1..], vs);
    }
  }

  lemma RankTotal(vs: seq<real>)
    ensures Sum(RankVector(vs)) == (|vs| * (|vs| + 1)) as real / 2.0
  {
    SumOfMidRanks(vs, vs);
    PairsSplit(vs, vs);
  }

  // ---------- Only the order of the sample matters ----------

  ghost predicate SameOrder(xs: seq<real>, ys: seq<real>) {
    |xs| == |ys| && forall i, j :: 0 <= i < |xs| && 0 <= j < |xs| ==> (xs[i] < xs[j] <==> ys[i] < ys[j])
  }

  lemma {:induction false} CountAligned(a: seq<real>, v: real, b: seq<real>, w: real, closed: bool)
    requires |a| == |b|
    requires forall i :: 0 <= i < |a| ==> (a[i] < v <==> b[i] < w) && (v < a[i] <==> w < b[i])
    ensures Count(a, v, closed) == Count(b, w, closed)
  {
    if a != [] { CountAligned(a[1..], v, b[1..], w, closed); }
  }

  /** A strictly increasing transform of a sample, or any sample ordered alike, has the same ranks. */
  lemma SameOrderSameRanks(xs: seq<real>, ys: seq<real>)
    requires SameOrder(xs, ys)
    ensures RankVector(xs) == RankVector(ys)
  {
    forall m | 0 <= m < |xs| ensures RankVector(xs)[m] == RankVector(ys)[m] {
      CountAligned(xs, xs[m], ys, ys[m], false);
      CountAligned(xs, xs[m], ys, ys[m], true);
    }
  }

  lemma {:induction false} CountRises(s: seq<real>, v: real, w: real, k: nat)
    requires k < |s| && v < w && v <= s[k] < w
    ensures Count(s, v, false) < Count(s, w, false)
    decreases s
  {
    CountMonotone(s[1..], s[1..], v, w, false);
    if k != 0 { CountRises(s[1..], v, w, k - 1); }
  }

  lemma RanksOrdered(vs: seq<real>)
    ensures SameOrder(RankVector(vs), vs)
  {
    forall i, j | 0 <= i < |vs| && 0 <= j < |vs|
      ensures RankVector(vs)[i] < RankVector(vs)[j] <==> vs[i] < vs[j]
    {
      if vs[i] < vs[j] {
        CountRises(vs, vs[i], vs[j], i);
        CountMonotone(vs, vs, vs[i], vs[j], true);
      } else {
        CountMonotone(vs, vs, vs[j], vs[i], false);
        CountMonotone(vs, vs, vs[j], vs[i], true);
      }
    }
  }

  // ---------- Spearman's rho ----------

  /** r plays the part of math.sqrt(v). */
  predicate IsRoot(r: real, v: real) {
    r >= 0.0 && Times(r, r) == v
  }

  function Quotient(num: real, dx: real, dy: real): real {
    if dx * dy == 0.0 then 0.0 else num / (dx * dy)
  }

  function Correlation(u: Vector, v: Vector, dx: real, dy: real): real
    requires |u| == |v| > 0
  {
    Quotient(Dot(Deviations(u), Deviations(v)), dx, dy)
  }

  lemma ProductOfRoots(num: real, dx: real, dy: real, d: real)
    requires dx >= 0.0 && dy >= 0.0 && d == dx * dy
    requires num * num <= Times(dx, dx) * Times(dy, dy)
    ensures -d <= num <= d
  {
    NonNegProduct(dx, dy, d);
    assert Times(dx, dx) * Times(dy, dy) == d * d;
    if num > d {
      PositiveProduct(num - d, num + d, (num - d) * (num + d));
    } else if num < -d {
      PositiveProduct(-num - d, d - num, (-num - d) * (d - num));
    }
  }

  lemma QuotientBounded(num: real, dx: real, dy: real)
    requires dx >= 0.0 && dy >= 0.0
    requires num * num <= Times(dx, dx) * Times(dy, dy)
    ensures -1.0 <= Quotient(num, dx, dy) <= 1.0
  {
    var d := dx * dy;
    NonNegProduct(dx, dy, d);
    ProductOfRoots(num, dx, dy, d);
    if d > 0.0 {
      RatioOrder(-d, num, d);
      RatioOrder(num, d, d);
    }
  }

  lemma CorrelationBounded(u: Vector, v: Vector, dx: real, dy: real)
    requires |u| == |v| > 0 && IsRoot(dx, Variation(u)) && IsRoot(dy, Variation(v))
    ensures -1.0 <= Correlation(u, v, dx, dy) <= 1.0
    ensures Variation(u) == 0.0 || Variation(v) == 0.0 ==> Correlation(u, v, dx, dy) == 0.0
  {
    if Variation(u) == 0.0 { SquareOfZero(dx, dx * dx); }
    if Variation(v) == 0.0 { SquareOfZero(dy, dy * dy); }
    CauchySchwarz(Deviations(u), Deviations(v));
    QuotientBounded(Dot(Deviations(u), Deviations(v)), dx, dy);
  }

  lemma QuotientShare(num: real, dx: real, dy: real)
    requires Times(dx, dy) == 0.0 ==> num == 0.0
    ensures Times(Quotient(num, dx, dy), Times(dx, dy)) == num
  {
    var d := dx * dy;
    if d != 0.0 { assert (num / d) * d == num; }
  }

  /** The correlation times the two roots is the inner product of the deviations. */
  lemma CorrelationShare(u: Vector, v: Vector, dx: real, dy: real)
    requires |u| == |v| > 0 && IsRoot(dx, Variation(u)) && IsRoot(dy, Variation(v))
    ensures Times(Correlation(u, v, dx, dy), Times(dx, dy)) == Dot(Deviations(u), Deviations(v))
  {
    var num := Dot(Deviations(u), Deviations(v));
    CauchySchwarz(Deviations(u), Deviations(v));
    if Times(dx, dy) == 0.0 {
      ProductOfRoots(num, dx, dy, Times(dx, dy));
    }
    QuotientShare(num, dx, dy);
  }

  /** dx and dy are the two square roots the original takes from its math library. */
  method SpearmanRho(xs: seq<real>, ys: seq<real>, dx: real, dy: real) returns (rho: Option<real>)
    requires |xs| == |ys| >= 4 ==>
      IsRoot(dx, Variation(RankVector(xs))) && IsRoot(dy, Variation(RankVector(ys)))
    ensures rho.None? <==> |xs| != |ys| || |xs| < 4
    ensures rho.Some? ==> -1.0 <= rho.value <= 1.0
    ensures rho.Some? ==> rho.value == Correlation(RankVector(xs), RankVector(ys), dx, dy)
    ensures rho.Some? ==>
      Times(rho.value, Times(dx, dy)) == Dot(Deviations(RankVector(xs)), Deviations(RankVector(ys)))
    ensures rho.Some? && Times(dx, dy) == 0.0 ==> rho.value == 0.0
  {
    if |xs| != |ys| || |xs| < 4 { return None; }
    var rx := AverageRanks(xs);
    var ry := AverageRanks(ys);
    CorrelationBounded(rx, ry, dx, dy);
    CorrelationShare(rx, ry, dx, dy);
    rho := Some(Correlation(rx, ry, dx, dy));
  }

  // ---------- When rho is one ----------

  lemma EqualWhenParallel(dx: real, dy: real, num: real, p: real, q: real, r: real)
    requires dx > 0.0 && dy > 0.0 && num == dx * dy
    requires p == Times(Times(dy, dy), Times(dx, dx)) && q == Times(Times(dy, dx), num)
    requires r == Times(Times(dx, dx), Times(dy, dy))
    ensures p - 2.0 * q + r == 0.0
  {
  }

  lemma ScaledOrder(a: real, x: real, y: real)
    requires a > 0.0
    ensures x < y <==> Times(a, x) < Times(a, y)
  {
    if x < y { PositiveProduct(a, y - x, a * (y - x)); }
    if y < x { PositiveProduct(a, x - y, a * (x - y)); }
  }

  /** Equality in Cauchy-Schwarz: the two deviation vectors are parallel. */
  lemma ParallelDeviations(u: Vector, v: Vector, dx: real, dy: real, i: nat)
    requires |u| == |v| > i && IsRoot(dx, Variation(u)) && IsRoot(dy, Variation(v))
    requires dx > 0.0 && dy > 0.0 && Dot(Deviations(u), Deviations(v)) == dx * dy
    ensures Times(dy, Deviations(u)[i]) == Times(dx, Deviations(v)[i])
  {
    var a, b := Scale(dy, Deviations(u)), Scale(dx, Deviations(v));
    SquareSub(a, b);
    ScaledDot(dy, Deviations(u), dy, Deviations(u));
    ScaledDot(dy, Deviations(u), dx, Deviations(v));
    ScaledDot(dx, Deviations(v), dx, Deviations(v));
    EqualWhenParallel(dx, dy, Dot(Deviations(u), Deviations(v)), Dot(a, a), Dot(a, b), Dot(b, b));
    SquareZero(Sub(a, b));
    assert Sub(a, b)[i] == 0.0;
  }

  lemma ParallelOrder(u: Vector, v: Vector, dx: real, dy: real, i: nat, j: nat)
    requires |u| == |v| && i < |u| && j < |u|
    requires IsRoot(dx, Variation(u)) && IsRoot(dy, Variation(v))
    requires dx > 0.0 && dy > 0.0 && Dot(Deviations(u), Deviations(v)) == dx * dy
    ensures u[i] < u[j] <==> v[i] < v[j]
  {
    ParallelDeviations(u, v, dx, dy, i);
    ParallelDeviations(u, v, dx, dy, j);
    ScaledOrder(dy, Deviations(u)[i], Deviations(u)[j]);
    ScaledOrder(dx, Deviations(v)[i], Deviations(v)[j]);
  }

  lemma UnitQuotient(num: real, dx: real, dy: real)
    requires dx >= 0.0 && dy >= 0.0
    ensures Quotient(num, dx, dy) == 1.0 <==> dx > 0.0 && dy > 0.0 && num == dx * dy
  {
    var d := dx * dy;
    if dx > 0.0 && dy > 0.0 {
      PositiveProduct(dx, dy, d);
      if num / d == 1.0 { assert num == (num / d) * d; }
    }
  }

  lemma SameRoot(dx: real, dy: real)
    requires dx >= 0.0 && dy >= 0.0 && Times(dx, dx) == Times(dy, dy)
    ensures dx == dy
  {
    if dx > dy { PositiveProduct(dx - dy, dx + dy, (dx - dy) * (dx + dy)); }
    if dx < dy { PositiveProduct(dy - dx, dy + dx, (dy - dx) * (dy + dx)); }
  }

  /** rho is 1 exactly for samples that vary and are ordered alike. */
  lemma RhoIsOneIff(xs: seq<real>, ys: seq<real>, dx: real, dy: real)
    requires |xs| == |ys| > 0
    requires IsRoot(dx, Variation(RankVector(xs))) && IsRoot(dy, Variation(RankVector(ys)))
    ensures Correlation(RankVector(xs), RankVector(ys), dx, dy) == 1.0
       <==> dx > 0.0 && dy > 0.0 && SameOrder(xs, ys)
  {
    var u, v := RankVector(xs), RankVector(ys);
    var num := Dot(Deviations(u), Deviations(v));
    UnitQuotient(num, dx, dy);
    if dx > 0.0 && dy > 0.0 && num == dx * dy {
      RanksOrdered(xs); RanksOrdered(ys);
      forall i, j | 0 <= i < |xs| && 0 <= j < |xs| ensures xs[i] < xs[j] <==> ys[i] < ys[j] {
        ParallelOrder(u, v, dx, dy, i, j);
      }
    }
    if dx > 0.0 && dy > 0.0 && SameOrder(xs, ys) {
      SameOrderSameRanks(xs, ys);
      SameRoot(dx, dy);
    }
  }

  // ---------- When rho is minus one ----------

  function Negated(vs: seq<real>): (r: seq<real>)
    ensures |r| == |vs|
  {
    seq(|vs|, i requires 0 <= i < |vs| => -vs[i])
  }

  /** Below -v in the negated sample lie exactly the entries above v. */
  lemma {:induction false} CountNegated(vs: seq<real>, v: real, closed: bool)
    ensures Count(Negated(vs), -v, closed) == |vs| - Count(vs, v, !closed)
  {
    if vs != [] {
      assert Negated(vs)[1..] == Negated(vs[1..]);
      CountNegated(vs[1..], v, closed);
    }
  }

  lemma NegatedRank(vs: seq<real>, i: nat)
    requires i < |vs|
    ensures RankVector(Negated(vs))[i] == |vs| as real + 1.0 - RankVector(vs)[i]
  {
    CountNegated(vs, vs[i], false);
    CountNegated(vs, vs[i], true);
  }

  lemma {:induction false} SumMirrored(u: Vector, v: Vector, c: real)
    requires |u| == |v| && forall i :: 0 <= i < |u| ==> v[i] == c - u[i]
    ensures Sum(v) == |u| as real * c - Sum(u)
  {
    if u != [] {
      SumMirrored(u[1..], v[1..], c);
      assert |u| as real * c == (|u| - 1) as real * c + c;
    }
  }

  lemma MeanMirrored(u: Vector, v: Vector, c: real)
    requires |u| == |v| > 0 && forall i :: 0 <= i < |u| ==> v[i] == c - u[i]
    ensures Mean(v) == c - Mean(u)
  {
    var n := |u| as real;
    SumMirrored(u, v, c);
    assert (n * c - Sum(u)) / n == c - Sum(u) / n;
  }

  lemma DeviationsMirrored(u: Vector, v: Vector, c: real)
    requires |u| == |v| > 0 && forall i :: 0 <= i < |u| ==> v[i] == c - u[i]
    ensures Deviations(v) == Scale(-1.0, Deviations(u))
  {
    MeanMirrored(u, v, c);
  }

  lemma QuotientNegated(num: real, dx: real, dy: real)
    ensures Quotient(-num, dx, dy) == -Quotient(num, dx, dy)
  {
    var d := dx * dy;
    if d != 0.0 { assert -num / d == -(num / d); }
  }

  lemma NegatedCorrelation(xs: seq<real>, ys: seq<real>, dx: real, dy: real)
    requires |xs| == |ys| > 0
    ensures Variation(RankVector(Negated(ys))) == Variation(RankVector(ys))
    ensures Correlation(RankVector(xs), RankVector(Negated(ys)), dx, dy) == -Correlation(RankVector(xs), RankVector(ys), dx, dy)
  {
    var u, v, w := RankVector(xs), RankVector(ys), RankVector(Negated(ys));
    forall i | 0 <= i < |ys| ensures w[i] == |ys| as real + 1.0 - v[i] { NegatedRank(ys, i); }
    DeviationsMirrored(v, w, |ys| as real + 1.0);
    ScaledDot(-1.0, Deviations(v), -1.0, Deviations(v));
    DotScaleRight(Deviations(u), -1.0, Deviations(v));
    QuotientNegated(Dot(Deviations(u), Deviations(v)), dx, dy);
  }

  ghost predicate OppositeOrder(xs: seq<real>, ys: seq<real>) {
    |xs| == |ys| && forall i, j :: 0 <= i < |xs| && 0 <= j < |xs| ==> (xs[i] < xs[j] <==> ys[j] < ys[i])
  }

  /** rho is -1 exactly for samples that vary and are ordered oppositely. */
  lemma RhoIsMinusOneIff(xs: seq<real>, ys: seq<real>, dx: real, dy: real)
    requires |xs| == |ys| > 0
    requires IsRoot(dx, Variation(RankVector(xs))) && IsRoot(dy, Variation(RankVector(ys)))
    ensures Correlation(RankVector(xs), RankVector(ys), dx, dy) == -1.0
       <==> dx > 0.0 && dy > 0.0 && OppositeOrder(xs, ys)
  {
    NegatedCorrelation(xs, ys, dx, dy);
    RhoIsOneIff(xs, Negated(ys), dx, dy);
    NegatedOrder(xs, ys);
  }

  lemma NegatedOrder(xs: seq<real>, ys: seq<real>)
    requires |xs| == |ys|
    ensures SameOrder(xs, Negated(ys)) <==> OppositeOrder(xs, ys)
  {
    var zs := Negated(ys);
    if SameOrder(xs, zs) {
      forall i, j | 0 <= i < |xs| && 0 <= j < |xs| ensures xs[i] < xs[j] <==> ys[j] < ys[i] {
        assert xs[i] < xs[j] <==> zs[i] < zs[j];
      }
    }
  }
}
