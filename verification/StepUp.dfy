/** The Benjamini-Hochberg step-up selection. */
module StepUp {
  import opened RealFacts
  import opened Ordering

  datatype Entry<L> = Entry(name: L, rawP: real, critical: real, rejected: bool, q: real)

  function Threshold(alpha: real, r: nat, n: nat): real
    requires n > 0
  {
    alpha * r as real / n as real
  }

  /** The largest r <= from with at least r p-values at most alpha * r / n, or 0. */
  function Largest(ps: seq<real>, alpha: real, from: nat): (r: nat)
    requires |ps| > 0 && from <= |ps|
    ensures r <= from
    ensures r > 0 ==> Count(ps, Threshold(alpha, r, |ps|), true) >= r
    ensures forall k :: r < k <= from ==> Count(ps, Threshold(alpha, k, |ps|), true) < k
  {
    if from == 0 then 0
    else if Count(ps, Threshold(alpha, from, |ps|), true) >= from then from
    else Largest(ps, alpha, from - 1)
  }

  function Rejections(ps: seq<real>, alpha: real): (r: nat)
    requires |ps| > 0
    ensures r <= |ps|
  {
    Largest(ps, alpha, |ps|)
  }

  function RawPs<L>(rows: seq<(L, real)>): (ps: seq<real>)
    ensures |ps| == |rows|
  {
    seq(|rows|, i requires 0 <= i < |rows| => rows[i].1)
  }

  /** The threshold of rank r is alpha r / n. */
  lemma ThresholdShare(alpha: real, r: nat, n: nat, p: real)
    requires n > 0
    ensures Times(Threshold(alpha, r, n), n as real) == Times(alpha, r as real)
    ensures p <= Threshold(alpha, r, n) <==> Times(p, n as real) <= Times(alpha, r as real)
  {
    var t, m := Threshold(alpha, r, n), n as real;
    assert t * m == alpha * r as real;
    if p <= t { NonNegProduct(t - p, m, t * m - p * m); } else { PositiveProduct(p - t, m, p * m - t * m); }
  }

  /** The entries i with p_i n <= alpha r. */
  ghost function Under(ps: seq<real>, alpha: real, r: nat): set<nat> {
    set i: nat | i < |ps| && Times(ps[i], |ps| as real) <= Times(alpha, r as real)
  }

  lemma UnderCounts(ps: seq<real>, alpha: real, r: nat)
    requires |ps| > 0
    ensures |Under(ps, alpha, r)| == Count(ps, Threshold(alpha, r, |ps|), true)
  {
    CountIsSize(ps, Threshold(alpha, r, |ps|), |ps|);
    assert ps[..|ps|] == ps;
    forall i: nat | i < |ps|
      ensures ps[i] <= Threshold(alpha, r, |ps|) <==> Times(ps[i], |ps| as real) <= Times(alpha, r as real)
    {
      ThresholdShare(alpha, r, |ps|, ps[i]);
    }
    assert Under(ps, alpha, r) == AtMost(ps, Threshold(alpha, r, |ps|), |ps|);
  }

  /** R is the largest r with at least r entries i such that p_i n <= alpha r. */
  ghost predicate IsStepUp(ps: seq<real>, alpha: real, R: nat) {
    && R <= |ps| && |Under(ps, alpha, R)| >= R
    && forall r: nat :: R < r <= |ps| ==> |Under(ps, alpha, r)| < r
  }

  /** The number of rejections in arithmetic terms. */
  lemma RejectionsStepUp(ps: seq<real>, alpha: real, R: nat)
    requires |ps| > 0
    ensures IsStepUp(ps, alpha, R) <==> R == Rejections(ps, alpha)
  {
    var S := Rejections(ps, alpha);
    UnderCounts(ps, alpha, S);
    forall r: nat | S < r <= |ps| ensures |Under(ps, alpha, r)| < r { UnderCounts(ps, alpha, r); }
    if IsStepUp(ps, alpha, R) { assert !(R < S) && !(S < R); }
  }

  lemma ThresholdRises(alpha: real, r: nat, k: nat, n: nat)
    requires n > 0 && r <= k && alpha >= 0.0
    ensures Threshold(alpha, r, n) <= Threshold(alpha, k, n)
  {
    var d := (k - r) as real;
    assert alpha * k as real == alpha * r as real + alpha * d;
    assert alpha * d >= 0.0;
  }

  lemma LastThreshold(alpha: real, n: nat)
    requires n > 0
    ensures Threshold(alpha, n, n) == alpha
  {
  }

  /** Whatever alpha: rank r is under its own critical value iff r p-values are. */
  lemma CriticalRank(ps: seq<real>, idx: seq<nat>, r: nat, t: real)
    requires idx == SortIndices(ps) && 1 <= r <= |ps|
    ensures ps[idx[r - 1]] <= t <==> Count(ps, t, true) >= r
  {
    SortedRank(Pick(ps, idx), r, t);
    SortIndicesCounts(ps, t, true);
  }

  /** With alpha >= 0 the ranks up to R are exactly the p-values at most alpha * R / n. */
  lemma RankVersusValue(ps: seq<real>, alpha: real, idx: seq<nat>, rank: nat)
    requires |ps| > 0 && alpha >= 0.0 && idx == SortIndices(ps) && rank < |ps|
    ensures rank < Rejections(ps, alpha)
       <==> ps[idx[rank]] <= Threshold(alpha, Rejections(ps, alpha), |ps|)
  {
    var R, n := Rejections(ps, alpha), |ps|;
    if rank < R {
      CriticalRank(ps, idx, R, Threshold(alpha, R, n));
      assert Pick(ps, idx)[rank] <= Pick(ps, idx)[R - 1];
    } else {
      CriticalRank(ps, idx, rank + 1, Threshold(alpha, rank + 1, n));
      ThresholdRises(alpha, R, rank + 1, n);
    }
  }

  function QValue(p: real, rank: nat, n: nat): real {
    var q := p * n as real / (rank + 1) as real;
    if q < 1.0 then q else 1.0
  }

  lemma QValueShare(p: real, rank: nat, n: nat)
    requires n > 0
    ensures var share, steps := Times(p, n as real), (rank + 1) as real;
            Times(QValue(p, rank, n), steps) == if share < steps then share else steps
  {
    var share, steps := p * n as real, (rank + 1) as real;
    assert (share / steps) * steps == share;
    if share < steps {
      if share / steps >= 1.0 { NonNegProduct(share / steps - 1.0, steps, share - steps); }
    } else if share / steps < 1.0 {
      PositiveProduct(1.0 - share / steps, steps, steps - share);
    }
  }

  function EntryAt<L>(rows: seq<(L, real)>, i: nat, alpha: real, rank: nat, maxRejected: int): Entry<L>
    requires i < |rows|
  {
    Entry(rows[i].0, rows[i].1, Threshold(alpha, rank + 1, |rows|), rank <= maxRejected,
          QValue(rows[i].1, rank, |rows|))
  }

  method LastUnderCritical(ps: seq<real>, idx: seq<nat>, alpha: real) returns (maxRejected: int)
    requires |ps| > 0 && idx == SortIndices(ps)
    ensures maxRejected + 1 == Rejections(ps, alpha)
  {
    maxRejected := -1;
    for rank := 0 to |ps|
      invariant -1 <= maxRejected < rank
      invariant maxRejected + 1 == Largest(ps, alpha, rank)
    {
      CriticalRank(ps, idx, rank + 1, Threshold(alpha, rank + 1, |ps|));
      if ps[idx[rank]] <= Threshold(alpha, rank + 1, |ps|) {
        maxRejected := rank;
      }
    }
  }

  lemma ValueTest<L>(rows: seq<(L, real)>, alpha: real, out: seq<Entry<L>>, idx: seq<nat>)
    requires |rows| > 0 && |out| == |rows| && alpha >= 0.0 && idx == SortIndices(RawPs(rows))
    requires forall rank :: 0 <= rank < |rows| ==>
      out[idx[rank]].rejected == (rank < Rejections(RawPs(rows), alpha))
    ensures forall i :: 0 <= i < |rows| ==>
      (out[i].rejected <==> rows[i].1 <= Threshold(alpha, Rejections(RawPs(rows), alpha), |rows|))
  {
    forall i | 0 <= i < |rows|
      ensures out[i].rejected <==> rows[i].1 <= Threshold(alpha, Rejections(RawPs(rows), alpha), |rows|)
    {
      assert i in idx;
      var rank :| 0 <= rank < |rows| && idx[rank] == i;
      RankVersusValue(RawPs(rows), alpha, idx, rank);
    }
  }

  /** What an entry of the given rank shows, in arithmetic terms: the critical value is alpha (rank + 1) / n
      and the q-value p n / (rank + 1), at most 1. */
  predicate Shows<L>(e: Entry<L>, alpha: real, rank: nat, n: nat) {
    var share, steps := Times(e.rawP, n as real), (rank + 1) as real;
    && Times(e.critical, n as real) == Times(alpha, steps)
    && Times(e.q, steps) == if share < steps then share else steps
  }

  lemma EntryShows<L>(rows: seq<(L, real)>, i: nat, alpha: real, rank: nat, maxRejected: int)
    requires i < |rows|
    ensures Shows(EntryAt(rows, i, alpha, rank, maxRejected), alpha, rank, |rows|)
  {
    ThresholdShare(alpha, rank + 1, |rows|, 0.0);
    QValueShare(rows[i].1, rank, |rows|);
  }

  method BhFdr<L>(rows: seq<(L, real)>, alpha: real) returns (out: seq<Entry<L>>)
    ensures |out| == |rows|
    ensures forall i :: 0 <= i < |rows| ==> out[i].name == rows[i].0 && out[i].rawP == rows[i].1
    ensures forall rank :: 0 <= rank < |rows| ==>
      var entry := out[SortIndices(RawPs(rows))[rank]];
      Shows(entry, alpha, rank, |rows|) && entry.rejected == (rank < Rejections(RawPs(rows), alpha))
    ensures rows != [] ==> exists R ::
      && IsStepUp(RawPs(rows), alpha, R)
      && forall rank :: 0 <= rank < |rows| ==> out[SortIndices(RawPs(rows))[rank]].rejected == (rank < R)
    ensures alpha >= 0.0 ==> forall i :: 0 <= i < |rows| ==>
      (out[i].rejected <==> rows[i].1 <= Threshold(alpha, Rejections(RawPs(rows), alpha), |rows|))
  {
    var n, ps := |rows|, RawPs(rows);
    if n == 0 { return []; }
    var idx := SortIndices(ps);
    var maxRejected := LastUnderCritical(ps, idx, alpha);
    var filled := new Entry<L>[n](i requires 0 <= i < n => Entry(rows[i].0, rows[i].1, 0.0, false, 0.0));
    for rank := 0 to n
      invariant forall i :: 0 <= i < n ==> filled[i].name == rows[i].0 && filled[i].rawP == rows[i].1
      invariant forall k :: 0 <= k < rank ==> filled[idx[k]] == EntryAt(rows, idx[k], alpha, k, maxRejected)
    {
      var i := idx[rank];
      filled[i] := EntryAt(rows, i, alpha, rank, maxRejected);
    }
    out := filled[..];
    forall rank | 0 <= rank < n ensures Shows(out[idx[rank]], alpha, rank, n) {
      EntryShows(rows, idx[rank], alpha, rank, maxRejected);
    }
    RejectionsStepUp(ps, alpha, Rejections(ps, alpha));
    if alpha >= 0.0 { ValueTest(rows, alpha, out, idx); }
  }

  // ---------- What the selection depends on ----------

  ghost predicate Rejects(ps: seq<real>, alpha: real, p: real)
    requires |ps| > 0
  {
    p <= Threshold(alpha, Rejections(ps, alpha), |ps|)
  }

  lemma {:induction false} LargestPermuted(ps: seq<real>, qs: seq<real>, alpha: real, from: nat)
    requires |ps| == |qs| > 0 && multiset(ps) == multiset(qs) && from <= |ps|
    ensures Largest(ps, alpha, from) == Largest(qs, alpha, from)
  {
    if from != 0 {
      CountPermuted(ps, qs, Threshold(alpha, from, |ps|), true);
      LargestPermuted(ps, qs, alpha, from - 1);
    }
  }

  /** The verdict on a p-value does not depend on the order of the input. */
  lemma OrderIndependent(ps: seq<real>, qs: seq<real>, alpha: real, p: real)
    requires |ps| > 0 && multiset(ps) == multiset(qs)
    ensures |qs| == |ps|
    ensures Rejections(ps, alpha) == Rejections(qs, alpha) && (Rejects(ps, alpha, p) <==> Rejects(qs, alpha, p))
  {
    assert |multiset(ps)| == |multiset(qs)|;
    LargestPermuted(ps, qs, alpha, |ps|);
  }

  lemma ThresholdInAlpha(alpha: real, beta: real, r: nat, n: nat)
    requires n > 0 && alpha <= beta
    ensures Threshold(alpha, r, n) <= Threshold(beta, r, n)
  {
    var d := beta - alpha;
    assert beta * r as real == alpha * r as real + d * r as real;
    assert d * r as real >= 0.0;
  }

  /** The verdict that the entry of index i carries. */
  ghost predicate Selected(ps: seq<real>, alpha: real, i: nat)
    requires |ps| > 0
  {
    exists rank: nat :: rank < Rejections(ps, alpha) && SortIndices(ps)[rank] == i
  }

  /** qs is ps with no p-value raised. */
  ghost predicate Lowered(ps: seq<real>, qs: seq<real>) {
    |qs| == |ps| && forall k :: 0 <= k < |ps| ==> qs[k] <= ps[k]
  }

  /** Whatever alpha, raising it and lowering p-values never makes for fewer rejections. */
  lemma RejectionsGrow(ps: seq<real>, qs: seq<real>, alpha: real, beta: real)
    requires |ps| > 0 && alpha <= beta && Lowered(ps, qs)
    ensures Rejections(ps, alpha) <= Rejections(qs, beta)
  {
    var R, n := Rejections(ps, alpha), |ps|;
    if R > 0 {
      ThresholdInAlpha(alpha, beta, R, n);
      CountMonotone(ps, qs, Threshold(alpha, R, n), Threshold(beta, R, n), true);
    }
  }

  /** With a negative alpha a list without negative entries has no rejections. */
  lemma NonNegativeNeverRejected(ps: seq<real>, alpha: real)
    requires |ps| > 0 && alpha < 0.0 && forall k :: 0 <= k < |ps| ==> ps[k] >= 0.0
    ensures Rejections(ps, alpha) == 0
  {
    var R, n := Rejections(ps, alpha), |ps|;
    if R > 0 {
      NegativeThreshold(alpha, R, n);
      CountNone(ps, Threshold(alpha, R, n), true);
    }
  }

  /** A negative alpha makes negative thresholds, the last of them the lowest. */
  lemma NegativeThreshold(alpha: real, r: nat, n: nat)
    requires alpha < 0.0 && 1 <= r <= n
    ensures alpha <= Threshold(alpha, r, n) < 0.0
  {
    var d := (n - r) as real;
    assert alpha * n as real == alpha * r as real + alpha * d;
    assert alpha * d <= 0.0 && alpha * r as real < 0.0;
    LastThreshold(alpha, n);
  }

  /** Raising alpha never takes a rejection back; neither does lowering p-values, unless the new
      alpha and some of the p-values are negative. */
  lemma NeverUnrejects(ps: seq<real>, qs: seq<real>, alpha: real, beta: real, i: nat)
    requires |ps| > 0 && i < |ps| && alpha <= beta && Lowered(ps, qs)
    ensures Rejections(ps, alpha) <= Rejections(qs, beta)
    ensures (beta >= 0.0 || qs == ps || forall k :: 0 <= k < |ps| ==> ps[k] >= 0.0) && Selected(ps, alpha, i)
            ==> Selected(qs, beta, i)
    ensures alpha >= 0.0 && Rejects(ps, alpha, ps[i]) ==> Rejects(qs, beta, qs[i])
  {
    RejectionsGrow(ps, qs, alpha, beta);
    var R, S, n := Rejections(ps, alpha), Rejections(qs, beta), |ps|;
    if alpha >= 0.0 {
      ThresholdRises(alpha, R, S, n);
      ThresholdInAlpha(alpha, beta, S, n);
    }
    if rank: nat :| rank < R && SortIndices(ps)[rank] == i {
      if qs == ps {
        assert rank < S && SortIndices(qs)[rank] == i;
      } else if beta >= 0.0 {
        StaysSelected(ps, qs, alpha, beta, rank);
      } else if forall k :: 0 <= k < |ps| ==> ps[k] >= 0.0 {
        NonNegativeNeverRejected(ps, alpha);
      }
    }
  }

  lemma StaysSelected(ps: seq<real>, qs: seq<real>, alpha: real, beta: real, rank: nat)
    requires |ps| > 0 && alpha <= beta && beta >= 0.0 && rank < Rejections(ps, alpha) && Lowered(ps, qs)
    ensures Selected(qs, beta, SortIndices(ps)[rank])
  {
    var R, S, n, i := Rejections(ps, alpha), Rejections(qs, beta), |ps|, SortIndices(ps)[rank];
    RejectionsGrow(ps, qs, alpha, beta);
    CriticalRank(ps, SortIndices(ps), R, Threshold(alpha, R, n));
    assert Pick(ps, SortIndices(ps))[rank] <= Pick(ps, SortIndices(ps))[R - 1];
    ThresholdInAlpha(alpha, beta, R, n);
    ThresholdRises(beta, R, S, n);
    assert i in SortIndices(qs);
    var at: nat :| at < n && SortIndices(qs)[at] == i;
    RankVersusValue(qs, beta, SortIndices(qs), at);
  }

  /** A negative alpha rejects every entry of at most alpha. */
  lemma SmallIsSelected(ps: seq<real>, alpha: real, i: nat)
    requires i < |ps| && ps[i] <= alpha < 0.0
    ensures Selected(ps, alpha, i)
  {
    var n, m := |ps|, Count(ps, alpha, true);
    assert i in SortIndices(ps);
    var at: nat :| at < n && SortIndices(ps)[at] == i;
    CriticalRank(ps, SortIndices(ps), at + 1, alpha);
    NegativeThreshold(alpha, m, n);
    CountMonotone(ps, ps, alpha, Threshold(alpha, m, n), true);
  }

  /** A rejected entry is at most alpha, unless alpha is negative. */
  lemma SelectedIsSmall(ps: seq<real>, alpha: real, i: nat)
    requires i < |ps| && alpha >= 0.0 && Selected(ps, alpha, i)
    ensures ps[i] <= alpha
  {
    var R, n := Rejections(ps, alpha), |ps|;
    var rank: nat :| rank < R && SortIndices(ps)[rank] == i;
    RankVersusValue(ps, alpha, SortIndices(ps), rank);
    ThresholdRises(alpha, R, n, n);
    LastThreshold(alpha, n);
  }

  /** If only one entry is at most alpha, it is rejected exactly when p n is: the plain test at alpha / n. */
  lemma LoneRejection(ps: seq<real>, alpha: real, i: nat)
    requires i < |ps| && forall k :: 0 <= k < |ps| ==> (ps[k] <= alpha <==> k == i)
    ensures Selected(ps, alpha, i) <==> Times(ps[i], |ps| as real) <= alpha
  {
    var n, R := |ps|, Rejections(ps, alpha);
    if alpha < 0.0 {
      SmallIsSelected(ps, alpha, i);
      ScaledBelow(ps[i], alpha, n);
    } else {
      RejectionsStepUp(ps, alpha, R);
      forall r: nat | r <= n ensures Under(ps, alpha, r) <= {i} { UnderAtMost(ps, alpha, r, i); }
      LoneRank(ps, alpha, i, R);
    }
  }

  lemma ScaledBelow(p: real, alpha: real, n: nat)
    requires p <= alpha < 0.0 && n > 0
    ensures Times(p, n as real) <= alpha
  {
    NonNegProduct(alpha - p, n as real, Times(alpha, n as real) - Times(p, n as real));
    NonNegProduct(-alpha, n as real - 1.0, alpha - Times(alpha, n as real));
  }

  lemma UnderAtMost(ps: seq<real>, alpha: real, r: nat, i: nat)
    requires i < |ps| && r <= |ps| && alpha >= 0.0 && forall k :: 0 <= k < |ps| ==> (ps[k] <= alpha <==> k == i)
    ensures Under(ps, alpha, r) <= {i}
  {
    forall k | k in Under(ps, alpha, r) ensures k == i {
      ThresholdShare(alpha, r, |ps|, ps[k]);
      ThresholdRises(alpha, r, |ps|, |ps|);
      LastThreshold(alpha, |ps|);
    }
  }

  lemma SmallSet(s: set<nat>, i: nat)
    requires s <= {i}
    ensures |s| == if i in s then 1 else 0
  {
    if i in s { assert s == {i}; } else { assert s == {}; }
  }

  /** At most one rank can be rejected, and it is when the entry passes at r = 1. */
  lemma LoneCount(ps: seq<real>, alpha: real, i: nat, R: nat)
    requires i < |ps| && IsStepUp(ps, alpha, R)
    requires forall r: nat :: r <= |ps| ==> Under(ps, alpha, r) <= {i}
    ensures R == if i in Under(ps, alpha, 1) then 1 else 0
  {
    SmallSet(Under(ps, alpha, R), i);
    SmallSet(Under(ps, alpha, 1), i);
  }

  lemma LoneRank(ps: seq<real>, alpha: real, i: nat, R: nat)
    requires i < |ps| && IsStepUp(ps, alpha, R) && R == Rejections(ps, alpha)
    requires forall r: nat :: r <= |ps| ==> Under(ps, alpha, r) <= {i}
    requires forall k :: 0 <= k < |ps| ==> (ps[k] <= alpha <==> k == i)
    ensures Selected(ps, alpha, i) <==> Times(ps[i], |ps| as real) <= alpha
  {
    LoneCount(ps, alpha, i, R);
    FirstRank(ps, alpha, i);
    assert i in Under(ps, alpha, 1) <==> Times(ps[i], |ps| as real) <= alpha;
    if R == 1 { assert 0 < Rejections(ps, alpha) && SortIndices(ps)[0] == i; }
  }

  lemma FirstRank(ps: seq<real>, alpha: real, i: nat)
    requires i < |ps| && forall k :: 0 <= k < |ps| ==> (ps[k] <= alpha <==> k == i)
    ensures SortIndices(ps)[0] == i
  {
    var idx := SortIndices(ps);
    assert i in idx;
    var at: nat :| at < |ps| && idx[at] == i;
    assert Pick(ps, idx)[0] <= Pick(ps, idx)[at];
  }

  /** ps with every entry but that of index i lowered below both v and ps[i]. */
  function AllButOneLowered(ps: seq<real>, i: nat, v: real): (qs: seq<real>)
    requires i < |ps| && v < ps[i]
    ensures Lowered(ps, qs) && qs[i] == ps[i] && forall k :: 0 <= k < |qs| && k != i ==> qs[k] <= v
  {
    seq(|ps|, k requires 0 <= k < |ps| => if k != i && ps[k] > v then v else ps[k])
  }

  /** The one entry above alpha, being the largest, is not rejected. */
  lemma LargestUnselected(qs: seq<real>, alpha: real, i: nat)
    requires i < |qs| && qs[i] > alpha && forall k :: 0 <= k < |qs| && k != i ==> qs[k] <= alpha
    ensures !Selected(qs, alpha, i)
  {
    var n, idx := |qs|, SortIndices(qs);
    CriticalRank(qs, idx, n, alpha);
    LastThreshold(alpha, n);
    assert i in idx;
    var at: nat :| at < n && idx[at] == i;
    assert Pick(qs, idx)[at] <= Pick(qs, idx)[n - 1];
    assert idx[n - 1] == i;
  }

  /** A rejection survives every lowering of p-values exactly when its own p-value is at most
      alpha. */
  lemma RejectionFinalIff(ps: seq<real>, alpha: real, i: nat)
    requires i < |ps| && Selected(ps, alpha, i)
    ensures ps[i] <= alpha <==> forall qs :: Lowered(ps, qs) ==> Selected(qs, alpha, i)
  {
    if ps[i] <= alpha {
      var rank: nat :| rank < Rejections(ps, alpha) && SortIndices(ps)[rank] == i;
      forall qs | Lowered(ps, qs) ensures Selected(qs, alpha, i) {
        if alpha >= 0.0 { StaysSelected(ps, qs, alpha, alpha, rank); } else { SmallIsSelected(qs, alpha, i); }
      }
    } else {
      if alpha >= 0.0 { SelectedIsSmall(ps, alpha, i); assert false; }
      var qs := AllButOneLowered(ps, i, alpha);
      LargestUnselected(qs, alpha, i);
    }
  }

  /** With any negative alpha, lowering one p-value can take the rejection of another back. */
  lemma LoweringUnrejects(alpha: real)
    requires alpha < 0.0
    ensures var ps, qs := [0.6 * alpha, 0.0], [0.6 * alpha, 0.7 * alpha];
            Lowered(ps, qs) && Selected(ps, alpha, 0) && !Selected(qs, alpha, 0)
  {
    var ps, qs := [0.6 * alpha, 0.0], [0.6 * alpha, 0.7 * alpha];
    OneRejected(ps, alpha);
    OneRejected(qs, alpha);
    assert Pick(ps, SortIndices(ps))[0] <= Pick(ps, SortIndices(ps))[1];
    assert SortIndices(ps)[0] == 0 by { assert 0 in SortIndices(ps) && 1 in SortIndices(ps); }
    assert Pick(qs, SortIndices(qs))[0] <= Pick(qs, SortIndices(qs))[1];
    assert SortIndices(qs)[0] == 1 by { assert 0 in SortIndices(qs) && 1 in SortIndices(qs); }
    assert 0 < Rejections(ps, alpha) && SortIndices(ps)[0] == 0;
  }

  lemma OneRejected(ps: seq<real>, alpha: real)
    requires alpha < 0.0 && |ps| == 2 && ps[0] == 0.6 * alpha && (ps[1] == 0.0 || ps[1] == 0.7 * alpha)
    ensures Rejections(ps, alpha) == 1
  {
    var half := 0.5 * alpha;
    assert Threshold(alpha, 1, 2) == half && Threshold(alpha, 2, 2) == alpha;
    CountNone(ps, alpha, true);
    assert Count(ps, half, true) >= 1;
    assert Largest(ps, alpha, 2) == Largest(ps, alpha, 1) == 1;
  }

  /** Lowering p-values never takes a rejection back, whatever they are, exactly when alpha is
      not negative. */
  lemma LoweringSafeIff(alpha: real)
    ensures alpha >= 0.0 <==>
      forall ps: seq<real>, qs, i: nat :: i < |ps| && Lowered(ps, qs) && Selected(ps, alpha, i) ==> Selected(qs, alpha, i)
  {
    if alpha >= 0.0 {
      forall ps: seq<real>, qs, i: nat | i < |ps| && Lowered(ps, qs) && Selected(ps, alpha, i)
        ensures Selected(qs, alpha, i)
      {
        NeverUnrejects(ps, qs, alpha, alpha, i);
      }
    } else {
      LoweringUnrejects(alpha);
    }
  }

  /** The value test "p <= alpha * R / n" describes the selected ranks for every input
      exactly when alpha is not negative. */
  lemma ValueTestIffAlphaNonNegative(alpha: real)
    ensures alpha >= 0.0 <==>
      forall ps: seq<real>, rank: nat :: rank < |ps| ==>
        (rank < Rejections(ps, alpha) <==> Rejects(ps, alpha, ps[SortIndices(ps)[rank]]))
  {
    if alpha >= 0.0 {
      forall ps: seq<real>, rank: nat | rank < |ps|
        ensures rank < Rejections(ps, alpha) <==> Rejects(ps, alpha, ps[SortIndices(ps)[rank]])
      {
        RankVersusValue(ps, alpha, SortIndices(ps), rank);
      }
    } else {
      var ps := [0.0];
      assert Threshold(alpha, 0, 1) == 0.0 && Threshold(alpha, 1, 1) == alpha;
      assert Count(ps, alpha, true) == 0;
      assert Rejections(ps, alpha) == 0;
      assert 0 < |ps| && Rejects(ps, alpha, ps[SortIndices(ps)[0]]);
    }
  }
}
