/** Counting below a threshold, and Python's stable sort of indices by key. */
module Ordering {
  import opened Lists

  /** How many entries are below v (at most v, when closed). */
  function Count(s: seq<real>, v: real, closed: bool): (c: nat)
    ensures c <= |s|
  {
    if s == [] then 0
    else (if s[0] < v || (closed && s[0] == v) then 1 else 0) + Count(s[1..], v, closed)
  }

  lemma {:induction false} CountConcat(a: seq<real>, b: seq<real>, v: real, closed: bool)
    ensures Count(a + b, v, closed) == Count(a, v, closed) + Count(b, v, closed)
  {
    if a == [] {
      assert a + b == b;
    } else {
      assert (a + b)[1..] == a[1..] + b;
      CountConcat(a[1..], b, v, closed);
    }
  }

  lemma {:induction false} CountAll(s: seq<real>, v: real, closed: bool)
    requires forall i :: 0 <= i < |s| ==> s[i] < v || (closed && s[i] == v)
    ensures Count(s, v, closed) == |s|
  {
    if s != [] { CountAll(s[1..], v, closed); }
  }

  lemma {:induction false} CountNone(s: seq<real>, v: real, closed: bool)
    requires forall i :: 0 <= i < |s| ==> s[i] > v || (!closed && s[i] == v)
    ensures Count(s, v, closed) == 0
  {
    if s != [] { CountNone(s[1..], v, closed); }
  }

  /** How much one entry contributes to a count. */
  function Hit(x: real, v: real, closed: bool): nat {
    if x < v || (closed && x == v) then 1 else 0
  }

  lemma {:induction false} CountWithout(s: seq<real>, k: nat, v: real, closed: bool)
    requires k < |s|
    ensures Count(s, v, closed) == Count(s[..k] + s[k + 1..], v, closed) + Hit(s[k], v, closed)
  {
    if k == 0 {
      assert s[..0] + s[1..] == s[1..];
    } else {
      assert (s[..k] + s[k + 1..])[1..] == s[1..][..k - 1] + s[1..][k..];
      CountWithout(s[1..], k - 1, v, closed);
    }
  }

  lemma MultisetWithout(s: seq<real>, k: nat)
    requires k < |s|
    ensures multiset(s[..k] + s[k + 1..]) == multiset(s) - multiset{s[k]}
  {
    assert s == s[..k] + [s[k]] + s[k + 1..];
  }

  lemma Match(a: seq<real>, b: seq<real>) returns (k: nat)
    requires multiset(a) == multiset(b) && a != []
    ensures k < |b| && b[k] == a[0]
    ensures multiset(a[1..]) == multiset(b[..k] + b[k + 1..])
  {
    assert a[0] in multiset(b);
    k :| 0 <= k < |b| && b[k] == a[0];
    SameRest(a, b, k);
  }

  lemma SameRest(a: seq<real>, b: seq<real>, k: nat)
    requires multiset(a) == multiset(b) && a != [] && k < |b| && b[k] == a[0]
    ensures multiset(a[1..]) == multiset(b[..k] + b[k + 1..])
  {
    MultisetWithout(a, 0);
    MultisetWithout(b, k);
    assert a[..0] + a[1..] == a[1..];
  }

  /** The indices of the first n entries that are at most v. */
  ghost function AtMost(s: seq<real>, v: real, n: nat): set<nat>
    requires n <= |s|
  {
    set i: nat | i < n && s[i] <= v
  }

  /** A closed count is the number of indices with an entry of at most v. */
  lemma {:induction false} CountIsSize(s: seq<real>, v: real, n: nat)
    requires n <= |s|
    ensures Count(s[..n], v, true) == |AtMost(s, v, n)|
  {
    if n == 0 {
      assert AtMost(s, v, 0) == {};
    } else {
      CountIsSize(s, v, n - 1);
      assert s[..n] == s[..n - 1] + [s[n - 1]];
      CountConcat(s[..n - 1], [s[n - 1]], v, true);
      AtMostStep(s, v, n);
    }
  }

  lemma AtMostStep(s: seq<real>, v: real, n: nat)
    requires 0 < n <= |s|
    ensures |AtMost(s, v, n)| == |AtMost(s, v, n - 1)| + if s[n - 1] <= v then 1 else 0
  {
    var before := AtMost(s, v, n - 1);
    if s[n - 1] <= v {
      assert AtMost(s, v, n) == before + {n - 1};
    } else {
      assert AtMost(s, v, n) == before;
    }
  }

  /** Counts do not depend on the order of the list. */
  lemma {:induction false} CountPermuted(a: seq<real>, b: seq<real>, v: real, closed: bool)
    requires multiset(a) == multiset(b)
    ensures Count(a, v, closed) == Count(b, v, closed)
    decreases a
  {
    if a == [] {
      assert |multiset(a)| == |multiset(b)|;
    } else {
      var k := Match(a, b);
      CountPermuted(a[1..], b[..k] + b[k + 1..], v, closed);
      CountWithout(b, k, v, closed);
    }
  }

  lemma {:induction false} CountMonotone(a: seq<real>, b: seq<real>, v: real, w: real, closed: bool)
    requires |a| == |b| && v <= w
    requires forall i :: 0 <= i < |a| ==> b[i] <= a[i]
    ensures Count(a, v, closed) <= Count(b, w, closed)
  {
    if a != [] { CountMonotone(a[1..], b[1..], v, w, closed); }
  }

  ghost predicate Sorted(s: seq<real>) {
    forall i, j :: 0 <= i <= j < |s| ==> s[i] <= s[j]
  }

  lemma SplitThree(s: seq<real>, i: nat, j: nat)
    requires i <= j <= |s|
    ensures s == s[..i] + (s[i..j] + s[j..])
  {
  }

  lemma SortedPieces(s: seq<real>, i: nat, j: nat)
    requires Sorted(s) && i < j <= |s|
    requires i > 0 ==> s[i - 1] < s[i]
    requires j < |s| ==> s[i] < s[j]
    ensures forall k :: 0 <= k < i ==> s[..i][k] < s[i]
    ensures forall k :: 0 <= k < |s| - j ==> s[j..][k] > s[i]
  {
    forall k | 0 <= k < i ensures s[..i][k] < s[i] { assert s[k] <= s[i - 1]; }
    forall k | 0 <= k < |s| - j ensures s[j..][k] > s[i] { assert s[j] <= s[j + k]; }
  }

  /** In a sorted list a block of equal entries has its start below it and its end at most it. */
  lemma SortedBlock(s: seq<real>, i: nat, j: nat)
    requires Sorted(s) && i < j <= |s|
    requires forall k :: i <= k < j ==> s[k] == s[i]
    requires i > 0 ==> s[i - 1] < s[i]
    requires j < |s| ==> s[i] < s[j]
    ensures Count(s, s[i], false) == i && Count(s, s[i], true) == j
  {
    SortedPieces(s, i, j);
    BlockCount(s[..i], s[i..j], s[j..], s[i]);
    SplitThree(s, i, j);
  }

  lemma BlockCount(a: seq<real>, b: seq<real>, c: seq<real>, v: real)
    requires forall k :: 0 <= k < |a| ==> a[k] < v
    requires forall k :: 0 <= k < |b| ==> b[k] == v
    requires forall k :: 0 <= k < |c| ==> c[k] > v
    ensures Count(a + (b + c), v, false) == |a| && Count(a + (b + c), v, true) == |a| + |b|
  {
    CountConcat(a, b + c, v, false); CountConcat(b, c, v, false);
    CountConcat(a, b + c, v, true); CountConcat(b, c, v, true);
    CountAll(a, v, false); CountNone(b, v, false); CountNone(c, v, false);
    CountAll(a, v, true); CountAll(b, v, true); CountNone(c, v, true);
  }

  /** The r-th smallest entry is at most t exactly when r entries are. */
  lemma SortedRank(s: seq<real>, r: nat, t: real)
    requires Sorted(s) && 1 <= r <= |s|
    ensures s[r - 1] <= t <==> Count(s, t, true) >= r
  {
    var a, b := s[..r], s[r..];
    assert s == a + b;
    CountConcat(a, b, t, true);
    if s[r - 1] <= t {
      CountAll(a, t, true);
    } else {
      var a', b' := s[..r - 1], s[r - 1..];
      assert s == a' + b';
      CountConcat(a', b', t, true);
      CountNone(b', t, true);
    }
  }

  // ---------- Stable sort of indices ----------

  function Pick(vs: seq<real>, idx: seq<nat>): (s: seq<real>)
    requires forall k :: 0 <= k < |idx| ==> idx[k] < |vs|
    ensures |s| == |idx|
  {
    seq(|idx|, k requires 0 <= k < |idx| => vs[idx[k]])
  }

  predicate Indices(vs: seq<real>, idx: seq<nat>) {
    forall k :: 0 <= k < |idx| ==> idx[k] < |vs|
  }

  /** Index i goes after every index whose key is not larger. */
  function Insert(vs: seq<real>, idx: seq<nat>, i: nat): (r: seq<nat>)
    requires i < |vs| && Indices(vs, idx)
    ensures |r| == |idx| + 1 && Indices(vs, r)
    ensures forall j :: j in r <==> j in idx || j == i
  {
    if idx == [] then [i]
    else if vs[idx[|idx| - 1]] <= vs[i] then idx + [i]
    else
      assert idx == idx[..|idx| - 1] + [idx[|idx| - 1]];
      Insert(vs, idx[..|idx| - 1], i) + [idx[|idx| - 1]]
  }

  lemma SortedAppend(s: seq<real>, v: real)
    requires Sorted(s)
    requires s != [] ==> s[|s| - 1] <= v
    ensures Sorted(s + [v])
  {
  }

  lemma PickAppend(vs: seq<real>, idx: seq<nat>, i: nat)
    requires Indices(vs, idx) && i < |vs|
    ensures Pick(vs, idx + [i]) == Pick(vs, idx) + [vs[i]]
  {
  }

  lemma PickPrefix(vs: seq<real>, idx: seq<nat>)
    requires Indices(vs, idx) && idx != [] && Sorted(Pick(vs, idx))
    ensures Sorted(Pick(vs, idx[..|idx| - 1]))
    ensures |idx| > 1 ==> vs[idx[|idx| - 2]] <= vs[idx[|idx| - 1]]
  {
    var n := |idx|;
    forall i, j | 0 <= i <= j < n - 1 ensures vs[idx[i]] <= vs[idx[j]] {
      assert Pick(vs, idx)[i] <= Pick(vs, idx)[j];
    }
    if n > 1 { assert Pick(vs, idx)[n - 2] <= Pick(vs, idx)[n - 1]; }
  }

  /** Insertion keeps the keys ordered; the last key is the old one or the new one. */
  lemma {:induction false} InsertSorts(vs: seq<real>, idx: seq<nat>, i: nat)
    requires i < |vs| && Indices(vs, idx) && Sorted(Pick(vs, idx))
    ensures var r := Insert(vs, idx, i);
            && Sorted(Pick(vs, r))
            && (r[|idx|] == i || (idx != [] && r[|idx|] == idx[|idx| - 1]))
  {
    var n := |idx|;
    if n > 0 {
      var init, last := idx[..n - 1], idx[n - 1];
      if vs[last] <= vs[i] {
        PickAppend(vs, idx, i);
        SortedAppend(Pick(vs, idx), vs[i]);
      } else {
        var r := Insert(vs, init, i);
        PickPrefix(vs, idx);
        InsertSorts(vs, init, i);
        PickAppend(vs, r, last);
        SortedAppend(Pick(vs, r), vs[last]);
      }
    }
  }

  lemma DistinctAppend(idx: seq<nat>, i: nat)
    requires Distinct(idx) && i !in idx
    ensures Distinct(idx + [i])
  {
  }

  lemma {:induction false} InsertDistinct(vs: seq<real>, idx: seq<nat>, i: nat)
    requires i < |vs| && Indices(vs, idx) && Distinct(idx) && i !in idx
    ensures Distinct(Insert(vs, idx, i))
  {
    var n := |idx|;
    if n > 0 && vs[idx[n - 1]] > vs[i] {
      var init, last := idx[..n - 1], idx[n - 1];
      InsertDistinct(vs, init, i);
      assert last !in Insert(vs, init, i);
      DistinctAppend(Insert(vs, init, i), last);
    } else {
      DistinctAppend(idx, i);
    }
  }

  lemma {:induction false} InsertCounts(vs: seq<real>, idx: seq<nat>, i: nat, v: real, closed: bool)
    requires i < |vs| && Indices(vs, idx)
    ensures Count(Pick(vs, Insert(vs, idx, i)), v, closed)
         == Count(Pick(vs, idx), v, closed) + Hit(vs[i], v, closed)
  {
    var n := |idx|;
    if n > 0 && vs[idx[n - 1]] > vs[i] {
      var init, last := idx[..n - 1], idx[n - 1];
      var r := Insert(vs, init, i);
      InsertCounts(vs, init, i, v, closed);
      PickAppend(vs, r, last);
      CountConcat(Pick(vs, r), [vs[last]], v, closed);
      assert idx == init + [last];
      PickAppend(vs, init, last);
      CountConcat(Pick(vs, init), [vs[last]], v, closed);
    } else {
      PickAppend(vs, idx, i);
      CountConcat(Pick(vs, idx), [vs[i]], v, closed);
    }
  }

  function SortFirst(vs: seq<real>, n: nat): (idx: seq<nat>)
    requires n <= |vs|
    ensures |idx| == n && Indices(vs, idx)
    ensures forall j :: j in idx <==> 0 <= j < n
  {
    if n == 0 then [] else Insert(vs, SortFirst(vs, n - 1), n - 1)
  }

  lemma {:induction false} SortFirstSorts(vs: seq<real>, n: nat)
    requires n <= |vs|
    ensures Sorted(Pick(vs, SortFirst(vs, n))) && Distinct(SortFirst(vs, n))
  {
    if n != 0 {
      SortFirstSorts(vs, n - 1);
      InsertSorts(vs, SortFirst(vs, n - 1), n - 1);
      InsertDistinct(vs, SortFirst(vs, n - 1), n - 1);
    }
  }

  lemma {:induction false} SortFirstCounts(vs: seq<real>, n: nat, v: real, closed: bool)
    requires n <= |vs|
    ensures Count(Pick(vs, SortFirst(vs, n)), v, closed) == Count(vs[..n], v, closed)
  {
    if n != 0 {
      SortFirstCounts(vs, n - 1, v, closed);
      InsertCounts(vs, SortFirst(vs, n - 1), n - 1, v, closed);
      assert vs[..n] == vs[..n - 1] + [vs[n - 1]];
      CountConcat(vs[..n - 1], [vs[n - 1]], v, closed);
    }
  }

  /** sorted(range(len(vs)), key = vs): every index once, in key order. */
  function SortIndices(vs: seq<real>): (idx: seq<nat>)
    ensures |idx| == |vs| && Indices(vs, idx) && Distinct(idx)
    ensures forall j :: j in idx <==> 0 <= j < |vs|
    ensures Sorted(Pick(vs, idx))
  {
    SortFirstSorts(vs, |vs|);
    SortFirst(vs, |vs|)
  }

  /** Indices with equal keys stand in their own order. */
  ghost predicate Stable(vs: seq<real>, idx: seq<nat>)
    requires Indices(vs, idx)
  {
    forall k, l :: 0 <= k < l < |idx| && vs[idx[k]] == vs[idx[l]] ==> idx[k] < idx[l]
  }

  lemma StableAppend(vs: seq<real>, idx: seq<nat>, i: nat)
    requires i < |vs| && Indices(vs, idx) && Stable(vs, idx)
    requires forall j :: j in idx && vs[j] == vs[i] ==> j < i
    ensures Stable(vs, idx + [i])
  {
    var r := idx + [i];
    forall k, l | 0 <= k < l < |r| && vs[r[k]] == vs[r[l]] ensures r[k] < r[l] {
      assert r[k] == idx[k] && idx[k] in idx;
    }
  }

  lemma {:induction false} InsertStable(vs: seq<real>, idx: seq<nat>, i: nat)
    requires i < |vs| && Indices(vs, idx) && Stable(vs, idx) && forall j :: j in idx ==> j < i
    ensures Stable(vs, Insert(vs, idx, i))
  {
    var n := |idx|;
    if n > 0 && vs[idx[n - 1]] > vs[i] {
      var init, last := idx[..n - 1], idx[n - 1];
      forall j | j in init ensures j < i { assert j in idx; }
      InsertStable(vs, init, i);
      forall j | j in Insert(vs, init, i) && vs[j] == vs[last] ensures j < last {
        var m :| 0 <= m < n - 1 && init[m] == j;
        assert idx[m] == j;
      }
      StableAppend(vs, Insert(vs, init, i), last);
    } else {
      StableAppend(vs, idx, i);
    }
  }

  lemma AllBelow(idx: seq<nat>, n: nat)
    requires forall j :: j in idx <==> 0 <= j < n
    ensures forall j :: j in idx ==> j < n
  {
  }

  lemma {:induction false} SortFirstStable(vs: seq<real>, n: nat)
    requires n <= |vs|
    ensures Stable(vs, SortFirst(vs, n))
  {
    if n != 0 {
      SortFirstStable(vs, n - 1);
      AllBelow(SortFirst(vs, n - 1), n - 1);
      InsertStable(vs, SortFirst(vs, n - 1), n - 1);
    }
  }

  /** Python's sort is stable. */
  lemma SortIndicesStable(vs: seq<real>)
    ensures Stable(vs, SortIndices(vs))
  {
    SortFirstStable(vs, |vs|);
  }

  lemma SortIndicesCounts(vs: seq<real>, v: real, closed: bool)
    ensures Count(Pick(vs, SortIndices(vs)), v, closed) == Count(vs, v, closed)
  {
    SortFirstCounts(vs, |vs|, v, closed);
    assert vs[..|vs|] == vs;
  }
}
