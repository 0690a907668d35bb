/** Lists without repetition, and selections from lists. */
module Lists {
  ghost predicate Distinct<T>(s: seq<T>) {
    forall i, j :: 0 <= i < j < |s| ==> s[i] != s[j]
  }

  lemma {:induction false} SizeOfDistinct<T>(s: seq<T>, elements: set<T>)
    requires Distinct(s) && forall x :: x in s <==> x in elements
    ensures |s| == |elements|
    decreases |s|
  {
    if s == [] {
      assert elements == {};
    } else {
      var last := s[|s| - 1];
      assert s == s[..|s| - 1] + [last];
      SizeOfDistinct(s[..|s| - 1], elements - {last});
    }
  }

  /** A list has at least as many entries as elements, and exactly as many when nothing repeats. */
  lemma {:induction false} SizeOfList<T>(s: seq<T>, elements: set<T>)
    requires forall x :: x in s <==> x in elements
    ensures |elements| <= |s|
    ensures |elements| == |s| <==> Distinct(s)
    decreases |s|
  {
    if s == [] {
      assert elements == {};
    } else {
      var init, last := s[..|s| - 1], s[|s| - 1];
      assert s == init + [last];
      if last in init {
        SizeOfList(init, elements);
        var i :| 0 <= i < |init| && init[i] == last;
        assert s[i] == s[|s| - 1];
      } else {
        SizeOfList(init, elements - {last});
        assert Distinct(s) <==> Distinct(init) by {
          assert Distinct(init) ==> Distinct(s);
          assert Distinct(s) ==> Distinct(init);
        }
      }
    }
  }

  /** The entries that pass, in order. */
  function Where<T(!new)>(s: seq<T>, passes: T -> bool): (r: seq<T>)
    ensures |r| <= |s|
    ensures forall x :: x in r <==> x in s && passes(x)
  {
    if s == [] then []
    else if passes(s[0]) then [s[0]] + Where(s[1..], passes)
    else Where(s[1..], passes)
  }

  lemma {:induction false} SplitBy<T(!new)>(s: seq<T>, p: T -> bool, q: T -> bool)
    requires forall x :: q(x) == !p(x)
    ensures |Where(s, p)| + |Where(s, q)| == |s|
  {
    if s != [] { SplitBy(s[1..], p, q); }
  }

  lemma {:induction false} WeakerKeepsMore<T(!new)>(s: seq<T>, p: T -> bool, q: T -> bool)
    requires forall x :: x in s && p(x) ==> q(x)
    ensures |Where(s, p)| <= |Where(s, q)|
  {
    if s != [] { WeakerKeepsMore(s[1..], p, q); }
  }

  lemma {:induction false} AllPass<T(!new)>(s: seq<T>, passes: T -> bool)
    requires forall x :: x in s ==> passes(x)
    ensures Where(s, passes) == s
  {
    if s != [] {
      assert s == [s[0]] + s[1..];
      AllPass(s[1..], passes);
    }
  }

  /** How many places of the list hold an entry that passes. */
  ghost function Tally<T(!new)>(s: seq<T>, n: nat, passes: T -> bool): (places: set<nat>)
    requires n <= |s|
  {
    set i: nat | i < n && passes(s[i])
  }

  lemma TallyStep<T(!new)>(s: seq<T>, n: nat, passes: T -> bool)
    requires 0 < n <= |s|
    ensures |Tally(s, n, passes)| == |Tally(s, n - 1, passes)| + if passes(s[n - 1]) then 1 else 0
  {
    var before := Tally(s, n - 1, passes);
    if passes(s[n - 1]) {
      assert Tally(s, n, passes) == before + {n - 1};
    } else {
      assert Tally(s, n, passes) == before;
    }
  }

  lemma {:induction false} WhereConcat<T(!new)>(a: seq<T>, b: seq<T>, passes: T -> bool)
    ensures Where(a + b, passes) == Where(a, passes) + Where(b, passes)
  {
    if a == [] {
      assert a + b == b;
    } else {
      assert (a + b)[1..] == a[1..] + b;
      WhereConcat(a[1..], b, passes);
    }
  }

  /** A selection has one entry for every place that passes. */
  lemma {:induction false} WhereSize<T(!new)>(s: seq<T>, n: nat, passes: T -> bool)
    requires n <= |s|
    ensures |Where(s[..n], passes)| == |Tally(s, n, passes)|
  {
    if n == 0 {
      assert Tally(s, 0, passes) == {};
    } else {
      WhereSize(s, n - 1, passes);
      assert s[..n] == s[..n - 1] + [s[n - 1]];
      WhereConcat(s[..n - 1], [s[n - 1]], passes);
      TallyStep(s, n, passes);
    }
  }

  lemma {:induction false} WhereTwice<T(!new)>(s: seq<T>, p: T -> bool, q: T -> bool, both: T -> bool)
    requires forall x :: both(x) == (p(x) && q(x))
    ensures Where(Where(s, p), q) == Where(s, both)
  {
    if s != [] { WhereTwice(s[1..], p, q, both); }
  }
}
