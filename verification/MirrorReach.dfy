/** Which cells n reflections reach, for any axes, and a cell that the depth cap cuts off. */
module MirrorReach {
  import opened Mirrors
  import opened MirrorSearch

  // ---------- One direction ----------

  /** Where the permitted axes of one direction lie. */
  ghost function LinesOf(p: Piece, axes: seq<Axis>, vertical: bool): set<int> {
    set k | 0 <= k < |axes| && Permits(p, axes[k]) && axes[k].vertical == vertical :: Offset(axes[k])
  }

  /** t is a sum of m lines. */
  ghost predicate Total(lines: set<int>, m: nat, t: int)
    decreases m
  {
    if m == 0 then t == 0 else exists o :: o in lines && Total(lines, m - 1, t - o)
  }

  /** An even walk shifts by twice a difference of two sums of m lines, an odd one turns round. */
  ghost predicate Walk(lines: set<int>, x: int, y: int, n: nat, m: nat, a: int, b: int) {
    && Total(lines, m, a)
    && ((2 * m <= n && Total(lines, m, b) && y == x + 2 * (b - a))
        || (2 * m + 1 <= n && Total(lines, m + 1, b) && y == 2 * (b - a) - x))
  }

  /** At most n reflections along this direction lead from x to y. */
  ghost predicate Hop(lines: set<int>, x: int, y: int, n: nat) {
    exists m: nat, a, b :: Walk(lines, x, y, n, m, a, b)
  }

  lemma Stay(lines: set<int>, x: int)
    ensures Hop(lines, x, x, 0)
  {
    assert Walk(lines, x, x, 0, 0, 0, 0);
  }

  lemma MoreTotal(lines: set<int>, m: nat, t: int, o: int)
    requires Total(lines, m, t) && o in lines
    ensures Total(lines, m + 1, t + o)
  {
    assert Total(lines, m, t + o - o);
  }

  lemma HopOn(lines: set<int>, x: int, y: int, n: nat, o: int)
    requires Hop(lines, x, y, n) && o in lines
    ensures Hop(lines, x, 2 * o - y, n + 1)
  {
    var m: nat, a, b :| Walk(lines, x, y, n, m, a, b);
    MoreTotal(lines, m, a, o);
    if 2 * m <= n && Total(lines, m, b) && y == x + 2 * (b - a) {
      assert Walk(lines, x, 2 * o - y, n + 1, m, b, a + o);
    } else {
      assert Walk(lines, x, 2 * o - y, n + 1, m + 1, b, a + o);
    }
  }

  /** A walk that moves has a last reflection. */
  lemma HopBack(lines: set<int>, x: int, y: int, n: nat) returns (o: int)
    requires Hop(lines, x, y, n) && y != x
    ensures n > 0 && o in lines && Hop(lines, x, 2 * o - y, n - 1)
  {
    var m: nat, a, b :| Walk(lines, x, y, n, m, a, b);
    if 2 * m <= n && Total(lines, m, b) && y == x + 2 * (b - a) {
      assert m > 0;
      o :| o in lines && Total(lines, m - 1, b - o);
      assert Walk(lines, x, 2 * o - y, n - 1, m - 1, b - o, a);
    } else {
      o :| o in lines && Total(lines, m, b - o);
      assert Walk(lines, x, 2 * o - y, n - 1, m, b - o, a);
    }
  }

  // ---------- Both directions ----------

  /** i reflections sideways and j up and down lead from s to c. */
  ghost predicate Leads(p: Piece, axes: seq<Axis>, s: Cell, c: Cell, i: nat, j: nat) {
    Hop(LinesOf(p, axes, true), s.x, c.x, i) && Hop(LinesOf(p, axes, false), s.y, c.y, j)
  }

  ghost predicate Near(p: Piece, axes: seq<Axis>, seeds: set<Cell>, c: Cell, n: nat) {
    exists s, i: nat, j: nat :: s in seeds && i + j <= n && Leads(p, axes, s, c, i, j)
  }

  lemma LeadsOn(p: Piece, axes: seq<Axis>, s: Cell, b: Cell, i: nat, j: nat, k: nat) returns (i': nat, j': nat)
    requires Leads(p, axes, s, b, i, j) && k < |axes| && Permits(p, axes[k])
    ensures i' + j' == i + j + 1 && Leads(p, axes, s, Reflect(axes[k], b), i', j')
  {
    var o := Offset(axes[k]);
    assert o in LinesOf(p, axes, axes[k].vertical);
    if axes[k].vertical {
      HopOn(LinesOf(p, axes, true), s.x, b.x, i, o);
      i', j' := i + 1, j;
    } else {
      HopOn(LinesOf(p, axes, false), s.y, b.y, j, o);
      i', j' := i, j + 1;
    }
  }

  lemma SeedLeads(p: Piece, axes: seq<Axis>, c: Cell)
    ensures Leads(p, axes, c, c, 0, 0)
  {
    Stay(LinesOf(p, axes, true), c.x);
    Stay(LinesOf(p, axes, false), c.y);
  }

  lemma {:induction false} BallIsNear(p: Piece, axes: seq<Axis>, seeds: set<Cell>, c: Cell, n: nat)
    returns (s: Cell, i: nat, j: nat)
    requires c in Ball(p, axes, seeds, n)
    ensures s in seeds && i + j <= n && Leads(p, axes, s, c, i, j)
    decreases n, 1
  {
    if n == 0 {
      s, i, j := c, 0, 0;
      SeedLeads(p, axes, c);
    } else if c in Ball(p, axes, seeds, n - 1) {
      s, i, j := BallIsNear(p, axes, seeds, c, n - 1);
    } else {
      s, i, j := NewIsNear(p, axes, seeds, c, n - 1);
    }
  }

  lemma {:induction false} NewIsNear(p: Piece, axes: seq<Axis>, seeds: set<Cell>, c: Cell, n: nat)
    returns (s: Cell, i: nat, j: nat)
    requires c in Ball(p, axes, seeds, n + 1) && c !in Ball(p, axes, seeds, n)
    ensures s in seeds && i + j <= n + 1 && Leads(p, axes, s, c, i, j)
    decreases n + 1, 0
  {
    var b, k := LastStep(p, axes, seeds, n, c);
    s, i, j := BallIsNear(p, axes, seeds, b, n);
    i, j := LeadsOn(p, axes, s, b, i, j, k);
  }

  function With(vertical: bool, c: Cell, v: int): Cell {
    if vertical then Cell(v, c.y) else Cell(c.x, v)
  }

  ghost predicate AllLines(p: Piece, axes: seq<Axis>, vertical: bool, lines: set<int>) {
    forall o :: o in lines ==> o in LinesOf(p, axes, vertical)
  }

  lemma {:induction false} HopInBall(p: Piece, axes: seq<Axis>, seeds: set<Cell>, vertical: bool, lines: set<int>,
                                     c: Cell, m: nat, y: int, n: nat)
    requires c in Ball(p, axes, seeds, m) && Hop(lines, Along(vertical, c), y, n) && AllLines(p, axes, vertical, lines)
    ensures With(vertical, c, y) in Ball(p, axes, seeds, m + n)
    decreases n
  {
    if y == Along(vertical, c) {
      BallGrows(p, axes, seeds, m, m + n);
    } else {
      var o := HopBack(lines, Along(vertical, c), y, n);
      HopInBall(p, axes, seeds, vertical, lines, c, m, 2 * o - y, n - 1);
      LineStep(p, axes, seeds, vertical, c, m + n, y, o);
    }
  }

  lemma LineStep(p: Piece, axes: seq<Axis>, seeds: set<Cell>, vertical: bool, c: Cell, n: nat, y: int, o: int)
    requires o in LinesOf(p, axes, vertical) && n > 0 && With(vertical, c, 2 * o - y) in Ball(p, axes, seeds, n - 1)
    ensures With(vertical, c, y) in Ball(p, axes, seeds, n)
  {
    var k :| 0 <= k < |axes| && Permits(p, axes[k]) && axes[k].vertical == vertical && Offset(axes[k]) == o;
    BallStep(p, axes, seeds, n - 1, With(vertical, c, 2 * o - y), k);
    assert Reflect(axes[k], With(vertical, c, 2 * o - y)) == With(vertical, c, y);
  }

  lemma LeadsWithin(p: Piece, axes: seq<Axis>, seeds: set<Cell>, s: Cell, c: Cell, i: nat, j: nat, n: nat)
    requires s in seeds && Leads(p, axes, s, c, i, j) && i + j <= n
    ensures c in Ball(p, axes, seeds, n)
  {
    HopInBall(p, axes, seeds, true, LinesOf(p, axes, true), s, 0, c.x, i);
    HopInBall(p, axes, seeds, false, LinesOf(p, axes, false), Cell(c.x, s.y), i, c.y, j);
    BallGrows(p, axes, seeds, i + j, n);
  }

  lemma NearIsBall(p: Piece, axes: seq<Axis>, seeds: set<Cell>, c: Cell, n: nat)
    requires Near(p, axes, seeds, c, n)
    ensures c in Ball(p, axes, seeds, n)
  {
    var s, i: nat, j: nat :| s in seeds && i + j <= n && Leads(p, axes, s, c, i, j);
    LeadsWithin(p, axes, seeds, s, c, i, j, n);
  }

  /** For any axes: n reflections reach exactly the cells whose two coordinates some seed reaches
      with n reflections in all. */
  lemma WithinIff(p: Piece, axes: seq<Axis>, seeds: set<Cell>, c: Cell, n: nat)
    ensures c in Ball(p, axes, seeds, n) <==> Near(p, axes, seeds, c, n)
  {
    if c in Ball(p, axes, seeds, n) { var s, i, j := BallIsNear(p, axes, seeds, c, n); }
    if Near(p, axes, seeds, c, n) { NearIsBall(p, axes, seeds, c, n); }
  }

  /** So the search paints a grid cell exactly when it is no seed and 13 reflections suffice. */
  lemma PaintedIff(p: Piece, axes: seq<Axis>, width: nat, height: nat, c: Cell)
    ensures Reached(p, axes, width, height, c)
       <==> c !in Seeds(p, width, height) && Near(p, axes, Seeds(p, width, height), c, 13)
  {
    WithinIff(p, axes, Seeds(p, width, height), c, MAX_DEPTH + 1);
  }

  // ---------- Two lines at a gap ----------

  /** At most two lines in one direction: none, or one at first and one at first + gap. */
  datatype Lines = NoLines | Lines(first: int, gap: nat)

  function SetOf(l: Lines): set<int> {
    match l case NoLines => {} case Lines(first, gap) => {first, first + gap}
  }

  ghost predicate HasLines(p: Piece, axes: seq<Axis>, vertical: bool, l: Lines) {
    LinesOf(p, axes, vertical) == SetOf(l)
  }

  function Gaps(k: int, gap: nat): int {
    k * gap
  }

  lemma GapsAdd(j: int, k: int, gap: nat)
    ensures Gaps(j + k, gap) == Gaps(j, gap) + Gaps(k, gap)
    ensures Gaps(j - k, gap) == Gaps(j, gap) - Gaps(k, gap)
    ensures Gaps(1, gap) == gap && Gaps(0, gap) == 0
  {
  }

  lemma {:induction false} TotalOfTwo(first: int, gap: nat, m: nat, t: int) returns (j: int)
    requires Total({first, first + gap}, m, t)
    ensures 0 <= j <= m && t == m * first + Gaps(j, gap)
    decreases m
  {
    if m == 0 {
      j := 0;
    } else {
      var o :| o in {first, first + gap} && Total({first, first + gap}, m - 1, t - o);
      j := TotalOfTwo(first, gap, m - 1, t - o);
      assert m * first == (m - 1) * first + first;
      if o != first {
        GapsAdd(j, 1, gap);
        j := j + 1;
      }
    }
  }

  lemma {:induction false} TwoTotal(first: int, gap: nat, m: nat, j: nat)
    requires j <= m
    ensures Total({first, first + gap}, m, m * first + Gaps(j, gap))
    decreases m
  {
    if m != 0 {
      var o := if j == 0 then first else first + gap;
      var i := if j == 0 then 0 else j - 1;
      TwoTotal(first, gap, m - 1, i);
      GapsAdd(i, 1, gap);
      assert m * first == (m - 1) * first + first;
      assert o in {first, first + gap} && Total({first, first + gap}, m - 1, m * first + Gaps(j, gap) - o);
    }
  }

  predicate AtMost(steps: int, n: nat) {
    steps <= n && -steps <= n
  }

  /** y is x shifted by k gaps and back, or turned round k gaps beyond the first line. */
  predicate Form(first: int, gap: nat, x: int, y: int, n: nat, k: int) {
    || (AtMost(2 * k, n) && y == x + 2 * Gaps(k, gap))
    || (AtMost(2 * k - 1, n) && y == 2 * first + 2 * Gaps(k, gap) - x)
  }

  lemma ShiftOfTwo(first: int, gap: nat, x: int, n: nat, k: int)
    requires AtMost(2 * k, n)
    ensures Hop({first, first + gap}, x, x + 2 * Gaps(k, gap), n)
  {
    var m := if k >= 0 then k else -k;
    TwoTotal(first, gap, m, if k >= 0 then k else 0);
    TwoTotal(first, gap, m, if k >= 0 then 0 else m);
    GapsAdd(if k >= 0 then k else 0, if k >= 0 then 0 else m, gap);
    var a := m * first + Gaps(if k >= 0 then 0 else m, gap);
    var b := m * first + Gaps(if k >= 0 then k else 0, gap);
    assert Walk({first, first + gap}, x, x + 2 * Gaps(k, gap), n, m, a, b);
  }

  lemma TurnOfTwo(first: int, gap: nat, x: int, n: nat, k: int)
    requires AtMost(2 * k - 1, n)
    ensures Hop({first, first + gap}, x, 2 * first + 2 * Gaps(k, gap) - x, n)
  {
    var m := if k >= 1 then k - 1 else -k;
    TwoTotal(first, gap, m + 1, if k >= 1 then k else 0);
    TwoTotal(first, gap, m, if k >= 1 then 0 else m);
    GapsAdd(if k >= 1 then k else 0, if k >= 1 then 0 else m, gap);
    var a := m * first + Gaps(if k >= 1 then 0 else m, gap);
    var b := (m + 1) * first + Gaps(if k >= 1 then k else 0, gap);
    assert (m + 1) * first == m * first + first;
    assert Walk({first, first + gap}, x, 2 * first + 2 * Gaps(k, gap) - x, n, m, a, b);
  }

  /** With lines at first and first + gap: shifts by 2 k gap cost 2|k|, turns cost |2k - 1|. */
  lemma TwoLinesIff(first: int, gap: nat, x: int, y: int, n: nat)
    ensures Hop({first, first + gap}, x, y, n) <==> exists k :: Form(first, gap, x, y, n, k)
  {
    if Hop({first, first + gap}, x, y, n) {
      var m: nat, a, b :| Walk({first, first + gap}, x, y, n, m, a, b);
      var i := TotalOfTwo(first, gap, m, a);
      if 2 * m <= n && Total({first, first + gap}, m, b) && y == x + 2 * (b - a) {
        var j := TotalOfTwo(first, gap, m, b);
        GapsAdd(j, i, gap);
        assert Form(first, gap, x, y, n, j - i);
      } else {
        var j := TotalOfTwo(first, gap, m + 1, b);
        GapsAdd(j, i, gap);
        assert (m + 1) * first == m * first + first;
        assert Form(first, gap, x, y, n, j - i);
      }
    }
    if k :| Form(first, gap, x, y, n, k) {
      if AtMost(2 * k, n) && y == x + 2 * Gaps(k, gap) {
        ShiftOfTwo(first, gap, x, n, k);
      } else {
        TurnOfTwo(first, gap, x, n, k);
      }
    }
  }

  /** The seed lies in the row of c, and c has the form of a cell within 13 reflections of it. */
  ghost predicate FormFrom(first: int, gap: nat, s: Cell, c: Cell, k: int) {
    s.y == c.y && Form(first, gap, s.x, c.x, 13, k)
  }

  /** With just two upright lines a cell is painted exactly when it is no seed and lies, in the row of
      some seed x, at x + 2 k gap with |k| <= 6 or at 2 first + 2 k gap - x with |2k - 1| <= 13. */
  lemma PaintedByTwoLines(p: Piece, axes: seq<Axis>, first: int, gap: nat, width: nat, height: nat, c: Cell)
    requires HasLines(p, axes, true, Lines(first, gap)) && HasLines(p, axes, false, NoLines)
    ensures Reached(p, axes, width, height, c) <==>
              && c !in Seeds(p, width, height)
              && exists s, k :: s in Seeds(p, width, height) && FormFrom(first, gap, s, c, k)
  {
    var seeds := Seeds(p, width, height);
    if Reached(p, axes, width, height, c) {
      var s, i, j := BallIsNear(p, axes, seeds, c, MAX_DEPTH + 1);
      if s.y != c.y { var o := HopBack({}, s.y, c.y, j); }
      TwoLinesIff(first, gap, s.x, c.x, i);
      var k :| Form(first, gap, s.x, c.x, i, k);
      assert FormFrom(first, gap, s, c, k);
    }
    if s, k :| s in seeds && FormFrom(first, gap, s, c, k) {
      TwoLinesIff(first, gap, s.x, c.x, MAX_DEPTH + 1);
      Stay({}, c.y);
      LeadsWithin(p, axes, seeds, s, c, MAX_DEPTH + 1, 0, MAX_DEPTH + 1);
    }
  }

  // ---------- A cell that the cap cuts off ----------

  lemma FourteenIsFar(i: nat)
    requires i <= MAX_DEPTH + 1
    ensures !Hop({20, 21}, 0, 14, i)
  {
    TwoLinesIff(20, 1, 0, 14, i);
    forall k ensures !Form(20, 1, 0, 14, i, k) {
      GapsAdd(k, 0, 1);
    }
  }

  lemma FourteenIsNear()
    ensures Hop({20, 21}, 0, 14, MAX_DEPTH + 2)
  {
    GapsAdd(7, 0, 1);
    assert Gaps(7, 1) == 7;
    assert Form(20, 1, 0, 14, MAX_DEPTH + 2, 7);
    TwoLinesIff(20, 1, 0, 14, MAX_DEPTH + 2);
  }

  /** A grid cell that the cap does cut off: 14 reflections lead to it, and no 13 do. */
  lemma CapCutsCell()
    ensures var p := Piece(0, 0, [[3]], false, false, false);
            var axes := [Axis(20, 0, true, false, 1, 64, false), Axis(21, 0, true, false, 1, 64, false)];
            var c := Cell(14, 0);
            && InGrid(c, 64, 64) && c in Ball(p, axes, Seeds(p, 64, 64), MAX_DEPTH + 2)
            && !Reached(p, axes, 64, 64, c) && !Covers(p, c)
  {
    var p := Piece(0, 0, [[3]], false, false, false);
    var axes := [Axis(20, 0, true, false, 1, 64, false), Axis(21, 0, true, false, 1, 64, false)];
    var c, seeds := Cell(14, 0), Seeds(p, 64, 64);
    assert LinesOf(p, axes, true) == {20, 21} by {
      assert axes[0].x == 20 && axes[1].x == 21 && Permits(p, axes[0]) && Permits(p, axes[1]);
    }
    assert forall s :: s in seeds <==> s == Cell(0, 0);
    CutBetween(p, axes, seeds, c);
  }

  lemma CutBetween(p: Piece, axes: seq<Axis>, seeds: set<Cell>, c: Cell)
    requires LinesOf(p, axes, true) == {20, 21} && c == Cell(14, 0) && forall s :: s in seeds <==> s == Cell(0, 0)
    ensures c in Ball(p, axes, seeds, MAX_DEPTH + 2) && c !in Ball(p, axes, seeds, MAX_DEPTH + 1)
  {
    FourteenIsNear();
    Stay(LinesOf(p, axes, false), 0);
    LeadsWithin(p, axes, seeds, Cell(0, 0), c, MAX_DEPTH + 2, 0, MAX_DEPTH + 2);
    if c in Ball(p, axes, seeds, MAX_DEPTH + 1) {
      var s, i, j := BallIsNear(p, axes, seeds, c, MAX_DEPTH + 1);
      FourteenIsFar(i);
      assert false;
    }
  }
}
