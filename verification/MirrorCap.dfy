/** Exactly when the depth cap of the mirror search cuts nothing off a grid that its lines cross. */
module MirrorCap {
  import opened Mirrors
  import opened MirrorReach

  /** Two distinct lines both cross the grid of the given size. */
  predicate Cross(l: Lines, size: nat) {
    l.Lines? && l.gap > 0 ==> 0 <= l.first && l.first + l.gap < size
  }

  /** Whatever reflections lead from one grid coordinate to another, cap of them do. */
  ghost predicate Suffices(l: Lines, size: nat, cap: nat) {
    forall x, y, n: nat :: 0 <= x < size && 0 <= y < size && Hop(SetOf(l), x, y, n) ==> Hop(SetOf(l), x, y, cap)
  }

  /** The most gaps beyond the first line round whose image cap reflections turn. */
  function Turns(cap: nat): nat {
    (cap + 1) / 2
  }

  /** The least gaps, there and back, by which cap reflections do not shift. */
  function Shifts(cap: nat): nat {
    cap / 2 + 1
  }

  /** Neither border lies beyond the first image of a line that cap reflections do not turn round,
      and the grid is no longer than the first shift that they do not make, unless it is just as long
      and that shift leads from one line to another, which a turn does as well. Lines next to each
      other have room to spare, and a single line only turns. */
  predicate Short(l: Lines, size: nat, cap: nat) {
    match l
    case NoLines => true
    case Lines(first, gap) =>
      var u, h := Turns(cap), Shifts(cap);
      if gap == 0 then cap > 0 || first <= 0 || size - 1 <= first
      else if gap == 1 then size <= 2 * h || (first < u + h && size - 1 <= first + u + h)
      else
        && first <= Gaps(u, gap) && size - 1 <= first + Gaps(u + 1, gap)
        && (size <= 2 * Gaps(h, gap)
            || (size == 2 * Gaps(h, gap) + 1 && (first == Gaps(u, gap) || first == Gaps(u - 1, gap))))
  }

  // ---------- Short grids are covered ----------

  lemma HopByForm(first: int, gap: nat, x: int, y: int, cap: nat, k: int)
    requires Form(first, gap, x, y, cap, k)
    ensures Hop(SetOf(Lines(first, gap)), x, y, cap)
  {
    TwoLinesIff(first, gap, x, y, cap);
  }

  lemma GapsOrdered(j: int, k: int, gap: nat)
    requires j <= k
    ensures Gaps(j, gap) <= Gaps(k, gap)
  {
    assert (k - j) * gap >= 0;
    GapsAdd(k, j, gap);
  }

  lemma GapsBounds(k: int, lo: int, hi: int, gap: nat)
    ensures k >= hi ==> Gaps(k, gap) >= Gaps(hi, gap)
    ensures k <= lo ==> Gaps(k, gap) <= Gaps(lo, gap)
  {
    if k >= hi { GapsOrdered(hi, k, gap); }
    if k <= lo { GapsOrdered(k, lo, gap); }
  }

  lemma GapsNegative(k: int, gap: nat)
    ensures Gaps(0 - k, gap) == -Gaps(k, gap)
  {
    GapsAdd(0, k, gap);
  }

  /** A turn out of reach leads from a border to itself. */
  lemma TurnCovered(first: int, gap: nat, size: nat, cap: nat, x: int, y: int, k: int)
    requires gap > 1 && Cross(Lines(first, gap), size) && Short(Lines(first, gap), size, cap)
    requires 0 <= x < size && 0 <= y < size && y == 2 * first + 2 * Gaps(k, gap) - x
    ensures Hop(SetOf(Lines(first, gap)), x, y, cap)
  {
    var u: int := Turns(cap);
    GapsBounds(k, 0 - u, u + 1, gap);
    GapsNegative(u, gap);
    if 1 - u <= k <= u {
      HopByForm(first, gap, x, y, cap, k);
    } else {
      assert x == y;
      GapsAdd(0, 0, gap);
      HopByForm(first, gap, x, y, cap, 0);
    }
  }

  /** A shift out of reach leads from a line at one border to a line at the other. */
  lemma ShiftCovered(first: int, gap: nat, size: nat, cap: nat, x: int, y: int, k: int)
    requires gap > 1 && Cross(Lines(first, gap), size) && Short(Lines(first, gap), size, cap)
    requires 0 <= x < size && 0 <= y < size && y == x + 2 * Gaps(k, gap)
    ensures Hop(SetOf(Lines(first, gap)), x, y, cap)
  {
    var u: int, h: int := Turns(cap), Shifts(cap);
    GapsBounds(k, 0 - h, h, gap);
    GapsNegative(h, gap);
    if 1 - h <= k <= h - 1 {
      HopByForm(first, gap, x, y, cap, k);
    } else {
      EdgeLines(first, gap, size, cap);
      EdgesCovered(first, gap, cap, x, y);
    }
  }

  /** A short grid as long as the shift itself begins and ends at a line; the cap is then odd. */
  lemma EdgeLines(first: int, gap: nat, size: nat, cap: nat)
    requires gap > 1 && Short(Lines(first, gap), size, cap) && size == 2 * Gaps(Shifts(cap), gap) + 1
    ensures cap > 0 && (size - 1 == 2 * first || size - 1 == 2 * first + 2 * gap)
  {
    var u, h := Turns(cap), Shifts(cap);
    GapsAdd(u, 1, gap);
    if h != u { EvenCapShort(first, gap, size, Gaps(u, gap), Gaps(h, gap)); }
  }

  /** An even cap turns round fewer lines than it shifts gaps, which rules such a grid out. */
  lemma EvenCapShort(first: int, gap: nat, size: nat, turned: int, shifted: int)
    requires gap > 0 && shifted == turned + gap && size == 2 * shifted + 1
    ensures first > turned || size - 1 > first + shifted
  {
  }

  lemma EdgesCovered(first: int, gap: nat, cap: nat, x: int, y: int)
    requires cap > 0 && (x + y == 2 * first || x + y == 2 * first + 2 * gap)
    ensures Hop(SetOf(Lines(first, gap)), x, y, cap)
  {
    GapsAdd(1, 0, gap);
    HopByForm(first, gap, x, y, cap, if x + y == 2 * first then 0 else 1);
  }

  lemma UnitGaps(k: int)
    ensures Gaps(k, 1) == k
  {
  }

  /** With lines next to each other every move is both a shift and a turn. */
  lemma BothWays(first: int, size: nat, cap: nat, x: int, y: int, shift: int, turn: int)
    requires Short(Lines(first, 1), size, cap) && 0 <= x < size && 0 <= y < size
    requires y == x + 2 * shift && y == 2 * first + 2 * turn - x
    ensures AtMost(2 * shift, cap) || AtMost(2 * turn - 1, cap)
  {
  }

  lemma NextCovered(first: int, size: nat, cap: nat, x: int, y: int, k: int)
    requires Short(Lines(first, 1), size, cap) && 0 <= x < size && 0 <= y < size
    requires y == x + 2 * k || y == 2 * first + 2 * k - x
    ensures Hop(SetOf(Lines(first, 1)), x, y, cap)
  {
    var shift := if y == x + 2 * k then k else first + k - x;
    var turn := if y == x + 2 * k then x + k - first else k;
    BothWays(first, size, cap, x, y, shift, turn);
    UnitGaps(shift);
    UnitGaps(turn);
    HopByForm(first, 1, x, y, cap, if AtMost(2 * shift, cap) then shift else turn);
  }

  lemma OneLineCovered(first: int, size: nat, cap: nat, x: int, y: int, k: int)
    requires Short(Lines(first, 0), size, cap) && 0 <= x < size && 0 <= y < size
    requires y == x + 2 * Gaps(k, 0) || y == 2 * first + 2 * Gaps(k, 0) - x
    ensures Hop(SetOf(Lines(first, 0)), x, y, cap)
  {
    assert Gaps(k, 0) == 0 && Gaps(0, 0) == 0;
    HopByForm(first, 0, x, y, cap, 0);
  }

  lemma FormCovered(first: int, gap: nat, size: nat, cap: nat, x: int, y: int, n: nat, k: int)
    requires Cross(Lines(first, gap), size) && Short(Lines(first, gap), size, cap)
    requires 0 <= x < size && 0 <= y < size && Form(first, gap, x, y, n, k)
    ensures Hop(SetOf(Lines(first, gap)), x, y, cap)
  {
    if gap == 0 {
      OneLineCovered(first, size, cap, x, y, k);
    } else if gap == 1 {
      UnitGaps(k);
      NextCovered(first, size, cap, x, y, k);
    } else if y == x + 2 * Gaps(k, gap) {
      ShiftCovered(first, gap, size, cap, x, y, k);
    } else {
      TurnCovered(first, gap, size, cap, x, y, k);
    }
  }

  lemma HopCovered(l: Lines, size: nat, cap: nat, x: int, y: int, n: nat)
    requires Cross(l, size) && Short(l, size, cap) && 0 <= x < size && 0 <= y < size && Hop(SetOf(l), x, y, n)
    ensures Hop(SetOf(l), x, y, cap)
  {
    match l
    case NoLines =>
      if y != x { var o := HopBack(SetOf(l), x, y, n); }
      Stay(SetOf(l), x);
      HopMore(SetOf(l), x, y, 0, cap);
    case Lines(first, gap) =>
      TwoLinesIff(first, gap, x, y, n);
      var k :| Form(first, gap, x, y, n, k);
      FormCovered(first, gap, size, cap, x, y, n, k);
  }

  lemma ShortSuffices(l: Lines, size: nat, cap: nat)
    requires Cross(l, size) && Short(l, size, cap)
    ensures Suffices(l, size, cap)
  {
    forall x, y, n: nat | 0 <= x < size && 0 <= y < size && Hop(SetOf(l), x, y, n)
      ensures Hop(SetOf(l), x, y, cap)
    {
      HopCovered(l, size, cap, x, y, n);
    }
  }

  lemma HopMore(lines: set<int>, x: int, y: int, m: nat, n: nat)
    requires Hop(lines, x, y, m) && m <= n
    ensures Hop(lines, x, y, n)
  {
    var k: nat, a, b :| Walk(lines, x, y, m, k, a, b);
    assert Walk(lines, x, y, n, k, a, b);
  }

  // ---------- On any other grid something is cut ----------

  /** n reflections lead from x to y, and no cap of them. */
  ghost predicate Cut(l: Lines, x: int, y: int, cap: nat, n: nat) {
    Hop(SetOf(l), x, y, n) && !Hop(SetOf(l), x, y, cap)
  }

  lemma CutByForm(first: int, gap: nat, x: int, y: int, cap: nat, n: nat, k: int)
    requires Form(first, gap, x, y, n, k) && forall j :: !Form(first, gap, x, y, cap, j)
    ensures Cut(Lines(first, gap), x, y, cap, n)
  {
    TwoLinesIff(first, gap, x, y, n);
    TwoLinesIff(first, gap, x, y, cap);
  }

  function Steps(k: int): (n: nat)
    ensures AtMost(2 * k - 1, n) && AtMost(2 * k, n + 1)
  {
    if k > 0 then 2 * k - 1 else 1 - 2 * k
  }

  /** Turning round the image of a line k gaps beyond the first. */
  lemma FarTurnCut(first: int, gap: nat, cap: nat, k: int, x: int, y: int)
    requires gap > 1 && !AtMost(2 * k - 1, cap) && x == first + Gaps(k, gap) - 1 && y == x + 2
    ensures Cut(Lines(first, gap), x, y, cap, Steps(k))
  {
    forall j ensures !Form(first, gap, x, y, cap, j) {
      GapsAdd(0, 1, gap);
      GapsBounds(j, -1, 1, gap);
      GapsAdd(j, k, gap);
      GapsBounds(j - k, -1, 1, gap);
    }
    CutByForm(first, gap, x, y, cap, Steps(k), k);
  }

  /** x lies on an image of a line, h gaps short of the k-th, and cap reflections turn round that. */
  predicate NearLine(first: int, gap: nat, x: int, cap: nat, h: nat, k: int) {
    x == first + Gaps(k - h, gap) && AtMost(2 * k - 1, cap)
  }

  /** The first shift out of reach, from a coordinate where no turn within reach does the same. */
  lemma FarShiftCut(first: int, gap: nat, cap: nat, h: nat, x: int, y: int)
    requires gap > 0 && h == Shifts(cap) && y == x + 2 * Gaps(h, gap) && forall k :: !NearLine(first, gap, x, cap, h, k)
    ensures Cut(Lines(first, gap), x, y, cap, 2 * h)
  {
    forall j ensures !Form(first, gap, x, y, cap, j) {
      assert !NearLine(first, gap, x, cap, h, j);
      GapsAdd(j, h, gap);
      GapsAdd(h, 1, gap);
      if j < h { GapsOrdered(j, h - 1, gap); }
      GapsAdd(0, 1, gap);
    }
    assert Form(first, gap, x, y, 2 * h, h);
    CutByForm(first, gap, x, y, cap, 2 * h, h);
  }

  lemma NextCut(first: int, size: nat, cap: nat) returns (x: int, y: int, n: nat)
    requires !Short(Lines(first, 1), size, cap)
    ensures 0 <= x < size && 0 <= y < size && Cut(Lines(first, 1), x, y, cap, n)
  {
    var u, h := Turns(cap), Shifts(cap);
    x := if first >= u + h then 0 else size - 1 - 2 * h;
    y, n := x + 2 * h, 2 * h;
    var back: int := h;
    forall k ensures !NearLine(first, 1, x, cap, h, k) { UnitGaps(k - back); }
    UnitGaps(h);
    FarShiftCut(first, 1, cap, h, x, y);
  }

  lemma OneLineCut(first: int, size: nat) returns (x: int, y: int, n: nat)
    requires 0 < first < size - 1
    ensures 0 <= x < size && 0 <= y < size && Cut(Lines(first, 0), x, y, 0, n)
  {
    x, y, n := first - 1, first + 1, 1;
    assert Gaps(0, 0) == 0;
    forall j ensures !Form(first, 0, x, y, 0, j) { assert Gaps(j, 0) == 0; }
    CutByForm(first, 0, x, y, 0, 1, 0);
  }

  lemma BetweenLines(first: int, gap: nat, low: int, k: int)
    requires Gaps(low, gap) < first < Gaps(low + 1, gap)
    ensures first != Gaps(k, gap)
  {
    GapsBounds(k, low, low + 1, gap);
  }

  /** A grid as long as the shift itself that neither begins nor ends at a near line. */
  lemma EdgeCut(first: int, gap: nat, size: nat, cap: nat, h: nat)
    requires gap > 1 && h == Shifts(cap) && size == 2 * Gaps(h, gap) + 1
    requires first != Gaps(Turns(cap), gap) && first != Gaps(Turns(cap) - 1, gap)
    requires first <= Gaps(Turns(cap), gap) && size - 1 <= first + Gaps(Turns(cap) + 1, gap)
    ensures Cut(Lines(first, gap), 0, size - 1, cap, 2 * h)
  {
    var u: int := Turns(cap);
    GapsAdd(u, 1, gap);
    if h == u {
      var low := u - 1;
      assert Gaps(low, gap) < first < Gaps(low + 1, gap);
      OddEdgeCut(first, gap, size, cap, h, low);
    } else {
      EvenCapShort(first, gap, size, Gaps(u, gap), Gaps(h, gap));
    }
  }

  lemma OddEdgeCut(first: int, gap: nat, size: nat, cap: nat, h: nat, low: int)
    requires gap > 1 && h == Shifts(cap) && size == 2 * Gaps(h, gap) + 1
    requires Gaps(low, gap) < first < Gaps(low + 1, gap)
    ensures Cut(Lines(first, gap), 0, size - 1, cap, 2 * h)
  {
    forall k ensures !NearLine(first, gap, 0, cap, h, k) {
      GapsNegative(k - h, gap);
      BetweenLines(first, gap, low, h - k);
    }
    FarShiftCut(first, gap, cap, h, 0, size - 1);
  }

  /** On a longer grid one of the first two coordinates is on no image of a line. */
  lemma LongCut(first: int, gap: nat, cap: nat, h: nat) returns (x: int)
    requires gap > 1 && h == Shifts(cap)
    ensures 0 <= x <= 1 && Cut(Lines(first, gap), x, x + 2 * Gaps(h, gap), cap, 2 * h)
  {
    x := 0;
    if j :| NearLine(first, gap, 0, cap, h, j) {
      x := 1;
      forall k ensures !NearLine(first, gap, 1, cap, h, k) {
        GapsAdd(k - h, j - h, gap);
        GapsAdd(0, 1, gap);
        GapsBounds(k - h - (j - h), 0, 1, gap);
      }
    }
    FarShiftCut(first, gap, cap, h, x, x + 2 * Gaps(h, gap));
  }

  /** Beyond the near border: the image of a line that is as far as turns go, and one more. */
  lemma LowCut(first: int, gap: nat, size: nat, cap: nat) returns (x: int, n: nat)
    requires gap > 1 && Cross(Lines(first, gap), size) && first > Gaps(Turns(cap), gap)
    ensures 0 <= x && x + 2 < size && Cut(Lines(first, gap), x, x + 2, cap, n)
  {
    var u: int := Turns(cap);
    GapsNegative(u, gap);
    GapsOrdered(0, u, gap);
    GapsAdd(0, 0, gap);
    x, n := first - Gaps(u, gap) - 1, Steps(0 - u);
    FarTurnCut(first, gap, cap, 0 - u, x, x + 2);
  }

  lemma HighCut(first: int, gap: nat, size: nat, cap: nat) returns (x: int, n: nat)
    requires gap > 1 && Cross(Lines(first, gap), size) && size - 1 > first + Gaps(Turns(cap) + 1, gap)
    ensures 0 <= x && x + 2 < size && Cut(Lines(first, gap), x, x + 2, cap, n)
  {
    var u: int := Turns(cap);
    GapsOrdered(1, u + 1, gap);
    GapsAdd(0, 1, gap);
    x, n := first + Gaps(u + 1, gap) - 1, Steps(u + 1);
    FarTurnCut(first, gap, cap, u + 1, x, x + 2);
  }

  lemma GapCut(first: int, gap: nat, size: nat, cap: nat) returns (x: int, y: int, n: nat)
    requires gap > 1 && Cross(Lines(first, gap), size) && !Short(Lines(first, gap), size, cap)
    ensures 0 <= x < size && 0 <= y < size && Cut(Lines(first, gap), x, y, cap, n)
  {
    var h := Shifts(cap);
    if first > Gaps(Turns(cap), gap) {
      x, n := LowCut(first, gap, size, cap);
      y := x + 2;
    } else if size - 1 > first + Gaps(Turns(cap) + 1, gap) {
      x, n := HighCut(first, gap, size, cap);
      y := x + 2;
    } else if size == 2 * Gaps(h, gap) + 1 {
      x, y, n := 0, size - 1, 2 * h;
      EdgeCut(first, gap, size, cap, h);
    } else {
      x := LongCut(first, gap, cap, h);
      y, n := x + 2 * Gaps(h, gap), 2 * h;
      GapsOrdered(0, h, gap);
      GapsAdd(0, 0, gap);
    }
  }

  lemma CutExists(l: Lines, size: nat, cap: nat) returns (x: int, y: int, n: nat)
    requires Cross(l, size) && !Short(l, size, cap)
    ensures 0 <= x < size && 0 <= y < size && Cut(l, x, y, cap, n)
  {
    var first, gap := l.first, l.gap;
    if gap == 0 {
      x, y, n := OneLineCut(first, size);
    } else if gap == 1 {
      x, y, n := NextCut(first, size, cap);
    } else {
      x, y, n := GapCut(first, gap, size, cap);
    }
  }

  /** In one direction, distinct lines across the grid: cap reflections lead wherever any number of
      them do exactly on a short grid. */
  lemma SufficesIff(l: Lines, size: nat, cap: nat)
    requires Cross(l, size)
    ensures Suffices(l, size, cap) <==> Short(l, size, cap)
  {
    if Short(l, size, cap) {
      ShortSuffices(l, size, cap);
    } else {
      var x, y, n := CutExists(l, size, cap);
    }
  }

  // ---------- What that means for the pieces ----------

  /** The cap leaves no grid cell of the piece out. */
  ghost predicate Uncut(p: Piece, axes: seq<Axis>, width: nat, height: nat) {
    forall c, n: nat :: InGrid(c, width, height) && c in Ball(p, axes, Seeds(p, width, height), n) ==>
                        c in Ball(p, axes, Seeds(p, width, height), MAX_DEPTH + 1)
  }

  /** So many reflections are enough sideways and the rest of the cap up and down. */
  predicate Split(across: Lines, down: Lines, width: nat, height: nat, cap: nat, i: nat) {
    i <= cap && Short(across, width, i) && Short(down, height, cap - i)
  }

  ghost predicate Shared(across: Lines, down: Lines, width: nat, height: nat, cap: nat) {
    exists i: nat :: Split(across, down, width, height, cap, i)
  }

  function Pixel(x: int, y: int, onlyVertical: bool, onlyHorizontal: bool): Piece {
    Piece(x, y, [[3]], onlyVertical, onlyHorizontal, false)
  }

  predicate SameKind(p: Piece, q: Piece) {
    p.onlyVertical == q.onlyVertical && p.onlyHorizontal == q.onlyHorizontal
  }

  lemma KindLines(p: Piece, q: Piece, axes: seq<Axis>, vertical: bool)
    requires SameKind(p, q)
    ensures LinesOf(p, axes, vertical) == LinesOf(q, axes, vertical)
  {
    assert forall a :: Permits(p, a) == Permits(q, a);
  }

  lemma SplitUncut(p: Piece, axes: seq<Axis>, across: Lines, down: Lines, width: nat, height: nat, i: nat)
    requires HasLines(p, axes, true, across) && HasLines(p, axes, false, down)
    requires i <= MAX_DEPTH + 1 && Suffices(across, width, i) && Suffices(down, height, MAX_DEPTH + 1 - i)
    ensures Uncut(p, axes, width, height)
  {
    var seeds := Seeds(p, width, height);
    forall c, n: nat | InGrid(c, width, height) && c in Ball(p, axes, seeds, n)
      ensures c in Ball(p, axes, seeds, MAX_DEPTH + 1)
    {
      var s, k, j := BallIsNear(p, axes, seeds, c, n);
      assert Hop(SetOf(across), s.x, c.x, i) && Hop(SetOf(down), s.y, c.y, MAX_DEPTH + 1 - i);
      LeadsWithin(p, axes, seeds, s, c, i, MAX_DEPTH + 1 - i, MAX_DEPTH + 1);
    }
  }

  lemma SplitSuffices(across: Lines, down: Lines, width: nat, height: nat, cap: nat, i: nat)
    requires Cross(across, width) && Cross(down, height) && Split(across, down, width, height, cap, i)
    ensures i <= cap && Suffices(across, width, i) && Suffices(down, height, cap - i)
  {
    ShortSuffices(across, width, i);
    ShortSuffices(down, height, cap - i);
  }

  lemma SharedUncut(p: Piece, axes: seq<Axis>, across: Lines, down: Lines, width: nat, height: nat, cap: nat)
    requires HasLines(p, axes, true, across) && HasLines(p, axes, false, down)
    requires Cross(across, width) && Cross(down, height)
    requires cap == MAX_DEPTH + 1 && Shared(across, down, width, height, cap)
    ensures Uncut(p, axes, width, height)
  {
    var i: nat :| Split(across, down, width, height, cap, i);
    SplitSuffices(across, down, width, height, cap, i);
    SplitUncut(p, axes, across, down, width, height, i);
  }

  /** At least i reflections lead from x to y. */
  ghost predicate Takes(l: Lines, x: int, y: int, i: nat) {
    i > 0 ==> !Hop(SetOf(l), x, y, i - 1)
  }

  lemma TakesAtLeast(l: Lines, x: int, y: int, i: nat, n: nat)
    requires Takes(l, x, y, i) && Hop(SetOf(l), x, y, n)
    ensures n >= i
  {
    if n < i { HopMore(SetOf(l), x, y, n, i - 1); }
  }

  /** A coordinate pair that takes i reflections, any pair if none are asked for. */
  lemma FarPair(l: Lines, size: nat, i: nat) returns (x: int, y: int, n: nat)
    requires Cross(l, size) && size > 0 && (i > 0 ==> !Short(l, size, i - 1))
    ensures 0 <= x < size && 0 <= y < size && Hop(SetOf(l), x, y, n) && Takes(l, x, y, i)
  {
    if i == 0 {
      x, y, n := 0, 0, 0;
      Stay(SetOf(l), 0);
    } else {
      x, y, n := CutExists(l, size, i - 1);
    }
  }

  lemma PixelSeed(p: Piece, width: nat, height: nat)
    requires p == Pixel(p.x, p.y, p.onlyVertical, p.onlyHorizontal) && InGrid(Cell(p.x, p.y), width, height)
    ensures Seeds(p, width, height) == {Cell(p.x, p.y)}
  {
    assert forall c :: Covers(p, c) <==> c == Cell(p.x, p.y);
  }

  /** A seed and a cell whose coordinates take more than the cap between them. */
  lemma FarCell(p: Piece, axes: seq<Axis>, across: Lines, down: Lines, s: Cell, c: Cell, i: nat)
    requires HasLines(p, axes, true, across) && HasLines(p, axes, false, down) && i <= MAX_DEPTH + 2
    requires Takes(across, s.x, c.x, i) && Takes(down, s.y, c.y, MAX_DEPTH + 2 - i)
    ensures c !in Ball(p, axes, {s}, MAX_DEPTH + 1)
  {
    if c in Ball(p, axes, {s}, MAX_DEPTH + 1) {
      var t, k, j := BallIsNear(p, axes, {s}, c, MAX_DEPTH + 1);
      TakesAtLeast(across, s.x, c.x, i, k);
      TakesAtLeast(down, s.y, c.y, MAX_DEPTH + 2 - i, j);
    }
  }

  lemma CutPiece(p: Piece, axes: seq<Axis>, width: nat, height: nat, c: Cell, n: nat)
    requires InGrid(c, width, height) && c in Ball(p, axes, Seeds(p, width, height), n)
    requires c !in Ball(p, axes, Seeds(p, width, height), MAX_DEPTH + 1)
    ensures !Uncut(p, axes, width, height)
  {
  }

  /** If no split of the cap suits both, some split with one to spare suits neither. */
  lemma {:induction false} NoSplit(p: nat -> bool, q: nat -> bool, cap: nat, i: nat) returns (k: nat)
    requires forall j: nat :: j <= cap && p(j) ==> !q(cap - j)
    requires i <= cap + 1 && (i > 0 ==> !p(i - 1))
    ensures k <= cap + 1 && (k > 0 ==> !p(k - 1)) && (k <= cap ==> !q(cap - k))
    decreases cap + 1 - i
  {
    if i > cap || !q(cap - i) {
      k := i;
    } else {
      k := NoSplit(p, q, cap, i + 1);
    }
  }

  lemma FarSplit(across: Lines, down: Lines, width: nat, height: nat, cap: nat) returns (k: nat)
    requires !Shared(across, down, width, height, cap)
    ensures k <= cap + 1 && (k > 0 ==> !Short(across, width, k - 1)) && (k <= cap ==> !Short(down, height, cap - k))
  {
    var p, q := (i: nat) => Short(across, width, i), (i: nat) => Short(down, height, i);
    forall j: nat | j <= cap && p(j) ensures !q(cap - j) { assert !Split(across, down, width, height, cap, j); }
    k := NoSplit(p, q, cap, 0);
  }

  lemma FarPieceCut(p: Piece, axes: seq<Axis>, across: Lines, down: Lines, width: nat, height: nat,
                    c: Cell, i: nat, m: nat, n: nat)
    requires HasLines(p, axes, true, across) && HasLines(p, axes, false, down) && i <= MAX_DEPTH + 2
    requires p == Pixel(p.x, p.y, p.onlyVertical, p.onlyHorizontal)
    requires InGrid(Cell(p.x, p.y), width, height) && InGrid(c, width, height)
    requires Hop(SetOf(across), p.x, c.x, m) && Takes(across, p.x, c.x, i)
    requires Hop(SetOf(down), p.y, c.y, n) && Takes(down, p.y, c.y, MAX_DEPTH + 2 - i)
    ensures !Uncut(p, axes, width, height)
  {
    var s := Cell(p.x, p.y);
    PixelSeed(p, width, height);
    LeadsWithin(p, axes, {s}, s, c, m, n, m + n);
    FarCell(p, axes, across, down, s, c, i);
    CutPiece(p, axes, width, height, c, m + n);
  }

  lemma SomePieceCut(kind: Piece, axes: seq<Axis>, across: Lines, down: Lines, width: nat, height: nat)
    returns (p: Piece)
    requires HasLines(kind, axes, true, across) && HasLines(kind, axes, false, down)
    requires Cross(across, width) && Cross(down, height) && width > 0 && height > 0
    requires !Shared(across, down, width, height, MAX_DEPTH + 1)
    ensures SameKind(p, kind) && !Uncut(p, axes, width, height)
  {
    var i := FarSplit(across, down, width, height, MAX_DEPTH + 1);
    var x, u, m := FarPair(across, width, i);
    var y, v, n := FarPair(down, height, MAX_DEPTH + 2 - i);
    p := Pixel(x, y, kind.onlyVertical, kind.onlyHorizontal);
    KindLines(p, kind, axes, true);
    KindLines(p, kind, axes, false);
    FarPieceCut(p, axes, across, down, width, height, Cell(u, v), i, m, n);
  }

  /** For the pieces of one kind, with at most two lines in each direction, distinct ones across the
      grid: the cap cuts nothing off any of them exactly when it can be split between the two
      directions so that each is short enough for its share. */
  lemma NoPieceCutIff(kind: Piece, axes: seq<Axis>, across: Lines, down: Lines, width: nat, height: nat)
    requires HasLines(kind, axes, true, across) && HasLines(kind, axes, false, down)
    requires Cross(across, width) && Cross(down, height) && width > 0 && height > 0
    ensures (forall p :: SameKind(p, kind) ==> Uncut(p, axes, width, height))
       <==> Shared(across, down, width, height, 13)
  {
    if Shared(across, down, width, height, MAX_DEPTH + 1) {
      forall p | SameKind(p, kind) ensures Uncut(p, axes, width, height) {
        KindLines(p, kind, axes, true);
        KindLines(p, kind, axes, false);
        SharedUncut(p, axes, across, down, width, height, MAX_DEPTH + 1);
      }
    } else {
      var p := SomePieceCut(kind, axes, across, down, width, height);
    }
  }
}
