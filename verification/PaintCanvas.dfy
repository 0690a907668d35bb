/** Stamps on the 10 x 10 canvas, and the comparison that decides a level. */
module PaintCanvas {
  const SIDE := 10

  /** Basket stamps by ring position 0 to 7, spout stamps by slot 0, 2, 4 or 6. */
  datatype Stamp = Basket(ring: nat) | Spout(slot: nat)

  datatype Paint = Paint(stamp: Stamp, colour: int)

  type Canvas = seq<seq<int>>

  predicate IsCanvas(cv: Canvas) {
    |cv| == SIDE && forall r :: 0 <= r < SIDE ==> |cv[r]| == SIDE
  }

  /** Half the canvas by rows or columns, or a triangle including its diagonal. */
  predicate CoversHalf(rotation: int, r: int, c: int) {
    match rotation
    case 180 => r < 5
    case 0 => r >= 5
    case 90 => c < 5
    case 270 => c >= 5
    case _ => false
  }

  predicate CoversTriangle(rotation: int, r: int, c: int) {
    match rotation
    case 180 => c <= r
    case 90 => c >= 9 - r
    case 0 => c >= r
    case 270 => c <= 9 - r
    case _ => false
  }

  predicate CoversSpout(slot: int, r: int, c: int) {
    match slot
    case 0 => r < 3 && 3 <= c < 7
    case 4 => r >= 7 && 3 <= c < 7
    case 6 => 3 <= r < 7 && c < 3
    case 2 => 3 <= r < 7 && c >= 7
    case _ => false
  }

  predicate IsHalf(ring: nat) {
    ring % 2 == 0
  }

  /** The rotation of the basket at each ring position. */
  function Rotation(ring: nat): int {
    match ring
    case 0 => 180 case 1 => 0 case 2 => 270 case 3 => 90
    case 4 => 0 case 5 => 180 case 6 => 90 case _ => 270
  }

  predicate Covers(s: Stamp, r: int, c: int) {
    match s
    case Basket(ring) => if IsHalf(ring) then CoversHalf(Rotation(ring), r, c) else CoversTriangle(Rotation(ring), r, c)
    case Spout(slot) => CoversSpout(slot, r, c)
  }

  function Apply(p: Paint, cv: Canvas): (after: Canvas)
    requires IsCanvas(cv)
    ensures IsCanvas(after)
  {
    seq(SIDE, r requires 0 <= r < SIDE =>
      seq(SIDE, c requires 0 <= c < SIDE => if Covers(p.stamp, r, c) then p.colour else cv[r][c]))
  }

  function ApplyAll(ps: seq<Paint>, cv: Canvas): (after: Canvas)
    requires IsCanvas(cv)
    ensures IsCanvas(after)
  {
    if ps == [] then cv else Apply(ps[|ps| - 1], ApplyAll(ps[..|ps| - 1], cv))
  }

  // ---------- The last stamp over a cell decides its colour ----------

  ghost predicate LastOver(ps: seq<Paint>, k: nat, r: int, c: int) {
    k < |ps| && Covers(ps[k].stamp, r, c) && forall j :: k < j < |ps| ==> !Covers(ps[j].stamp, r, c)
  }

  lemma {:induction false} LastStampWins(ps: seq<Paint>, k: nat, cv: Canvas, r: nat, c: nat)
    requires IsCanvas(cv) && r < SIDE && c < SIDE && LastOver(ps, k, r, c)
    ensures ApplyAll(ps, cv)[r][c] == ps[k].colour
    decreases |ps|
  {
    var last := |ps| - 1;
    if k < last {
      assert !Covers(ps[last].stamp, r, c);
      LastStampWins(ps[..last], k, cv, r, c);
    }
  }

  lemma {:induction false} UntouchedCell(ps: seq<Paint>, cv: Canvas, r: nat, c: nat)
    requires IsCanvas(cv) && r < SIDE && c < SIDE
    requires forall k :: 0 <= k < |ps| ==> !Covers(ps[k].stamp, r, c)
    ensures ApplyAll(ps, cv)[r][c] == cv[r][c]
  {
    if ps != [] { UntouchedCell(ps[..|ps| - 1], cv, r, c); }
  }

  lemma LastOverExists(ps: seq<Paint>, r: int, c: int)
    ensures (exists k: nat :: LastOver(ps, k, r, c)) || forall k :: 0 <= k < |ps| ==> !Covers(ps[k].stamp, r, c)
  {
    if ps != [] {
      var last := |ps| - 1;
      if Covers(ps[last].stamp, r, c) {
        assert LastOver(ps, last, r, c);
      } else {
        LastOverExists(ps[..last], r, c);
        if k: nat :| LastOver(ps[..last], k, r, c) { assert LastOver(ps, k, r, c); }
      }
    }
  }

  ghost predicate CoveredLater(ps: seq<Paint>, i: nat, r: int, c: int) {
    exists j :: i < j < |ps| && Covers(ps[j].stamp, r, c)
  }

  function Drop(ps: seq<Paint>, i: nat): seq<Paint>
    requires i < |ps|
  {
    ps[..i] + ps[i + 1..]
  }

  lemma DropLastOver(ps: seq<Paint>, i: nat, k: nat, r: int, c: int)
    requires i < |ps| && k != i && LastOver(ps, k, r, c)
    ensures LastOver(Drop(ps, i), if k < i then k else k - 1, r, c)
    ensures Drop(ps, i)[if k < i then k else k - 1] == ps[k]
  {
  }

  /** A stamp whose cells are all covered again later leaves no trace; in particular any
      stamp that is repeated later at the same position. */
  lemma DeadStamp(ps: seq<Paint>, i: nat, cv: Canvas)
    requires IsCanvas(cv) && i < |ps|
    requires forall r, c :: 0 <= r < SIDE && 0 <= c < SIDE && Covers(ps[i].stamp, r, c) ==> CoveredLater(ps, i, r, c)
    ensures ApplyAll(Drop(ps, i), cv) == ApplyAll(ps, cv)
  {
    var a, b := ApplyAll(Drop(ps, i), cv), ApplyAll(ps, cv);
    forall r, c | 0 <= r < SIDE && 0 <= c < SIDE ensures a[r][c] == b[r][c] {
      LastOverExists(ps, r, c);
      if k: nat :| LastOver(ps, k, r, c) {
        assert k == i ==> !CoveredLater(ps, i, r, c);
        DropLastOver(ps, i, k, r, c);
        LastStampWins(ps, k, cv, r, c);
        LastStampWins(Drop(ps, i), if k < i then k else k - 1, cv, r, c);
      } else {
        UntouchedCell(ps, cv, r, c);
        UntouchedCell(Drop(ps, i), cv, r, c);
      }
    }
    SameCells(a, b);
  }

  lemma SameCells(a: Canvas, b: Canvas)
    requires IsCanvas(a) && IsCanvas(b)
    requires forall r, c :: 0 <= r < SIDE && 0 <= c < SIDE ==> a[r][c] == b[r][c]
    ensures a == b
  {
    forall r | 0 <= r < SIDE ensures a[r] == b[r] { }
  }

  lemma RepeatedStampIsDead(ps: seq<Paint>, i: nat, j: nat, cv: Canvas)
    requires IsCanvas(cv) && i < j < |ps| && ps[i].stamp == ps[j].stamp
    ensures ApplyAll(Drop(ps, i), cv) == ApplyAll(ps, cv)
  {
    forall r, c | 0 <= r < SIDE && 0 <= c < SIDE && Covers(ps[i].stamp, r, c) ensures CoveredLater(ps, i, r, c) {
      assert Covers(ps[j].stamp, r, c);
    }
    DeadStamp(ps, i, cv);
  }

  // ---------- When two stamps commute ----------

  /** The win test ignores both diagonals. */
  predicate Compared(r: int, c: int) {
    0 <= r < SIDE && 0 <= c < SIDE && c != r && c != 9 - r
  }

  ghost predicate Matches(a: Canvas, b: Canvas)
    requires IsCanvas(a) && IsCanvas(b)
  {
    forall r, c :: Compared(r, c) ==> a[r][c] == b[r][c]
  }

  ghost predicate Disjoint(s: Stamp, t: Stamp) {
    forall r, c :: 0 <= r < SIDE && 0 <= c < SIDE ==> !(Covers(s, r, c) && Covers(t, r, c))
  }

  ghost predicate ComparedDisjoint(s: Stamp, t: Stamp) {
    forall r, c :: Compared(r, c) ==> !(Covers(s, r, c) && Covers(t, r, c))
  }

  lemma ApplyTwice(p: Paint, q: Paint, cv: Canvas, r: nat, c: nat)
    requires IsCanvas(cv) && r < SIDE && c < SIDE
    ensures Apply(q, Apply(p, cv))[r][c] ==
      if Covers(q.stamp, r, c) then q.colour else if Covers(p.stamp, r, c) then p.colour else cv[r][c]
  {
  }

  function Blank(): (cv: Canvas)
    ensures IsCanvas(cv)
  {
    seq(SIDE, r => seq(SIDE, c => 0))
  }

  /** Two stamps commute on every canvas iff they are disjoint or of one colour. */
  lemma CommuteIff(p: Paint, q: Paint)
    ensures (forall cv: Canvas :: IsCanvas(cv) ==> Apply(q, Apply(p, cv)) == Apply(p, Apply(q, cv)))
       <==> p.colour == q.colour || Disjoint(p.stamp, q.stamp)
  {
    if p.colour == q.colour || Disjoint(p.stamp, q.stamp) {
      forall cv: Canvas | IsCanvas(cv) ensures Apply(q, Apply(p, cv)) == Apply(p, Apply(q, cv)) {
        forall r, c | 0 <= r < SIDE && 0 <= c < SIDE
          ensures Apply(q, Apply(p, cv))[r][c] == Apply(p, Apply(q, cv))[r][c]
        {
          ApplyTwice(p, q, cv, r, c);
          ApplyTwice(q, p, cv, r, c);
        }
        SameCells(Apply(q, Apply(p, cv)), Apply(p, Apply(q, cv)));
      }
    } else {
      var r, c :| 0 <= r < SIDE && 0 <= c < SIDE && Covers(p.stamp, r, c) && Covers(q.stamp, r, c);
      ApplyTwice(p, q, Blank(), r, c);
      ApplyTwice(q, p, Blank(), r, c);
      assert IsCanvas(Blank()) && Apply(q, Apply(p, Blank())) != Apply(p, Apply(q, Blank()));
    }
  }

  /** They commute as far as the win test can see iff their overlap hides on the diagonals. */
  lemma CommuteComparedIff(p: Paint, q: Paint)
    ensures (forall cv: Canvas :: IsCanvas(cv) ==> Matches(Apply(q, Apply(p, cv)), Apply(p, Apply(q, cv))))
       <==> p.colour == q.colour || ComparedDisjoint(p.stamp, q.stamp)
  {
    if p.colour == q.colour || ComparedDisjoint(p.stamp, q.stamp) {
      forall cv: Canvas | IsCanvas(cv) ensures Matches(Apply(q, Apply(p, cv)), Apply(p, Apply(q, cv))) {
        forall r, c | Compared(r, c) ensures Apply(q, Apply(p, cv))[r][c] == Apply(p, Apply(q, cv))[r][c] {
          ApplyTwice(p, q, cv, r, c);
          ApplyTwice(q, p, cv, r, c);
        }
      }
    } else {
      var r, c :| Compared(r, c) && Covers(p.stamp, r, c) && Covers(q.stamp, r, c);
      ApplyTwice(p, q, Blank(), r, c);
      ApplyTwice(q, p, Blank(), r, c);
      assert IsCanvas(Blank()) && !Matches(Apply(q, Apply(p, Blank())), Apply(p, Apply(q, Blank())));
    }
  }

  /** One compared cell in each of the eight sectors around the centre. */
  function Octant(k: nat): (int, int) {
    match k
    case 0 => (0, 3) case 1 => (0, 6) case 2 => (3, 9) case 3 => (6, 9)
    case 4 => (9, 6) case 5 => (9, 3) case 6 => (6, 0) case _ => (3, 0)
  }

  lemma OctantCovered(i: nat, k: nat)
    requires i < 8 && k < 8 && (k + 1 - i) % 8 < 4
    ensures Compared(Octant(k).0, Octant(k).1) && Covers(Basket(i), Octant(k).0, Octant(k).1)
  {
  }

  lemma OppositeOverlap(i: nat, r: int, c: int)
    requires i < 8 && 0 <= r < SIDE && 0 <= c < SIDE
    requires Covers(Basket(i), r, c) && Covers(Basket((i + 4) % 8), r, c)
    ensures !IsHalf(i) && !Compared(r, c)
  {
  }

  lemma OppositeTriangles(i: nat) returns (c: nat)
    requires i < 8 && !IsHalf(i)
    ensures c < SIDE && Covers(Basket(i), 0, c) && Covers(Basket((i + 4) % 8), 0, c)
  {
    c := if i == 1 || i == 5 then 0 else 9;
  }

  /** A sector inside the half planes of both positions. */
  function SharedOctant(i: nat, j: nat): (k: nat)
    requires i < 8 && j < 8 && j != (i + 4) % 8
    ensures k < 8 && (k + 1 - i) % 8 < 4 && (k + 1 - j) % 8 < 4
  {
    var ahead := if i <= j then j - i < 4 else j + 8 - i < 4;
    var k := if ahead then i + 2 else j + 2;
    if k < 8 then k else k - 8
  }

  lemma SectorShared(i: nat, j: nat) returns (r: int, c: int)
    requires i < 8 && j < 8 && j != (i + 4) % 8
    ensures Compared(r, c) && Covers(Basket(i), r, c) && Covers(Basket(j), r, c)
  {
    var k := SharedOctant(i, j);
    OctantCovered(i, k);
    OctantCovered(j, k);
    r, c := Octant(k).0, Octant(k).1;
  }

  /** Basket stamps are disjoint where compared iff they sit opposite each other; opposite
      halves are disjoint everywhere, opposite triangles share a diagonal. */
  lemma OppositeStamps(i: nat, j: nat)
    requires i < 8 && j < 8
    ensures ComparedDisjoint(Basket(i), Basket(j)) <==> j == (i + 4) % 8
    ensures Disjoint(Basket(i), Basket(j)) <==> j == (i + 4) % 8 && IsHalf(i)
  {
    if j != (i + 4) % 8 {
      var r, c := SectorShared(i, j);
    } else {
      forall r, c | 0 <= r < SIDE && 0 <= c < SIDE && Covers(Basket(i), r, c) && Covers(Basket(j), r, c)
        ensures !IsHalf(i) && !Compared(r, c)
      {
        OppositeOverlap(i, r, c);
      }
      if !IsHalf(i) { var c := OppositeTriangles(i); }
    }
  }

  // ---------- Stamping an array of pixels ----------

  function View(a: array2<int>): (cv: Canvas)
    requires a.Length0 == SIDE && a.Length1 == SIDE
    reads a
    ensures IsCanvas(cv)
  {
    seq(SIDE, r requires 0 <= r < SIDE reads a => seq(SIDE, c requires 0 <= c < SIDE reads a => a[r, c]))
  }

  method Copy(a: array2<int>) returns (b: array2<int>)
    requires a.Length0 == SIDE && a.Length1 == SIDE
    ensures fresh(b) && b.Length0 == SIDE && b.Length1 == SIDE
    ensures forall r, c :: 0 <= r < SIDE && 0 <= c < SIDE ==> b[r, c] == a[r, c]
  {
    b := new int[SIDE, SIDE]((r, c) requires 0 <= r < SIDE && 0 <= c < SIDE reads a => a[r, c]);
  }

  /** pixels[top : bottom, left : right] = colour */
  method FillBox(b: array2<int>, top: nat, bottom: nat, left: nat, right: nat, colour: int)
    requires b.Length0 == SIDE && b.Length1 == SIDE && top <= bottom <= SIDE && left <= right <= SIDE
    modifies b
    ensures forall r, c :: 0 <= r < SIDE && 0 <= c < SIDE ==>
      b[r, c] == if top <= r < bottom && left <= c < right then colour else old(b[r, c])
  {
    forall r, c | top <= r < bottom && left <= c < right {
      b[r, c] := colour;
    }
  }

  method FillHalf(b: array2<int>, rotation: int, colour: int)
    requires b.Length0 == SIDE && b.Length1 == SIDE
    modifies b
    ensures forall r, c :: 0 <= r < SIDE && 0 <= c < SIDE ==>
      b[r, c] == if CoversHalf(rotation, r, c) then colour else old(b[r, c])
  {
    if rotation == 180 { FillBox(b, 0, 5, 0, 10, colour); }
    else if rotation == 0 { FillBox(b, 5, 10, 0, 10, colour); }
    else if rotation == 90 { FillBox(b, 0, 10, 0, 5, colour); }
    else if rotation == 270 { FillBox(b, 0, 10, 5, 10, colour); }
  }

  method FillTriangle(b: array2<int>, rotation: int, colour: int)
    requires b.Length0 == SIDE && b.Length1 == SIDE
    modifies b
    ensures forall r, c :: 0 <= r < SIDE && 0 <= c < SIDE ==>
      b[r, c] == if CoversTriangle(rotation, r, c) then colour else old(b[r, c])
  {
    for i := 0 to SIDE
      invariant forall r, c :: 0 <= r < SIDE && 0 <= c < SIDE ==>
        b[r, c] == if r < i && CoversTriangle(rotation, r, c) then colour else old(b[r, c])
    {
      if rotation == 180 { FillBox(b, i, i + 1, 0, i + 1, colour); }
      else if rotation == 90 { FillBox(b, i, i + 1, 9 - i, 10, colour); }
      else if rotation == 0 { FillBox(b, i, i + 1, i, 10, colour); }
      else if rotation == 270 { FillBox(b, i, i + 1, 0, 10 - i, colour); }
    }
  }

  method StampBasket(a: array2<int>, ring: nat, colour: int) returns (b: array2<int>)
    requires a.Length0 == SIDE && a.Length1 == SIDE
    ensures fresh(b) && b.Length0 == SIDE && b.Length1 == SIDE
    ensures View(b) == Apply(Paint(Basket(ring), colour), View(a))
  {
    b := Copy(a);
    if IsHalf(ring) { FillHalf(b, Rotation(ring), colour); } else { FillTriangle(b, Rotation(ring), colour); }
    SameCells(View(b), Apply(Paint(Basket(ring), colour), View(a)));
  }

  method StampSpout(a: array2<int>, slot: nat, colour: int) returns (b: array2<int>)
    requires a.Length0 == SIDE && a.Length1 == SIDE
    ensures fresh(b) && b.Length0 == SIDE && b.Length1 == SIDE
    ensures View(b) == Apply(Paint(Spout(slot), colour), View(a))
  {
    b := Copy(a);
    if slot == 0 { FillBox(b, 0, 3, 3, 7, colour); }
    else if slot == 4 { FillBox(b, 7, 10, 3, 7, colour); }
    else if slot == 6 { FillBox(b, 3, 7, 0, 3, colour); }
    else if slot == 2 { FillBox(b, 3, 7, 7, 10, colour); }
    SameCells(View(b), Apply(Paint(Spout(slot), colour), View(a)));
  }

  method CompareMasked(a: array2<int>, target: array2<int>) returns (same: bool)
    requires a.Length0 == SIDE && a.Length1 == SIDE && target.Length0 == SIDE && target.Length1 == SIDE
    ensures same <==> Matches(View(a), View(target))
    ensures same <==> forall r, c :: 0 <= r < 10 && 0 <= c < 10 && r != c && r + c != 9 ==> a[r, c] == target[r, c]
  {
    var mask := new bool[SIDE, SIDE]((_, _) => true);
    for i := 0 to SIDE
      invariant forall r, c :: 0 <= r < SIDE && 0 <= c < SIDE ==> (mask[r, c] <==> r >= i || Compared(r, c))
    {
      mask[i, i] := false;
      mask[i, 9 - i] := false;
    }
    same := forall r, c :: 0 <= r < SIDE && 0 <= c < SIDE && mask[r, c] ==> a[r, c] == target[r, c];
    assert forall r, c :: 0 <= r < SIDE && 0 <= c < SIDE ==> (mask[r, c] <==> r != c && r + c != 9);
    if same {
      assert forall r, c :: Compared(r, c) ==> mask[r, c];
    } else {
      var r, c :| 0 <= r < SIDE && 0 <= c < SIDE && mask[r, c] && a[r, c] != target[r, c];
      assert Compared(r, c) && View(a)[r][c] != View(target)[r][c];
    }
  }
}
