/** Reflections of a piece in the axes of a level, and the depth-capped search that closes over them. */
module Mirrors {
  datatype Cell = Cell(x: int, y: int)

  /** An axis tagged as vertical mirrors x; otherwise one tagged as horizontal mirrors y.
      Width and height are those of its sprite; a fixed sprite cannot be moved. */
  datatype Axis = Axis(x: int, y: int, vertical: bool, horizontal: bool, width: nat, height: nat, fixed: bool)

  /** Pixel -1 is transparent. A piece may be restricted to one direction of mirroring. */
  datatype Piece = Piece(x: int, y: int, pixels: seq<seq<int>>, onlyVertical: bool, onlyHorizontal: bool, fixed: bool)

  const MAX_DEPTH := 12

  predicate Permits(p: Piece, a: Axis) {
    if a.vertical then !p.onlyHorizontal
    else a.horizontal && !p.onlyVertical
  }

  function Reflect(a: Axis, c: Cell): Cell {
    if a.vertical then Cell(2 * a.x - c.x, c.y) else Cell(c.x, 2 * a.y - c.y)
  }

  /** A mirror image is as far beyond the line of the axis as the cell is before it. */
  lemma ReflectionMirrors(a: Axis, c: Cell)
    ensures Reflect(a, Reflect(a, c)) == c
    ensures Reflect(a, c) == c <==> Along(a.vertical, c) == Offset(a)
    ensures Along(a.vertical, Reflect(a, c)) - Offset(a) == Offset(a) - Along(a.vertical, c)
    ensures Along(!a.vertical, Reflect(a, c)) == Along(!a.vertical, c)
  {
  }

  predicate InGrid(c: Cell, width: nat, height: nat) {
    0 <= c.x < width && 0 <= c.y < height
  }

  predicate Covers(p: Piece, c: Cell) {
    && p.y <= c.y < p.y + |p.pixels|
    && p.x <= c.x < p.x + |p.pixels[c.y - p.y]|
    && p.pixels[c.y - p.y][c.x - p.x] != -1
  }

  function PixelAt(p: Piece, c: Cell): int
    requires Covers(p, c)
  {
    p.pixels[c.y - p.y][c.x - p.x]
  }

  /** Some entry of the pixel rows lies at (x, y) and holds the colour v. */
  ghost predicate Has(p: Piece, x: int, y: int, v: int) {
    exists r: nat, k: nat :: r < |p.pixels| && k < |p.pixels[r]| && p.pixels[r][k] == v && x == p.x + k && y == p.y + r
  }

  /** An entry other than -1 lies at (x, y). */
  ghost predicate Opaque(p: Piece, x: int, y: int) {
    exists v :: v != -1 && Has(p, x, y, v)
  }

  lemma CoversMeans(p: Piece, x: int, y: int)
    ensures Covers(p, Cell(x, y)) <==> Opaque(p, x, y)
    ensures Covers(p, Cell(x, y)) ==> forall v :: Has(p, x, y, v) <==> v == PixelAt(p, Cell(x, y))
  {
    if Covers(p, Cell(x, y)) {
      var r: nat, k: nat := y - p.y, x - p.x;
      assert p.pixels[r][k] == PixelAt(p, Cell(x, y));
      assert Has(p, x, y, PixelAt(p, Cell(x, y)));
    }
  }

  ghost function Seeds(p: Piece, width: nat, height: nat): set<Cell> {
    set x: int, y: int | 0 <= x < width && 0 <= y < height && Covers(p, Cell(x, y)) :: Cell(x, y)
  }

  // ---------- Reachability by permitted reflections ----------

  ghost function Images(p: Piece, axes: seq<Axis>, cells: set<Cell>): set<Cell> {
    set c, k | c in cells && 0 <= k < |axes| && Permits(p, axes[k]) :: Reflect(axes[k], c)
  }

  /** The cells within n permitted reflections of the seeds. */
  ghost function Ball(p: Piece, axes: seq<Axis>, seeds: set<Cell>, n: nat): set<Cell> {
    if n == 0 then seeds
    else Ball(p, axes, seeds, n - 1) + Images(p, axes, Ball(p, axes, seeds, n - 1))
  }

  ghost predicate Closed(p: Piece, axes: seq<Axis>, cells: set<Cell>) {
    forall c, k :: c in cells && 0 <= k < |axes| && Permits(p, axes[k]) ==> Reflect(axes[k], c) in cells
  }

  lemma {:induction false} BallGrows(p: Piece, axes: seq<Axis>, seeds: set<Cell>, m: nat, n: nat)
    requires m <= n
    ensures Ball(p, axes, seeds, m) <= Ball(p, axes, seeds, n)
    decreases n
  {
    if m < n { BallGrows(p, axes, seeds, m, n - 1); }
  }

  lemma BallStep(p: Piece, axes: seq<Axis>, seeds: set<Cell>, n: nat, c: Cell, k: nat)
    requires c in Ball(p, axes, seeds, n) && k < |axes| && Permits(p, axes[k])
    ensures Reflect(axes[k], c) in Ball(p, axes, seeds, n + 1)
  {
  }

  lemma LastStep(p: Piece, axes: seq<Axis>, seeds: set<Cell>, n: nat, c: Cell) returns (b: Cell, k: nat)
    requires c in Ball(p, axes, seeds, n + 1) && c !in Ball(p, axes, seeds, n)
    ensures b in Ball(p, axes, seeds, n) && k < |axes| && Permits(p, axes[k]) && c == Reflect(axes[k], b)
    ensures n > 0 ==> b !in Ball(p, axes, seeds, n - 1)
  {
    b, k :| b in Ball(p, axes, seeds, n) && 0 <= k < |axes| && Permits(p, axes[k]) && c == Reflect(axes[k], b);
  }

  /** A closed set that holds the seeds holds every ball. */
  lemma {:induction false} BallInClosed(p: Piece, axes: seq<Axis>, seeds: set<Cell>, cells: set<Cell>, n: nat)
    requires seeds <= cells && Closed(p, axes, cells)
    ensures Ball(p, axes, seeds, n) <= cells
  {
    if n != 0 { BallInClosed(p, axes, seeds, cells, n - 1); }
  }

  // ---------- When the reflections close ----------

  function Offset(a: Axis): int {
    if a.vertical then a.x else a.y
  }

  /** Permitted axes of one direction all lie on the same line. */
  ghost predicate OneLineEach(p: Piece, axes: seq<Axis>) {
    forall i, j :: 0 <= i < |axes| && 0 <= j < |axes| && Permits(p, axes[i]) && Permits(p, axes[j]) ==>
      axes[i].vertical == axes[j].vertical ==> Offset(axes[i]) == Offset(axes[j])
  }

  /** Three reflections in at most two perpendicular lines collapse to one of them. */
  lemma ThreeCollapse(p: Piece, axes: seq<Axis>, i: nat, j: nat, k: nat, c: Cell) returns (l: nat)
    requires i < |axes| && j < |axes| && k < |axes|
    requires OneLineEach(p, axes)
    requires Permits(p, axes[i]) && Permits(p, axes[j]) && Permits(p, axes[k])
    ensures l in {i, j, k}
    ensures Reflect(axes[k], Reflect(axes[j], Reflect(axes[i], c))) == Reflect(axes[l], c)
  {
    l := if axes[i].vertical == axes[j].vertical then k
         else if axes[j].vertical == axes[k].vertical then i
         else j;
  }

  lemma ThirdStepAddsNothing(p: Piece, axes: seq<Axis>, seeds: set<Cell>)
    requires OneLineEach(p, axes)
    ensures Closed(p, axes, Ball(p, axes, seeds, 2))
  {
    var b1, b2 := Ball(p, axes, seeds, 1), Ball(p, axes, seeds, 2);
    forall c, k | c in b2 && 0 <= k < |axes| && Permits(p, axes[k]) ensures Reflect(axes[k], c) in b2 {
      if c in b1 {
        BallStep(p, axes, seeds, 1, c, k);
      } else {
        var b, j := LastStep(p, axes, seeds, 1, c);
        var a, i := LastStep(p, axes, seeds, 0, b);
        var l := ThreeCollapse(p, axes, i, j, k, a);
        BallStep(p, axes, seeds, 0, a, l);
      }
    }
  }

  function Along(vertical: bool, c: Cell): int {
    if vertical then c.x else c.y
  }

  lemma {:induction false} Farthest(vertical: bool, cells: set<Cell>) returns (c: Cell)
    requires cells != {}
    ensures c in cells && forall d :: d in cells ==> Along(vertical, d) <= Along(vertical, c)
    decreases cells
  {
    c :| c in cells;
    if d :| d in cells && Along(vertical, d) > Along(vertical, c) {
      assert d in cells - {c};
      var e := Farthest(vertical, cells - {c});
      assert forall f :: f in cells ==> f in cells - {c} || f == c;
      assert Along(vertical, d) <= Along(vertical, e);
      c := e;
    }
  }

  /** Two distinct parallel axes translate, so no finite set with a cell in it is closed. */
  lemma ShearNeverCloses(p: Piece, axes: seq<Axis>, cells: set<Cell>, i: nat, j: nat)
    requires i < |axes| && j < |axes| && Permits(p, axes[i]) && Permits(p, axes[j])
    requires axes[i].vertical == axes[j].vertical && Offset(axes[i]) < Offset(axes[j])
    requires cells != {}
    ensures !Closed(p, axes, cells)
  {
    var c := Farthest(axes[i].vertical, cells);
    var d := Reflect(axes[i], c);
    var e := Reflect(axes[j], d);
    assert Along(axes[i].vertical, e) > Along(axes[i].vertical, c);
    assert d !in cells || e !in cells;
  }

  /** In the unbounded plane the reflections close within 13 steps exactly when there is nothing
      to reflect or the permitted axes of each direction coincide. */
  lemma ReflectionsCloseIff(p: Piece, axes: seq<Axis>, seeds: set<Cell>)
    ensures Closed(p, axes, Ball(p, axes, seeds, MAX_DEPTH + 1)) <==> seeds == {} || OneLineEach(p, axes)
  {
    var ball := Ball(p, axes, seeds, MAX_DEPTH + 1);
    if seeds == {} {
      BallInClosed(p, axes, seeds, {}, MAX_DEPTH + 1);
    } else if OneLineEach(p, axes) {
      ThirdStepAddsNothing(p, axes, seeds);
      BallIsOrbit(p, axes, seeds, MAX_DEPTH + 1);
    } else {
      BallGrows(p, axes, seeds, 0, MAX_DEPTH + 1);
      var i, j :| 0 <= i < |axes| && 0 <= j < |axes| && Permits(p, axes[i]) && Permits(p, axes[j])
        && axes[i].vertical == axes[j].vertical && Offset(axes[i]) != Offset(axes[j]);
      if Offset(axes[i]) < Offset(axes[j]) {
        ShearNeverCloses(p, axes, ball, i, j);
      } else {
        ShearNeverCloses(p, axes, ball, j, i);
      }
    }
  }

  /** With one line per direction every search depth from 2 on gives the same cells. */
  lemma BallIsOrbit(p: Piece, axes: seq<Axis>, seeds: set<Cell>, n: nat)
    requires OneLineEach(p, axes) && n >= 2
    ensures Ball(p, axes, seeds, n) == Ball(p, axes, seeds, 2)
  {
    ThirdStepAddsNothing(p, axes, seeds);
    BallGrows(p, axes, seeds, 0, 2);
    BallInClosed(p, axes, seeds, Ball(p, axes, seeds, 2), n);
    BallGrows(p, axes, seeds, 2, n);
  }
}
