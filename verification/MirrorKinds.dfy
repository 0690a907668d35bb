/** Which reflections a piece takes part in, by its restriction and the tags of the axes. */
module MirrorKinds {
  import opened Mirrors
  import opened MirrorSearch

  lemma SeedMeans(p: Piece, width: nat, height: nat, x: int, y: int)
    ensures Cell(x, y) in Seeds(p, width, height) <==> 0 <= x < width && 0 <= y < height && Opaque(p, x, y)
  {
    CoversMeans(p, x, y);
  }

  lemma ImageIn(p: Piece, axes: seq<Axis>, seeds: set<Cell>, s: Cell, k: nat, n: nat)
    requires s in seeds && k < |axes| && Permits(p, axes[k]) && n > 0
    ensures Reflect(axes[k], s) in Ball(p, axes, seeds, n)
  {
    BallStep(p, axes, seeds, 0, s, k);
    BallGrows(p, axes, seeds, 1, n);
  }

  /** The image of an opaque pixel in an upright axis is painted, unless the piece is restricted to level ones. */
  lemma UprightImagePainted(p: Piece, axes: seq<Axis>, width: nat, height: nat, k: nat, x: int, y: int)
    requires k < |axes| && axes[k].vertical && !p.onlyHorizontal
    requires 0 <= x < width && 0 <= y < height && Opaque(p, x, y) && !Opaque(p, 2 * axes[k].x - x, y)
    ensures Reached(p, axes, width, height, Cell(2 * axes[k].x - x, y))
  {
    var seeds := Seeds(p, width, height);
    SeedMeans(p, width, height, x, y);
    SeedMeans(p, width, height, 2 * axes[k].x - x, y);
    ImageIn(p, axes, seeds, Cell(x, y), k, MAX_DEPTH + 1);
  }

  /** The same for an axis that is level and not upright, unless the piece is restricted to upright ones. */
  lemma LevelImagePainted(p: Piece, axes: seq<Axis>, width: nat, height: nat, k: nat, x: int, y: int)
    requires k < |axes| && !axes[k].vertical && axes[k].horizontal && !p.onlyVertical
    requires 0 <= x < width && 0 <= y < height && Opaque(p, x, y) && !Opaque(p, x, 2 * axes[k].y - y)
    ensures Reached(p, axes, width, height, Cell(x, 2 * axes[k].y - y))
  {
    var seeds := Seeds(p, width, height);
    SeedMeans(p, width, height, x, y);
    SeedMeans(p, width, height, x, 2 * axes[k].y - y);
    ImageIn(p, axes, seeds, Cell(x, y), k, MAX_DEPTH + 1);
  }

  /** Restricted to upright axes, or no axis is just level. */
  predicate RowsKept(p: Piece, axes: seq<Axis>) {
    p.onlyVertical || forall k :: 0 <= k < |axes| ==> !axes[k].horizontal || axes[k].vertical
  }

  /** Restricted to level axes, or no axis is upright. */
  predicate ColumnsKept(p: Piece, axes: seq<Axis>) {
    p.onlyHorizontal || forall k :: 0 <= k < |axes| ==> !axes[k].vertical
  }

  /** No permitted axis has the direction. */
  ghost predicate Unused(p: Piece, axes: seq<Axis>, vertical: bool) {
    forall k :: 0 <= k < |axes| && Permits(p, axes[k]) ==> axes[k].vertical != vertical
  }

  lemma KeptStep(p: Piece, axes: seq<Axis>, seeds: set<Cell>, c: Cell, n: nat, vertical: bool) returns (b: Cell)
    requires c in Ball(p, axes, seeds, n + 1) && c !in Ball(p, axes, seeds, n) && Unused(p, axes, vertical)
    ensures b in Ball(p, axes, seeds, n) && Along(vertical, b) == Along(vertical, c)
  {
    var k: nat;
    b, k := LastStep(p, axes, seeds, n, c);
    ReflectionMirrors(axes[k], b);
  }

  lemma {:induction false} BallKeepsLine(p: Piece, axes: seq<Axis>, seeds: set<Cell>, c: Cell, n: nat, vertical: bool)
    returns (s: Cell)
    requires c in Ball(p, axes, seeds, n) && Unused(p, axes, vertical)
    ensures s in seeds && Along(vertical, s) == Along(vertical, c)
    decreases n
  {
    if n == 0 {
      s := c;
    } else if c in Ball(p, axes, seeds, n - 1) {
      s := BallKeepsLine(p, axes, seeds, c, n - 1, vertical);
    } else {
      var b := KeptStep(p, axes, seeds, c, n - 1, vertical);
      s := BallKeepsLine(p, axes, seeds, b, n - 1, vertical);
    }
  }

  /** A reflection stays in the row of an opaque pixel when the piece is restricted to upright axes or there
      are no others, and in its column when it is restricted to level axes or no axis is upright. */
  lemma RestrictionsKept(p: Piece, axes: seq<Axis>, width: nat, height: nat, c: Cell)
    requires Reached(p, axes, width, height, c)
    ensures RowsKept(p, axes) ==> exists x :: 0 <= x < width && Opaque(p, x, c.y)
    ensures ColumnsKept(p, axes) ==> exists y :: 0 <= y < height && Opaque(p, c.x, y)
  {
    if RowsKept(p, axes) {
      var s := BallKeepsLine(p, axes, Seeds(p, width, height), c, MAX_DEPTH + 1, false);
      SeedMeans(p, width, height, s.x, s.y);
    }
    if ColumnsKept(p, axes) {
      var s := BallKeepsLine(p, axes, Seeds(p, width, height), c, MAX_DEPTH + 1, true);
      SeedMeans(p, width, height, s.x, s.y);
    }
  }

  /** Nothing is reflected at all where both hold: a piece with both restrictions, or axes without a tag. */
  lemma NothingReflected(p: Piece, axes: seq<Axis>, width: nat, height: nat, c: Cell)
    requires RowsKept(p, axes) && ColumnsKept(p, axes)
    ensures !Reached(p, axes, width, height, c)
  {
    BallInClosed(p, axes, Seeds(p, width, height), Seeds(p, width, height), MAX_DEPTH + 1);
  }
}
