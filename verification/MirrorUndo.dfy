/** When a single undo restores the board, for any axes, and a play in which it does not. */
module MirrorUndo {
  import opened Wrappers
  import opened Mirrors
  import opened MirrorMaps
  import opened MirrorGame
  import opened MirrorRuns

  /** The spot that the first k records leave axis i at, if any of them finds it. */
  function LastSpot(axes: seq<Axis>, records: seq<Record>, k: nat, i: nat): Option<Spot>
    requires k <= |records|
  {
    if k == 0 then None
    else if FirstWith(axes, records[k - 1].tag) == Some(i) then Some(records[k - 1].spot)
    else LastSpot(axes, records, k - 1, i)
  }

  lemma {:induction false} LastSpotByTags(a: seq<Axis>, b: seq<Axis>, records: seq<Record>, k: nat, i: nat)
    requires SameTags(a, b) && k <= |records|
    ensures LastSpot(a, records, k, i) == LastSpot(b, records, k, i)
  {
    if k != 0 {
      FirstWithByTags(a, b, records[k - 1].tag);
      LastSpotByTags(a, b, records, k - 1, i);
    }
  }

  function PutAt(a: Axis, s: Option<Spot>): Axis {
    match s case None => a case Some(spot) => a.(x := spot.x, y := spot.y)
  }

  /** An axis ends at the spot of the last record that finds it, and else where it was. */
  lemma {:induction false} RestoredAxis(axes: seq<Axis>, records: seq<Record>, k: nat, i: nat)
    requires k <= |records| && i < |axes|
    ensures RestoreAxes(axes, records, k)[i] == PutAt(axes[i], LastSpot(axes, records, k, i))
  {
    if k != 0 {
      RestoredAxis(axes, records, k - 1, i);
      RestoreKeepsTags(axes, records, k - 1);
      FirstWithByTags(axes, RestoreAxes(axes, records, k - 1), records[k - 1].tag);
    }
  }

  ghost predicate AxisReturns(b: Board, t: Target, i: nat)
    requires i < |b.axes|
  {
    match LastSpot(b.axes, Take(b).axes, |b.axes|, i)
    case Some(spot) => spot == SpotOf(b, AxisAt(i))
    case None => t != AxisAt(i)
  }

  lemma MovedAxis(b: Board, t: Target, s: Spot, i: nat)
    requires ValidTarget(b, t) && s != SpotOf(b, t) && i < |b.axes|
    ensures var moved := Place(b, t, s); |moved.axes| == |b.axes|
    ensures RestoreAxes(Place(b, t, s).axes, Take(b).axes, |b.axes|)[i] == b.axes[i] <==> AxisReturns(b, t, i)
  {
    var moved, records := Place(b, t, s), Take(b).axes;
    assert SameTags(b.axes, moved.axes);
    RestoredAxis(moved.axes, records, |b.axes|, i);
    LastSpotByTags(b.axes, moved.axes, records, |b.axes|, i);
  }

  /** Undoing a move of t restores the board exactly when for every axis either the last record that
      finds it holds its own spot, or no record finds it and it is not the one that moved. */
  lemma UndoExactIff(b: Board, t: Target, s: Spot)
    requires ValidTarget(b, t) && s != SpotOf(b, t)
    ensures |Take(b).pieces| == |Place(b, t, s).pieces|
    ensures Restore(Place(b, t, s), Take(b)) == b <==> forall i :: 0 <= i < |b.axes| ==> AxisReturns(b, t, i)
  {
    var back := Restore(Place(b, t, s), Take(b));
    assert back.pieces == b.pieces;
    forall i | 0 <= i < |b.axes| ensures back.axes[i] == b.axes[i] <==> AxisReturns(b, t, i) {
      MovedAxis(b, t, s, i);
    }
    assert back.axes == b.axes <==> forall i :: 0 <= i < |b.axes| ==> back.axes[i] == b.axes[i];
  }

  /** Two upright axes at 0 and 4: moving the second right and undoing once loses the board. */
  lemma UndoFailsInPlay()
    ensures var axes := [Axis(0, 0, true, false, 1, 5, false), Axis(4, 0, true, false, 1, 5, false)];
            var level := Level(10, 5, 0, [Cell(0, 0)], [AxisAt(0), AxisAt(1)]);
            var g := Game(level, Board(axes, []), Some(AxisAt(1)), [], Status(false, false, false, 0, false, 100));
            && WellFormed(g) && Effective(g, Move(Right)) && WellFormed(Step(g, Move(Right)))
            && Step(Step(g, Move(Right)), Undo).undo == g.undo && Step(Step(g, Move(Right)), Undo).board != g.board
  {
    var axes := [Axis(0, 0, true, false, 1, 5, false), Axis(4, 0, true, false, 1, 5, false)];
    var level := Level(10, 5, 0, [Cell(0, 0)], [AxisAt(0), AxisAt(1)]);
    var b := Board(axes, []);
    var g := Game(level, b, Some(AxisAt(1)), [], Status(false, false, false, 0, false, 100));
    var h := Step(g, Move(Right));
    assert Effective(g, Move(Right));
    assert !Solved(level, h.board) by { NothingLit(h.board.axes); }
    assert h.undo == [Take(b)] && h.board == Place(b, AxisAt(1), Spot(5, 0)) && Active(h.status);
    StepWellFormed(g, Move(Right));
    UndoExactIff(b, AxisAt(1), Spot(5, 0));
    SecondAxisLost(b);
  }

  lemma NothingLit(axes: seq<Axis>)
    ensures !AllLit([], axes, 10, 5, [Cell(0, 0)])
  {
    assert Select([], Free) == [] && Select([], OnlyVertical) == [] && Select([], OnlyHorizontal) == [];
    assert GroupCell([], axes, 10, 5, Cell(0, 0)) == -1;
    assert Cell(0, 0) in [Cell(0, 0)];
  }

  lemma SecondAxisLost(b: Board)
    requires b.axes == [Axis(0, 0, true, false, 1, 5, false), Axis(4, 0, true, false, 1, 5, false)]
    ensures !AxisReturns(b, AxisAt(1), 1)
  {
    assert FirstWith(b.axes, VerticalTag) == Some(0);
    assert Take(b).axes[0].tag == VerticalTag && Take(b).axes[1].tag == VerticalTag;
    assert LastSpot(b.axes, Take(b).axes, 1, 1) == None;
    assert LastSpot(b.axes, Take(b).axes, 2, 1) == None;
  }
}
