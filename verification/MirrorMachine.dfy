/** The mirror puzzle as its object: sprites moved in place, an undo stack and three cached layers. */
module MirrorMachine {
  import opened Wrappers
  import opened Mirrors
  import opened MirrorMaps
  import opened MirrorGame

  class Ar25 {
    const level: Level
    var axes: seq<Axis>
    var pieces: seq<Piece>
    var selected: Option<Target>
    var undo: seq<Snapshot>
    var status: Status
    var freeLayer: array2<int>
    var verticalLayer: array2<int>
    var horizontalLayer: array2<int>

    function View(): Game
      reads this
    {
      Game(level, Board(axes, pieces), selected, undo, status)
    }

    /** The layer holds what a recomputation for its group of pieces would give. */
    ghost predicate UpToDate(layer: array2<int>, kind: Kind)
      reads this, layer
    {
      && layer.Length0 == level.height && layer.Length1 == level.width
      && forall y, x :: 0 <= y < level.height && 0 <= x < level.width ==>
           layer[y, x] == GroupCell(Select(pieces, kind), axes, level.width, level.height, Cell(x, y))
    }

    ghost predicate LayersUpToDate()
      reads this, freeLayer, verticalLayer, horizontalLayer
    {
      UpToDate(freeLayer, Free) && UpToDate(verticalLayer, OnlyVertical) && UpToDate(horizontalLayer, OnlyHorizontal)
    }

    ghost predicate Valid()
      reads this, freeLayer, verticalLayer, horizontalLayer
    {
      && WellFormed(View()) && LayersUpToDate()
      && forall t :: t in level.targets ==> Indexable(t, level.width, level.height)
    }

    constructor (level: Level, axes: seq<Axis>, pieces: seq<Piece>, steps: nat)
      requires level.cycle != [] && forall t :: t in level.cycle ==> ValidTarget(Board(axes, pieces), t)
      requires forall t :: t in level.targets ==> Indexable(t, level.width, level.height)
      ensures Valid()
      ensures View() == Game(level, Board(axes, pieces), FirstMovable(Board(axes, pieces)), [],
                             Status(false, false, false, 0, false, steps))
    {
      this.level, this.axes, this.pieces := level, axes, pieces;
      selected, undo := FirstMovable(Board(axes, pieces)), [];
      status := Status(false, false, false, 0, false, steps);
      var free := GroupMap(Select(pieces, Free), axes, level.width, level.height);
      var vertical := GroupMap(Select(pieces, OnlyVertical), axes, level.width, level.height);
      var horizontal := GroupMap(Select(pieces, OnlyHorizontal), axes, level.width, level.height);
      freeLayer, verticalLayer, horizontalLayer := free, vertical, horizontal;
    }

    method Refresh()
      modifies this`freeLayer, this`verticalLayer, this`horizontalLayer
      ensures LayersUpToDate()
    {
      freeLayer := GroupMap(Select(pieces, Free), axes, level.width, level.height);
      verticalLayer := GroupMap(Select(pieces, OnlyVertical), axes, level.width, level.height);
      horizontalLayer := GroupMap(Select(pieces, OnlyHorizontal), axes, level.width, level.height);
    }

    method TakeSnapshot() returns (s: Snapshot)
      ensures s == Take(Board(axes, pieces))
    {
      var records := [];
      for i := 0 to |axes|
        invariant records == Records(axes, AxisSpots(axes))[..i]
      {
        records := records + [Record(TagOf(axes[i]), Spot(axes[i].x, axes[i].y))];
      }
      s := Snapshot(PieceSpots(pieces), records);
    }

    method RestoreSnapshot(s: Snapshot)
      requires |s.pieces| == |pieces|
      modifies this`pieces, this`axes, this`freeLayer, this`verticalLayer, this`horizontalLayer
      ensures Board(axes, pieces) == Restore(old(Board(axes, pieces)), s)
      ensures LayersUpToDate()
    {
      ghost var before := pieces;
      for i := 0 to |s.pieces|
        invariant |pieces| == |before| && axes == old(axes)
        invariant forall k :: 0 <= k < |before| ==>
          pieces[k] == if k < i then PlacePieces(before, s.pieces)[k] else before[k]
      {
        pieces := pieces[i := pieces[i].(x := s.pieces[i].x, y := s.pieces[i].y)];
      }
      assert pieces == PlacePieces(before, s.pieces);
      for k := 0 to |s.axes|
        invariant axes == RestoreAxes(old(axes), s.axes, k) && pieces == PlacePieces(before, s.pieces)
      {
        var found := FirstWith(axes, s.axes[k].tag);
        if found.Some? {
          axes := axes[found.value := axes[found.value].(x := s.axes[k].spot.x, y := s.axes[k].spot.y)];
        }
      }
      Refresh();
    }

    method SetPosition(t: Target, s: Spot)
      requires ValidTarget(Board(axes, pieces), t)
      modifies this`axes, this`pieces
      ensures Board(axes, pieces) == Place(old(Board(axes, pieces)), t, s)
    {
      match t {
        case AxisAt(i) => axes := axes[i := axes[i].(x := s.x, y := s.y)];
        case PieceAt(i) => pieces := pieces[i := pieces[i].(x := s.x, y := s.y)];
      }
    }

    method SettleMove(moved: bool)
      requires forall t :: t in level.targets ==> Indexable(t, level.width, level.height)
      modifies this`status
      ensures status == AfterMove(level, Board(axes, pieces), old(status), moved)
    {
      var lit := Wins(pieces, axes, level.width, level.height, level.targets);
      var won := lit.value;
      if won {
        status := status.(won := true);
      } else if moved {
        var charged := Charge(status);
        status := if level.index == 1 && status.hint == 0 && charged.stepsLeft < 50 && !status.reselected
                  then charged.(hint := 1) else charged;
      }
    }

    method MoveSelected(t: Target, d: Direction)
      requires Valid() && Active(status) && selected == Some(t) && ValidTarget(Board(axes, pieces), t)
      modifies this
      ensures View() == MoveStep(old(View()), t, d) && LayersUpToDate()
    {
      var board := Board(axes, pieces);
      var spot := Shifted(board, t, d);
      if IsFixed(board, t) || Blocked(level, board, t, spot) { return; }
      var moved := spot != SpotOf(board, t);
      if moved {
        var s := TakeSnapshot();
        undo := undo + [s];
      }
      SetPosition(t, spot);
      Refresh();
      SettleMove(moved);
    }

    /** One call of the original's step: the new state is the step function of the old one, and
        the cached layers equal a recomputation. */
    method DoStep(a: Action)
      requires Valid()
      modifies this
      ensures View() == Step(old(View()), a)
      ensures Valid()
    {
      StepWellFormed(View(), a);
      if !Active(status) {
        status := Idle(status);
        return;
      }
      match a {
        case Undo =>
          if undo != [] {
            var last := undo[|undo| - 1];
            assert last in undo;
            undo := undo[..|undo| - 1];
            RestoreSnapshot(last);
          }
        case Move(d) =>
          if selected.Some? { MoveSelected(selected.value, d); }
        case Cycle =>
          var next := NextInCycle(View());
          if selected != Some(next) {
            selected, status := Some(next), status.(reselected := true);
          }
          status := Charge(status);
        case Click(picked) =>
          if picked.Some? && ValidTarget(Board(axes, pieces), picked.value) && selected != picked {
            selected, status := picked, status.(reselected := true);
          }
          if selected == None { selected := FirstMovable(Board(axes, pieces)); }
        case Other =>
      }
    }
  }
}
