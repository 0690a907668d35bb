/** One level of the mirror puzzle as a step function: moves, undo, selection and the step budget. */
module MirrorGame {
  import opened Wrappers
  import opened Mirrors
  import opened MirrorMaps

  datatype Spot = Spot(x: int, y: int)

  datatype Tag = VerticalTag | HorizontalTag | NoTag

  /** An axis is recorded under one tag, and found again as the first axis that carries it. */
  datatype Record = Record(tag: Tag, spot: Spot)

  datatype Snapshot = Snapshot(pieces: seq<Spot>, axes: seq<Record>)

  datatype Target = AxisAt(axis: nat) | PieceAt(piece: nat)

  datatype Direction = Up | Down | Left | Right

  datatype Action = Move(direction: Direction) | Cycle | Click(picked: Option<Target>) | Undo | Other

  /** What a level fixes: the grid, the cells to light and the movable sprites in cycling order. */
  datatype Level = Level(width: nat, height: nat, index: nat, targets: seq<Cell>, cycle: seq<Target>)

  datatype Board = Board(axes: seq<Axis>, pieces: seq<Piece>)

  /** hint counts the ticks of the hint animation (0 before it, -1 after it); cleared means
      that the level was left. */
  datatype Status = Status(won: bool, cleared: bool, lost: bool, hint: int, reselected: bool, stepsLeft: nat)

  datatype Game = Game(level: Level, board: Board, selected: Option<Target>, undo: seq<Snapshot>, status: Status)

  // ---------- Snapshots ----------

  predicate HasTag(a: Axis, tag: Tag) {
    (tag.VerticalTag? && a.vertical) || (tag.HorizontalTag? && a.horizontal)
  }

  function TagOf(a: Axis): Tag {
    if a.vertical then VerticalTag else if a.horizontal then HorizontalTag else NoTag
  }

  function PieceSpots(pieces: seq<Piece>): (s: seq<Spot>)
    ensures |s| == |pieces|
  {
    seq(|pieces|, i requires 0 <= i < |pieces| => Spot(pieces[i].x, pieces[i].y))
  }

  function AxisSpots(axes: seq<Axis>): (s: seq<Spot>)
    ensures |s| == |axes|
  {
    seq(|axes|, i requires 0 <= i < |axes| => Spot(axes[i].x, axes[i].y))
  }

  function Records(axes: seq<Axis>, spots: seq<Spot>): (r: seq<Record>)
    requires |spots| == |axes|
    ensures |r| == |axes|
  {
    seq(|axes|, i requires 0 <= i < |axes| => Record(TagOf(axes[i]), spots[i]))
  }

  function Take(b: Board): Snapshot {
    Snapshot(PieceSpots(b.pieces), Records(b.axes, AxisSpots(b.axes)))
  }

  function PlacePieces(pieces: seq<Piece>, spots: seq<Spot>): (r: seq<Piece>)
    requires |spots| == |pieces|
    ensures |r| == |pieces|
  {
    seq(|pieces|, i requires 0 <= i < |pieces| => pieces[i].(x := spots[i].x, y := spots[i].y))
  }

  function PlaceAxes(axes: seq<Axis>, spots: seq<Spot>): (r: seq<Axis>)
    requires |spots| == |axes|
    ensures |r| == |axes|
  {
    seq(|axes|, i requires 0 <= i < |axes| => axes[i].(x := spots[i].x, y := spots[i].y))
  }

  function FirstWith(axes: seq<Axis>, tag: Tag): (o: Option<nat>)
    ensures o.Some? ==> o.value < |axes| && HasTag(axes[o.value], tag)
    ensures o.None? ==> forall i :: 0 <= i < |axes| ==> !HasTag(axes[i], tag)
  {
    if axes == [] then None
    else if HasTag(axes[0], tag) then Some(0)
    else match FirstWith(axes[1..], tag)
      case None => None
      case Some(i) => Some(i + 1)
  }

  function RestoreOne(axes: seq<Axis>, record: Record): (r: seq<Axis>)
    ensures |r| == |axes|
  {
    match FirstWith(axes, record.tag)
    case None => axes
    case Some(i) => axes[i := axes[i].(x := record.spot.x, y := record.spot.y)]
  }

  /** Apply the first k records, each to the first axis with its tag. */
  function RestoreAxes(axes: seq<Axis>, records: seq<Record>, k: nat): (r: seq<Axis>)
    requires k <= |records|
    ensures |r| == |axes|
  {
    if k == 0 then axes else RestoreOne(RestoreAxes(axes, records, k - 1), records[k - 1])
  }

  function Restore(b: Board, s: Snapshot): Board
    requires |s.pieces| == |b.pieces|
  {
    Board(RestoreAxes(b.axes, s.axes, |s.axes|), PlacePieces(b.pieces, s.pieces))
  }

  // ---------- Restoring is exact exactly when every axis can be found by its tag ----------

  ghost predicate SameTags(a: seq<Axis>, b: seq<Axis>) {
    |a| == |b| && forall i :: 0 <= i < |a| ==> a[i].vertical == b[i].vertical && a[i].horizontal == b[i].horizontal
  }

  ghost predicate Addressable(axes: seq<Axis>) {
    forall i :: 0 <= i < |axes| ==> FirstWith(axes, TagOf(axes[i])) == Some(i)
  }

  lemma {:induction false} FirstWithByTags(a: seq<Axis>, b: seq<Axis>, tag: Tag)
    requires SameTags(a, b)
    ensures FirstWith(a, tag) == FirstWith(b, tag)
  {
    if a != [] { FirstWithByTags(a[1..], b[1..], tag); }
  }

  lemma {:induction false} RestoreKeepsTags(axes: seq<Axis>, records: seq<Record>, k: nat)
    requires k <= |records|
    ensures SameTags(axes, RestoreAxes(axes, records, k))
  {
    if k != 0 { RestoreKeepsTags(axes, records, k - 1); }
  }

  lemma {:induction false} RestorePrefix(axes: seq<Axis>, spots: seq<Spot>, k: nat)
    requires |spots| == |axes| && k <= |axes| && Addressable(axes)
    ensures forall j :: 0 <= j < |axes| ==>
      RestoreAxes(axes, Records(axes, spots), k)[j] == if j < k then PlaceAxes(axes, spots)[j] else axes[j]
  {
    if k != 0 {
      RestorePrefix(axes, spots, k - 1);
      RestoreKeepsTags(axes, Records(axes, spots), k - 1);
      FirstWithByTags(axes, RestoreAxes(axes, Records(axes, spots), k - 1), TagOf(axes[k - 1]));
    }
  }

  /** An axis that its own record misses keeps its place or takes that of another record. */
  lemma {:induction false} MissedAxis(axes: seq<Axis>, spots: seq<Spot>, k: nat, i: nat)
    requires |spots| == |axes| && k <= |axes| && i < |axes|
    requires FirstWith(axes, TagOf(axes[i])) != Some(i)
    ensures Displaced(axes, spots, i, RestoreAxes(axes, Records(axes, spots), k)[i])
  {
    if k != 0 {
      MissedAxis(axes, spots, k - 1, i);
      RestoreKeepsTags(axes, Records(axes, spots), k - 1);
      MissedOnce(axes, spots, RestoreAxes(axes, Records(axes, spots), k - 1), k - 1, i);
    }
  }

  ghost predicate Displaced(axes: seq<Axis>, spots: seq<Spot>, i: nat, a: Axis)
    requires |spots| == |axes| && i < |axes|
  {
    (a.x == axes[i].x && a.y == axes[i].y) || exists j :: 0 <= j < |axes| && j != i && Spot(a.x, a.y) == spots[j]
  }

  lemma MissedOnce(axes: seq<Axis>, spots: seq<Spot>, before: seq<Axis>, k: nat, i: nat)
    requires |spots| == |axes| && k < |axes| && i < |axes| && SameTags(axes, before)
    requires FirstWith(axes, TagOf(axes[i])) != Some(i) && Displaced(axes, spots, i, before[i])
    ensures Displaced(axes, spots, i, RestoreOne(before, Record(TagOf(axes[k]), spots[k]))[i])
  {
    FirstWithByTags(axes, before, TagOf(axes[k]));
  }

  /** An arrangement that such an axis cannot be restored to. */
  lemma LostArrangement(axes: seq<Axis>, i: nat) returns (spots: seq<Spot>)
    requires i < |axes| && FirstWith(axes, TagOf(axes[i])) != Some(i)
    ensures |spots| == |axes| && RestoreAxes(axes, Records(axes, spots), |axes|) != PlaceAxes(axes, spots)
  {
    var far := if axes[i].x == 1 then 2 else 1;
    spots := seq(|axes|, j => if j == i then Spot(far, 0) else Spot(0, 0));
    MissedAxis(axes, spots, |axes|, i);
    assert PlaceAxes(axes, spots)[i].x == far;
    assert RestoreAxes(axes, Records(axes, spots), |axes|)[i].x != far;
  }

  lemma AllRestored(axes: seq<Axis>, spots: seq<Spot>)
    requires Addressable(axes) && |spots| == |axes|
    ensures RestoreAxes(axes, Records(axes, spots), |axes|) == PlaceAxes(axes, spots)
  {
    RestorePrefix(axes, spots, |axes|);
  }

  /** Every arrangement of the axes can be restored iff each axis carries a tag and is the
      first to carry the tag it is recorded under. */
  lemma RestoreExactIff(axes: seq<Axis>)
    ensures Addressable(axes) <==>
      forall spots: seq<Spot> :: |spots| == |axes| ==>
        RestoreAxes(axes, Records(axes, spots), |axes|) == PlaceAxes(axes, spots)
  {
    if Addressable(axes) {
      forall spots: seq<Spot> | |spots| == |axes|
        ensures RestoreAxes(axes, Records(axes, spots), |axes|) == PlaceAxes(axes, spots)
      {
        AllRestored(axes, spots);
      }
    } else {
      var i :| 0 <= i < |axes| && FirstWith(axes, TagOf(axes[i])) != Some(i);
      var spots := LostArrangement(axes, i);
    }
  }

  // ---------- Moving one sprite ----------

  predicate ValidTarget(b: Board, t: Target) {
    match t
    case AxisAt(i) => i < |b.axes|
    case PieceAt(i) => i < |b.pieces|
  }

  function SpotOf(b: Board, t: Target): Spot
    requires ValidTarget(b, t)
  {
    match t
    case AxisAt(i) => Spot(b.axes[i].x, b.axes[i].y)
    case PieceAt(i) => Spot(b.pieces[i].x, b.pieces[i].y)
  }

  predicate IsFixed(b: Board, t: Target)
    requires ValidTarget(b, t)
  {
    match t
    case AxisAt(i) => b.axes[i].fixed
    case PieceAt(i) => b.pieces[i].fixed
  }

  function PieceWidth(p: Piece): nat {
    if p.pixels == [] then 0 else |p.pixels[0]|
  }

  function SizeOf(b: Board, t: Target): (nat, nat)
    requires ValidTarget(b, t)
  {
    match t
    case AxisAt(i) => (b.axes[i].width, b.axes[i].height)
    case PieceAt(i) => (PieceWidth(b.pieces[i]), |b.pieces[i].pixels|)
  }

  predicate IsAxisWith(b: Board, t: Target, tag: Tag)
    requires ValidTarget(b, t)
  {
    t.AxisAt? && HasTag(b.axes[t.axis], tag)
  }

  function Place(b: Board, t: Target, s: Spot): Board
    requires ValidTarget(b, t)
  {
    match t
    case AxisAt(i) => b.(axes := b.axes[i := b.axes[i].(x := s.x, y := s.y)])
    case PieceAt(i) => b.(pieces := b.pieces[i := b.pieces[i].(x := s.x, y := s.y)])
  }

  /** A vertical axis only moves sideways, a horizontal one only up and down. */
  function Shifted(b: Board, t: Target, d: Direction): Spot
    requires ValidTarget(b, t)
  {
    var dx := if IsAxisWith(b, t, HorizontalTag) then 0 else match d case Left => -1 case Right => 1 case _ => 0;
    var dy := if IsAxisWith(b, t, VerticalTag) then 0 else match d case Up => -1 case Down => 1 case _ => 0;
    Spot(SpotOf(b, t).x + dx, SpotOf(b, t).y + dy)
  }

  predicate Blocked(level: Level, b: Board, t: Target, s: Spot)
    requires ValidTarget(b, t)
  {
    var (w, h) := SizeOf(b, t);
    || ((s.x < 0 || s.x + w > level.width) && !IsAxisWith(b, t, HorizontalTag))
    || ((s.y < 0 || s.y + h > level.height) && !IsAxisWith(b, t, VerticalTag))
  }

  // ---------- One step ----------

  /** Spend one step; running out loses the level. */
  function Charge(s: Status): Status {
    var left := if s.stepsLeft > 0 then s.stepsLeft - 1 else 0;
    s.(stepsLeft := left, lost := s.lost || left == 0)
  }

  ghost predicate Solved(level: Level, b: Board) {
    AllLit(b.pieces, b.axes, level.width, level.height, level.targets)
  }

  /** A winning move is not charged; on the level of index 1 the charge may start the hint. */
  ghost function AfterMove(level: Level, b: Board, s: Status, moved: bool): Status {
    if Solved(level, b) then s.(won := true)
    else if !moved then s
    else
      var charged := Charge(s);
      if level.index == 1 && s.hint == 0 && charged.stepsLeft < 50 && !s.reselected then charged.(hint := 1)
      else charged
  }

  ghost function MoveStep(g: Game, t: Target, d: Direction): Game
    requires ValidTarget(g.board, t)
  {
    var spot := Shifted(g.board, t, d);
    if IsFixed(g.board, t) || Blocked(g.level, g.board, t, spot) then g
    else
      var moved := spot != SpotOf(g.board, t);
      var board := Place(g.board, t, spot);
      Game(g.level, board, g.selected,
           if moved then g.undo + [Take(g.board)] else g.undo,
           AfterMove(g.level, board, g.status, moved))
  }

  function Position(cycle: seq<Target>, t: Option<Target>, k: nat): (p: int)
    requires k <= |cycle|
    ensures -1 <= p < |cycle|
    decreases |cycle| - k
  {
    if k == |cycle| then -1 else if Some(cycle[k]) == t then k else Position(cycle, t, k + 1)
  }

  function Choose(g: Game, t: Target): Game {
    if g.selected == Some(t) then g
    else g.(selected := Some(t), status := g.status.(reselected := true))
  }

  function NextInCycle(g: Game): (t: Target)
    requires g.level.cycle != []
    ensures t in g.level.cycle
  {
    g.level.cycle[(Position(g.level.cycle, g.selected, 0) + 1) % |g.level.cycle|]
  }

  function CycleStep(g: Game): Game
    requires g.level.cycle != []
  {
    var chosen := Choose(g, NextInCycle(g));
    chosen.(status := Charge(chosen.status))
  }

  /** The first movable axis, else the first movable piece. */
  function FirstMovable(b: Board): (o: Option<Target>)
    ensures o.Some? ==> ValidTarget(b, o.value)
  {
    var axis := FirstFree(seq(|b.axes|, i requires 0 <= i < |b.axes| => b.axes[i].fixed));
    var piece := FirstFree(seq(|b.pieces|, i requires 0 <= i < |b.pieces| => b.pieces[i].fixed));
    if axis < |b.axes| then Some(AxisAt(axis)) else if piece < |b.pieces| then Some(PieceAt(piece)) else None
  }

  function FirstFree(fixed: seq<bool>): (i: nat)
    ensures i <= |fixed| && (forall k :: 0 <= k < i ==> fixed[k]) && (i < |fixed| ==> !fixed[i])
  {
    if fixed == [] || !fixed[0] then 0 else FirstFree(fixed[1..]) + 1
  }

  /** picked is the sprite that the click selects, if any. */
  function ClickStep(g: Game, picked: Option<Target>): Game {
    var chosen := if picked.Some? && ValidTarget(g.board, picked.value) then Choose(g, picked.value) else g;
    if chosen.selected.None? then chosen.(selected := FirstMovable(chosen.board)) else chosen
  }

  predicate WellFormed(g: Game) {
    && g.level.cycle != [] && (forall t :: t in g.level.cycle ==> ValidTarget(g.board, t))
    && (g.selected.Some? ==> ValidTarget(g.board, g.selected.value))
    && (forall s :: s in g.undo ==> |s.pieces| == |g.board.pieces| && |s.axes| == |g.board.axes|)
  }

  function UndoStep(g: Game): Game
    requires WellFormed(g) && g.undo != []
  {
    var last := g.undo[|g.undo| - 1];
    assert last in g.undo;
    g.(board := Restore(g.board, last), undo := g.undo[..|g.undo| - 1])
  }

  /** Neither animating the hint nor on the way out of the level. */
  predicate Active(s: Status) {
    !s.cleared && s.hint <= 0 && !s.won
  }

  function Idle(s: Status): Status {
    if s.cleared then s
    else if s.hint > 0 then s.(hint := if s.hint + 1 >= 8 then -1 else s.hint + 1)
    else s.(cleared := true)
  }

  ghost function Step(g: Game, a: Action): (h: Game)
    requires WellFormed(g)
  {
    if !Active(g.status) then g.(status := Idle(g.status))
    else match a
      case Undo => if g.undo == [] then g else UndoStep(g)
      case Move(d) => if g.selected.None? then g else MoveStep(g, g.selected.value, d)
      case Cycle => CycleStep(g)
      case Click(picked) => ClickStep(g, picked)
      case Other => g
  }

  lemma MoveWellFormed(g: Game, t: Target, d: Direction)
    requires WellFormed(g) && ValidTarget(g.board, t)
    ensures WellFormed(MoveStep(g, t, d))
  {
  }

  lemma ClickWellFormed(g: Game, picked: Option<Target>)
    requires WellFormed(g)
    ensures WellFormed(ClickStep(g, picked))
  {
  }

  lemma StepWellFormed(g: Game, a: Action)
    requires WellFormed(g)
    ensures WellFormed(Step(g, a))
  {
    if a.Move? && g.selected.Some? {
      MoveWellFormed(g, g.selected.value, a.direction);
    } else if a.Click? {
      ClickWellFormed(g, a.picked);
    }
  }
}
