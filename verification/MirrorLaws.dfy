/** What one press does in the mirror puzzle, in terms of coordinates, sizes and counters alone. */
module MirrorLaws {
  import opened Wrappers
  import opened Mirrors
  import opened MirrorMaps
  import opened MirrorGame
  import opened MirrorRuns
  import opened MirrorUndo
  import opened MirrorPlay

  // ---------- Moves ----------

  /** A size fits the grid at a coordinate. */
  predicate FitsAt(at: int, size: nat, whole: nat) {
    0 <= at && at + size <= whole
  }

  function WidthOf(p: Piece): nat {
    if p.pixels == [] then 0 else |p.pixels[0]|
  }

  /** A free piece moves one cell in the pressed direction exactly when all of it stays on the grid;
      otherwise nothing changes. */
  lemma PieceMovesIff(g: Game, i: nat, d: Direction)
    requires WellFormed(g) && Active(g.status) && i < |g.board.pieces| && g.selected == Some(PieceAt(i))
    ensures var h, p := Step(g, Move(d)), g.board.pieces[i];
            var t := Moved(Spot(p.x, p.y), d);
            if !p.fixed && FitsAt(t.x, WidthOf(p), g.level.width) && FitsAt(t.y, |p.pixels|, g.level.height)
            then h.board == g.board.(pieces := g.board.pieces[i := p.(x := t.x, y := t.y)])
                 && h.undo == g.undo + [Take(g.board)] && h.selected == g.selected
            else h == g
  {
  }

  /** Where the press would take an axis: across its own line only, and nowhere when it has both tags. */
  function AxisAfter(a: Axis, d: Direction): Spot {
    var t := Moved(Spot(a.x, a.y), d);
    Spot(if a.horizontal then a.x else t.x, if a.vertical then a.y else t.y)
  }

  /** A free axis goes there exactly when it fits: an upright one in x, a level one in y, one without a tag
      in both; otherwise nothing changes. */
  lemma AxisMovesIff(g: Game, i: nat, d: Direction)
    requires WellFormed(g) && Active(g.status) && i < |g.board.axes| && g.selected == Some(AxisAt(i))
    ensures var h, a := Step(g, Move(d)), g.board.axes[i];
            var t := AxisAfter(a, d);
            if !a.fixed && (a.horizontal || FitsAt(t.x, a.width, g.level.width))
               && (a.vertical || FitsAt(t.y, a.height, g.level.height))
            then h.board == g.board.(axes := g.board.axes[i := a.(x := t.x, y := t.y)]) && h.selected == g.selected
                 && h.undo == (if t == Spot(a.x, a.y) then g.undo else g.undo + [Take(g.board)])
            else h == g
  {
  }

  /** The counters after a move that was not refused: a winning one only wins; another one costs a step if it
      led anywhere, loses the level with the last step, and on the level of index 1 starts the hint when it
      leaves fewer than 50 steps and the player has not reselected. */
  lemma MoveCounts(g: Game, d: Direction)
    requires WellFormed(g) && Active(g.status) && g.selected.Some?
    requires !IsFixed(g.board, g.selected.value)
    requires !Blocked(g.level, g.board, g.selected.value, Shifted(g.board, g.selected.value, d))
    ensures var h, s, t := Step(g, Move(d)), g.status, Step(g, Move(d)).status;
            var left: int := s.stepsLeft - 1;
            && (AllLit(h.board.pieces, h.board.axes, g.level.width, g.level.height, g.level.targets) ==> t == s.(won := true))
            && (!AllLit(h.board.pieces, h.board.axes, g.level.width, g.level.height, g.level.targets) ==>
                  if h.undo == g.undo then t == s
                  else
                    && t.stepsLeft == (if left >= 0 then left else 0)
                    && (t.lost <==> s.lost || left <= 0)
                    && t.hint == (if g.level.index == 1 && s.hint == 0 && left < 50 && !s.reselected then 1 else s.hint)
                    && !t.won && t.cleared == s.cleared && t.reselected == s.reselected)
  {
    PlaceShows(g.board, g.selected.value, Shifted(g.board, g.selected.value, d));
  }

  /** Without a selected sprite a move does nothing. */
  lemma UnselectedStays(g: Game, d: Direction)
    requires WellFormed(g) && Active(g.status) && g.selected.None?
    ensures Step(g, Move(d)) == g
  {
  }

  // ---------- Undo ----------

  /** Undo puts every piece where the last saved arrangement has it, takes that off the stack and changes no
      counter and no selection; on an empty stack it does nothing. */
  lemma UndoPlacesPieces(g: Game)
    requires WellFormed(g) && Active(g.status)
    ensures var h := Step(g, Undo);
            && h.level == g.level && h.selected == g.selected && h.status == g.status
            && (g.undo == [] ==> h == g)
            && (g.undo != [] ==>
                  && h.undo == g.undo[..|g.undo| - 1] && |h.board.pieces| == |g.board.pieces|
                  && var spots := g.undo[|g.undo| - 1].pieces;
                  && |spots| == |g.board.pieces|
                  && forall i :: 0 <= i < |spots| ==>
                       h.board.pieces[i] == g.board.pieces[i].(x := spots[i].x, y := spots[i].y))
  {
    if g.undo != [] { assert g.undo[|g.undo| - 1] in g.undo; }
  }

  /** A snapshot has the place of every piece, and of every axis under its tag: upright before level before none. */
  lemma TakeMeans(b: Board)
    ensures var s := Take(b);
            && |s.pieces| == |b.pieces| && |s.axes| == |b.axes|
            && (forall i :: 0 <= i < |b.pieces| ==> s.pieces[i] == Spot(b.pieces[i].x, b.pieces[i].y))
            && forall i :: 0 <= i < |b.axes| ==>
                 && s.axes[i].spot == Spot(b.axes[i].x, b.axes[i].y)
                 && s.axes[i].tag == (if b.axes[i].vertical then VerticalTag
                                      else if b.axes[i].horizontal then HorizontalTag else NoTag)
  {
  }

  /** No axis carries the tag that stands for none. */
  predicate Carries(a: Axis, tag: Tag) {
    match tag case VerticalTag => a.vertical case HorizontalTag => a.horizontal case NoTag => false
  }

  /** Axis i is the first that carries the record's tag. */
  predicate Finds(axes: seq<Axis>, r: Record, i: nat) {
    i < |axes| && Carries(axes[i], r.tag) && forall j :: 0 <= j < i ==> !Carries(axes[j], r.tag)
  }

  lemma {:induction false} FirstWithFinds(axes: seq<Axis>, r: Record, i: nat)
    ensures FirstWith(axes, r.tag) == Some(i) <==> Finds(axes, r, i)
  {
    if axes != [] && i > 0 { FirstWithFinds(axes[1..], r, i - 1); }
  }

  /** Record k is the last of the first n to find axis i. */
  predicate LastToFind(axes: seq<Axis>, records: seq<Record>, n: nat, k: nat, i: nat)
    requires n <= |records|
  {
    k < n && Finds(axes, records[k], i) && forall l :: k < l < n ==> !Finds(axes, records[l], i)
  }

  lemma {:induction false} LastSpotIs(axes: seq<Axis>, records: seq<Record>, n: nat, i: nat)
    requires n <= |records|
    ensures forall k: nat :: LastToFind(axes, records, n, k, i) ==> LastSpot(axes, records, n, i) == Some(records[k].spot)
    ensures (forall k :: 0 <= k < n ==> !Finds(axes, records[k], i)) ==> LastSpot(axes, records, n, i) == None
  {
    if n > 0 {
      FirstWithFinds(axes, records[n - 1], i);
      LastSpotIs(axes, records, n - 1, i);
      forall k: nat | LastToFind(axes, records, n, k, i)
        ensures LastSpot(axes, records, n, i) == Some(records[k].spot)
      {
        if k < n - 1 { assert LastToFind(axes, records, n - 1, k, i); }
      }
    }
  }

  lemma AxisRestored(axes: seq<Axis>, records: seq<Record>, i: nat)
    requires i < |axes|
    ensures var r := RestoreAxes(axes, records, |records|);
            && (forall k: nat :: LastToFind(axes, records, |records|, k, i) ==>
                  r[i] == axes[i].(x := records[k].spot.x, y := records[k].spot.y))
            && ((forall k :: 0 <= k < |records| ==> !Finds(axes, records[k], i)) ==> r[i] == axes[i])
  {
    RestoredAxis(axes, records, |records|, i);
    LastSpotIs(axes, records, |records|, i);
  }

  /** Undo puts an axis where the last record to find it says, and leaves one that no record finds. */
  lemma UndoPlacesAxes(g: Game, i: nat)
    requires WellFormed(g) && Active(g.status) && g.undo != [] && i < |g.board.axes|
    ensures var h, axes, records := Step(g, Undo), g.board.axes, g.undo[|g.undo| - 1].axes;
            && |h.board.axes| == |axes|
            && (forall k: nat :: LastToFind(axes, records, |records|, k, i) ==>
                  h.board.axes[i] == axes[i].(x := records[k].spot.x, y := records[k].spot.y))
            && ((forall k :: 0 <= k < |records| ==> !Finds(axes, records[k], i)) ==> h.board.axes[i] == axes[i])
  {
    var last := g.undo[|g.undo| - 1];
    assert last in g.undo;
    AxisRestored(g.board.axes, last.axes, i);
  }

  // ---------- Selecting ----------

  lemma {:induction false} PositionOfFirst(cycle: seq<Target>, t: Option<Target>, k: nat)
    requires k <= |cycle|
    ensures var p := Position(cycle, t, k);
            if p < 0 then forall i :: k <= i < |cycle| ==> Some(cycle[i]) != t
            else k <= p && Some(cycle[p]) == t && forall i :: k <= i < p ==> Some(cycle[i]) != t
    decreases |cycle| - k
  {
    if k < |cycle| { PositionOfFirst(cycle, t, k + 1); }
  }

  lemma NextAfter(cycle: seq<Target>, i: nat)
    requires i < |cycle|
    ensures cycle[(i + 1) % |cycle|] == if i + 1 < |cycle| then cycle[i + 1] else cycle[0]
  {
    if i + 1 < |cycle| { Remainder(i + 1, 0, i + 1, |cycle|); } else { Remainder(i + 1, 1, 0, |cycle|); }
  }

  /** i is the first place of t in the cycle. */
  predicate FirstPlace(cycle: seq<Target>, t: Option<Target>, i: nat) {
    i < |cycle| && Some(cycle[i]) == t && forall j :: 0 <= j < i ==> Some(cycle[j]) != t
  }

  /** The next sprite is the one after the selected one, the first again after the last, and the first when the
      selected one is not among the movable ones. */
  lemma NextInCycleIs(g: Game)
    requires g.level.cycle != []
    ensures var cycle := g.level.cycle;
            && (forall i: nat :: FirstPlace(cycle, g.selected, i) ==>
                  NextInCycle(g) == if i + 1 < |cycle| then cycle[i + 1] else cycle[0])
            && ((forall i: nat :: !FirstPlace(cycle, g.selected, i)) ==> NextInCycle(g) == cycle[0])
  {
    var cycle := g.level.cycle;
    var p := Position(cycle, g.selected, 0);
    PositionOfFirst(cycle, g.selected, 0);
    if p >= 0 {
      NextAfter(cycle, p);
      assert FirstPlace(cycle, g.selected, p);
    } else {
      Remainder(0, 0, 0, |cycle|);
    }
  }

  /** Cycling selects that sprite, costs a step and marks a change of selection. */
  lemma CycleSelects(g: Game)
    requires WellFormed(g) && Active(g.status)
    ensures var h, s := Step(g, Cycle), g.status;
            && h.board == g.board && h.undo == g.undo && h.level == g.level && h.selected == Some(NextInCycle(g))
            && h.status.reselected == (s.reselected || h.selected != g.selected)
            && h.status.stepsLeft == (if s.stepsLeft > 0 then s.stepsLeft - 1 else 0)
            && h.status.lost == (s.lost || s.stepsLeft <= 1)
            && h.status.won == s.won && h.status.cleared == s.cleared && h.status.hint == s.hint
  {
  }

  /** i is the first index that is not fixed. */
  predicate FirstFreeAt(fixed: seq<bool>, i: nat) {
    i < |fixed| && !fixed[i] && forall j :: 0 <= j < i ==> fixed[j]
  }

  function AxesFixed(b: Board): seq<bool> {
    seq(|b.axes|, i requires 0 <= i < |b.axes| => b.axes[i].fixed)
  }

  function PiecesFixed(b: Board): seq<bool> {
    seq(|b.pieces|, i requires 0 <= i < |b.pieces| => b.pieces[i].fixed)
  }

  /** What is selected at the start, and by a click while nothing is: the first free axis, else the first
      free piece, else nothing. */
  lemma FirstMovableIs(b: Board)
    ensures forall i: nat :: FirstFreeAt(AxesFixed(b), i) ==> FirstMovable(b) == Some(AxisAt(i))
    ensures (forall a :: a in b.axes ==> a.fixed) ==>
              forall i: nat :: FirstFreeAt(PiecesFixed(b), i) ==> FirstMovable(b) == Some(PieceAt(i))
    ensures (forall a :: a in b.axes ==> a.fixed) && (forall p :: p in b.pieces ==> p.fixed) ==> FirstMovable(b) == None
  {
    var axis, piece := FirstFree(AxesFixed(b)), FirstFree(PiecesFixed(b));
    if axis < |b.axes| { assert b.axes[axis] in b.axes; }
    if piece < |b.pieces| { assert b.pieces[piece] in b.pieces; }
  }

  /** A click selects the sprite it hits, if any, and marks a change of selection; one that hits none leaves the
      selection, or makes the first one. It is free and moves nothing. */
  lemma ClickSelects(g: Game, picked: Option<Target>)
    requires WellFormed(g) && Active(g.status)
    ensures var h, hit := Step(g, Click(picked)), picked.Some? && ValidTarget(g.board, picked.value);
            && h.board == g.board && h.undo == g.undo && h.level == g.level
            && (hit ==> h.selected == picked
                        && h.status == g.status.(reselected := g.status.reselected || g.selected != picked))
            && (!hit ==> h.status == g.status
                         && h.selected == if g.selected.Some? then g.selected else FirstMovable(g.board))
  {
  }

  // ---------- While the level is not being played ----------

  /** A running hint only advances, from 1 over 7 to its end; else a level that has been won is left; else, once
      it has been left, nothing happens, whatever is pressed. */
  lemma IdleTicks(g: Game, a: Action)
    requires WellFormed(g) && (g.status.cleared || g.status.hint > 0 || g.status.won)
    ensures var h, s := Step(g, a), g.status;
            && (s.cleared ==> h == g)
            && (!s.cleared && 0 < s.hint < 7 ==> h == g.(status := s.(hint := s.hint + 1)))
            && (!s.cleared && s.hint >= 7 ==> h == g.(status := s.(hint := -1)))
            && (!s.cleared && s.hint <= 0 ==> h == g.(status := s.(cleared := true)))
  {
  }

  /** Any other action does nothing while the level is played. */
  lemma OtherStays(g: Game)
    requires WellFormed(g) && Active(g.status)
    ensures Step(g, Other) == g
  {
  }
}
