/** Whole runs of the mirror puzzle: undo, containment and the step budget. */
module MirrorRuns {
  import opened Wrappers
  import opened Mirrors
  import opened MirrorGame

  // ---------- Boards that differ in positions only ----------

  ghost predicate SameBodies(b: Board, c: Board) {
    && |b.pieces| == |c.pieces| && |b.axes| == |c.axes|
    && (forall i :: 0 <= i < |b.pieces| ==> b.pieces[i].(x := 0, y := 0) == c.pieces[i].(x := 0, y := 0))
    && (forall i :: 0 <= i < |b.axes| ==> b.axes[i].(x := 0, y := 0) == c.axes[i].(x := 0, y := 0))
  }

  lemma SameArrangement(b: Board, c: Board)
    requires SameBodies(b, c) && Take(b) == Take(c)
    ensures b == c
  {
    forall i | 0 <= i < |b.pieces| ensures b.pieces[i] == c.pieces[i] {
      assert Take(b).pieces[i] == Take(c).pieces[i];
      assert b.pieces[i].(x := 0, y := 0) == c.pieces[i].(x := 0, y := 0);
    }
    forall i | 0 <= i < |b.axes| ensures b.axes[i] == c.axes[i] {
      assert Take(b).axes[i].spot == Take(c).axes[i].spot;
      assert b.axes[i].(x := 0, y := 0) == c.axes[i].(x := 0, y := 0);
    }
  }

  /** s was taken from a board with these axes, in some arrangement. */
  ghost predicate Fits(b: Board, s: Snapshot) {
    |s.pieces| == |b.pieces| && exists spots: seq<Spot> :: |spots| == |b.axes| && s.axes == Records(b.axes, spots)
  }

  lemma FitsBodies(b: Board, c: Board, s: Snapshot)
    requires SameBodies(b, c) && Fits(b, s)
    ensures Fits(c, s)
  {
    var spots: seq<Spot> :| |spots| == |b.axes| && s.axes == Records(b.axes, spots);
    assert forall i :: 0 <= i < |b.axes| ==> b.axes[i].(x := 0, y := 0) == c.axes[i].(x := 0, y := 0);
    assert Records(b.axes, spots) == Records(c.axes, spots);
  }

  lemma TakenFits(b: Board)
    ensures Fits(b, Take(b))
  {
    assert Take(b).axes == Records(b.axes, AxisSpots(b.axes));
  }

  lemma AddressableBodies(b: Board, c: Board)
    requires SameBodies(b, c) && Addressable(b.axes)
    ensures Addressable(c.axes)
  {
    forall i | 0 <= i < |c.axes| ensures FirstWith(c.axes, TagOf(c.axes[i])) == Some(i) {
      assert forall k :: 0 <= k < |b.axes| ==> b.axes[k].(x := 0, y := 0) == c.axes[k].(x := 0, y := 0);
      FirstWithByTags(b.axes, c.axes, TagOf(b.axes[i]));
    }
  }

  /** Restoring a snapshot that fits puts every sprite where the snapshot has it. */
  lemma RestoreTaken(b: Board, s: Snapshot)
    requires Addressable(b.axes) && Fits(b, s)
    ensures SameBodies(b, Restore(b, s)) && Take(Restore(b, s)) == s
  {
    var spots: seq<Spot> :| |spots| == |b.axes| && s.axes == Records(b.axes, spots);
    AllRestored(b.axes, spots);
    var r := Restore(b, s);
    assert r.axes == PlaceAxes(b.axes, spots);
    assert PieceSpots(r.pieces) == s.pieces;
    assert AxisSpots(r.axes) == spots;
    assert Records(r.axes, spots) == s.axes;
  }

  lemma PlaceShows(b: Board, t: Target, s: Spot)
    requires ValidTarget(b, t)
    ensures SameBodies(b, Place(b, t, s))
    ensures s == SpotOf(b, t) ==> Place(b, t, s) == b
    ensures s != SpotOf(b, t) ==> Take(Place(b, t, s)) != Take(b)
  {
    match t
    case AxisAt(i) =>
      assert Take(Place(b, t, s)).axes[i].spot == s && Take(b).axes[i].spot == SpotOf(b, t);
    case PieceAt(i) =>
      assert Take(Place(b, t, s)).pieces[i] == s && Take(b).pieces[i] == SpotOf(b, t);
  }

  lemma {:induction false} RestoreKeepsBodies(axes: seq<Axis>, records: seq<Record>, k: nat)
    requires k <= |records|
    ensures forall i :: 0 <= i < |axes| ==>
      RestoreAxes(axes, records, k)[i].(x := 0, y := 0) == axes[i].(x := 0, y := 0)
  {
    if k != 0 { RestoreKeepsBodies(axes, records, k - 1); }
  }

  /** Whatever is played, the sprites are the same ones, somewhere. */
  lemma StepKeepsBodies(g: Game, a: Action)
    requires WellFormed(g)
    ensures SameBodies(g.board, Step(g, a).board) && Step(g, a).level == g.level
  {
    if a.Undo? && Active(g.status) && g.undo != [] {
      UndoKeepsBodies(g);
    } else if a.Move? && g.selected.Some? {
      MoveKeepsBodies(g, g.selected.value, a.direction);
    }
  }

  lemma MoveKeepsBodies(g: Game, t: Target, d: Direction)
    requires ValidTarget(g.board, t)
    ensures SameBodies(g.board, MoveStep(g, t, d).board) && MoveStep(g, t, d).level == g.level
  {
    PlaceShows(g.board, t, Shifted(g.board, t, d));
  }

  lemma UndoKeepsBodies(g: Game)
    requires WellFormed(g) && g.undo != []
    ensures SameBodies(g.board, UndoStep(g).board) && UndoStep(g).level == g.level
  {
    var last := g.undo[|g.undo| - 1];
    RestoreKeepsBodies(g.board.axes, last.axes, |last.axes|);
  }

  // ---------- A step pushes, pops or keeps the history ----------

  /** The saved arrangements and the current one, oldest first. */
  function History(g: Game): seq<Snapshot> {
    g.undo + [Take(g.board)]
  }

  ghost predicate Consistent(g: Game) {
    WellFormed(g) && Addressable(g.board.axes) && forall s :: s in g.undo ==> Fits(g.board, s)
  }

  /** The history grew at its end, or lost its end; the sprites stayed the same. */
  ghost predicate Advances(g: Game, h: Game) {
    && Consistent(h) && SameBodies(g.board, h.board)
    && if |h.undo| >= |g.undo| then History(g) <= History(h) else History(h) == History(g)[..|g.undo|]
  }

  lemma ConsistentBodies(g: Game, h: Game)
    requires Consistent(g) && SameBodies(g.board, h.board) && h.level == g.level
    requires forall s :: s in h.undo ==> s in g.undo || s == Take(g.board)
    requires h.selected.Some? ==> ValidTarget(h.board, h.selected.value)
    ensures Consistent(h)
  {
    AddressableBodies(g.board, h.board);
    TakenFits(g.board);
    forall s | s in h.undo ensures Fits(h.board, s) { FitsBodies(g.board, h.board, s); }
  }

  /** The selected sprite is free to move, by a step that is not blocked and not zero. */
  ghost predicate Effective(g: Game, a: Action) {
    && Active(g.status) && a.Move? && g.selected.Some? && ValidTarget(g.board, g.selected.value)
    && var t := g.selected.value;
    && var spot := Shifted(g.board, t, a.direction);
    && spot != SpotOf(g.board, t) && !IsFixed(g.board, t) && !Blocked(g.level, g.board, t, spot)
  }

  /** A move saves the old arrangement iff it is effective; otherwise no position changes. */
  lemma MoveSaves(g: Game, a: Action)
    requires WellFormed(g) && a.Move?
    ensures var h := Step(g, a);
            && (Effective(g, a) ==> h.undo == g.undo + [Take(g.board)] && Take(h.board) != Take(g.board))
            && (!Effective(g, a) ==> h.undo == g.undo && h.board == g.board)
  {
    if Active(g.status) && g.selected.Some? {
      PlaceShows(g.board, g.selected.value, Shifted(g.board, g.selected.value, a.direction));
    }
  }

  lemma MoveHistory(g: Game, a: Action)
    requires Consistent(g) && a.Move?
    ensures Advances(g, Step(g, a))
  {
    var h := Step(g, a);
    MoveSaves(g, a);
    StepKeepsBodies(g, a);
    StepWellFormed(g, a);
    ConsistentBodies(g, h);
  }

  lemma UndoHistory(g: Game)
    requires Consistent(g) && Active(g.status) && g.undo != []
    ensures var h := Step(g, Undo);
            && Consistent(h) && SameBodies(g.board, h.board) && h.status == g.status
            && History(h) == History(g)[..|g.undo|]
  {
    var last := UndoPops(g);
    PopHistory(g, Step(g, Undo), last);
  }

  lemma UndoPops(g: Game) returns (last: Snapshot)
    requires WellFormed(g) && Active(g.status) && g.undo != []
    ensures |last.pieces| == |g.board.pieces|
    ensures var h := Step(g, Undo);
            && g.undo == h.undo + [last] && h.board == Restore(g.board, last)
            && h.level == g.level && h.selected == g.selected && h.status == g.status
  {
    last := g.undo[|g.undo| - 1];
    assert last in g.undo;
  }

  lemma PopHistory(g: Game, h: Game, last: Snapshot)
    requires Consistent(g) && g.undo == h.undo + [last] && h.level == g.level && h.selected == g.selected
    requires |last.pieces| == |g.board.pieces| && h.board == Restore(g.board, last)
    ensures Consistent(h) && SameBodies(g.board, h.board) && History(h) == History(g)[..|g.undo|]
  {
    assert last in g.undo;
    RestoreTaken(g.board, last);
    ConsistentBodies(g, h);
  }

  lemma SelectionHistory(g: Game, a: Action)
    requires Consistent(g) && (a.Cycle? || a.Click? || a.Other?)
    ensures var h := Step(g, a);
            Advances(g, h) && h.undo == g.undo && h.board == g.board
  {
    SelectionKeeps(g, a);
    UnmovedAdvances(g, Step(g, a));
  }

  lemma SelectionKeeps(g: Game, a: Action)
    requires WellFormed(g) && (a.Cycle? || a.Click? || a.Other?)
    ensures var h := Step(g, a);
            && h.undo == g.undo && h.board == g.board && h.level == g.level
            && (h.selected.Some? ==> ValidTarget(h.board, h.selected.value))
  {
  }

  lemma UnmovedAdvances(g: Game, h: Game)
    requires Consistent(g) && h.undo == g.undo && h.board == g.board && h.level == g.level
    requires h.selected.Some? ==> ValidTarget(h.board, h.selected.value)
    ensures Advances(g, h)
  {
    ConsistentBodies(g, h);
  }

  lemma StepAdvances(g: Game, a: Action)
    requires Consistent(g)
    ensures Advances(g, Step(g, a))
  {
    if a.Move? {
      MoveHistory(g, a);
    } else if a.Undo? && Active(g.status) && g.undo != [] {
      UndoHistory(g);
    } else if a.Undo? {
      UnmovedAdvances(g, Step(g, a));
    } else {
      SelectionHistory(g, a);
    }
  }

  // ---------- Whole runs ----------

  ghost function Run(g: Game, actions: seq<Action>): (h: Game)
    requires WellFormed(g)
    ensures WellFormed(h)
    decreases actions
  {
    if actions == [] then g
    else
      StepWellFormed(g, actions[0]);
      Run(Step(g, actions[0]), actions[1..])
  }

  lemma {:induction false} RunConsistent(g: Game, actions: seq<Action>)
    requires Consistent(g)
    ensures Consistent(Run(g, actions))
    decreases actions
  {
    if actions != [] {
      StepAdvances(g, actions[0]);
      RunConsistent(Step(g, actions[0]), actions[1..]);
    }
  }

  // ---------- Undo over whole runs ----------

  /** At no point of the run is the undo stack lower than the floor. */
  ghost predicate StaysAbove(g: Game, actions: seq<Action>, floor: nat)
    requires WellFormed(g)
    decreases actions
  {
    if actions == [] then |g.undo| >= floor
    else
      StepWellFormed(g, actions[0]);
      |g.undo| >= floor && StaysAbove(Step(g, actions[0]), actions[1..], floor)
  }

  lemma SameBodiesTrans(b: Board, c: Board, d: Board)
    requires SameBodies(b, c) && SameBodies(c, d)
    ensures SameBodies(b, d)
  {
    forall i | 0 <= i < |b.pieces| ensures b.pieces[i].(x := 0, y := 0) == d.pieces[i].(x := 0, y := 0) {
      assert b.pieces[i].(x := 0, y := 0) == c.pieces[i].(x := 0, y := 0);
    }
    forall i | 0 <= i < |b.axes| ensures b.axes[i].(x := 0, y := 0) == d.axes[i].(x := 0, y := 0) {
      assert b.axes[i].(x := 0, y := 0) == c.axes[i].(x := 0, y := 0);
    }
  }

  /** h still holds the first floor + 1 arrangements of g. */
  ghost predicate Keeps(g: Game, h: Game, floor: nat) {
    && |g.undo| >= floor && |h.undo| >= floor && SameBodies(g.board, h.board)
    && History(h)[..floor + 1] == History(g)[..floor + 1]
  }

  lemma AdvanceKeeps(g: Game, h: Game, floor: nat)
    requires Advances(g, h) && |g.undo| >= floor && |h.undo| >= floor
    ensures Keeps(g, h, floor)
  {
    if |h.undo| >= |g.undo| {
      assert History(g) == History(h)[..|g.undo| + 1];
      assert History(h)[..|g.undo| + 1][..floor + 1] == History(h)[..floor + 1];
    } else {
      assert History(g)[..|g.undo|][..floor + 1] == History(g)[..floor + 1];
    }
  }

  lemma KeepsTrans(f: Game, g: Game, h: Game, floor: nat)
    requires Keeps(f, g, floor) && Keeps(g, h, floor)
    ensures Keeps(f, h, floor)
  {
    SameBodiesTrans(f.board, g.board, h.board);
  }

  lemma KeepsSelf(g: Game, floor: nat)
    requires |g.undo| >= floor
    ensures Keeps(g, g, floor)
  {
  }

  /** Arrangements below the floor are never disturbed. */
  lemma {:induction false} FloorKept(g: Game, actions: seq<Action>, floor: nat)
    requires Consistent(g) && StaysAbove(g, actions, floor)
    ensures Keeps(g, Run(g, actions), floor)
    decreases actions
  {
    if actions == [] {
      KeepsSelf(g, floor);
    } else {
      StepAdvances(g, actions[0]);
      FloorKept(Step(g, actions[0]), actions[1..], floor);
      AdvanceKeeps(g, Step(g, actions[0]), floor);
      KeepsTrans(g, Step(g, actions[0]), Run(g, actions), floor);
    }
  }

  ghost function Presses(a: Action, k: nat): (actions: seq<Action>)
    ensures |actions| == k
  {
    seq(k, i => a)
  }

  lemma RunPress(g: Game, a: Action, k: nat)
    requires WellFormed(g) && k > 0 && WellFormed(Step(g, a))
    ensures Run(g, Presses(a, k)) == Run(Step(g, a), Presses(a, k - 1))
  {
    assert Presses(a, k)[0] == a && Presses(a, k)[1..] == Presses(a, k - 1);
  }

  lemma {:induction false} UndosPeel(g: Game, k: nat, floor: nat)
    requires Consistent(g) && Active(g.status) && |g.undo| == floor + k
    ensures Keeps(g, Run(g, Presses(Undo, k)), floor) && |Run(g, Presses(Undo, k)).undo| == floor
    decreases k
  {
    if k == 0 {
      KeepsSelf(g, floor);
    } else {
      UndoHistory(g);
      RunPress(g, Undo, k);
      UndosPeel(Step(g, Undo), k - 1, floor);
      AdvanceKeeps(g, Step(g, Undo), floor);
      KeepsTrans(g, Step(g, Undo), Run(Step(g, Undo), Presses(Undo, k - 1)), floor);
    }
  }

  /** The game after undoing down to the floor. */
  ghost function Undone(h: Game, floor: nat): Game
    requires WellFormed(h) && |h.undo| >= floor
  {
    Run(h, Presses(Undo, |h.undo| - floor))
  }

  lemma UndonePeels(h: Game, floor: nat)
    requires Consistent(h) && Active(h.status) && |h.undo| >= floor
    ensures Keeps(h, Undone(h, floor), floor) && |Undone(h, floor).undo| == floor
  {
    UndosPeel(h, |h.undo| - floor, floor);
  }

  /** Every piece and axis is where it was, and so is the undo stack. */
  ghost predicate SamePositions(g: Game, h: Game) {
    h.board == g.board && h.undo == g.undo
  }

  /** Play any actions that never undo past the start; then as many undos as there are moves
      left on the stack bring back every piece, every axis and the stack of the start. */
  lemma UndoRestores(g: Game, actions: seq<Action>)
    requires Consistent(g) && StaysAbove(g, actions, |g.undo|) && Active(Run(g, actions).status)
    ensures |Run(g, actions).undo| >= |g.undo|
    ensures SamePositions(g, Undone(Run(g, actions), |g.undo|))
  {
    FloorKept(g, actions, |g.undo|);
    RunConsistent(g, actions);
    KeepsHeight(g, Run(g, actions));
    PeelBack(g, Run(g, actions));
  }

  lemma KeepsHeight(g: Game, h: Game)
    requires Keeps(g, h, |g.undo|)
    ensures |h.undo| >= |g.undo|
  {
  }

  lemma PeelBack(g: Game, h: Game)
    requires Consistent(h) && Active(h.status) && |h.undo| >= |g.undo| && Keeps(g, h, |g.undo|)
    ensures SamePositions(g, Undone(h, |g.undo|))
  {
    UndonePeels(h, |g.undo|);
    KeepsBack(g, h, Undone(h, |g.undo|));
  }

  lemma KeepsBack(g: Game, h: Game, back: Game)
    requires Keeps(g, h, |g.undo|) && Keeps(h, back, |g.undo|) && |back.undo| == |g.undo|
    ensures SamePositions(g, back)
  {
    KeepsTrans(g, h, back, |g.undo|);
    KeepsWhole(g, back);
  }

  lemma KeepsWhole(g: Game, h: Game)
    requires Keeps(g, h, |g.undo|) && |h.undo| == |g.undo|
    ensures h.board == g.board && h.undo == g.undo
  {
    assert History(h) == History(g);
    assert Take(h.board) == History(h)[|g.undo|] && Take(g.board) == History(g)[|g.undo|];
    assert h.undo == History(h)[..|g.undo|] && g.undo == History(g)[..|g.undo|];
    SameArrangement(g.board, h.board);
  }

  // ---------- Containment and the budget over whole runs ----------

  ghost predicate PieceInside(level: Level, p: Piece, s: Spot) {
    0 <= s.x && s.x + PieceWidth(p) <= level.width && 0 <= s.y && s.y + |p.pixels| <= level.height
  }

  ghost predicate SpotsInside(level: Level, b: Board, spots: seq<Spot>) {
    |spots| == |b.pieces| && forall i :: 0 <= i < |b.pieces| ==> PieceInside(level, b.pieces[i], spots[i])
  }

  ghost predicate Contained(g: Game) {
    && SpotsInside(g.level, g.board, PieceSpots(g.board.pieces))
    && forall s :: s in g.undo ==> SpotsInside(g.level, g.board, s.pieces)
  }

  lemma InsideBodies(level: Level, b: Board, c: Board, spots: seq<Spot>)
    requires SameBodies(b, c) && SpotsInside(level, b, spots)
    ensures SpotsInside(level, c, spots)
  {
    forall i | 0 <= i < |c.pieces| ensures PieceInside(level, c.pieces[i], spots[i]) {
      assert b.pieces[i].(x := 0, y := 0) == c.pieces[i].(x := 0, y := 0);
    }
  }

  lemma MoveInside(g: Game, t: Target, spot: Spot)
    requires ValidTarget(g.board, t) && !Blocked(g.level, g.board, t, spot)
    requires SpotsInside(g.level, g.board, PieceSpots(g.board.pieces))
    ensures SpotsInside(g.level, g.board, PieceSpots(Place(g.board, t, spot).pieces))
  {
    var spots, after := PieceSpots(g.board.pieces), PieceSpots(Place(g.board, t, spot).pieces);
    forall i | 0 <= i < |g.board.pieces| ensures PieceInside(g.level, g.board.pieces[i], after[i]) {
      assert PieceInside(g.level, g.board.pieces[i], spots[i]);
    }
  }

  lemma StepContained(g: Game, a: Action)
    requires WellFormed(g) && Contained(g)
    ensures Contained(Step(g, a))
  {
    StepKeepsBodies(g, a);
    StepPiecesInside(g, a);
    SavedBefore(g, a);
    StaysContained(g, Step(g, a));
  }

  lemma StaysContained(g: Game, h: Game)
    requires Contained(g) && SameBodies(g.board, h.board) && h.level == g.level
    requires SpotsInside(g.level, g.board, PieceSpots(h.board.pieces))
    requires forall s :: s in h.undo ==> s in g.undo || s == Take(g.board)
    ensures Contained(h)
  {
    InsideBodies(g.level, g.board, h.board, PieceSpots(h.board.pieces));
    forall s | s in h.undo ensures SpotsInside(h.level, h.board, s.pieces) {
      InsideBodies(g.level, g.board, h.board, s.pieces);
    }
  }

  lemma StepPiecesInside(g: Game, a: Action)
    requires WellFormed(g) && Contained(g)
    ensures SpotsInside(g.level, g.board, PieceSpots(Step(g, a).board.pieces))
  {
    if a.Move? && Effective(g, a) {
      MoveInside(g, g.selected.value, Shifted(g.board, g.selected.value, a.direction));
    } else if a.Move? {
      MoveSaves(g, a);
    } else if a.Undo? && Active(g.status) && g.undo != [] {
      var last := g.undo[|g.undo| - 1];
      assert last in g.undo;
      assert PieceSpots(Restore(g.board, last).pieces) == last.pieces;
    }
  }

  lemma SavedBefore(g: Game, a: Action)
    requires WellFormed(g)
    ensures forall s :: s in Step(g, a).undo ==> s in g.undo || s == Take(g.board)
  {
    if a.Move? {
      MoveSaves(g, a);
    } else if a.Cycle? || a.Click? || a.Other? {
      SelectionKeeps(g, a);
    }
  }

  /** Pieces that start inside the grid stay inside it, whatever is played. */
  lemma {:induction false} RunContained(g: Game, actions: seq<Action>)
    requires WellFormed(g) && Contained(g)
    ensures Contained(Run(g, actions))
    decreases actions
  {
    if actions != [] {
      StepWellFormed(g, actions[0]);
      StepContained(g, actions[0]);
      RunContained(Step(g, actions[0]), actions[1..]);
    }
  }

  /** What a step is charged for: cycling, and an effective move that does not win. Undo, clicks,
      blocked, fixed and zero moves, a winning move and ticks of the hint are free. */
  ghost predicate Charged(g: Game, a: Action)
    requires WellFormed(g)
  {
    Active(g.status) && (a.Cycle? || (Effective(g, a) && !Solved(Step(g, a).level, Step(g, a).board)))
  }

  lemma StepBudget(g: Game, a: Action)
    requires WellFormed(g)
    ensures var h := Step(g, a);
            && h.status.stepsLeft == Spent(g.status.stepsLeft, if Charged(g, a) then 1 else 0)
            && (h.status.lost <==> g.status.lost || (Charged(g, a) && h.status.stepsLeft == 0))
  {
  }

  function Spent(left: nat, k: nat): nat {
    if left >= k then left - k else 0
  }

  ghost function Charges(g: Game, actions: seq<Action>): nat
    requires WellFormed(g)
    decreases actions
  {
    if actions == [] then 0
    else
      StepWellFormed(g, actions[0]);
      (if Charged(g, actions[0]) then 1 else 0) + Charges(Step(g, actions[0]), actions[1..])
  }

  /** Over every run the budget falls by exactly the charged steps, down to zero, and the level is
      lost exactly when it was or when they used the budget up. */
  lemma {:induction false} RunBudget(g: Game, actions: seq<Action>)
    requires WellFormed(g)
    ensures var h, n := Run(g, actions), Charges(g, actions);
            && h.status.stepsLeft == Spent(g.status.stepsLeft, n)
            && (h.status.lost <==> g.status.lost || (n > 0 && n >= g.status.stepsLeft))
    decreases actions
  {
    if actions != [] {
      StepBudget(g, actions[0]);
      StepWellFormed(g, actions[0]);
      RunBudget(Step(g, actions[0]), actions[1..]);
    }
  }
}
