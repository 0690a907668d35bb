/** What the single buttons of the mirror puzzle do over whole plays. */
module MirrorPlay {
  import opened Lists
  import opened Wrappers
  import opened MirrorGame
  import opened MirrorRuns

  // ---------- Moving ----------

  function Opposite(d: Direction): Direction {
    match d case Up => Down case Down => Up case Left => Right case Right => Left
  }

  function Moved(s: Spot, d: Direction): Spot {
    match d
    case Up => Spot(s.x, s.y - 1)
    case Down => Spot(s.x, s.y + 1)
    case Left => Spot(s.x - 1, s.y)
    case Right => Spot(s.x + 1, s.y)
  }

  /** An effective move takes the selected sprite one cell in the pressed direction, and no
      other sprite anywhere; an axis only moves across its own line. */
  lemma MoveShiftsOneSprite(g: Game, d: Direction)
    requires WellFormed(g) && Effective(g, Move(d))
    ensures var h, t := Step(g, Move(d)), g.selected.value;
            && SameBodies(g.board, h.board)
            && SpotOf(h.board, t) == Moved(SpotOf(g.board, t), d)
            && (IsAxisWith(g.board, t, VerticalTag) ==> d.Left? || d.Right?)
            && (IsAxisWith(g.board, t, HorizontalTag) ==> d.Up? || d.Down?)
            && forall u :: ValidTarget(g.board, u) && u != t ==> SpotOf(h.board, u) == SpotOf(g.board, u)
  {
    PlaceShows(g.board, g.selected.value, Shifted(g.board, g.selected.value, d));
  }

  lemma PlaceBack(b: Board, t: Target, s: Spot)
    requires ValidTarget(b, t)
    ensures ValidTarget(Place(b, t, s), t)
    ensures Place(Place(b, t, s), t, SpotOf(b, t)) == b
    ensures forall level, spot :: Blocked(level, Place(b, t, s), t, spot) == Blocked(level, b, t, spot)
  {
  }

  /** The opposite button takes an effective move back exactly when the sprite was not out of bounds. */
  lemma OppositeMoveReturns(g: Game, d: Direction)
    requires WellFormed(g) && Effective(g, Move(d))
    requires Active(Step(g, Move(d)).status)
    ensures WellFormed(Step(g, Move(d)))
    ensures var back := Step(Step(g, Move(d)), Move(Opposite(d)));
            back.board == g.board <==> !Blocked(g.level, g.board, g.selected.value, SpotOf(g.board, g.selected.value))
  {
    var t, h := g.selected.value, Step(g, Move(d));
    StepWellFormed(g, Move(d));
    MoveShiftsOneSprite(g, d);
    PlaceBack(g.board, t, Shifted(g.board, t, d));
    assert Shifted(h.board, t, Opposite(d)) == SpotOf(g.board, t);
    assert h.board != g.board by { assert SpotOf(h.board, t) != SpotOf(g.board, t); }
  }

  // ---------- Winning ----------

  /** A move that is not blocked wins exactly when it leaves every target lit; nothing else wins. */
  lemma StepWins(g: Game, a: Action)
    requires WellFormed(g) && Active(g.status)
    ensures var h := Step(g, a);
            var tried := a.Move? && g.selected.Some? && !IsFixed(g.board, g.selected.value)
                         && !Blocked(g.level, g.board, g.selected.value, Shifted(g.board, g.selected.value, a.direction));
            h.status.won <==> tried && Solved(h.level, h.board)
  {
  }

  ghost predicate WonIsSolved(g: Game) {
    g.status.won ==> Solved(g.level, g.board)
  }

  lemma StepWonIsSolved(g: Game, a: Action)
    requires WellFormed(g) && WonIsSolved(g)
    ensures WonIsSolved(Step(g, a))
  {
    if Active(g.status) { StepWins(g, a); }
  }

  /** Over every run a level that counts as won has every target lit. */
  lemma {:induction false} RunWonIsSolved(g: Game, actions: seq<Action>)
    requires WellFormed(g) && WonIsSolved(g)
    ensures WonIsSolved(Run(g, actions))
    decreases actions
  {
    if actions != [] {
      StepWellFormed(g, actions[0]);
      StepWonIsSolved(g, actions[0]);
      RunWonIsSolved(Step(g, actions[0]), actions[1..]);
    }
  }

  // ---------- Cycling ----------

  lemma {:induction false} PositionFound(cycle: seq<Target>, i: nat, k: nat)
    requires Distinct(cycle) && k <= i < |cycle|
    ensures Position(cycle, Some(cycle[i]), k) == i
    decreases i - k
  {
    if k < i { PositionFound(cycle, i, k + 1); }
  }

  lemma Remainder(x: nat, q: nat, r: nat, n: nat)
    requires n > 0 && r < n && x == q * n + r
    ensures x % n == r
  {
    var d := x / n - q;
    assert d * n == r - x % n;
    assert (d >= 1 ==> d * n >= n) && (d <= -1 ==> d * n + n <= 0);
  }

  lemma NextThenRest(i: nat, k: nat, n: nat)
    requires i < n
    ensures ((i + 1) % n + k) % n == (i + 1 + k) % n
  {
    if i + 1 == n {
      Remainder(n, 1, 0, n);
      Remainder(n + k, k / n + 1, k % n, n);
    } else {
      Remainder(i + 1, 0, i + 1, n);
    }
  }

  ghost predicate SelectedAt(g: Game, i: nat) {
    i < |g.level.cycle| && g.selected == Some(g.level.cycle[i])
  }

  lemma CycleOnce(g: Game, i: nat)
    requires WellFormed(g) && Active(g.status) && Distinct(g.level.cycle) && SelectedAt(g, i)
    ensures var h := Step(g, Cycle);
            && WellFormed(h) && Active(h.status) && h.level == g.level && h.board == g.board && h.undo == g.undo
            && SelectedAt(h, (i + 1) % |g.level.cycle|) && h.status.stepsLeft == Spent(g.status.stepsLeft, 1)
  {
    SelectionKeeps(g, Cycle);
    StepWellFormed(g, Cycle);
    PositionFound(g.level.cycle, i, 0);
  }

  /** k presses of the cycle button move the selection k places on, round the movable sprites,
      cost k steps and move nothing. */
  lemma {:induction false} CycleWalks(g: Game, i: nat, k: nat)
    requires WellFormed(g) && Active(g.status) && Distinct(g.level.cycle) && SelectedAt(g, i)
    ensures var h := Run(g, Presses(Cycle, k));
            && h.level == g.level && SelectedAt(h, (i + k) % |g.level.cycle|)
            && h.board == g.board && h.undo == g.undo && h.status.stepsLeft == Spent(g.status.stepsLeft, k)
    decreases k
  {
    var n := |g.level.cycle|;
    if k == 0 {
      Remainder(i, 0, i, n);
    } else {
      CycleOnce(g, i);
      RunPress(g, Cycle, k);
      CycleWalks(Step(g, Cycle), (i + 1) % n, k - 1);
      NextThenRest(i, k - 1, n);
    }
  }

  // ---------- The hint ----------

  /** Once begun the hint plays to its end whatever is pressed, and changes nothing else. */
  lemma {:induction false} HintPlays(g: Game, actions: seq<Action>)
    requires WellFormed(g) && !g.status.cleared && 0 < g.status.hint < 8 && |actions| == 8 - g.status.hint
    ensures Run(g, actions) == g.(status := g.status.(hint := -1))
    decreases actions
  {
    StepWellFormed(g, actions[0]);
    var h := Step(g, actions[0]);
    assert h == g.(status := Idle(g.status));
    if |actions| == 1 {
      assert Run(h, actions[1..]) == h;
    } else {
      HintPlays(h, actions[1..]);
    }
  }
}
