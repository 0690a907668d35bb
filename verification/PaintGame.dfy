/** One level of the paint-ring game: the basket on its ring and the two out-and-back animations. */
module PaintGame {
  import opened Wrappers
  import opened PaintCanvas

  const ACTION_LIMIT := 100
  const APEX := 7

  datatype Point = Point(x: int, y: int)

  /** One animated sprite: where it is, where it started and how far out it has gone. */
  datatype Swing = Swing(running: bool, counter: int, direction: int, painted: bool, start: Point, at: Point)

  datatype Level = Level(hasSpout: bool, target: Canvas)

  datatype Outcome = Playing | Solved | Lost

  datatype Game = Game(level: Level, ring: nat, colour: int, canvas: Canvas,
                       basket: Swing, spout: Swing, slot: Option<nat>, outcome: Outcome)

  datatype Arrow = Up | Down | Left | Right

  datatype Picked = TheSpout | Swatch(colour: int) | Nothing

  datatype Action = Move(arrow: Arrow) | PaintNow | Click(picked: Picked) | Other

  // ---------- The ring ----------

  function RingHome(ring: nat): Point {
    match ring
    case 0 => Point(25, 24) case 1 => Point(33, 21) case 2 => Point(38, 32) case 3 => Point(33, 40)
    case 4 => Point(25, 45) case 5 => Point(14, 40) case 6 => Point(17, 32) case _ => Point(14, 21)
  }

  function RingDirection(ring: nat): Point {
    match ring
    case 0 => Point(0, 1) case 1 => Point(-1, 1) case 2 => Point(-1, 0) case 3 => Point(-1, -1)
    case 4 => Point(0, -1) case 5 => Point(1, -1) case 6 => Point(1, 0) case _ => Point(1, 1)
  }

  function SpoutHome(ring: nat): Point {
    var home := RingHome(ring);
    match ring
    case 0 => Point(home.x + 4, home.y - 6)
    case 2 => Point(home.x + 10, home.y + 4)
    case 4 => Point(home.x + 4, home.y + 10)
    case _ => Point(home.x - 6, home.y + 4)
  }

  function SpoutDirection(slot: nat): Point {
    match slot
    case 0 => Point(0, 2) case 2 => Point(-2, 0) case 4 => Point(0, -2) case _ => Point(2, 0)
  }

  /** Row and column of a ring position in the 3 x 3 square around the canvas. */
  function Seat(ring: nat): (int, int) {
    match ring
    case 0 => (0, 1) case 1 => (0, 2) case 2 => (1, 2) case 3 => (2, 2)
    case 4 => (2, 1) case 5 => (2, 0) case 6 => (1, 0) case _ => (0, 0)
  }

  function RingAt(seat: (int, int)): Option<nat> {
    match seat
    case (0, 1) => Some(0) case (0, 2) => Some(1) case (1, 2) => Some(2) case (2, 2) => Some(3)
    case (2, 1) => Some(4) case (2, 0) => Some(5) case (1, 0) => Some(6) case (0, 0) => Some(7)
    case _ => None
  }

  function MovedRing(ring: nat, arrow: Arrow): (next: nat)
    ensures ring < 8 ==> next < 8
  {
    var (row, col) := Seat(ring);
    var seat := match arrow
      case Up => (if row > 0 then row - 1 else 0, col)
      case Down => (if row < 2 then row + 1 else 2, col)
      case Left => (row, if col > 0 then col - 1 else 0)
      case Right => (row, if col < 2 then col + 1 else 2);
    match RingAt(seat)
    case None => ring
    case Some(next) => next
  }

  /** One seat on in the direction of the arrow. */
  function Shifted(seat: (int, int), arrow: Arrow): (int, int) {
    match arrow
    case Up => (seat.0 - 1, seat.1) case Down => (seat.0 + 1, seat.1)
    case Left => (seat.0, seat.1 - 1) case Right => (seat.0, seat.1 + 1)
  }

  function Opposite(arrow: Arrow): Arrow {
    match arrow case Up => Down case Down => Up case Left => Right case Right => Left
  }

  /** An arrow moves the basket to a neighbour on the ring or not at all, and the opposite
      arrow takes an actual move back. */
  lemma RingMoves(ring: nat, arrow: Arrow)
    requires ring < 8
    ensures var next := MovedRing(ring, arrow);
            && next < 8
            && (next == ring || next == (ring + 1) % 8 || next == (ring + 7) % 8)
            && (next != ring ==> MovedRing(next, Opposite(arrow)) == ring && Seat(next) == Shifted(Seat(ring), arrow))
    ensures (exists a :: MovedRing(ring, a) == (ring + 1) % 8) && (exists a :: MovedRing(ring, a) == (ring + 7) % 8)
  {
    var clockwise := if ring in {0, 7} then Right else if ring in {1, 2} then Down else if ring in {3, 4} then Left else Up;
    var back := if ring in {0, 1} then Left else if ring in {2, 3} then Up else if ring in {4, 5} then Right else Down;
    assert MovedRing(ring, clockwise) == (ring + 1) % 8 && MovedRing(ring, back) == (ring + 7) % 8;
  }

  /** How far a cell lies on the basket's side of the centre, which is seat (1, 1). */
  function Side(ring: nat, r: int, c: int): int {
    (2 * r - (SIDE - 1)) * (Seat(ring).0 - 1) + (2 * c - (SIDE - 1)) * (Seat(ring).1 - 1)
  }

  /** At every position the basket paints exactly the cells on its own side of the canvas, the
      dividing diagonal included; it swings towards the centre, and the spout with it, twice as
      fast, over a box inside the basket's half. */
  lemma BasketFacesCanvas(ring: nat, r: int, c: int)
    requires ring < 8 && 0 <= r < SIDE && 0 <= c < SIDE
    ensures Covers(Basket(ring), r, c) <==> Side(ring, r, c) >= 0
    ensures RingDirection(ring) == Point(1 - Seat(ring).1, 1 - Seat(ring).0)
    ensures IsHalf(ring) ==> SpoutDirection(ring) == Point(2 * RingDirection(ring).x, 2 * RingDirection(ring).y)
    ensures Covers(Spout(ring), r, c) ==> Covers(Basket(ring), r, c)
  {
  }

  /** Two places further on, either stamp is the same one turned by a quarter. */
  lemma QuarterTurn(ring: nat, r: int, c: int)
    requires ring < 8 && 0 <= r < SIDE && 0 <= c < SIDE
    ensures Covers(Basket(ring), r, c) <==> Covers(Basket((ring + 2) % 8), c, SIDE - 1 - r)
    ensures Covers(Spout(ring), r, c) <==> Covers(Spout((ring + 2) % 8), c, SIDE - 1 - r)
  {
  }

  /** The spout paints the outer three lines of the basket's half, four cells wide in the middle. */
  lemma SpoutBox(ring: nat, r: int, c: int)
    requires ring < 8 && IsHalf(ring) && 0 <= r < 10 && 0 <= c < 10
    ensures Covers(Spout(ring), r, c) <==> Side(ring, r, c) >= 5 && -3 <= Side((ring + 2) % 8, r, c) <= 3
  {
  }

  /** Where basket and spout rest on the screen, position by position. */
  lemma RestingPlaces()
    ensures [RingHome(0), RingHome(1), RingHome(2), RingHome(3), RingHome(4), RingHome(5), RingHome(6), RingHome(7)]
         == [Point(25, 24), Point(33, 21), Point(38, 32), Point(33, 40), Point(25, 45), Point(14, 40), Point(17, 32), Point(14, 21)]
    ensures [SpoutHome(0), SpoutHome(2), SpoutHome(4), SpoutHome(6)]
         == [Point(29, 18), Point(48, 36), Point(29, 55), Point(11, 36)]
  {
  }

  /** On the screen the basket rests above, beside or below the canvas as its seat says. */
  lemma RestsAtSeat(ring: nat)
    requires ring < 8
    ensures var seat, home := Seat(ring), RingHome(ring);
            && 0 <= seat.0 <= 2 && 0 <= seat.1 <= 2
            && (seat.0 == 0 <==> home.y < 32) && (seat.0 == 2 <==> home.y > 32)
            && (seat.1 == 0 <==> home.x < 25) && (seat.1 == 2 <==> home.x > 25)
  {
  }

  // ---------- One tick of an animation ----------

  function Plus(p: Point, d: Point): Point {
    Point(p.x + d.x, p.y + d.y)
  }

  function Minus(p: Point, d: Point): Point {
    Point(p.x - d.x, p.y - d.y)
  }

  /** Where k moves by d lead from p. */
  function Outward(p: Point, k: int, d: Point): Point
    decreases k
  {
    if k <= 0 then p else Plus(Outward(p, k - 1, d), d)
  }

  lemma {:induction false} OutwardIsOffset(p: Point, k: nat, d: Point)
    ensures Outward(p, k, d) == Point(p.x + k * d.x, p.y + k * d.y)
  {
    if k != 0 { OutwardIsOffset(p, k - 1, d); }
  }

  predicate PaintsNow(s: Swing) {
    s.direction == 1 && s.counter + 1 >= APEX && !s.painted
  }

  predicate EndsNow(s: Swing) {
    s.direction != 1 && s.counter - 1 <= 0
  }

  function Tick(s: Swing, d: Point): Swing {
    if s.direction == 1 then
      var apex := s.counter + 1 >= APEX;
      s.(counter := s.counter + 1, at := Plus(s.at, d),
         painted := s.painted || apex, direction := if apex then -1 else 1)
    else
      s.(counter := s.counter - 1, running := !EndsNow(s),
         at := if EndsNow(s) then s.start else Minus(s.at, d))
  }

  function Begin(s: Swing, start: Point): Swing {
    s.(running := true, counter := 0, direction := 1, painted := false, start := start)
  }

  // ---------- One step ----------

  ghost function CheckWin(g: Game): Game
    requires IsCanvas(g.canvas) && IsCanvas(g.level.target)
  {
    if Matches(g.canvas, g.level.target) then g.(outcome := Solved) else g
  }

  function Stamped(g: Game, stamp: Stamp): Game
    requires IsCanvas(g.canvas)
  {
    g.(canvas := Apply(Paint(stamp, g.colour), g.canvas))
  }

  ghost function BasketTick(g: Game): Game
    requires IsCanvas(g.canvas) && IsCanvas(g.level.target)
  {
    var painted := if PaintsNow(g.basket) then Stamped(g, Basket(g.ring)) else g;
    var moved := painted.(basket := Tick(g.basket, RingDirection(g.ring)));
    if EndsNow(g.basket) then CheckWin(moved) else moved
  }

  ghost function SpoutTick(g: Game): Game
    requires IsCanvas(g.canvas) && IsCanvas(g.level.target)
  {
    match g.slot
    case None => g.(spout := g.spout.(running := false))
    case Some(slot) =>
      var painted := if PaintsNow(g.spout) then Stamped(g, Spout(slot)) else g;
      var moved := painted.(spout := Tick(g.spout, SpoutDirection(slot)));
      if EndsNow(g.spout) then CheckWin(moved) else moved
  }

  predicate SpoutShown(g: Game) {
    g.level.hasSpout && g.ring % 2 == 0
  }

  /** Rebuild the sprites at the homes of the current ring position. */
  function Redraw(g: Game): Game {
    g.(basket := g.basket.(at := RingHome(g.ring)),
       spout := if SpoutShown(g) then g.spout.(at := SpoutHome(g.ring)) else g.spout)
  }

  function ClickStep(g: Game, picked: Picked): Game {
    match picked
    case TheSpout => if SpoutShown(g) then g.(slot := Some(g.ring), spout := Begin(g.spout, g.spout.at)) else g
    case Swatch(colour) => Redraw(g.(colour := colour))
    case Nothing => g
  }

  function MoveStep(g: Game, arrow: Arrow): Game {
    var next := MovedRing(g.ring, arrow);
    if next == g.ring then g else Redraw(g.(ring := next))
  }

  predicate WellFormed(g: Game) {
    g.ring < 8 && IsCanvas(g.canvas) && IsCanvas(g.level.target)
  }

  /** One call of step with the given number of actions taken so far. A solved level is left,
      so nothing further happens to it. */
  ghost function Step(g: Game, a: Action, actions: nat): (h: Game)
    requires WellFormed(g)
    ensures WellFormed(h)
  {
    if g.outcome.Solved? then g
    else if actions >= ACTION_LIMIT then g.(outcome := Lost)
    else if g.basket.running then BasketTick(g)
    else if g.spout.running then SpoutTick(g)
    else match a
      case Move(arrow) => MoveStep(g, arrow)
      case PaintNow => g.(basket := Begin(g.basket, RingHome(g.ring)))
      case Click(picked) => ClickStep(g, picked)
      case Other => g
  }

  // ---------- What every step keeps ----------

  /** A swing is at rest at home, or on its way out unpainted, or on its way back painted;
      either way it is counter steps from where it started. */
  ghost predicate OnPath(s: Swing, home: Point, d: Point) {
    if s.running then
      && s.start == home && s.at == Outward(home, s.counter, d)
      && ((s.direction == 1 && 0 <= s.counter < APEX && !s.painted)
          || (s.direction == -1 && 0 < s.counter <= APEX && s.painted))
    else s.at == home
  }

  ghost predicate Rested(g: Game) {
    !g.basket.running && !g.spout.running
  }

  ghost predicate Inv(g: Game) {
    && WellFormed(g)
    && OnPath(g.basket, RingHome(g.ring), RingDirection(g.ring))
    && !(g.basket.running && g.spout.running)
    && (g.spout.running ==> SpoutShown(g) && g.slot == Some(g.ring))
    && (SpoutShown(g) ==> OnPath(g.spout, SpoutHome(g.ring), SpoutDirection(g.ring)))
  }

  lemma TickOnPath(s: Swing, home: Point, d: Point)
    requires s.running && OnPath(s, home, d)
    ensures OnPath(Tick(s, d), home, d)
  {
  }

  lemma BasketTickKeepsInv(g: Game)
    requires Inv(g) && g.basket.running
    ensures Inv(BasketTick(g))
  {
    TickOnPath(g.basket, RingHome(g.ring), RingDirection(g.ring));
  }

  lemma SpoutTickKeepsInv(g: Game)
    requires Inv(g) && g.spout.running
    ensures Inv(SpoutTick(g))
  {
    TickOnPath(g.spout, SpoutHome(g.ring), SpoutDirection(g.ring));
  }

  lemma MoveKeepsInv(g: Game, arrow: Arrow)
    requires Inv(g) && Rested(g)
    ensures Inv(MoveStep(g, arrow))
  {
  }

  lemma ClickKeepsInv(g: Game, picked: Picked)
    requires Inv(g) && Rested(g)
    ensures Inv(ClickStep(g, picked))
  {
  }

  /** Every step keeps the invariant. */
  lemma StepKeepsInv(g: Game, a: Action, actions: nat)
    requires Inv(g)
    ensures Inv(Step(g, a, actions))
  {
    if g.outcome.Solved? || actions >= ACTION_LIMIT {
    } else if g.basket.running {
      BasketTickKeepsInv(g);
    } else if g.spout.running {
      SpoutTickKeepsInv(g);
    } else {
      match a
      case Move(arrow) => MoveKeepsInv(g, arrow);
      case Click(picked) => ClickKeepsInv(g, picked);
      case _ =>
    }
  }

  // ---------- Fourteen ticks ----------

  /** The swing k ticks after it began. */
  ghost predicate Phase(s: Swing, home: Point, d: Point, k: nat) {
    && k <= 14
    && OnPath(s, home, d)
    && (s.running <==> k < 14)
    && (k < 14 ==> s.counter == (if k <= 7 then k else 14 - k) && (s.direction == 1 <==> k < 7))
  }

  lemma TickPhase(s: Swing, home: Point, d: Point, k: nat)
    requires Phase(s, home, d, k) && k < 14
    ensures Phase(Tick(s, d), home, d, k + 1)
    ensures PaintsNow(s) <==> k + 1 == 7
    ensures EndsNow(s) <==> k + 1 == 14
  {
  }

  /** Successive steps; while an animation runs the actions are ignored. */
  ghost function Ticks(g: Game, actions: seq<Action>, count: nat): (h: Game)
    requires WellFormed(g)
    ensures WellFormed(h)
    decreases |actions|
  {
    if actions == [] then g
    else Step(Ticks(g, actions[..|actions| - 1], count), actions[|actions| - 1], count)
  }

  lemma {:induction false} TicksKeepInv(g: Game, actions: seq<Action>, count: nat)
    requires Inv(g)
    ensures Inv(Ticks(g, actions, count))
    decreases |actions|
  {
    if actions != [] {
      TicksKeepInv(g, actions[..|actions| - 1], count);
      StepKeepsInv(Ticks(g, actions[..|actions| - 1], count), actions[|actions| - 1], count);
    }
  }

  /** The level after an animation of the given stamp has run k ticks from g. */
  ghost predicate AfterTicks(g: Game, stamp: Stamp, k: nat, h: Game)
    requires IsCanvas(g.canvas) && IsCanvas(g.level.target)
  {
    var stamped := Apply(Paint(stamp, g.colour), g.canvas);
    && h.ring == g.ring && h.colour == g.colour && h.level == g.level && h.slot == g.slot
    && h.canvas == (if k < 7 then g.canvas else stamped)
    && h.outcome == (if k == 14 && Matches(stamped, g.level.target) then Solved else g.outcome)
  }

  /** k ticks of the basket from g lead to h: it is running until tick 14 and then back home, the
      stamp has landed once, at tick 7, and ring, colour and spout are as they were. */
  ghost predicate BasketRun(g: Game, k: nat, h: Game)
    requires WellFormed(g)
  {
    && Phase(h.basket, RingHome(g.ring), RingDirection(g.ring), k)
    && h.spout == g.spout && AfterTicks(g, Basket(g.ring), k, h)
  }

  /** The same for the spout. */
  ghost predicate SpoutRun(g: Game, k: nat, h: Game)
    requires WellFormed(g)
  {
    && Phase(h.spout, SpoutHome(g.ring), SpoutDirection(g.ring), k)
    && h.basket == g.basket && AfterTicks(g, Spout(g.ring), k, h)
  }

  lemma BasketOnce(g: Game, before: Game, k: nat, a: Action, count: nat)
    requires WellFormed(g) && WellFormed(before) && k < 14 && g.outcome == Playing && count < 100
    requires BasketRun(g, k, before)
    ensures BasketRun(g, k + 1, Step(before, a, count))
  {
    TickPhase(before.basket, RingHome(g.ring), RingDirection(g.ring), k);
  }

  lemma SpoutOnce(g: Game, before: Game, k: nat, a: Action, count: nat)
    requires WellFormed(g) && WellFormed(before) && k < 14 && g.outcome == Playing && count < 100
    requires g.slot == Some(g.ring) && !g.basket.running && SpoutRun(g, k, before)
    ensures SpoutRun(g, k + 1, Step(before, a, count))
  {
    TickPhase(before.spout, SpoutHome(g.ring), SpoutDirection(g.ring), k);
  }

  lemma TicksLast(g: Game, actions: seq<Action>, count: nat, k: nat)
    requires WellFormed(g) && |actions| == k + 1
    ensures Ticks(g, actions, count) == Step(Ticks(g, actions[..k], count), actions[k], count)
  {
  }

  lemma BasketNext(g: Game, init: seq<Action>, a: Action, count: nat)
    requires WellFormed(g) && |init| < 14 && g.outcome == Playing && count < 100
    requires BasketRun(g, |init|, Ticks(g, init, count))
    ensures BasketRun(g, |init| + 1, Ticks(g, init + [a], count))
  {
    BasketOnce(g, Ticks(g, init, count), |init|, a, count);
    assert (init + [a])[..|init|] == init;
    TicksLast(g, init + [a], count, |init|);
  }

  lemma SpoutNext(g: Game, init: seq<Action>, a: Action, count: nat)
    requires WellFormed(g) && |init| < 14 && g.outcome == Playing && count < 100
    requires g.slot == Some(g.ring) && !g.basket.running
    requires SpoutRun(g, |init|, Ticks(g, init, count))
    ensures SpoutRun(g, |init| + 1, Ticks(g, init + [a], count))
  {
    SpoutOnce(g, Ticks(g, init, count), |init|, a, count);
    assert (init + [a])[..|init|] == init;
    TicksLast(g, init + [a], count, |init|);
  }

  /** Whatever is pressed, a basket animation runs its course. */
  lemma {:induction false} BasketAnimation(g: Game, actions: seq<Action>, count: nat, k: nat)
    requires WellFormed(g) && BasketRun(g, 0, g)
    requires g.outcome == Playing && count < 100 && |actions| == k <= 14
    ensures BasketRun(g, k, Ticks(g, actions, count))
    decreases k
  {
    if k != 0 {
      var init := actions[..k - 1];
      assert actions == init + [actions[k - 1]];
      BasketAnimation(g, init, count, k - 1);
      BasketNext(g, init, actions[k - 1], count);
    }
  }

  lemma {:induction false} SpoutAnimation(g: Game, actions: seq<Action>, count: nat, k: nat)
    requires WellFormed(g) && g.slot == Some(g.ring) && !g.basket.running && SpoutRun(g, 0, g)
    requires g.outcome == Playing && count < 100 && |actions| == k <= 14
    ensures SpoutRun(g, k, Ticks(g, actions, count))
    decreases k
  {
    if k != 0 {
      var init := actions[..k - 1];
      assert actions == init + [actions[k - 1]];
      SpoutAnimation(g, init, count, k - 1);
      SpoutNext(g, init, actions[k - 1], count);
    }
  }

  // ---------- Whole plays ----------

  /** The stamp an action leaves behind, if any. */
  function StampOf(g: Game, a: Action): Option<Paint> {
    if a.PaintNow? then Some(Paint(Basket(g.ring), g.colour))
    else if a.Click? && a.picked.TheSpout? && SpoutShown(g) then Some(Paint(Spout(g.ring), g.colour))
    else None
  }

  /** An action carried to its end: one step, and fourteen more when it starts an animation. */
  ghost function Perform(g: Game, a: Action, count: nat): (h: Game)
    requires Inv(g)
    ensures Inv(h)
  {
    StepKeepsInv(g, a, count);
    var h := Step(g, a, count);
    if Rested(h) then h
    else
      var ticks := seq(14, _ => Other);
      TicksKeepInv(h, ticks, count);
      Ticks(h, ticks, count)
  }

  lemma PerformStamps(g: Game, a: Action, count: nat)
    requires Inv(g) && Rested(g) && g.outcome == Playing && count < 100
    ensures var h := Perform(g, a, count);
            && Rested(h) && h.level == g.level
            && h.canvas == (match StampOf(g, a)
                            case None => g.canvas
                            case Some(p) => Apply(p, g.canvas))
            && h.outcome == (if StampOf(g, a).Some? && Matches(h.canvas, g.level.target) then Solved else Playing)
  {
    StepKeepsInv(g, a, count);
    var h := Step(g, a, count);
    var ticks := seq(14, _ => Other);
    if a.PaintNow? {
      BasketAnimation(h, ticks, count, 14);
    } else if StampOf(g, a).Some? {
      SpoutAnimation(h, ticks, count, 14);
    } else {
      assert h == g || a.Move? || a.Click?;
    }
  }

  /** Actions carried out one after another until the level is decided, and their stamps. */
  ghost function Play(g: Game, actions: seq<Action>, count: nat): (h: Game)
    requires Inv(g)
    ensures Inv(h)
    decreases |actions|
  {
    if actions == [] || g.outcome != Playing then g
    else Play(Perform(g, actions[0], count), actions[1..], count + 1)
  }

  function AsList(p: Option<Paint>): seq<Paint> {
    match p case None => [] case Some(q) => [q]
  }

  ghost function Stamps(g: Game, actions: seq<Action>, count: nat): seq<Paint>
    requires Inv(g)
    decreases |actions|
  {
    if actions == [] || g.outcome != Playing || count >= 100 then []
    else AsList(StampOf(g, actions[0])) + Stamps(Perform(g, actions[0], count), actions[1..], count + 1)
  }

  lemma {:induction false} ApplyAllConcat(ps: seq<Paint>, qs: seq<Paint>, cv: Canvas)
    requires IsCanvas(cv)
    ensures ApplyAll(ps + qs, cv) == ApplyAll(qs, ApplyAll(ps, cv))
    decreases |qs|
  {
    if qs == [] {
      assert ps + qs == ps;
    } else {
      assert (ps + qs)[..|ps + qs| - 1] == ps + qs[..|qs| - 1];
      ApplyAllConcat(ps, qs[..|qs| - 1], cv);
    }
  }

  lemma ApplyOne(p: Option<Paint>, cv: Canvas)
    requires IsCanvas(cv)
    ensures ApplyAll(AsList(p), cv) == match p case None => cv case Some(q) => Apply(q, cv)
  {
    if p.Some? { assert AsList(p)[..0] == []; }
  }

  /** Past the action limit an action only loses the level. */
  lemma OverLimit(g: Game, a: Action, count: nat)
    requires Inv(g) && Rested(g) && g.outcome == Playing && count >= 100
    ensures Perform(g, a, count) == g.(outcome := Lost)
  {
  }

  lemma DecidedStays(g: Game, actions: seq<Action>, count: nat)
    requires Inv(g) && g.outcome != Playing
    ensures Play(g, actions, count) == g && Stamps(g, actions, count) == []
  {
  }

  lemma LateAction(g: Game, actions: seq<Action>, count: nat)
    requires Inv(g) && Rested(g) && actions != [] && g.outcome == Playing && count >= 100
    ensures Play(g, actions, count) == g.(outcome := Lost) && Stamps(g, actions, count) == []
  {
    OverLimit(g, actions[0], count);
    DecidedStays(Perform(g, actions[0], count), actions[1..], count + 1);
  }

  lemma PerformRests(g: Game, a: Action, count: nat)
    requires Inv(g) && Rested(g) && g.outcome == Playing && count < 100
    ensures Rested(Perform(g, a, count))
  {
    PerformStamps(g, a, count);
  }

  /** The play is at rest at its end, on the starting canvas under the stamps in order. */
  ghost predicate PaintsStamps(g: Game, actions: seq<Action>, count: nat)
    requires Inv(g)
  {
    && Rested(Play(g, actions, count))
    && Play(g, actions, count).canvas == ApplyAll(Stamps(g, actions, count), g.canvas)
  }

  lemma FirstAction(g: Game, actions: seq<Action>, count: nat)
    requires Inv(g) && Rested(g) && actions != [] && g.outcome == Playing && count < 100
    requires var h := Perform(g, actions[0], count);
             Rested(h) && PaintsStamps(h, actions[1..], count + 1)
    ensures PaintsStamps(g, actions, count)
  {
    var h := Perform(g, actions[0], count);
    PerformStamps(g, actions[0], count);
    ApplyAllConcat(AsList(StampOf(g, actions[0])), Stamps(h, actions[1..], count + 1), g.canvas);
    ApplyOne(StampOf(g, actions[0]), g.canvas);
  }

  /** Over any play the canvas is the starting canvas under the stamps, in order. */
  lemma {:induction false} PlayPaints(g: Game, actions: seq<Action>, count: nat)
    requires Inv(g) && Rested(g)
    ensures PaintsStamps(g, actions, count)
    decreases |actions|
  {
    if actions != [] && g.outcome == Playing {
      if count >= 100 {
        LateAction(g, actions, count);
      } else {
        PerformRests(g, actions[0], count);
        PlayPaints(Perform(g, actions[0], count), actions[1..], count + 1);
        FirstAction(g, actions, count);
      }
    }
  }

  /** So after any play a cell shows the last stamp laid over it, or its starting colour. */
  lemma CellAfterPlay(g: Game, actions: seq<Action>, count: nat, r: nat, c: nat)
    requires Inv(g) && Rested(g) && r < SIDE && c < SIDE
    ensures var ps := Stamps(g, actions, count);
            var cell := Play(g, actions, count).canvas[r][c];
            && (forall k: nat :: LastOver(ps, k, r, c) ==> cell == ps[k].colour)
            && ((forall k :: 0 <= k < |ps| ==> !Covers(ps[k].stamp, r, c)) ==> cell == g.canvas[r][c])
  {
    var ps := Stamps(g, actions, count);
    PlayPaints(g, actions, count);
    forall k: nat | LastOver(ps, k, r, c) ensures ApplyAll(ps, g.canvas)[r][c] == ps[k].colour {
      LastStampWins(ps, k, g.canvas, r, c);
    }
    if forall k :: 0 <= k < |ps| ==> !Covers(ps[k].stamp, r, c) { UntouchedCell(ps, g.canvas, r, c); }
  }

  // ---------- Solving ----------

  /** Laid on the canvas one by one, no stamp but perhaps the last makes it match the target. */
  ghost predicate OnlyLastMatches(ps: seq<Paint>, cv: Canvas, target: Canvas)
    requires IsCanvas(cv) && IsCanvas(target)
    decreases |ps|
  {
    |ps| <= 1 || (!Matches(Apply(ps[0], cv), target) && OnlyLastMatches(ps[1..], Apply(ps[0], cv), target))
  }

  lemma EarlierStamp(p: Option<Paint>, rest: seq<Paint>, cv: Canvas, middle: Canvas, target: Canvas)
    requires IsCanvas(cv) && IsCanvas(target) && IsCanvas(middle)
    requires middle == match p case None => cv case Some(q) => Apply(q, cv)
    requires OnlyLastMatches(rest, middle, target)
    requires p.Some? && rest != [] ==> !Matches(middle, target)
    ensures OnlyLastMatches(AsList(p) + rest, cv, target)
  {
    match p
    case None => assert AsList(p) + rest == rest;
    case Some(q) => assert (AsList(p) + rest)[1..] == rest;
  }

  /** g was played to h under the stamps: solved exactly by the last one, and by none before. */
  ghost predicate Decided(g: Game, ps: seq<Paint>, h: Game)
    requires IsCanvas(g.canvas) && IsCanvas(h.canvas) && IsCanvas(g.level.target)
  {
    && OnlyLastMatches(ps, g.canvas, g.level.target)
    && (h.outcome.Solved? <==> ps != [] && Matches(h.canvas, g.level.target))
  }

  lemma DecidedChains(g: Game, p: Option<Paint>, mid: Game, rest: seq<Paint>, h: Game)
    requires WellFormed(g) && WellFormed(mid) && IsCanvas(h.canvas) && mid.level == g.level
    requires mid.canvas == match p case None => g.canvas case Some(q) => Apply(q, g.canvas)
    requires mid.outcome == if p.Some? && Matches(mid.canvas, g.level.target) then Solved else Playing
    requires if mid.outcome.Solved? then rest == [] && h == mid
             else Decided(mid, rest, h) && (rest == [] ==> h.canvas == mid.canvas)
    ensures Decided(g, AsList(p) + rest, h)
  {
    EarlierStamp(p, rest, g.canvas, mid.canvas, g.level.target);
  }

  lemma DecidedStep(g: Game, actions: seq<Action>, count: nat)
    requires Inv(g) && Rested(g) && g.outcome == Playing && actions != [] && count < 100
    requires var h := Perform(g, actions[0], count);
             Rested(h) && (h.outcome == Playing ==>
                             Decided(h, Stamps(h, actions[1..], count + 1), Play(h, actions[1..], count + 1)))
    ensures Decided(g, Stamps(g, actions, count), Play(g, actions, count))
  {
    var h, p := Perform(g, actions[0], count), StampOf(g, actions[0]);
    PerformStamps(g, actions[0], count);
    PlayPaints(h, actions[1..], count + 1);
    if h.outcome.Solved? { DecidedStays(h, actions[1..], count + 1); }
    DecidedChains(g, p, h, Stamps(h, actions[1..], count + 1), Play(h, actions[1..], count + 1));
  }

  /** A play ends solved exactly at the first stamp after which the canvas matches the target
      off its diagonals. */
  lemma {:induction false} SolvedAtFirstMatch(g: Game, actions: seq<Action>, count: nat)
    requires Inv(g) && Rested(g) && g.outcome == Playing
    ensures Decided(g, Stamps(g, actions, count), Play(g, actions, count))
    decreases |actions|
  {
    if actions != [] {
      if count >= 100 {
        LateAction(g, actions, count);
      } else {
        var h := Perform(g, actions[0], count);
        PerformStamps(g, actions[0], count);
        if h.outcome == Playing { SolvedAtFirstMatch(h, actions[1..], count + 1); }
        DecidedStep(g, actions, count);
      }
    }
  }
}
