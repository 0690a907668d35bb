/** What a play does, read off the list of actions alone: where the basket is, in which colour it paints,
    and so which stamps are made. */
module PaintHand {
  import opened Wrappers
  import opened PaintCanvas
  import opened PaintGame

  /** The seat of the basket in the 3 x 3 square around the canvas, and the chosen colour. */
  datatype Hand = Hand(row: int, col: int, colour: int)

  /** A stamp made from a seat, by the basket or by the spout. */
  datatype Mark = Mark(spout: bool, row: int, col: int, colour: int)

  /** Any seat of the square but its centre, which is the canvas. */
  predicate OnRing(row: int, col: int) {
    0 <= row <= 2 && 0 <= col <= 2 && !(row == 1 && col == 1)
  }

  /** An arrow moves the basket one seat on if that is on the ring; a swatch sets the colour. */
  function Moved(hand: Hand, a: Action): Hand {
    match a
    case Move(arrow) =>
      var row := match arrow case Up => hand.row - 1 case Down => hand.row + 1 case _ => hand.row;
      var col := match arrow case Left => hand.col - 1 case Right => hand.col + 1 case _ => hand.col;
      if OnRing(row, col) then hand.(row := row, col := col) else hand
    case Click(Swatch(colour)) => hand.(colour := colour)
    case _ => hand
  }

  /** The mark that an action leaves: the basket's, or that of a spout, which only levels with one have, and only
      straight above, beside or below the canvas. */
  function MarkOf(hasSpout: bool, hand: Hand, a: Action): Option<Mark> {
    match a
    case PaintNow => Some(Mark(false, hand.row, hand.col, hand.colour))
    case Click(TheSpout) =>
      if hasSpout && (hand.row == 1 || hand.col == 1) then Some(Mark(true, hand.row, hand.col, hand.colour)) else None
    case _ => None
  }

  function HandAfter(hand: Hand, actions: seq<Action>): Hand
    decreases |actions|
  {
    if actions == [] then hand else HandAfter(Moved(hand, actions[0]), actions[1..])
  }

  function Marks(hasSpout: bool, hand: Hand, actions: seq<Action>): seq<Mark>
    decreases |actions|
  {
    if actions == [] then []
    else
      var rest := Marks(hasSpout, Moved(hand, actions[0]), actions[1..]);
      match MarkOf(hasSpout, hand, actions[0])
      case None => rest
      case Some(m) => [m] + rest
  }

  ghost function HandOf(g: Game): Hand {
    Hand(Seat(g.ring).0, Seat(g.ring).1, g.colour)
  }

  /** The stamp was made from the seat of the mark, in its colour. */
  ghost predicate Makes(m: Mark, p: Paint) {
    p.colour == m.colour &&
    match p.stamp
    case Basket(ring) => !m.spout && ring < 8 && Seat(ring) == (m.row, m.col)
    case Spout(slot) => m.spout && slot < 8 && Seat(slot) == (m.row, m.col)
  }

  lemma RingSeat(ring: nat, arrow: Arrow)
    requires ring < 8
    ensures OnRing(Seat(ring).0, Seat(ring).1)
    ensures var seat := Shifted(Seat(ring), arrow);
            Seat(MovedRing(ring, arrow)) == if OnRing(seat.0, seat.1) then seat else Seat(ring)
    ensures ring % 2 == 0 <==> Seat(ring).0 == 1 || Seat(ring).1 == 1
  {
  }

  /** One step of a level at rest moves the hand as the action says. */
  lemma StepMovesHand(g: Game, a: Action, count: nat)
    requires Inv(g) && Rested(g) && g.outcome == Playing && count < 100
    ensures HandOf(Step(g, a, count)) == Moved(HandOf(g), a)
  {
    if a.Move? { RingSeat(g.ring, a.arrow); }
  }

  /** So does the whole action, with the animation it starts. */
  lemma PerformMovesHand(g: Game, a: Action, count: nat)
    requires Inv(g) && Rested(g) && g.outcome == Playing && count < 100
    ensures HandOf(Perform(g, a, count)) == Moved(HandOf(g), a)
  {
    StepMovesHand(g, a, count);
    StepKeepsInv(g, a, count);
    var h, ticks := Step(g, a, count), seq(14, _ => Other);
    if a.PaintNow? {
      BasketAnimation(h, ticks, count, 14);
    } else if StampOf(g, a).Some? {
      SpoutAnimation(h, ticks, count, 14);
    }
  }

  lemma StampIsMark(g: Game, a: Action)
    requires Inv(g)
    ensures StampOf(g, a).Some? <==> MarkOf(g.level.hasSpout, HandOf(g), a).Some?
    ensures StampOf(g, a).Some? ==> Makes(MarkOf(g.level.hasSpout, HandOf(g), a).value, StampOf(g, a).value)
  {
    RingSeat(g.ring, Up);
  }

  /** The actions that are carried out: all until the level is decided or 100 actions have been taken. */
  ghost function CarriedOut(g: Game, actions: seq<Action>, count: nat): (done: seq<Action>)
    requires Inv(g)
    ensures done <= actions
    decreases |actions|
  {
    if actions == [] || g.outcome != Playing || count >= 100 then []
    else [actions[0]] + CarriedOut(Perform(g, actions[0], count), actions[1..], count + 1)
  }

  ghost predicate AllMake(ms: seq<Mark>, ps: seq<Paint>) {
    |ms| == |ps| && forall k :: 0 <= k < |ms| ==> Makes(ms[k], ps[k])
  }

  lemma AllMakeMore(m: Option<Mark>, p: Option<Paint>, ms: seq<Mark>, ps: seq<Paint>)
    requires AllMake(ms, ps) && (m.Some? <==> p.Some?) && (m.Some? ==> Makes(m.value, p.value))
    ensures AllMake((match m case None => ms case Some(x) => [x] + ms), AsList(p) + ps)
  {
    match p
    case None => assert AsList(p) + ps == ps;
    case Some(q) =>
  }

  lemma PlayedHand(g: Game, a: Action, actions: seq<Action>, count: nat)
    requires Inv(g) && Rested(g) && g.outcome == Playing && count < 100 && actions != [] && a == actions[0]
    requires var h := Perform(g, a, count);
             && Rested(h) && HandOf(h) == Moved(HandOf(g), a) && h.level == g.level
             && HandFollows(h, actions[1..], count + 1)
    ensures HandFollows(g, actions, count)
  {
    var h := Perform(g, a, count);
    var rest := CarriedOut(h, actions[1..], count + 1);
    assert ([a] + rest)[1..] == rest;
    StampIsMark(g, a);
    AllMakeMore(MarkOf(g.level.hasSpout, HandOf(g), a), StampOf(g, a),
                Marks(g.level.hasSpout, HandOf(h), rest), Stamps(h, actions[1..], count + 1));
  }

  /** Seat and colour at the end are those that the actions carried out lead to, and the stamps made are their
      marks: each from the seat reached by then, in the colour chosen last. */
  ghost predicate HandFollows(g: Game, actions: seq<Action>, count: nat)
    requires Inv(g)
  {
    var done := CarriedOut(g, actions, count);
    && HandOf(Play(g, actions, count)) == HandAfter(HandOf(g), done)
    && AllMake(Marks(g.level.hasSpout, HandOf(g), done), Stamps(g, actions, count))
  }

  lemma UnplayedHand(g: Game, actions: seq<Action>, count: nat)
    requires Inv(g) && Rested(g) && (actions == [] || g.outcome != Playing || count >= 100)
    ensures HandFollows(g, actions, count)
  {
    if actions != [] && g.outcome == Playing { LateAction(g, actions, count); }
  }

  /** Over every play. */
  lemma {:induction false} PlayFollowsActions(g: Game, actions: seq<Action>, count: nat)
    requires Inv(g) && Rested(g)
    ensures HandFollows(g, actions, count)
    decreases |actions|
  {
    if actions == [] || g.outcome != Playing || count >= 100 {
      UnplayedHand(g, actions, count);
    } else {
      PerformRests(g, actions[0], count);
      PerformMovesHand(g, actions[0], count);
      PerformStamps(g, actions[0], count);
      PlayFollowsActions(Perform(g, actions[0], count), actions[1..], count + 1);
      PlayedHand(g, actions[0], actions, count);
    }
  }

  // ---------- The hand, without the step by step account ----------

  /** After any actions the colour is that of the last swatch among them, or else the one before. */
  lemma {:induction false} LastSwatchWins(hand: Hand, actions: seq<Action>, k: nat)
    requires k < |actions| && actions[k].Click? && actions[k].picked.Swatch?
    requires forall j :: k < j < |actions| ==> !(actions[j].Click? && actions[j].picked.Swatch?)
    ensures HandAfter(hand, actions).colour == actions[k].picked.colour
    decreases |actions|
  {
    if k == 0 {
      NoSwatch(Moved(hand, actions[0]), actions[1..]);
    } else {
      LastSwatchWins(Moved(hand, actions[0]), actions[1..], k - 1);
    }
  }

  lemma {:induction false} NoSwatch(hand: Hand, actions: seq<Action>)
    requires forall j :: 0 <= j < |actions| ==> !(actions[j].Click? && actions[j].picked.Swatch?)
    ensures HandAfter(hand, actions).colour == hand.colour
    decreases |actions|
  {
    if actions != [] { NoSwatch(Moved(hand, actions[0]), actions[1..]); }
  }
}
