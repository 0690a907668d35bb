/** The paint-ring game as its object, advanced tick by tick. */
module PaintMachine {
  import opened Wrappers
  import opened PaintCanvas
  import opened PaintGame

  class Cd82 {
    const hasSpout: bool
    const target: array2<int>
    var ring: nat
    var colour: int
    var pixels: array2<int>
    var basket: Swing
    var spout: Swing
    var slot: Option<nat>
    var outcome: Outcome

    ghost predicate Shaped()
      reads this
    {
      && target.Length0 == SIDE && target.Length1 == SIDE
      && pixels.Length0 == SIDE && pixels.Length1 == SIDE
    }

    ghost function State(): Game
      requires Shaped()
      reads this, target, pixels
    {
      Game(Level(hasSpout, View(target)), ring, colour, View(pixels), basket, spout, slot, outcome)
    }

    ghost predicate Valid()
      reads this, target, pixels
    {
      Shaped() && Inv(State())
    }

    constructor (hasSpout: bool, target: array2<int>, pixels: array2<int>)
      requires target.Length0 == SIDE && target.Length1 == SIDE
      requires pixels.Length0 == SIDE && pixels.Length1 == SIDE
      ensures Valid() && Rested(State())
      ensures this.hasSpout == hasSpout && this.target == target && this.pixels == pixels
      ensures ring == 0 && colour == 15 && outcome == Playing
    {
      this.hasSpout, this.target, this.pixels := hasSpout, target, pixels;
      ring, colour, slot, outcome := 0, 15, None, Playing;
      basket := Swing(false, 0, 1, false, Point(0, 0), RingHome(0));
      spout := Swing(false, 0, 1, false, Point(0, 0), SpoutHome(0));
    }

    method CheckSolved()
      requires Shaped()
      modifies this`outcome
      ensures State() == CheckWin(old(State()))
      ensures outcome == if forall r, c :: 0 <= r < 10 && 0 <= c < 10 && r != c && r + c != 9 ==> pixels[r, c] == target[r, c]
                         then Solved else old(outcome)
    {
      var same := CompareMasked(pixels, target);
      if same { outcome := Solved; }
    }

    method RedrawSprites()
      requires Shaped()
      modifies this`basket, this`spout
      ensures State() == Redraw(old(State()))
    {
      basket := basket.(at := RingHome(ring));
      if hasSpout && ring % 2 == 0 { spout := spout.(at := SpoutHome(ring)); }
    }

    method AdvanceBasket() returns (complete: bool)
      requires Valid() && basket.running
      modifies this
      ensures Shaped() && State() == BasketTick(old(State()))
      ensures complete == EndsNow(old(basket))
    {
      complete := false;
      var d := RingDirection(ring);
      if basket.direction == 1 {
        basket := basket.(at := Plus(basket.at, d), counter := basket.counter + 1);
        if basket.counter >= APEX {
          if !basket.painted {
            pixels := StampBasket(pixels, ring, colour);
            basket := basket.(painted := true);
          }
          basket := basket.(direction := -1);
        }
      } else {
        basket := basket.(at := Minus(basket.at, d), counter := basket.counter - 1);
        if basket.counter <= 0 {
          basket := basket.(at := basket.start, running := false);
          CheckSolved();
          complete := true;
        }
      }
    }

    method AdvanceSpout() returns (complete: bool)
      requires Valid() && spout.running
      modifies this
      ensures Shaped() && State() == SpoutTick(old(State()))
      ensures complete == EndsNow(old(spout))
    {
      complete := false;
      var d := SpoutDirection(slot.value);
      if spout.direction == 1 {
        spout := spout.(at := Plus(spout.at, d), counter := spout.counter + 1);
        if spout.counter >= APEX {
          if !spout.painted {
            pixels := StampSpout(pixels, slot.value, colour);
            spout := spout.(painted := true);
          }
          spout := spout.(direction := -1);
        }
      } else {
        spout := spout.(at := Minus(spout.at, d), counter := spout.counter - 1);
        if spout.counter <= 0 {
          spout := spout.(at := spout.start, running := false);
          CheckSolved();
          complete := true;
        }
      }
    }

    /** One call of the original's step; complete reports its complete_action. */
    method DoStep(a: Action, actions: nat) returns (complete: bool)
      requires Valid() && outcome != Solved
      modifies this
      ensures Valid() && State() == Step(old(State()), a, actions)
      ensures complete <==> actions >= 100 || Rested(State())
    {
      StepKeepsInv(State(), a, actions);
      if actions >= ACTION_LIMIT {
        outcome := Lost;
        return true;
      }
      if basket.running {
        complete := AdvanceBasket();
        return;
      }
      if spout.running {
        complete := AdvanceSpout();
        return;
      }
      complete := true;
      match a {
        case Move(arrow) =>
          var next := MovedRing(ring, arrow);
          if next != ring {
            ring := next;
            RedrawSprites();
          }
        case PaintNow =>
          basket := Begin(basket, RingHome(ring));
          complete := false;
        case Click(TheSpout) =>
          if hasSpout && ring % 2 == 0 {
            spout, slot := Begin(spout, spout.at), Some(ring);
            complete := false;
          }
        case Click(Swatch(picked)) =>
          colour := picked;
          RedrawSprites();
        case Click(Nothing) =>
        case Other =>
      }
    }
  }
}
