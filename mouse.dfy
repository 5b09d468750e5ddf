/** Mouse input state: the pointer position, the movement since the last
    frame reset, four buttons and the scroll delta. */
module Input {

  const ButtonCount: nat := 4
  const MaxHalftapCount: nat := 127

  /** The 7-bit half-tap counter of a button. */
  type Halftaps = h: nat | h <= MaxHalftapCount

  /** Whether a button is down, and how many presses and releases it saw
      since the last frame reset. */
  datatype ButtonState = ButtonState(isPressed: bool, halftaps: Halftaps)

  datatype Vec2i = Vec2i(x: int, y: int)

  function Add(a: Vec2i, b: Vec2i): Vec2i {
    Vec2i(a.x + b.x, a.y + b.y)
  }

  function Sub(a: Vec2i, b: Vec2i): Vec2i {
    Vec2i(a.x - b.x, a.y - b.y)
  }

  /** The counter after one more half tap. On overflow it steps back to
      126 instead of 128, so its parity still flips. */
  function NextHalftaps(h: Halftaps): (r: Halftaps)
    ensures r % 2 != h % 2
    ensures h < MaxHalftapCount ==> r == h + 1
  {
    if h == MaxHalftapCount then MaxHalftapCount - 1 else h + 1
  }

  /** After `n` half taps from zero the counter has the parity of `n`, and
      it equals `n` while no overflow happened. */
  lemma {:induction false} HalftapsCount(n: nat)
    ensures IterateHalftaps(n) % 2 == n % 2
    ensures n <= MaxHalftapCount ==> IterateHalftaps(n) == n
  {
    if n > 0 {
      HalftapsCount(n - 1);
    }
  }

  function IterateHalftaps(n: nat): Halftaps {
    if n == 0 then 0 else NextHalftaps(IterateHalftaps(n - 1))
  }

  class Mouse {
    var position: Vec2i
    var delta: Vec2i
    var leftButton: ButtonState
    var rightButton: ButtonState
    var middleButton: ButtonState
    var button4: ButtonState
    var scrollDelta: real

    /** The position at the last frame reset. */
    ghost var positionAtReset: Vec2i

    /** The delta is the movement since the last frame reset. Only a frame
        reset establishes it: construction leaves the delta undefined. */
    ghost predicate Tracking()
      reads this
    {
      delta == Sub(position, positionAtReset)
    }

    /** Button `id`: left, right, middle, then button 4. */
    function Button(id: nat): ButtonState
      reads this
      requires id < ButtonCount
    {
      if id == 0 then leftButton else if id == 1 then rightButton
      else if id == 2 then middleButton else button4
    }

    /** Stores the initial position; every other field is left unconstrained. */
    constructor (initialPosition: Vec2i)
      ensures position == initialPosition
    {
      position := initialPosition;
    }

    /** Moves the pointer, accumulating the movement into the delta. */
    method SetPosition(newPosition: Vec2i)
      modifies this
      ensures position == newPosition && delta == Add(old(delta), Sub(newPosition, old(position)))
      ensures positionAtReset == old(positionAtReset)
      ensures old(Tracking()) ==> Tracking()
      ensures forall id :: 0 <= id < ButtonCount ==> Button(id) == old(Button(id))
      ensures scrollDelta == old(scrollDelta)
    {
      delta := Add(delta, Sub(newPosition, position));
      position := newPosition;
    }

    /** A press or release of button `id`: its state becomes `pressed` and
        its half-tap counter advances; the other buttons are unchanged. */
    method ButtonTapped(id: nat, pressed: bool)
      requires id < ButtonCount
      modifies this
      ensures Button(id) == ButtonState(pressed, NextHalftaps(old(Button(id)).halftaps))
      ensures Button(id).halftaps % 2 != old(Button(id)).halftaps % 2
      ensures forall other :: 0 <= other < ButtonCount && other != id ==> Button(other) == old(Button(other))
      ensures position == old(position) && delta == old(delta) && scrollDelta == old(scrollDelta)
      ensures positionAtReset == old(positionAtReset)
    {
      var next := ButtonState(pressed, NextHalftaps(Button(id).halftaps));
      if id == 0 {
        leftButton := next;
      } else if id == 1 {
        rightButton := next;
      } else if id == 2 {
        middleButton := next;
      } else {
        button4 := next;
      }
    }

    /** Clears the delta, every half-tap counter and the scroll delta; the
        position and every pressed state are unchanged. */
    method PerFrameReset()
      modifies this
      ensures Tracking() && positionAtReset == position
      ensures delta == Vec2i(0, 0) && scrollDelta == 0.0 && position == old(position)
      ensures forall id :: 0 <= id < ButtonCount ==>
        Button(id) == ButtonState(old(Button(id)).isPressed, 0)
    {
      delta := Vec2i(0, 0);
      leftButton := leftButton.(halftaps := 0);
      rightButton := rightButton.(halftaps := 0);
      middleButton := middleButton.(halftaps := 0);
      button4 := button4.(halftaps := 0);
      scrollDelta := 0.0;
      positionAtReset := position;
    }
  }
}
