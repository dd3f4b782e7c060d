/** Colour effects (src/effects.cpp): a range-checked linear interpolation
    between two colours, and the per-frame step that fades a widget's
    palette colour over a number of frames. */
module Effects {
  import opened Wrappers
  import opened Numeric

  /** QColor's red, green and blue channels. */
  datatype Colour = Colour(red: int, green: int, blue: int)

  /** The exception tweenColour raises for an interpolation value outside
      [0, 1]. */
  datatype TweenError = TweenOutOfRange(i: real)

  function Min(a: int, b: int): int { if a <= b then a else b }
  function Max(a: int, b: int): int { if a <= b then b else a }

  /** One channel: a + (b - a) * i, computed as a double and truncated to the
      int QColor takes.  It lies between a and b, and is a at 0 and b at 1. */
  function Channel(a: int, b: int, i: real): (c: int)
    requires 0.0 <= i <= 1.0
    ensures Min(a, b) <= c <= Max(a, b)
    ensures i == 0.0 ==> c == a
    ensures i == 1.0 ==> c == b
  {
    var x := a as real + (b - a) as real * i;
    InterpolationBetween(a, b, i);
    TruncBetween(x, Min(a, b), Max(a, b));
    Trunc(x)
  }

  /** A fraction in [0, 1] of a difference lies between 0 and the
      difference. */
  lemma ScaledBetween(d: real, i: real)
    requires 0.0 <= i <= 1.0
    ensures d >= 0.0 ==> 0.0 <= d * i <= d
    ensures d <= 0.0 ==> d <= d * i <= 0.0
  {
    var j := 1.0 - i;
    assert d * i + d * j == d;
    if d >= 0.0 {
      assert 0.0 <= d * i && 0.0 <= d * j;
    } else {
      assert d * i <= 0.0 && d * j <= 0.0;
    }
  }

  /** The interpolated value lies between the two ends. */
  lemma InterpolationBetween(a: int, b: int, i: real)
    requires 0.0 <= i <= 1.0
    ensures Min(a, b) as real <= a as real + (b - a) as real * i <= Max(a, b) as real
  {
    var d := (b - a) as real;
    ScaledBetween(d, i);
    if a <= b {
      assert 0.0 <= d;
    } else {
      assert d <= 0.0;
    }
  }

  /** tweenColour: raises when i < 0 or i > 1; otherwise interpolates
      channel by channel. */
  function TweenColour(a: Colour, b: Colour, i: real): (r: Result<Colour, TweenError>)
    ensures r.Err? <==> i < 0.0 || i > 1.0
    ensures r.Err? ==> r.error == TweenOutOfRange(i)
    ensures r.Ok? ==>
      Min(a.red, b.red) <= r.value.red <= Max(a.red, b.red) &&
      Min(a.green, b.green) <= r.value.green <= Max(a.green, b.green) &&
      Min(a.blue, b.blue) <= r.value.blue <= Max(a.blue, b.blue)
  {
    if i < 0.0 || i > 1.0 then Err(TweenOutOfRange(i))
    else Ok(Colour(Channel(a.red, b.red, i), Channel(a.green, b.green, i), Channel(a.blue, b.blue, i)))
  }

  /** The tween starts at a and ends at b, and tweening a colour with itself
      gives it back at any valid i. */
  lemma TweenEndpoints(a: Colour, b: Colour, i: real)
    ensures TweenColour(a, b, 0.0) == Ok(a)
    ensures TweenColour(a, b, 1.0) == Ok(b)
    ensures 0.0 <= i <= 1.0 ==> TweenColour(a, a, i) == Ok(a)
  {
  }

  /** The frame count of transitionColour: fps * duration truncated to int. */
  function FrameCount(fps: real, duration: real): int {
    Trunc(fps * duration)
  }

  /** The state the transitionColour closure captures by value and mutates:
      the original and target colours, the frame count, the counter i, and
      the palette colour it sets on the widget. */
  class ColourTransition {
    const origCol: Colour
    const colour: Colour
    const frames: int
    var i: int
    var palette: Colour

    /** The counter never passes frames + 1, where the update loop drops the
        closure (for a negative frame count, after its single call). */
    ghost predicate Valid()
      reads this
    {
      0 <= i && (frames > 0 ==> i <= frames + 1) && (frames < 0 ==> i <= 1)
    }

    /** The closure is finished once it has returned false. */
    predicate Finished()
      reads this
    {
      if frames > 0 then i == frames + 1 else i == 1
    }

    /** transitionColour: read the widget's colour, compute the frame count
        and start the counter at 0.  A frame count of 0 (fps * duration
        below 1) is excluded: the first fraction is then 0 / 0, a NaN, which
        real numbers do not represent. */
    constructor (widgetColour: Colour, target: Colour, fps: real, duration: real)
      requires FrameCount(fps, duration) != 0
      ensures origCol == widgetColour && colour == target && palette == widgetColour
      ensures frames == FrameCount(fps, duration) && i == 0
      ensures Valid() && !Finished()
    {
      origCol := widgetColour;
      colour := target;
      frames := Trunc(fps * duration);
      i := 0;
      palette := widgetColour;
    }

    /** One call of the closure: set the palette to the tween at i / frames,
        advance i, and ask to be called again while i <= frames.  The tween
        never raises, because the fraction stays in [0, 1]. */
    method Step() returns (more: bool)
      requires Valid() && !Finished() && frames != 0
      modifies this
      ensures Valid() && i == old(i) + 1
      ensures TweenColour(origCol, colour, old(i) as real / frames as real).Ok?
      ensures palette == TweenColour(origCol, colour, old(i) as real / frames as real).value
      ensures more <==> i <= frames
      ensures more <==> !Finished()
    {
      var f := i as real / frames as real;
      assert 0.0 <= f <= 1.0 by {
        if frames > 0 {
          assert i as real <= frames as real;
        } else {
          assert i == 0;
        }
      }
      var c := TweenColour(origCol, colour, f);
      palette := c.value;
      i := i + 1;
      more := i <= frames;
    }
  }

  /** The update loop calling the closure until it returns false (the
      update loop itself is not part of this model): for a positive frame
      count the closure runs frames + 1 times, for i = 0 .. frames, and the
      palette ends on the target colour. */
  method RunTransition(t: ColourTransition) returns (calls: nat)
    requires t.Valid() && t.i == 0 && t.frames != 0
    modifies t
    ensures t.Finished()
    ensures t.frames > 0 ==> calls == t.frames + 1 && t.palette == t.colour
    ensures t.frames < 0 ==> calls == 1 && t.palette == t.origCol
  {
    calls := 1;
    var more := t.Step();
    while more
      invariant t.Valid() && t.i == calls
      invariant more <==> !t.Finished()
      invariant t.frames < 0 ==> t.palette == t.origCol
      invariant t.frames > 0 && !more ==> t.palette == t.colour
      decreases t.frames + 1 - t.i
    {
      more := t.Step();
      calls := calls + 1;
      if !more && t.frames > 0 {
        assert (t.i - 1) as real / t.frames as real == 1.0;
        TweenEndpoints(t.origCol, t.colour, 1.0);
      }
    }
  }
}
