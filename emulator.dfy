/** The desktop-control emulator of Input_UpdateMouseControl (src/input/gamepad.c) as pure
    per-tick steps: cursor movement with clamping, the fractional scroll accumulator, the
    d-pad line-scroll edge detectors and the two click press/release machines. The function
    statics of the C code are the fields of `MouseState`. */
module Emulator {
  import opened Common
  import opened Actions

  /** Cursor speed in pixels per tick at full deflection, scroll speed in accumulator units per
      tick, and the wheel amounts: WHEEL_DELTA / 10 per accumulated unit and WHEEL_DELTA / 3
      per d-pad line. */
  const CursorSensitivity: real := 20.0
  const ScrollSensitivity: real := 15.0
  const WheelPerUnit: int := 12
  const WheelPerLine: int := 40

  /** The clamp of one cursor coordinate against a screen dimension, in the source's order:
      first below 0, then at or past the size. */
  function ClampAxis(v: int, size: int): (c: int)
    ensures size >= 1 ==> 0 <= c < size
  {
    var lo := if v < 0 then 0 else v;
    if lo >= size then size - 1 else lo
  }

  /** For a screen of at least one pixel the clamp lands on the screen, keeps on-screen values
      and maps off-screen values to the nearest edge. */
  lemma ClampAxisOnScreen(v: int, size: int)
    requires size >= 1
    ensures 0 <= ClampAxis(v, size) < size
    ensures 0 <= v < size ==> ClampAxis(v, size) == v
    ensures v < 0 ==> ClampAxis(v, size) == 0
    ensures v >= size ==> ClampAxis(v, size) == size - 1
  {
  }

  /** What the cursor part of a tick does. */
  datatype CursorOutcome =
    | Still                  // both right-stick values are 0
    | Abandoned              // GetCursorPos failed: the rest of the tick is skipped
    | Moved(x: int, y: int)  // SetCursorPos(x, y)

  /** The cursor part: nothing when the conditioned right stick reads (0, 0); otherwise the
      current position plus the truncated deltas (screen y grows downward, so the stick's y is
      negated), clamped to the screen. */
  function CursorStep(rx: real, ry: real, cursor: Option<(int, int)>, width: int, height: int)
    : (out: CursorOutcome)
    ensures rx == 0.0 && ry == 0.0 <==> out == Still
    ensures out == Abandoned <==> (rx != 0.0 || ry != 0.0) && cursor.None?
    ensures out.Moved? && width >= 1 ==> 0 <= out.x < width
    ensures out.Moved? && height >= 1 ==> 0 <= out.y < height
  {
    if rx == 0.0 && ry == 0.0 then Still
    else if cursor.None? then Abandoned
    else
      var (cx, cy) := cursor.value;
      var dx := Trunc(rx * CursorSensitivity);
      var dy := Trunc(-ry * CursorSensitivity);
      Moved(ClampAxis(cx + dx, width), ClampAxis(cy + dy, height))
  }

  /** Away from the edges the cursor moves by exactly the truncated deltas, each at most 20
      pixels. */
  lemma {:induction false} CursorMovesByDelta(rx: real, ry: real, cx: int, cy: int, width: int, height: int)
    requires rx != 0.0 || ry != 0.0
    requires -1.0 <= rx <= 1.0 && -1.0 <= ry <= 1.0
    requires 20 <= cx < width - 20 && 20 <= cy < height - 20
    ensures CursorStep(rx, ry, Some((cx, cy)), width, height)
         == Moved(cx + Trunc(rx * 20.0), cy + Trunc(-ry * 20.0))
    ensures Abs(Trunc(rx * 20.0)) <= 20 && Abs(Trunc(-ry * 20.0)) <= 20
  {
    ClampAxisOnScreen(cx + Trunc(rx * 20.0), width);
    ClampAxisOnScreen(cy + Trunc(-ry * 20.0), height);
  }

  /** The scroll part: the left stick's y, scaled, is added to the accumulator; once it holds a
      whole unit or more either way, its truncation goes out as one wheel event of 12 per unit
      and is taken off. With the stick at rest the accumulator is left alone. */
  function ScrollStep(acc: real, ly: real): (r: (real, Option<int>))
    ensures ly == 0.0 ==> r == (acc, None)
    ensures r.1.Some? ==> r.1.value != 0 && r.1.value % WheelPerUnit == 0
  {
    if ly == 0.0 then (acc, None)
    else
      var sum := acc + ly * ScrollSensitivity;
      if sum >= 1.0 || sum <= -1.0 then
        var units := Trunc(sum);
        (sum - units as real, Some(units * WheelPerUnit))
      else (sum, None)
  }

  /** The accumulator never changes without stick input; a wheel event goes out exactly when
      the accumulator reaches a whole unit, it scrolls in the accumulator's direction by a
      whole number of units, and what stays behind is less than a unit and never flips sign. */
  lemma {:induction false} ScrollStepProperties(acc: real, ly: real)
    ensures ly == 0.0 ==> ScrollStep(acc, ly) == (acc, None)
    ensures ly != 0.0 ==>
      var sum := acc + ly * 15.0;
      var (rest, wheel) := ScrollStep(acc, ly);
      && (wheel.Some? <==> sum >= 1.0 || sum <= -1.0)
      && (wheel.Some? ==> wheel.value % 12 == 0 && wheel.value != 0
                          && (wheel.value > 0 <==> sum > 0.0)
                          && rest == sum - (wheel.value / 12) as real
                          && -1.0 < rest < 1.0 && rest * sum >= 0.0)
      && (wheel.None? ==> rest == sum)
  {
    if ly != 0.0 {
      var sum := acc + ly * 15.0;
      if sum >= 1.0 || sum <= -1.0 {
        var units := Trunc(sum);
        assert units != 0;
        assert (units * 12) / 12 == units;
      }
    }
  }

  /** Hence the accumulator stays strictly within one unit of 0 from tick to tick. */
  lemma {:induction false} ScrollAccumulatorBounded(acc: real, ly: real)
    requires -1.0 < acc < 1.0
    ensures -1.0 < ScrollStep(acc, ly).0 < 1.0
  {
    ScrollStepProperties(acc, ly);
  }

  /** The wheel event a scroll step sends, if any. */
  function WheelEvents(wheel: Option<int>): (events: seq<Event>)
    ensures |events| <= 1
    ensures forall e :: e in events ==> e.Wheel?
  {
    match wheel
    case None => []
    case Some(delta) => [Wheel(delta)]
  }

  /** The d-pad part: one line up on the up button's press edge, one line down on the down
      button's, in that order. */
  function DpadStep(wasUp: bool, wasDown: bool, up: bool, down: bool): (events: seq<Event>)
    ensures Wheel(WheelPerLine) in events <==> up && !wasUp
    ensures Wheel(-WheelPerLine) in events <==> down && !wasDown
    ensures |events| <= 2
    ensures forall e :: e in events ==> e.Wheel?
  {
    (if up && !wasUp then [Wheel(WheelPerLine)] else [])
      + (if down && !wasDown then [Wheel(-WheelPerLine)] else [])
  }

  /** A click machine: whether the intent was on at the last tick, and whether a button-down
      has gone out without its button-up. */
  datatype ClickMachine = ClickMachine(wasPressed: bool, isDown: bool)

  datatype ClickEdge = Press | Release

  /** One tick of a click machine: a press on the rising edge of the intent, a release on its
      falling edge if a press was recorded. */
  function ClickStep(m: ClickMachine, intent: bool): (r: (ClickMachine, Option<ClickEdge>))
    ensures r.0.wasPressed == intent
    ensures r.1 == Some(Press) <==> intent && !m.wasPressed
    ensures r.1 == Some(Release) <==> !intent && m.wasPressed && m.isDown
  {
    if intent && !m.wasPressed then (ClickMachine(intent, true), Some(Press))
    else if !intent && m.wasPressed && m.isDown then (ClickMachine(intent, false), Some(Release))
    else (ClickMachine(intent, m.isDown), None)
  }

  /** The machine's invariant: a button is down exactly while the intent was on at the last
      tick. It holds from the initial all-false state and every step keeps it. */
  predicate Consistent(m: ClickMachine)
  {
    m.isDown == m.wasPressed
  }

  lemma ClickStepKeepsConsistent(m: ClickMachine, intent: bool)
    requires Consistent(m)
    ensures Consistent(ClickStep(m, intent).0)
    ensures ClickStep(m, intent).1 == Some(Press) ==> !m.isDown
    ensures ClickStep(m, intent).1 == Some(Release) ==> m.isDown
  {
  }

  /** A run of the machine over the intents of consecutive ticks. */
  function ClickRun(m: ClickMachine, intents: seq<bool>): (r: (ClickMachine, seq<ClickEdge>))
    ensures |r.1| <= |intents|
    decreases |intents|
  {
    if |intents| == 0 then (m, [])
    else
      var (m1, e) := ClickStep(m, intents[0]);
      var (m2, rest) := ClickRun(m1, intents[1..]);
      (m2, (if e.Some? then [e.value] else []) + rest)
  }

  /** Presses and releases alternate, starting with a press when no button is down and with a
      release when one is. */
  predicate Alternating(edges: seq<ClickEdge>, down: bool)
    decreases |edges|
  {
    |edges| == 0 || (edges[0] == (if down then Release else Press) && Alternating(edges[1..], !down))
  }

  /** From a consistent machine, the edges of any run alternate, and the machine ends down
      exactly when the last edge was a press. */
  lemma {:induction false} ClickRunAlternates(m: ClickMachine, intents: seq<bool>)
    requires Consistent(m)
    ensures Consistent(ClickRun(m, intents).0)
    ensures Alternating(ClickRun(m, intents).1, m.isDown)
    ensures ClickRun(m, intents).0.isDown
         == (if |ClickRun(m, intents).1| == 0 then m.isDown
             else ClickRun(m, intents).1[|ClickRun(m, intents).1| - 1] == Press)
    decreases |intents|
  {
    if |intents| > 0 {
      var (m1, e) := ClickStep(m, intents[0]);
      ClickStepKeepsConsistent(m, intents[0]);
      ClickRunAlternates(m1, intents[1..]);
      var rest := ClickRun(m1, intents[1..]).1;
      if e.Some? {
        var all := [e.value] + rest;
        assert ClickRun(m, intents).1 == all;
        assert all[1..] == rest;
        assert m1.isDown == !m.isDown;
      } else {
        assert ClickRun(m, intents).1 == rest;
        assert m1.isDown == m.isDown;
      }
    }
  }

  /** Holding the intent for n ticks and then letting go yields one press and one release. */
  lemma {:induction false} HeldThenReleased(n: nat)
    requires n >= 1
    ensures ClickRun(ClickMachine(false, false), Repeat(true, n) + [false]).1 == [Press, Release]
  {
    var intents := Repeat(true, n) + [false];
    assert intents[0] == true;
    assert intents[1..] == Repeat(true, n - 1) + [false];
    HeldStaysDown(n - 1);
  }

  lemma {:induction false} HeldStaysDown(k: nat)
    ensures ClickRun(ClickMachine(true, true), Repeat(true, k) + [false]).1 == [Release]
    decreases k
  {
    var intents := Repeat(true, k) + [false];
    if k > 0 {
      assert intents[0] == true;
      assert intents[1..] == Repeat(true, k - 1) + [false];
      HeldStaysDown(k - 1);
    } else {
      assert intents == [false];
    }
  }

  function Repeat(b: bool, n: nat): (s: seq<bool>)
    ensures |s| == n && forall i :: 0 <= i < n ==> s[i] == b
  {
    if n == 0 then [] else [b] + Repeat(b, n - 1)
  }

  /** The statics of Input_UpdateMouseControl. */
  datatype MouseState = MouseState(
    scrollAccumulator: real,
    wasDpadUp: bool,
    wasDpadDown: bool,
    leftClick: ClickMachine,   // wasRightPressed / isRightButtonDown: the left mouse button
    rightClick: ClickMachine)  // wasLeftPressed / isLeftButtonDown: the right mouse button

  const InitialMouseState: MouseState :=
    MouseState(0.0, false, false, ClickMachine(false, false), ClickMachine(false, false))

  /** What the controller shows the emulator in one tick, already conditioned: both sticks'
      relevant axes, the d-pad, and the click intents (right trigger past half or A for the
      left button, left trigger past half or B for the right button). */
  datatype MouseInput = MouseInput(
    rx: real, ry: real, ly: real,
    dpadUp: bool, dpadDown: bool,
    leftIntent: bool, rightIntent: bool)

  function ClickEvent(e: Option<ClickEdge>, onPress: Event, onRelease: Event): (events: seq<Event>)
    ensures forall x :: x in events ==> x == onPress || x == onRelease
  {
    match e
    case None => []
    case Some(Press) => [onPress]
    case Some(Release) => [onRelease]
  }

  /** The events the emulator sends: wheel turns, button presses and releases, and cursor
      moves. */
  predicate MouseEvent(e: Event)
  {
    e.Wheel? || e.LeftDown? || e.LeftUp? || e.RightDown? || e.RightUp? || e.MoveTo?
  }

  /** A whole desktop-mode tick: cursor, scroll, d-pad, left click, right click, in that order;
      a failed cursor query abandons the tick with the state untouched. */
  function MouseStep(s: MouseState, input: MouseInput, cursor: Option<(int, int)>,
                     width: int, height: int): (r: (MouseState, seq<Event>))
    ensures CursorStep(input.rx, input.ry, cursor, width, height) == Abandoned ==> r == (s, [])
    ensures forall e :: e in r.1 ==> MouseEvent(e)
  {
    var move := CursorStep(input.rx, input.ry, cursor, width, height);
    if move == Abandoned then (s, [])
    else
      var moveEvents := if move.Moved? then [MoveTo(move.x, move.y)] else [];
      var (acc, wheel) := ScrollStep(s.scrollAccumulator, input.ly);
      var scrollEvents := WheelEvents(wheel);
      var dpadEvents := DpadStep(s.wasDpadUp, s.wasDpadDown, input.dpadUp, input.dpadDown);
      var (left, le) := ClickStep(s.leftClick, input.leftIntent);
      var (right, re) := ClickStep(s.rightClick, input.rightIntent);
      (MouseState(acc, input.dpadUp, input.dpadDown, left, right),
       moveEvents + scrollEvents + dpadEvents
         + ClickEvent(le, LeftDown, LeftUp) + ClickEvent(re, RightDown, RightUp))
  }

  /** MouseStep put together from its parts, for a tick that is not abandoned. */
  lemma MouseStepParts(s: MouseState, input: MouseInput, cursor: Option<(int, int)>,
                       width: int, height: int)
    requires CursorStep(input.rx, input.ry, cursor, width, height) != Abandoned
    ensures var move := CursorStep(input.rx, input.ry, cursor, width, height);
      var scroll := ScrollStep(s.scrollAccumulator, input.ly);
      var left := ClickStep(s.leftClick, input.leftIntent);
      var right := ClickStep(s.rightClick, input.rightIntent);
      MouseStep(s, input, cursor, width, height)
      == (MouseState(scroll.0, input.dpadUp, input.dpadDown, left.0, right.0),
          (match move case Moved(x, y) => [MoveTo(x, y)] case _ => [])
          + WheelEvents(scroll.1)
          + DpadStep(s.wasDpadUp, s.wasDpadDown, input.dpadUp, input.dpadDown)
          + ClickEvent(left.1, LeftDown, LeftUp) + ClickEvent(right.1, RightDown, RightUp))
  {
  }

  /** A left-click intent that was not on last tick sends LeftDown, unless the cursor query
      abandons the tick. */
  lemma FreshLeftIntentClicks(s: MouseState, input: MouseInput, cursor: Option<(int, int)>,
                              width: int, height: int)
    requires input.leftIntent && !s.leftClick.wasPressed
    requires cursor.Some? || (input.rx == 0.0 && input.ry == 0.0)
    ensures LeftDown in MouseStep(s, input, cursor, width, height).1
  {
    var move := CursorStep(input.rx, input.ry, cursor, width, height);
    assert move != Abandoned;
    var left := ClickStep(s.leftClick, input.leftIntent);
    assert left.1 == Some(Press);
    assert ClickEvent(left.1, LeftDown, LeftUp) == [LeftDown];
    MouseStepParts(s, input, cursor, width, height);
    var head := (match move case Moved(x, y) => [MoveTo(x, y)] case _ => [])
      + WheelEvents(ScrollStep(s.scrollAccumulator, input.ly).1)
      + DpadStep(s.wasDpadUp, s.wasDpadDown, input.dpadUp, input.dpadDown);
    var right := ClickEvent(ClickStep(s.rightClick, input.rightIntent).1, RightDown, RightUp);
    var events := MouseStep(s, input, cursor, width, height).1;
    assert events == head + [LeftDown] + right;
    assert events[|head|] == LeftDown;
  }

  /** Every tick, abandoned or not, keeps both click machines consistent and the accumulator
      within a unit. */
  lemma MouseStepKeepsInvariant(s: MouseState, input: MouseInput, cursor: Option<(int, int)>,
                                width: int, height: int)
    requires Consistent(s.leftClick) && Consistent(s.rightClick)
    requires -1.0 < s.scrollAccumulator < 1.0
    ensures var s' := MouseStep(s, input, cursor, width, height).0;
      && Consistent(s'.leftClick) && Consistent(s'.rightClick)
      && -1.0 < s'.scrollAccumulator < 1.0
  {
    ClickStepKeepsConsistent(s.leftClick, input.leftIntent);
    ClickStepKeepsConsistent(s.rightClick, input.rightIntent);
    ScrollAccumulatorBounded(s.scrollAccumulator, input.ly);
  }
}
