/** The gamepad input engine of src/input/gamepad.c: the global InputSystem with its four
    controller slots, the per-tick Update, the query functions, the action dispatcher and the
    desktop-control emulator, driven one sequential tick at a time. XInputGetState's answers,
    the cursor position and the screen size are inputs; SendInput, SetCursorPos,
    XInputSetState and the actions' system calls are the events a tick returns. */
module Gamepad {
  import opened Common
  import opened Signal
  import opened Actions
  import opened Emulator
  import App

  /** ControllerState without its tick-count bookkeeping. */
  datatype Slot = Slot(isConnected: bool, wasConnected: bool, current: Report, previous: Report)

  const EmptySlot: Slot := Slot(false, false, ZeroReport, ZeroReport)

  /** What Input_Update does to one slot, given XInputGetState's answer (None for a failure,
      which leaves the last state in place): the current state becomes the previous one, the
      connection flag is remembered, and the slot is connected exactly when the query worked. */
  function UpdatedSlot(s: Slot, query: Option<Report>): (t: Slot)
    ensures t.previous == s.current && t.wasConnected == s.isConnected
    ensures t.isConnected <==> query.Some?
    ensures t.current == (if query.Some? then query.value else s.current)
  {
    var shifted := s.(previous := s.current, wasConnected := s.isConnected);
    match query
    case Some(r) => shifted.(current := r, isConnected := true)
    case None => shifted.(isConnected := false)
  }

  /** A slot connects or disconnects at most once per run of successes or failures: after two
      failed queries in a row the second shows no disconnect, and after two successes the
      second shows no connect. */
  lemma {:induction false} TransitionsHappenOnce(s: Slot, r1: Report, r2: Report)
    ensures var t := UpdatedSlot(UpdatedSlot(s, None), None); !(t.wasConnected && !t.isConnected)
    ensures var t := UpdatedSlot(UpdatedSlot(s, Some(r1)), Some(r2)); !(!t.wasConnected && t.isConnected)
  {
  }

  /** The events of a list of effects. */
  function Performances(fx: seq<Effect>): (events: seq<Event>)
    ensures |events| == |fx|
    ensures forall k :: 0 <= k < |fx| ==> events[k] == Performed(fx[k])
  {
    if |fx| == 0 then [] else Performances(fx[..|fx| - 1]) + [Performed(fx[|fx| - 1])]
  }

  /** The device write an XInputSetState call makes, if it is made at all. */
  function DeviceWrites(cmd: Option<Event>): (events: seq<Event>)
    ensures |events| <= 1
  {
    match cmd
    case None => []
    case Some(e) => [e]
  }

  /** The events of two lists of effects, one after the other. */
  lemma PerformancesConcat(fx: seq<Effect>, gx: seq<Effect>)
    ensures Performances(fx + gx) == Performances(fx) + Performances(gx)
  {
  }

  /** One more table entry adds its effect, if it fires, after those of the entries before. */
  lemma FiredStep(ms: seq<Mapping>, i: int, previous: bv16, current: bv16)
    requires 0 <= i < |ms|
    ensures Fired(ms[..i + 1], previous, current)
      == Fired(ms[..i], previous, current) + Fired([ms[i]], previous, current)
  {
    assert ms[..i + 1][..i] == ms[..i];
    assert [ms[i]][..0] == [];
  }

  /** The facts about one table entry the mapping loop needs. */
  lemma MappingAt(i: int)
    requires 0 <= i < |Mappings|
    ensures Mappings[i].action == ToggleOverlay <==> i == 0
    ensures i == 0 ==> Mappings[i].button == Start
  {
    MappingsShape();
  }

  /** A tick's events write no vibration when its updates are empty, its actions only perform
      effects or toggle the mode, and its emulator only sends mouse input. */
  lemma NoVibrationIn(updates: seq<Event>, acted: seq<Event>)
    requires updates == []
    requires forall e :: e in acted ==> e.Performed? || e.ModeToggled? || MouseEvent(e)
    ensures forall e :: e in updates + acted ==> !e.Vibrate?
  {
  }

  class InputSystem {
    const slots: array<Slot>
    var isInitialized: bool
    /** The statics of Input_UpdateMouseControl. */
    var scrollAccumulator: real
    var wasDpadUpPressed: bool
    var wasDpadDownPressed: bool
    var wasRightPressed: bool
    var wasLeftPressed: bool
    var isRightButtonDown: bool
    var isLeftButtonDown: bool

    ghost predicate Valid()
    {
      slots.Length == MaxControllers
    }

    /** The emulator's statics as one value. */
    function Mouse(): (m: MouseState)
      reads this
      ensures m.leftClick == ClickMachine(wasRightPressed, isRightButtonDown)
      ensures m.rightClick == ClickMachine(wasLeftPressed, isLeftButtonDown)
    {
      MouseState(scrollAccumulator, wasDpadUpPressed, wasDpadDownPressed,
                 ClickMachine(wasRightPressed, isRightButtonDown),
                 ClickMachine(wasLeftPressed, isLeftButtonDown))
    }

    /** The zero-initialised global g_inputSystem. */
    constructor ()
      ensures Valid() && fresh(slots) && !isInitialized
      ensures forall j :: 0 <= j < MaxControllers ==> slots[j] == EmptySlot
      ensures Mouse() == InitialMouseState
    {
      slots := new Slot[MaxControllers](_ => EmptySlot);
      isInitialized := false;
      scrollAccumulator := 0.0;
      wasDpadUpPressed, wasDpadDownPressed := false, false;
      wasRightPressed, wasLeftPressed := false, false;
      isRightButtonDown, isLeftButtonDown := false, false;
    }

    /** Input_Initialize: a second call changes nothing and succeeds; otherwise every slot is
        cleared, and the system is initialised only if the input thread could be started. */
    method Initialize(threadStarted: bool) returns (ok: bool)
      requires Valid()
      modifies this, slots
      ensures Valid() && Mouse() == old(Mouse())
      ensures old(isInitialized) ==>
        ok && isInitialized && forall j :: 0 <= j < MaxControllers ==> slots[j] == old(slots[j])
      ensures !old(isInitialized) ==>
        && ok == threadStarted && isInitialized == threadStarted
        && forall j :: 0 <= j < MaxControllers ==> slots[j] == EmptySlot
    {
      if isInitialized {
        return true;
      }
      for i := 0 to MaxControllers
        modifies slots
        invariant forall j :: 0 <= j < i ==> slots[j] == EmptySlot
      {
        slots[i] := EmptySlot;
      }
      if !threadStarted {
        return false;
      }
      isInitialized := true;
      return true;
    }

    /** Input_IsControllerConnected; also the guard every query below starts with: a valid
        index, an initialised system and a connected slot. */
    predicate Ready(i: int)
      requires Valid()
      reads this`isInitialized, slots
    {
      0 <= i < MaxControllers && isInitialized && slots[i].isConnected
    }

    /** Input_IsButtonPressed. */
    function IsButtonPressed(i: int, b: Button): (r: bool)
      requires Valid()
      reads this`isInitialized, slots
      ensures r <==> Ready(i) && Held(slots[i].current.buttons, b)
    {
      if !Ready(i) then false else Held(slots[i].current.buttons, b)
    }

    /** Input_IsButtonJustPressed. */
    function IsButtonJustPressed(i: int, b: Button): (r: bool)
      requires Valid()
      reads this`isInitialized, slots
      ensures r <==> Ready(i) && PressEdge(slots[i].previous.buttons, slots[i].current.buttons, b)
    {
      if !Ready(i) then false else PressEdge(slots[i].previous.buttons, slots[i].current.buttons, b)
    }

    /** Input_IsButtonJustReleased. */
    function IsButtonJustReleased(i: int, b: Button): (r: bool)
      requires Valid()
      reads this`isInitialized, slots
      ensures r <==> Ready(i) && ReleaseEdge(slots[i].previous.buttons, slots[i].current.buttons, b)
    {
      if !Ready(i) then false else ReleaseEdge(slots[i].previous.buttons, slots[i].current.buttons, b)
    }

    /** A button is never both just pressed and just released, and neither is reported for a
        bad index or an absent controller. */
    lemma EdgeQueriesExclusive(i: int, b: Button)
      requires Valid()
      ensures !(IsButtonJustPressed(i, b) && IsButtonJustReleased(i, b))
      ensures !Ready(i) ==> !IsButtonJustPressed(i, b) && !IsButtonJustReleased(i, b)
    {
    }

    /** Input_HasStateChanged: the packet numbers of the two buffered states differ. */
    function HasStateChanged(i: int): (r: bool)
      requires Valid()
      reads this`isInitialized, slots
      ensures r <==> Ready(i) && slots[i].current.packet != slots[i].previous.packet
    {
      if !Ready(i) then false else slots[i].current.packet != slots[i].previous.packet
    }

    /** Input_GetLeftTrigger and Input_GetRightTrigger. */
    function LeftTrigger(i: int): (v: real)
      requires Valid()
      reads this`isInitialized, slots
      ensures 0.0 <= v <= 1.0
      ensures !Ready(i) ==> v == 0.0
      ensures Ready(i) && slots[i].current.leftTrigger < TriggerThreshold ==> v == 0.0
      ensures Ready(i) && slots[i].current.leftTrigger >= TriggerThreshold ==>
        v * 127.0 == (slots[i].current.leftTrigger - TriggerThreshold) as real
    {
      if !Ready(i) then 0.0 else TriggerValue(slots[i].current.leftTrigger)
    }

    function RightTrigger(i: int): (v: real)
      requires Valid()
      reads this`isInitialized, slots
      ensures 0.0 <= v <= 1.0
      ensures !Ready(i) ==> v == 0.0
      ensures Ready(i) && slots[i].current.rightTrigger < TriggerThreshold ==> v == 0.0
      ensures Ready(i) && slots[i].current.rightTrigger >= TriggerThreshold ==>
        v * 127.0 == (slots[i].current.rightTrigger - TriggerThreshold) as real
    {
      if !Ready(i) then 0.0 else TriggerValue(slots[i].current.rightTrigger)
    }

    /** Input_GetLeftStick and Input_GetRightStick: (0, 0) unless the slot is ready. */
    function LeftStick(i: int): (xy: (real, real))
      requires Valid()
      reads this`isInitialized, slots
      ensures !Ready(i) ==> xy == (0.0, 0.0)
      ensures Ready(i) ==> xy == (StickAxis(slots[i].current.thumbLX), StickAxis(slots[i].current.thumbLY))
    {
      if !Ready(i) then (0.0, 0.0)
      else (StickAxis(slots[i].current.thumbLX), StickAxis(slots[i].current.thumbLY))
    }

    function RightStick(i: int): (xy: (real, real))
      requires Valid()
      reads this`isInitialized, slots
      ensures !Ready(i) ==> xy == (0.0, 0.0)
      ensures Ready(i) ==> xy == (StickAxis(slots[i].current.thumbRX), StickAxis(slots[i].current.thumbRY))
    {
      if !Ready(i) then (0.0, 0.0)
      else (StickAxis(slots[i].current.thumbRX), StickAxis(slots[i].current.thumbRY))
    }

    /** Input_SetVibration: the XInputSetState write it makes, if any. Nothing reaches a bad
        index or an absent controller; otherwise both motors are clamped into [0, 1] and
        scaled to 0..65535. */
    function SetVibration(i: int, left: real, right: real): (cmd: Option<Event>)
      requires Valid()
      reads this`isInitialized, slots
      ensures cmd.Some? <==> Ready(i)
      ensures cmd.Some? ==> cmd.value == Vibrate(i, MotorSpeed(left), MotorSpeed(right))
      ensures cmd.Some? && 0.0 <= left <= 1.0 ==> cmd.value.leftSpeed == Trunc(left * 65535.0)
      ensures cmd.Some? && 0.0 <= right <= 1.0 ==> cmd.value.rightSpeed == Trunc(right * 65535.0)
    {
      if !Ready(i) then None else Some(Vibrate(i, MotorSpeed(left), MotorSpeed(right)))
    }

    /** Input_Update: every slot takes XInputGetState's answer as UpdatedSlot says. The
        vibration-off write on a disconnect is issued after the slot is marked disconnected,
        so SetVibration drops it: no event ever comes out. */
    method Update(queries: seq<Option<Report>>) returns (events: seq<Event>)
      requires Valid() && |queries| == MaxControllers
      modifies slots
      ensures Valid()
      ensures !isInitialized ==> forall j :: 0 <= j < MaxControllers ==> slots[j] == old(slots[j])
      ensures isInitialized ==>
        forall j :: 0 <= j < MaxControllers ==> slots[j] == UpdatedSlot(old(slots[j]), queries[j])
      ensures events == []
    {
      events := [];
      if !isInitialized {
        return;
      }
      for i := 0 to MaxControllers
        invariant forall j :: 0 <= j < i ==> slots[j] == UpdatedSlot(old(slots[j]), queries[j])
        invariant forall j :: i <= j < MaxControllers ==> slots[j] == old(slots[j])
        invariant events == []
      {
        slots[i] := slots[i].(previous := slots[i].current, wasConnected := slots[i].isConnected);
        match queries[i] {
          case Some(r) =>
            slots[i] := slots[i].(current := r);
            if !slots[i].isConnected {
              slots[i] := slots[i].(isConnected := true);
            }
          case None =>
            if slots[i].isConnected {
              slots[i] := slots[i].(isConnected := false);
              var write := SetVibration(i, 0.0, 0.0);
              events := events + DeviceWrites(write);
            }
        }
      }
    }

    /** The lowest-numbered connected slot, or -1 when none is connected. */
    function FirstConnected(): (idx: int)
      requires Valid()
      reads this`isInitialized, slots
      ensures -1 <= idx < MaxControllers
      ensures idx == -1 <==> forall j :: 0 <= j < MaxControllers ==> !slots[j].isConnected
      ensures idx >= 0 ==>
        slots[idx].isConnected && forall j :: 0 <= j < idx ==> !slots[j].isConnected
    {
      FirstConnectedFrom(0)
    }

    function FirstConnectedFrom(k: nat): (idx: int)
      requires Valid() && k <= MaxControllers
      reads this`isInitialized, slots
      ensures idx == -1 || k <= idx < MaxControllers
      ensures idx == -1 <==> forall j :: k <= j < MaxControllers ==> !slots[j].isConnected
      ensures idx >= 0 ==>
        slots[idx].isConnected && forall j :: k <= j < idx ==> !slots[j].isConnected
      decreases MaxControllers - k
    {
      if k == MaxControllers then -1
      else if slots[k].isConnected then k
      else FirstConnectedFrom(k + 1)
    }

    /** The search loop of Input_ProcessActions and of the input thread. */
    method ActiveController() returns (idx: int)
      requires Valid()
      ensures idx == FirstConnected()
    {
      idx := -1;
      var i := 0;
      while i < MaxControllers
        invariant 0 <= i <= MaxControllers
        invariant forall j :: 0 <= j < i ==> !slots[j].isConnected
        invariant FirstConnected() == FirstConnectedFrom(i)
        decreases MaxControllers - i
      {
        if slots[i].isConnected {
          idx := i;
          return;
        }
        i := i + 1;
      }
    }

    /** Whether the overlay is up and the active controller just pressed A: the case in which
        Input_ProcessActions toggles the mode and does nothing else. */
    predicate ModeTogglePending(k: int, app: App.AppState)
      requires Valid()
      reads this`isInitialized, slots, app
    {
      app.isOverlayVisible && IsButtonJustPressed(k, A)
    }

    /** Input_ProcessActions. Nothing happens before initialisation or with no controller.
        With the overlay up, an A press toggles the mode and nothing else; otherwise the
        mapping table is run (see RunMappings). */
    method ProcessActions(app: App.AppState) returns (events: seq<Event>)
      requires Valid()
      modifies app
      ensures !isInitialized || FirstConnected() == -1 ==>
        && events == [] && app.currentMode == old(app.currentMode)
        && app.isOverlayVisible == old(app.isOverlayVisible)
        && app.isAnimating == old(app.isAnimating)
      ensures isInitialized && FirstConnected() >= 0 && old(ModeTogglePending(FirstConnected(), app)) ==>
        && events == [ModeToggled]
        && app.currentMode == App.ToggledMode(old(app.currentMode))
        && app.isOverlayVisible == old(app.isOverlayVisible)
        && app.isAnimating == old(app.isAnimating)
      ensures isInitialized && FirstConnected() >= 0 && !old(ModeTogglePending(FirstConnected(), app)) ==>
        && events == MappingEvents(FirstConnected())
        && app.currentMode == old(app.currentMode)
        && OverlayAfterMappings(FirstConnected(), old(app.isOverlayVisible), old(app.isAnimating),
                                app.isOverlayVisible, app.isAnimating)
      ensures app.overlaySlidePosition == old(app.overlaySlidePosition)
      ensures forall e :: e in events ==> e.Performed? || e.ModeToggled?
    {
      events := [];
      if !isInitialized {
        return;
      }
      var active := ActiveController();
      if active == -1 {
        return;
      }
      if app.isOverlayVisible && IsButtonJustPressed(active, A) {
        app.ToggleMode();
        events := [ModeToggled];
        return;
      }
      events := RunMappings(active, app);
    }

    /** The events of the table entries that fire on controller k, in table order. */
    function MappingEvents(k: int): seq<Event>
      requires Valid() && 0 <= k < MaxControllers
      reads slots
    {
      Performances(Fired(Mappings, slots[k].previous.buttons, slots[k].current.buttons))
    }

    /** The overlay toggles (and starts animating) exactly when START was just pressed on
        controller k. */
    predicate OverlayAfterMappings(k: int, visible0: bool, animating0: bool,
                                   visible: bool, animating: bool)
      requires Valid() && 0 <= k < MaxControllers
      reads slots
    {
      if PressEdge(slots[k].previous.buttons, slots[k].current.buttons, Start)
      then visible == !visible0 && animating
      else visible == visible0 && animating == animating0
    }

    /** The mapping loop of Input_ProcessActions: skip entries without an action, decide each
        other entry (hold entries included) on its button's press edge, and carry out its
        effect; START's entry toggles the overlay. */
    method RunMappings(active: int, app: App.AppState) returns (events: seq<Event>)
      requires Valid() && Ready(active)
      modifies app
      ensures events == MappingEvents(active)
      ensures app.currentMode == old(app.currentMode)
      ensures app.overlaySlidePosition == old(app.overlaySlidePosition)
      ensures OverlayAfterMappings(active, old(app.isOverlayVisible), old(app.isAnimating),
                                   app.isOverlayVisible, app.isAnimating)
    {
      ghost var prev := slots[active].previous.buttons;
      ghost var cur := slots[active].current.buttons;
      ghost var visible0 := app.isOverlayVisible;
      ghost var animating0 := app.isAnimating;
      events := [];
      for i := 0 to |Mappings|
        invariant events == Performances(Fired(Mappings[..i], prev, cur))
        invariant app.currentMode == old(app.currentMode)
        invariant app.overlaySlidePosition == old(app.overlaySlidePosition)
        invariant i == 0 ==> app.isOverlayVisible == visible0 && app.isAnimating == animating0
        invariant i > 0 ==>
          OverlayAfterMappings(active, visible0, animating0, app.isOverlayVisible, app.isAnimating)
      {
        MappingAt(i);
        FiredStep(Mappings, i, prev, cur);
        var more := RunEntry(active, Mappings[i], app);
        PerformancesConcat(Fired(Mappings[..i], prev, cur), Fired([Mappings[i]], prev, cur));
        events := events + more;
      }
      assert Mappings[..|Mappings|] == Mappings;
    }

    /** One pass of the mapping loop: an entry without an action is skipped; otherwise it is
        decided on its button's press edge (a hold entry also checks the button is held) and
        its effect carried out, toggling the overlay for the overlay action. */
    method RunEntry(active: int, m: Mapping, app: App.AppState) returns (events: seq<Event>)
      requires Valid() && Ready(active)
      modifies app
      ensures events == Performances(Fired([m], slots[active].previous.buttons,
                                           slots[active].current.buttons))
      ensures app.currentMode == old(app.currentMode)
      ensures app.overlaySlidePosition == old(app.overlaySlidePosition)
      ensures if m.action == ToggleOverlay
                 && PressEdge(slots[active].previous.buttons, slots[active].current.buttons, m.button)
              then app.isOverlayVisible == !old(app.isOverlayVisible) && app.isAnimating
              else app.isOverlayVisible == old(app.isOverlayVisible)
                   && app.isAnimating == old(app.isAnimating)
    {
      ghost var prev := slots[active].previous.buttons;
      ghost var cur := slots[active].current.buttons;
      assert [m][..0] == [];
      events := [];
      if m.action == NoAction {
        return;
      }
      var shouldExecute := false;
      if m.requiresHold {
        if IsButtonPressed(active, m.button) {
          shouldExecute := IsButtonJustPressed(active, m.button);
        }
      } else {
        shouldExecute := IsButtonJustPressed(active, m.button);
      }
      assert shouldExecute == ShouldExecute(m, prev, cur);
      HoldIsIgnored(m, prev, cur);
      if shouldExecute {
        var effect := ExecuteAction(m.action, m.command);
        events := [Performed(effect)];
        if effect == OverlayToggled {
          app.ToggleOverlay();
        }
      }
    }

    /** What the slot shows the emulator this tick, through the query functions. */
    function MouseInputOf(i: int): (input: MouseInput)
      requires Valid()
      reads this`isInitialized, slots
      ensures !Ready(i) ==> input == MouseInput(0.0, 0.0, 0.0, false, false, false, false)
      // the cursor follows the right stick and the scroll the left stick's Y axis
      ensures (input.rx, input.ry) == RightStick(i) && input.ly == LeftStick(i).1
      ensures input.dpadUp == IsButtonPressed(i, DpadUp)
      ensures input.dpadDown == IsButtonPressed(i, DpadDown)
      // the triggers are swapped: the right trigger (or A) clicks left, the left trigger (or
      // B) clicks right
      ensures input.leftIntent <==> RightTrigger(i) > 0.5 || IsButtonPressed(i, A)
      ensures input.rightIntent <==> LeftTrigger(i) > 0.5 || IsButtonPressed(i, B)
    {
      MouseInput(RightStick(i).0, RightStick(i).1, LeftStick(i).1,
                 IsButtonPressed(i, DpadUp), IsButtonPressed(i, DpadDown),
                 RightTrigger(i) > 0.5 || IsButtonPressed(i, A),
                 LeftTrigger(i) > 0.5 || IsButtonPressed(i, B))
    }

    /** Input_UpdateMouseControl: outside desktop mode, or for a slot that is not ready,
        nothing happens (so a button-down stays unmatched until desktop mode returns);
        otherwise one MouseStep. */
    method UpdateMouseControl(i: int, app: App.AppState, cursor: Option<(int, int)>,
                              width: int, height: int) returns (events: seq<Event>)
      requires Valid()
      modifies this
      ensures Valid() && isInitialized == old(isInitialized)
      ensures !(Ready(i) && app.currentMode == App.Desktop) ==> events == [] && Mouse() == old(Mouse())
      ensures Ready(i) && app.currentMode == App.Desktop ==>
        (Mouse(), events) == MouseStep(old(Mouse()), MouseInputOf(i), cursor, width, height)
      ensures forall e :: e in events ==> MouseEvent(e)
    {
      events := [];
      if i < 0 || i >= MaxControllers {
        return;
      }
      if !isInitialized || !slots[i].isConnected {
        return;
      }
      if app.currentMode != App.Desktop {
        return;
      }
      // every query is made on the slot before any static changes
      var input := MouseInputOf(i);
      events := Emulate(input, cursor, width, height);
    }

    /** The desktop-mode body of Input_UpdateMouseControl on the conditioned input: the
        cursor, the scroll wheel, the d-pad and the two click machines, in that order, each
        on its own statics. */
    method Emulate(input: MouseInput, cursor: Option<(int, int)>, width: int, height: int)
      returns (events: seq<Event>)
      modifies this`scrollAccumulator, this`wasDpadUpPressed, this`wasDpadDownPressed
      modifies this`wasRightPressed, this`isRightButtonDown, this`wasLeftPressed, this`isLeftButtonDown
      ensures (Mouse(), events) == MouseStep(old(Mouse()), input, cursor, width, height)
    {
      ghost var s0 := Mouse();
      var abandoned, moveEvents := MoveCursor(input.rx, input.ry, cursor, width, height);
      if abandoned {
        return [];
      }
      var scrollEvents := ScrollTick(input.ly);
      var dpadEvents := DpadTick(input.dpadUp, input.dpadDown);
      var leftEvents := LeftButtonTick(input.leftIntent);
      var rightEvents := RightButtonTick(input.rightIntent);
      events := moveEvents + scrollEvents + dpadEvents + leftEvents + rightEvents;
      MouseStepParts(s0, input, cursor, width, height);
    }

    /** The cursor part of Input_UpdateMouseControl: with the right stick off centre, the
        cursor moves by the scaled deflection and is clamped to the screen; a failed cursor
        query abandons the whole tick. */
    method MoveCursor(rx: real, ry: real, cursor: Option<(int, int)>, width: int, height: int)
      returns (abandoned: bool, events: seq<Event>)
      ensures abandoned <==> CursorStep(rx, ry, cursor, width, height) == Abandoned
      ensures !abandoned ==>
        events == (match CursorStep(rx, ry, cursor, width, height)
                   case Moved(x, y) => [MoveTo(x, y)]
                   case _ => [])
    {
      abandoned, events := false, [];
      if rx != 0.0 || ry != 0.0 {
        if cursor.None? {
          return true, [];
        }
        var (cx, cy) := cursor.value;
        var deltaX := Trunc(rx * CursorSensitivity);
        var deltaY := Trunc(-ry * CursorSensitivity);
        var newX := cx + deltaX;
        var newY := cy + deltaY;
        if newX < 0 { newX := 0; }
        if newX >= width { newX := width - 1; }
        if newY < 0 { newY := 0; }
        if newY >= height { newY := height - 1; }
        events := [MoveTo(newX, newY)];
      }
    }

    /** The scroll part, on the static accumulator. */
    method ScrollTick(ly: real) returns (events: seq<Event>)
      modifies this`scrollAccumulator
      ensures scrollAccumulator == ScrollStep(old(scrollAccumulator), ly).0
      ensures events == WheelEvents(ScrollStep(old(scrollAccumulator), ly).1)
    {
      events := [];
      if ly != 0.0 {
        scrollAccumulator := scrollAccumulator + ly * ScrollSensitivity;
        if scrollAccumulator >= 1.0 || scrollAccumulator <= -1.0 {
          var scrollAmount := Trunc(scrollAccumulator);
          events := [Wheel(scrollAmount * WheelPerUnit)];
          scrollAccumulator := scrollAccumulator - scrollAmount as real;
        }
      }
    }

    /** The d-pad part, on the two static edge flags. */
    method DpadTick(up: bool, down: bool) returns (events: seq<Event>)
      modifies this`wasDpadUpPressed, this`wasDpadDownPressed
      ensures events == DpadStep(old(wasDpadUpPressed), old(wasDpadDownPressed), up, down)
      ensures wasDpadUpPressed == up && wasDpadDownPressed == down
    {
      events := [];
      if up && !wasDpadUpPressed {
        events := events + [Wheel(WheelPerLine)];
      }
      if down && !wasDpadDownPressed {
        events := events + [Wheel(-WheelPerLine)];
      }
      wasDpadUpPressed := up;
      wasDpadDownPressed := down;
    }

    /** The left mouse button, on wasRightPressed and isRightButtonDown. */
    method LeftButtonTick(intent: bool) returns (events: seq<Event>)
      modifies this`wasRightPressed, this`isRightButtonDown
      ensures var (m, edge) := ClickStep(old(ClickMachine(wasRightPressed, isRightButtonDown)), intent);
        ClickMachine(wasRightPressed, isRightButtonDown) == m && events == ClickEvent(edge, LeftDown, LeftUp)
    {
      events := [];
      if intent && !wasRightPressed {
        events := [LeftDown];
        isRightButtonDown := true;
      } else if !intent && wasRightPressed && isRightButtonDown {
        events := [LeftUp];
        isRightButtonDown := false;
      }
      wasRightPressed := intent;
    }

    /** The right mouse button, on wasLeftPressed and isLeftButtonDown. */
    method RightButtonTick(intent: bool) returns (events: seq<Event>)
      modifies this`wasLeftPressed, this`isLeftButtonDown
      ensures var (m, edge) := ClickStep(old(ClickMachine(wasLeftPressed, isLeftButtonDown)), intent);
        ClickMachine(wasLeftPressed, isLeftButtonDown) == m && events == ClickEvent(edge, RightDown, RightUp)
    {
      events := [];
      if intent && !wasLeftPressed {
        events := [RightDown];
        isLeftButtonDown := true;
      } else if !intent && wasLeftPressed && isLeftButtonDown {
        events := [RightUp];
        isLeftButtonDown := false;
      }
      wasLeftPressed := intent;
    }

    /** The zero-vibration writes shutdown sends to the connected slots below n, one per slot,
        in slot order. */
    function ShutdownWrites(n: nat): seq<Event>
      requires Valid() && n <= MaxControllers
      reads slots
    {
      if n == 0 then []
      else ShutdownWrites(n - 1) + (if slots[n - 1].isConnected then [Vibrate(n - 1, 0, 0)] else [])
    }

    /** Input_Cleanup: before shutting down, the vibration of every connected controller is
        switched off (the system is still initialised while this happens), in slot order. */
    method Cleanup() returns (events: seq<Event>)
      requires Valid()
      modifies this
      ensures Valid() && Mouse() == old(Mouse()) && !isInitialized
      ensures !old(isInitialized) ==> events == []
      ensures old(isInitialized) ==> events == ShutdownWrites(MaxControllers)
      ensures old(isInitialized) ==>
        forall e :: e in events <==> exists j :: 0 <= j < MaxControllers && slots[j].isConnected
                                                  && e == Vibrate(j, 0, 0)
    {
      events := [];
      if !isInitialized {
        return;
      }
      for i := 0 to MaxControllers
        invariant events == ShutdownWrites(i)
        invariant forall e :: e in events <==> exists j :: 0 <= j < i && slots[j].isConnected
                                                           && e == Vibrate(j, 0, 0)
      {
        if slots[i].isConnected {
          var write := SetVibration(i, 0.0, 0.0);
          events := events + DeviceWrites(write);
        }
      }
      isInitialized := false;
    }

    /** The part of the thread's pass after Input_Update: Input_ProcessActions, then the
        emulator on the first connected controller, in the mode the actions left behind. */
    method ActThenEmulate(app: App.AppState, cursor: Option<(int, int)>, width: int, height: int)
      returns (events: seq<Event>)
      requires Valid()
      modifies this, app
      ensures Valid() && isInitialized == old(isInitialized)
      ensures forall e :: e in events ==> e.Performed? || e.ModeToggled? || MouseEvent(e)
      ensures !(isInitialized && FirstConnected() >= 0) ==>
        events == [] && Mouse() == old(Mouse())
        && app.currentMode == old(app.currentMode)
        && app.isOverlayVisible == old(app.isOverlayVisible)
        && app.isAnimating == old(app.isAnimating)
      ensures isInitialized && FirstConnected() >= 0 ==>
        var k := FirstConnected();
        var toggled := old(app.isOverlayVisible) && IsButtonJustPressed(k, A);
        var step := MouseStep(old(Mouse()), MouseInputOf(k), cursor, width, height);
        var desktop := app.currentMode == App.Desktop;
        && app.currentMode
           == (if toggled then App.ToggledMode(old(app.currentMode)) else old(app.currentMode))
        && events == (if toggled then [ModeToggled] else MappingEvents(k))
                     + (if desktop then step.1 else [])
        && Mouse() == (if desktop then step.0 else old(Mouse()))
      // the overlay: kept on a mode toggle, otherwise as the mappings leave it, and the slide
      // position is never touched
      ensures isInitialized && FirstConnected() >= 0 ==>
        if old(app.isOverlayVisible) && IsButtonJustPressed(FirstConnected(), A) then
          app.isOverlayVisible == old(app.isOverlayVisible) && app.isAnimating == old(app.isAnimating)
        else
          OverlayAfterMappings(FirstConnected(), old(app.isOverlayVisible), old(app.isAnimating),
                               app.isOverlayVisible, app.isAnimating)
      ensures app.overlaySlidePosition == old(app.overlaySlidePosition)
    {
      var performed := ProcessActions(app);
      var active := ActiveController();
      var emulated := [];
      if active >= 0 {
        emulated := UpdateMouseControl(active, app, cursor, width, height);
      }
      events := performed + emulated;
    }

    /** One pass of the input thread: Update, then ProcessActions, then the emulator on the
        first connected controller. */
    method Tick(queries: seq<Option<Report>>, app: App.AppState, cursor: Option<(int, int)>,
                width: int, height: int) returns (events: seq<Event>)
      requires Valid() && |queries| == MaxControllers
      modifies this, slots, app
      ensures Valid() && isInitialized == old(isInitialized)
      ensures isInitialized ==>
        forall j :: 0 <= j < MaxControllers ==> slots[j] == UpdatedSlot(old(slots[j]), queries[j])
      // a tick in which no controller answers does nothing at all
      ensures (forall j :: 0 <= j < MaxControllers ==> queries[j].None?) ==>
        events == [] && Mouse() == old(Mouse())
        && app.currentMode == old(app.currentMode)
        && app.isOverlayVisible == old(app.isOverlayVisible)
        && app.isAnimating == old(app.isAnimating)
      // no tick ever writes a vibration
      ensures forall e :: e in events ==> !e.Vibrate?
      // with no controller, the actions and the emulator do nothing
      ensures !(isInitialized && FirstConnected() >= 0) ==>
        events == [] && Mouse() == old(Mouse())
        && app.currentMode == old(app.currentMode)
        && app.isOverlayVisible == old(app.isOverlayVisible)
        && app.isAnimating == old(app.isAnimating)
      // otherwise the first connected controller drives the actions, and then the emulator
      // runs in the mode those actions left behind
      ensures isInitialized && FirstConnected() >= 0 ==>
        var k := FirstConnected();
        var toggled := old(app.isOverlayVisible) && IsButtonJustPressed(k, A);
        var step := MouseStep(old(Mouse()), MouseInputOf(k), cursor, width, height);
        var desktop := app.currentMode == App.Desktop;
        && app.currentMode
           == (if toggled then App.ToggledMode(old(app.currentMode)) else old(app.currentMode))
        && events == (if toggled then [ModeToggled] else MappingEvents(k))
                     + (if desktop then step.1 else [])
        && Mouse() == (if desktop then step.0 else old(Mouse()))
      // the overlay: kept on a mode toggle, otherwise as the mappings leave it, and the slide
      // position is never touched
      ensures isInitialized && FirstConnected() >= 0 ==>
        if old(app.isOverlayVisible) && IsButtonJustPressed(FirstConnected(), A) then
          app.isOverlayVisible == old(app.isOverlayVisible) && app.isAnimating == old(app.isAnimating)
        else
          OverlayAfterMappings(FirstConnected(), old(app.isOverlayVisible), old(app.isAnimating),
                               app.isOverlayVisible, app.isAnimating)
      ensures app.overlaySlidePosition == old(app.overlaySlidePosition)
      // so an A press on the overlay that enters desktop mode is also a left click, sent in
      // the same tick
      ensures isInitialized && FirstConnected() >= 0
        && old(app.isOverlayVisible) && old(app.currentMode) == App.Gamepad
        && IsButtonJustPressed(FirstConnected(), A)
        && !old(Mouse()).leftClick.wasPressed && cursor.Some?
        ==> app.currentMode == App.Desktop && events[0] == ModeToggled && LeftDown in events
    {
      var updates := Update(queries);
      ghost var quiet := forall j :: 0 <= j < MaxControllers ==> queries[j].None?;
      if quiet && isInitialized {
        assert forall j :: 0 <= j < MaxControllers ==> !slots[j].isConnected;
      }
      assert Mouse() == old(Mouse());
      assert app.currentMode == old(app.currentMode) && app.isOverlayVisible == old(app.isOverlayVisible);
      assert app.isAnimating == old(app.isAnimating)
        && app.overlaySlidePosition == old(app.overlaySlidePosition);
      var acted := ActThenEmulate(app, cursor, width, height);
      events := updates + acted;
      assert events == acted;
      NoVibrationIn(updates, acted);
      if isInitialized && FirstConnected() >= 0 && app.currentMode == App.Desktop
         && IsButtonJustPressed(FirstConnected(), A) && !old(Mouse()).leftClick.wasPressed
         && cursor.Some? {
        var k := FirstConnected();
        assert MouseInputOf(k).leftIntent;
        FreshLeftIntentClicks(old(Mouse()), MouseInputOf(k), cursor, width, height);
      }
    }
  }
}
