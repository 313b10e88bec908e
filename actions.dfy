/** The action side of src/input/gamepad.c: the GamepadAction values of include/input.h, the
    static button-mapping table, what Input_ExecuteAction does for each action (as an
    effect, the system calls behind it being out of reach), and the events one input tick
    emits. */
module Actions {
  import opened Signal

  /** GamepadAction, in declaration order (ACTION_NONE = 0). */
  datatype Action =
    | NoAction | ToggleOverlay | VolumeUp | VolumeDown | VolumeMute | BrightnessUp
    | BrightnessDown | PowerShutdown | PowerSleep | LaunchApp | NextDisplay | TvPower
    | TvInput | BrowserBack | BrowserForward | ToggleOsk | CustomCommand

  /** The virtual-key codes of the browser navigation keys. */
  const VkBrowserBack: int := 0xA6
  const VkBrowserForward: int := 0xA7

  /** What Input_ExecuteAction asks of the rest of the system. */
  datatype Effect =
    | OverlayToggled                      // App_ToggleOverlay
    | VolumeStep(delta: real)             // Audio_VolumeUp / Audio_VolumeDown
    | MuteToggled                         // Audio_ToggleMute
    | BrightnessStep(increment: int)      // Display_BrightnessUp / Display_BrightnessDown
    | Launch(path: string)                // App_LaunchApplication
    | Execute(command: string)            // App_ExecuteCommand
    | KeyTap(vk: int)                     // SendInput key down, then key up
    | OnScreenKeyboardToggled             // close the OSK window if found, else launch osk.exe
    | Logged(message: string)             // an informational log line only
    | Ignored                             // nothing at all
    | UnknownActionWarning                // the default branch: a warning log line

  /** Input_ExecuteAction. */
  function ExecuteAction(action: Action, payload: string): (e: Effect)
    // only the overlay action toggles the overlay
    ensures e == OverlayToggled <==> action == ToggleOverlay
    // the power actions are disabled: they only log
    ensures action == PowerShutdown || action == PowerSleep ==> e.Logged?
    // launching and custom commands need a non-empty payload, and then pass it on unchanged
    ensures action == LaunchApp ==> (if |payload| > 0 then e == Launch(payload) else e == Ignored)
    ensures action == CustomCommand ==> (if |payload| > 0 then e == Execute(payload) else e == Ignored)
    // the actions without a case, ACTION_NONE among them, fall to the warning
    ensures e == UnknownActionWarning <==> action in {NoAction, NextDisplay, TvPower, TvInput}
    // volume and brightness move by a fixed 10 percent, in the direction the action names
    ensures action == VolumeUp ==> e == VolumeStep(0.1)
    ensures action == VolumeDown ==> e == VolumeStep(-0.1)
    ensures action == BrightnessUp ==> e == BrightnessStep(10)
    ensures action == BrightnessDown ==> e == BrightnessStep(-10)
  {
    match action
    case ToggleOverlay => OverlayToggled
    case VolumeUp => VolumeStep(0.1)
    case VolumeDown => VolumeStep(-0.1)
    case VolumeMute => MuteToggled
    case BrightnessUp => BrightnessStep(10)
    case BrightnessDown => BrightnessStep(-10)
    case PowerShutdown => Logged("Power shutdown action disabled")
    case PowerSleep => Logged("Power sleep action disabled")
    case LaunchApp => if |payload| > 0 then Launch(payload) else Ignored
    case CustomCommand => if |payload| > 0 then Execute(payload) else Ignored
    case BrowserBack => KeyTap(VkBrowserBack)
    case BrowserForward => KeyTap(VkBrowserForward)
    case ToggleOsk => OnScreenKeyboardToggled
    case _ => UnknownActionWarning
  }

  /** ButtonMapping. */
  datatype Mapping = Mapping(button: Button, action: Action, command: string,
                             requiresHold: bool, holdTime: int)

  /** g_buttonMappings: START toggles the overlay, BACK mutes, Y sleeps (a hold entry), X
      toggles the on-screen keyboard, the shoulders go back and forward, and B is a
      placeholder with no action. */
  const Mappings: seq<Mapping> := [
    Mapping(Start, ToggleOverlay, "", false, 0),
    Mapping(Back, VolumeMute, "", false, 0),
    Mapping(Y, PowerSleep, "", true, 2000),
    Mapping(X, ToggleOsk, "", false, 0),
    Mapping(LeftShoulder, BrowserBack, "", false, 0),
    Mapping(RightShoulder, BrowserForward, "", false, 0),
    Mapping(B, NoAction, "", false, 0)
  ]

  /** The table maps each button at most once, and exactly one entry toggles the overlay:
      START's. */
  lemma MappingsShape()
    ensures forall i, j :: 0 <= i < j < |Mappings| ==> Mappings[i].button != Mappings[j].button
    ensures forall i :: 0 <= i < |Mappings| && Mappings[i].action == ToggleOverlay
              <==> i == 0
    ensures Mappings[0].button == Start
  {
  }

  /** The decision Input_ProcessActions makes for one entry: a hold entry fires when its button
      is held and was just pressed, any other entry when it was just pressed. */
  function ShouldExecute(m: Mapping, previous: bv16, current: bv16): (fire: bool)
    ensures fire ==> PressEdge(previous, current, m.button)
  {
    if m.requiresHold then Held(current, m.button) && PressEdge(previous, current, m.button)
    else PressEdge(previous, current, m.button)
  }

  /** The hold requirement is not implemented: a hold entry fires on the press edge exactly
      like any other entry. */
  lemma HoldIsIgnored(m: Mapping, previous: bv16, current: bv16)
    ensures ShouldExecute(m, previous, current) == PressEdge(previous, current, m.button)
  {
  }

  /** The effects, in table order, of the entries among `ms` with an action that fire. */
  function Fired(ms: seq<Mapping>, previous: bv16, current: bv16): (fx: seq<Effect>)
    ensures |fx| <= |ms|
  {
    if |ms| == 0 then []
    else
      var last := ms[|ms| - 1];
      var rest := Fired(ms[..|ms| - 1], previous, current);
      if last.action != NoAction && ShouldExecute(last, previous, current)
      then rest + [ExecuteAction(last.action, last.command)]
      else rest
  }

  /** Each entry with an action contributes its effect if and only if its button was just
      pressed; entries without an action never contribute. */
  lemma {:induction false} FiredMembers(ms: seq<Mapping>, previous: bv16, current: bv16, e: Effect)
    ensures e in Fired(ms, previous, current) <==>
      exists m :: m in ms && m.action != NoAction && PressEdge(previous, current, m.button)
                  && e == ExecuteAction(m.action, m.command)
  {
    if |ms| > 0 {
      var last := ms[|ms| - 1];
      var init := ms[..|ms| - 1];
      FiredMembers(init, previous, current, e);
      HoldIsIgnored(last, previous, current);
      assert ms == init + [last];
      if e in Fired(ms, previous, current) && !(e in Fired(init, previous, current)) {
        assert last in ms;
      }
      if exists m :: m in ms && m.action != NoAction && PressEdge(previous, current, m.button)
                     && e == ExecuteAction(m.action, m.command) {
        var m :| m in ms && m.action != NoAction && PressEdge(previous, current, m.button)
                 && e == ExecuteAction(m.action, m.command);
        if m != last {
          assert m in init;
        }
      }
    }
  }

  /** With no button newly pressed nothing fires. */
  lemma {:induction false} NothingFiresWithoutEdges(ms: seq<Mapping>, buttons: bv16)
    ensures Fired(ms, buttons, buttons) == []
  {
    if |ms| > 0 {
      NothingFiresWithoutEdges(ms[..|ms| - 1], buttons);
    }
  }

  /** Everything one input tick sends out: mouse input, the mode toggle, the effect of an
      action, and vibration writes to a controller. */
  datatype Event =
    | Wheel(delta: int)
    | LeftDown | LeftUp | RightDown | RightUp
    | MoveTo(x: int, y: int)
    | ModeToggled
    | Performed(effect: Effect)
    | Vibrate(index: int, leftSpeed: Word, rightSpeed: Word)
}
