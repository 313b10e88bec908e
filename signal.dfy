/** The controller report and its conditioning in src/input/gamepad.c and include/input.h:
    button bits and their edges, the stick deadzone, the trigger threshold and the vibration
    clamp. Single-precision floats are modelled as reals. */
module Signal {
  import opened Common

  const MaxControllers: int := 4
  /** INPUT_DEADZONE and TRIGGER_THRESHOLD: raw stick and trigger units. */
  const InputDeadzone: int := 8000
  const TriggerThreshold: int := 128

  type Byte = x: int | 0 <= x < 0x100
  type Short = x: int | -0x8000 <= x < 0x8000
  type Word = x: int | 0 <= x < 0x1_0000
  type DWord = x: int | 0 <= x < 0x1_0000_0000

  /** The buttons XInput reports, each one bit of wButtons. */
  datatype Button =
    | DpadUp | DpadDown | DpadLeft | DpadRight | Start | Back | LeftThumb | RightThumb
    | LeftShoulder | RightShoulder | A | B | X | Y

  /** The XINPUT_GAMEPAD_* mask of each button. */
  function Mask(b: Button): bv16
  {
    match b
    case DpadUp => 0x0001
    case DpadDown => 0x0002
    case DpadLeft => 0x0004
    case DpadRight => 0x0008
    case Start => 0x0010
    case Back => 0x0020
    case LeftThumb => 0x0040
    case RightThumb => 0x0080
    case LeftShoulder => 0x0100
    case RightShoulder => 0x0200
    case A => 0x1000
    case B => 0x2000
    case X => 0x4000
    case Y => 0x8000
  }

  /** Every button owns exactly one bit, and no two buttons share it. */
  lemma MasksAreDistinctBits(b: Button, c: Button)
    ensures Mask(b) != 0 && Mask(b) & (Mask(b) - 1) == 0
    ensures b != c ==> Mask(b) & Mask(c) == 0
  {
  }

  /** XINPUT_STATE: the packet number and the XINPUT_GAMEPAD fields. */
  datatype Report = Report(
    packet: DWord,
    buttons: bv16,
    leftTrigger: Byte,
    rightTrigger: Byte,
    thumbLX: Short,
    thumbLY: Short,
    thumbRX: Short,
    thumbRY: Short)

  /** The all-zero state ZeroMemory leaves in a slot. */
  const ZeroReport: Report := Report(0, 0, 0, 0, 0, 0, 0, 0)

  /** `(wButtons & button) != 0`. */
  predicate Held(buttons: bv16, b: Button)
  {
    buttons & Mask(b) != 0
  }

  /** The press edge: held now and not in the previous report. A button never presses and
      releases in the same report; a press edge is a release edge with the two reports
      swapped; and an edge of either kind means the bit changed. */
  function PressEdge(previous: bv16, current: bv16, b: Button): (e: bool)
    ensures e ==> !ReleaseEdge(previous, current, b)
    ensures e == ReleaseEdge(current, previous, b)
    ensures e || ReleaseEdge(previous, current, b) <==> Held(previous, b) != Held(current, b)
  {
    Held(current, b) && !Held(previous, b)
  }

  /** The release edge: held in the previous report and not now. */
  function ReleaseEdge(previous: bv16, current: bv16, b: Button): bool
  {
    !Held(current, b) && Held(previous, b)
  }

  /** Input_ApplyDeadzone: values within the deadzone become 0; outside it the rest of the
      range is stretched back over [0, 1] on each side. */
  function ApplyDeadzone(value: real, deadzone: real): (v: real)
    requires deadzone < 1.0
    ensures -deadzone <= value <= deadzone ==> v == 0.0
  {
    if value > deadzone then (value - deadzone) / (1.0 - deadzone)
    else if value < -deadzone then (value + deadzone) / (1.0 - deadzone)
    else 0.0
  }

  /** With 0 <= d < 1: zero exactly on [-d, d], odd, the full deflections are preserved, [-1, 1]
      maps into [-1, 1], and the sign is kept. */
  lemma {:induction false} DeadzoneShape(value: real, d: real)
    requires 0.0 <= d < 1.0
    ensures ApplyDeadzone(value, d) == 0.0 <==> -d <= value <= d
    ensures ApplyDeadzone(-value, d) == -ApplyDeadzone(value, d)
    ensures ApplyDeadzone(1.0, d) == 1.0 && ApplyDeadzone(-1.0, d) == -1.0
    ensures -1.0 <= value <= 1.0 ==> -1.0 <= ApplyDeadzone(value, d) <= 1.0
    ensures value > d ==> ApplyDeadzone(value, d) > 0.0
    ensures value < -d ==> ApplyDeadzone(value, d) < 0.0
  {
    var k := 1.0 - d;
    if value > d {
      assert (value - d) / k > 0.0;
      if value <= 1.0 {
        assert value - d <= k;
        DivAtMostOne(value - d, k);
      }
    } else if value < -d {
      assert (-value - d) / k > 0.0;
      assert (value + d) / k == -((-value - d) / k);
      if value >= -1.0 {
        DivAtMostOne(-value - d, k);
      }
    }
  }

  lemma {:induction false} DivAtMostOne(a: real, k: real)
    requires 0.0 <= a <= k && k > 0.0
    ensures a / k <= 1.0
  {
    assert a / k * k == a;
  }

  /** A stick axis as Input_GetLeftStick and Input_GetRightStick condition it: the raw value
      over 32767 with the fixed INPUT_DEADZONE / 32767 deadzone (the configured deadzone is
      never consulted). */
  function StickAxis(raw: Short): (v: real)
    ensures -InputDeadzone <= raw <= InputDeadzone ==> v == 0.0
    ensures raw > InputDeadzone ==> v > 0.0
    ensures raw < -InputDeadzone ==> v < 0.0
  {
    ApplyDeadzone(raw as real / 32767.0, InputDeadzone as real / 32767.0)
  }

  /** The stick reads 0 for raw values within INPUT_DEADZONE of the centre and nowhere else,
      and full deflection to the right or up reads 1. */
  lemma {:induction false} StickAxisDeadzone(raw: Short)
    ensures StickAxis(raw) == 0.0 <==> -InputDeadzone <= raw <= InputDeadzone
    ensures raw == 32767 ==> StickAxis(raw) == 1.0
    ensures -1.0 <= StickAxis(raw) <= 1.0 || raw == -32768
  {
    DeadzoneShape(raw as real / 32767.0, InputDeadzone as real / 32767.0);
  }

  /** A trigger as Input_GetLeftTrigger and Input_GetRightTrigger condition it: 0 below the
      threshold, then linear from 0 at the threshold to 1 at 255. */
  function TriggerValue(raw: Byte): (v: real)
    ensures 0.0 <= v <= 1.0
    ensures raw < TriggerThreshold ==> v == 0.0
    ensures raw >= TriggerThreshold ==> v * 127.0 == (raw - TriggerThreshold) as real
  {
    if raw < TriggerThreshold then 0.0
    else (raw - TriggerThreshold) as real / (255.0 - TriggerThreshold as real)
  }

  /** The end points: 127 and 128 both read 0, 255 reads 1; and a trigger counts as pulled
      (more than half way) exactly from raw 192 up. */
  lemma TriggerPoints()
    ensures TriggerValue(127) == 0.0 && TriggerValue(128) == 0.0 && TriggerValue(255) == 1.0
    ensures forall raw: Byte :: TriggerValue(raw) > 0.5 <==> raw >= 192
  {
  }

  /** The clamp Input_SetVibration applies to each motor value. */
  function Clamp01(x: real): (c: real)
    ensures 0.0 <= c <= 1.0
    ensures 0.0 <= x <= 1.0 ==> c == x
    ensures x < 0.0 ==> c == 0.0
    ensures x > 1.0 ==> c == 1.0
  {
    if x < 0.0 then 0.0 else if x > 1.0 then 1.0 else x
  }

  /** `(WORD)(motor * 65535.0f)` after the clamp: always a valid motor speed, 0 for 0 and 65535
      for full power. */
  function MotorSpeed(x: real): (w: Word)
    ensures x <= 0.0 ==> w == 0
    ensures x >= 1.0 ==> w == 65535
  {
    Trunc(Clamp01(x) * 65535.0)
  }
}
