# GPDesk core in Dafny

GPDesk turns an XInput game controller into a desktop remote for Windows. This project models
four parts of it and proves properties of each:

- **The gamepad input engine** (`src/input/gamepad.c`).
  - Four controller slots with double-buffered reports, and the per-tick `Input_Update`.
  - Button, trigger and stick queries, with the deadzone, the trigger threshold and the
    vibration clamp.
  - The static button-mapping table and the action dispatcher `Input_ProcessActions`. While
    the overlay is up, an A press toggles the control mode and nothing else fires.
  - `Input_ExecuteAction`, as a map from an action to the effect it asks for.
  - The desktop-control emulator `Input_UpdateMouseControl`: cursor movement with clamping, a
    fractional scroll accumulator, d-pad line scrolling, and the two (swapped) click
    machines.
  - One pass of the input thread (Update, then ProcessActions, then the emulator on the
    first connected controller) is the `Tick` method of the `InputSystem` class.
- **The configuration** (`src/config/config.c`).
  - The defaults and the range validation that repairs bad fields.
  - The validate-or-reset sequence of `Config_Initialize`.
  - The `key=value` file reader and writer, over the file as a sequence of lines. A
    save-then-load round trip is proved for settings whose strings fit a line: each string is
    empty, or 1 to 383 characters with no line break and no space or tab at either end. It
    restores every flag and number, the volume rounded to hundredths, and every non-empty
    string; an empty string keeps the value it had before the load.
- **The control mode and the overlay** (`src/core/main.c`).
  - Mode toggle, overlay toggle, the initial state, and the integer easing step of the
    overlay's slide animation.
  - The easing step does not terminate. Sliding the 400-pixel overlay always settles 4 pixels
    short of its target, and so does the 396-pixel slide that starts from there, so the
    animation never stops.
- **Brightness scaling** (`src/system/display_control.c`).
  - Clamping the requested percent, and the percent-to-raw and raw-to-percent conversions
    against the monitor's (min, cur, max) range, with its 32-bit unsigned arithmetic.
  - Up and down steps. Each reads the monitor in one pass and writes it in another. When
    both passes read the same monitor, up never dims and down never brightens. A failed read
    counts as 0 percent, so up then sets the increment itself and can dim, and down sets the
    minimum.

Modules:

| module | file | what it holds |
|---|---|---|
| `Common` | common.dfy | Option, C truncation toward zero (`(int)` casts and `/`), division facts |
| `App` | app.dfy | `AppState` class (mode, overlay visibility, animation) and the easing lemmas |
| `Display` | display.dfy | brightness scaling as functions over a monitor probe |
| `Signal` | signal.dfy | reports, button masks, edges, deadzone, trigger, motor speed |
| `Actions` | actions.dfy | actions, `Input_ExecuteAction` as effects, the mapping table, what fires |
| `Emulator` | emulator.dfy | the emulator's per-tick steps as functions on its static state |
| `Gamepad` | gamepad.dfy | `InputSystem` class: slots, queries, Update, ProcessActions, emulator, Tick |
| `ConfigText` | config_text.dfy | `_stricmp`, blank trimming, `atoi`/`%d`, `atof`/`%.2f` |
| `Config` | config.dfy | the settings record, defaults, validation, what initialisation keeps |
| `ConfigFormat` | config_format.dfy | keys, line parsing, loading, the saved lines, the round trip |
| `ConfigStore` | config_store.dfy | `Store` class: the global `g_config` and the methods that update it |

Where C and Dafny differ, the C meaning is written out:

- C `int` division and `(int)` casts truncate toward zero (`Common.CDiv`, `Common.Trunc`).
- DWORD arithmetic wraps modulo 2^32 (`Display.RawLevel`, `Display.Percent`).
- `atoi` saturates at the ends of the `int` range (`ConfigText.Saturate`).
- `float` values are reals.

Windows calls become inputs and outputs:

- XInput answers, the cursor position, the screen size and the monitor readings are
  parameters.
- `SendInput`, `SetCursorPos`, `XInputSetState` and the actions' system calls become the
  events a tick returns.

## Model

| member | source | states |
|---|---|---|
| Common.Trunc | src/input/gamepad.c:682-683 | the `(int)` cast of a float truncates toward zero: the result is within one unit of x, on the side of zero |
| Common.CDiv | src/core/main.c:532 | C division by a positive divisor: the magnitude is the floor of the magnitudes' quotient and the sign follows the dividend |
| Common.CDivOdd | src/core/main.c:532 | truncating division is odd in its dividend |
| App.ToggledMode | src/core/main.c:557-558 | the toggled mode always differs from the old one |
| App.ToggleModeInvolution | src/core/main.c:553-566 | toggling the mode twice gives back the original mode |
| App.ModeName | src/core/main.c:568-572 | the name is "Desktop Control" exactly for desktop mode, and "Gamepad Mode" otherwise |
| App.SlideTarget | src/core/main.c:513-526 | the target lies 400 pixels left of the right edge when the overlay is visible, and at the edge when it is hidden |
| App.EaseStep | src/core/main.c:529-538 | the step never overshoots and never moves away from the target; it stops exactly when within 2 pixels, and then lands on the target |
| App.EaseStallsAtThreeOrFour | src/core/main.c:529-533 | at a distance of 3 or 4 pixels the step changes nothing and the animation keeps running |
| App.EaseProgressFromFive | src/core/main.c:529-533 | from 5 pixels up, every step strictly closes the gap |
| App.GapAfter | src/core/main.c:529-538 | after any number of timer ticks the gap is no larger than at the start |
| App.EaseStepGap | src/core/main.c:529-533 | one easing step changes the gap as one tick of GapAfter does; only the distance matters |
| App.GapAfterAdd | src/core/main.c:443-447 | running a + b timer ticks is running a ticks, then b more |
| App.GapZeroStays | src/core/main.c:534-537 | once snapped, the gap stays 0 |
| App.GapFourStays | src/core/main.c:529-533 | gaps of 4 and -4 pixels are fixed points of the easing |
| App.SlideOrbitSteps | src/core/main.c:529-533 | each gap of the 400-pixel slide is more than 2, and the next gap is it minus its truncated fifth |
| App.SlideOrbitEnds | src/core/main.c:529-533 | from any gap of the 400-pixel slide, the remaining ticks end at a gap of 4 |
| App.WidthSettles | src/core/main.c:529-533 | sliding 400 pixels reaches a gap of exactly 4 after 23 ticks and keeps it on every later tick |
| App.SlideSettlesAtFour | src/core/main.c:529-538 | showing or hiding the overlay, from the full 400 pixels or from the 396 an earlier settled slide leaves, settles 4 pixels short of the target on the approach side, so the animation never finishes |
| App.ShortSlideSettles | src/core/main.c:529-538 | a 396-pixel slide steps 396, 317, 254, 204, joins the full-width orbit at 164 and settles at 4 |
| App.GapAfterOdd | src/core/main.c:529-533 | the easing is symmetric: a negated gap evolves as the negation |
| App.GapNeverCloses | src/core/main.c:529-538 | a gap of 3 or more pixels never falls to 2 or less, so the snap branch is never reached from there |
| App.AppState.constructor | src/core/main.c:87-89 | start in gamepad mode, overlay hidden, not animating, and the overlay just off the right edge (main.c:247) |
| App.AppState.ToggleMode | src/core/main.c:553-566 | the mode becomes the toggled mode; visibility, animation and position are unchanged |
| App.AppState.ToggleOverlay | src/core/main.c:486-509 | visibility is negated and the animation runs after both showing and hiding; mode and position are unchanged |
| App.AppState.AnimateOverlay | src/core/main.c:511-551 | the position takes one easing step toward the target for the current visibility, and the gap changes as GapAfter says; animating ends only on a snap |
| App.AppState.OnAnimationTimer | src/core/main.c:443-447 | the timer steps the animation only while it runs; otherwise nothing changes |
| App.AppState.GetModeName | src/core/main.c:568-572 | "Desktop Control" exactly in desktop mode, "Gamepad Mode" otherwise |
| Display.ToInt32 | src/system/display_control.c:132-133 | the DWORD percent converted to `int` is a 32-bit value congruent to it modulo 2^32 |
| Display.ClampPercent | src/system/display_control.c:10-17 | the request is clamped into [0, 100]: negatives become 0, values over 100 become 100, the rest are kept |
| Display.RawLevel | src/system/display_control.c:59-60 | 0 percent gives the minimum level |
| Display.Percent | src/system/display_control.c:130-133 | the percent fits a signed 32-bit `int`, and is 0 when max <= min |
| Display.RawLevelInRange | src/system/display_control.c:59-60 | with min <= max and no wrap-around, the raw level is min + ((max - min) * p) / 100; 0 gives min, 100 gives max, and every level lies between |
| Display.RawLevelMonotone | src/system/display_control.c:59-60 | a higher percent never gives a lower raw level |
| Display.PercentInRange | src/system/display_control.c:130-133 | for a sane reading the percent is ((cur - min) * 100) / (max - min) when max > min, and 0 otherwise; it lies in [0, 100] |
| Display.GetBrightness | src/system/display_control.c:86-151 | 0 when enumeration fails, there is no monitor, or the brightness query fails; otherwise the first monitor's percent |
| Display.SetBrightness | src/system/display_control.c:6-84 | succeeds exactly when the monitor is found, read and written; it writes the scaled level of the clamped request, and writes nothing when enumeration or the query fails |
| Display.ScaleBack | src/system/display_control.c:59-60 | scaling a percent to a span and back never gives more than the percent, and gives exactly it when the span times the percent is a multiple of 100 |
| Display.ReadBackAfterSet | src/system/display_control.c:59-60 | reading back the level set for p gives at most p, and exactly p when (max - min) * p is a multiple of 100 |
| Display.PercentOfLevel | src/system/display_control.c:132-133 | the percent read back from the level set for p is the truncated scale-and-back of p |
| Display.LevelSane | src/system/display_control.c:59-60 | the level set for p forms a sane reading that lies ((max - min) * p) / 100 above min |
| Display.BrightnessUp | src/system/display_control.c:153-172 | a non-positive increment is refused without touching the monitor; otherwise the percent read in one pass plus the increment is set in a second, separate pass |
| Display.BrightnessDown | src/system/display_control.c:174-193 | the same, with the increment subtracted from the percent read |
| Display.PercentScaleBounds | src/system/display_control.c:132-133 | scaling the read percent back never exceeds the current level, and any higher percent reaches at least the current level |
| Display.RawOfPercentAtMostCur | src/system/display_control.c:130-133 | the raw level of the percent read back never exceeds the current level |
| Display.RawAbovePercentAtLeastCur | src/system/display_control.c:59-60 | any percent above the one read back gives a raw level at least the current one |
| Display.UpDownDirection | src/system/display_control.c:153-193 | when the read pass and the write pass see the same sane reading, brightness up never writes a dimmer level and brightness down never writes a brighter one |
| Display.FailedReadStartsFromZero | src/system/display_control.c:153-193 | when the read pass fails and the write pass finds the monitor, up writes the level of the increment itself and down writes the minimum, whatever the current level |
| Display.BrightnessUpCanDim | src/system/display_control.c:153-172 | a monitor at 80 of 0..100 whose read fails is set to 10 by brightness up |
| Signal.MasksAreDistinctBits | include/input.h:15-31 | each button owns exactly one bit of wButtons, and no two buttons share one |
| Signal.PressEdge | src/input/gamepad.c:233-277 | a button never presses and releases in the same report; a press is a release with the two reports swapped; an edge of either kind happens exactly when the bit changed |
| Signal.DeadzoneShape | src/input/gamepad.c:415-427 | with 0 <= d < 1 the result is 0 exactly on [-d, d], is odd, maps ±1 to ±1 and [-1, 1] into [-1, 1], and keeps the sign |
| Signal.ApplyDeadzone | src/input/gamepad.c:415-427 | a value within [-deadzone, deadzone] becomes 0 |
| Signal.StickAxis | src/input/gamepad.c:354-355 | a raw axis within INPUT_DEADZONE of centre reads 0, and outside it reads with the sign of the raw value |
| Signal.StickAxisDeadzone | src/input/gamepad.c:354-355 | a stick axis reads 0 exactly within the fixed INPUT_DEADZONE of centre, reads 1 at full deflection, and stays in [-1, 1] except at raw -32768 |
| Signal.TriggerValue | src/input/gamepad.c:295-300 | 0 below the threshold of 128, and (raw - 128) / 127 from it, always in [0, 1] |
| Signal.TriggerPoints | src/input/gamepad.c:295-300 | 127 and 128 read 0 and 255 reads 1; a trigger reads over one half exactly from raw 192 up |
| Signal.Clamp01 | src/input/gamepad.c:403-406 | each motor value is clamped into [0, 1], and values already inside are kept |
| Signal.MotorSpeed | src/input/gamepad.c:409-410 | the scaled motor speed is a WORD: 0 at or below 0, 65535 at or above 1 |
| Actions.ExecuteAction | src/input/gamepad.c:514-644 | only the overlay action toggles the overlay; power actions only log; launch and custom command pass a non-empty payload on and do nothing without one; NONE, NEXT_DISPLAY and the TV actions fall to the warning; volume and brightness move 10 percent in the named direction |
| Actions.MappingsShape | src/input/gamepad.c:11-22 | the table maps each button at most once, and only its first entry, START's, toggles the overlay |
| Actions.HoldIsIgnored | src/input/gamepad.c:492-504 | a hold entry fires on the press edge exactly like any other entry |
| Actions.ShouldExecute | src/input/gamepad.c:492-504 | an entry fires only on its button's press edge |
| Actions.Fired | src/input/gamepad.c:481-511 | at most one effect per table entry |
| Actions.FiredMembers | src/input/gamepad.c:481-511 | an effect is produced exactly when some entry with an action has its button just pressed and maps to that effect |
| Actions.NothingFiresWithoutEdges | src/input/gamepad.c:481-511 | with no button newly pressed, nothing fires |
| Emulator.ClampAxis | src/input/gamepad.c:693-696 | for a screen at least one pixel wide, the clamped coordinate lies on the screen |
| Emulator.ClampAxisOnScreen | src/input/gamepad.c:693-696 | on-screen values are kept, and off-screen ones go to the nearest edge |
| Emulator.CursorStep | src/input/gamepad.c:670-699 | nothing moves exactly when both right-stick values are 0; a failed cursor query abandons the tick; a move lands on the screen |
| Emulator.CursorMovesByDelta | src/input/gamepad.c:679-687 | away from the edges the cursor moves by exactly the truncated deltas (x * 20, -y * 20), each at most 20 pixels |
| Emulator.ScrollStepProperties | src/input/gamepad.c:707-731 | with the stick at rest the accumulator is untouched; a wheel event goes out exactly when the accumulator reaches a whole unit, as a nonzero multiple of 12 in its direction, and what stays behind is below one unit and keeps its sign |
| Emulator.ScrollAccumulatorBounded | src/input/gamepad.c:716-730 | the accumulator stays strictly within one unit of 0 from tick to tick |
| Emulator.ScrollStep | src/input/gamepad.c:707-731 | with the stick at rest the accumulator is kept and no wheel event goes out; a wheel event is a nonzero multiple of 12 |
| Emulator.FreshLeftIntentClicks | src/input/gamepad.c:775-797 | a left-click intent that was off last tick sends LeftDown, unless the cursor query abandons the tick |
| Emulator.WheelEvents | src/input/gamepad.c:723-727 | at most one event, a wheel turn |
| Emulator.DpadStep | src/input/gamepad.c:737-763 | +40 exactly on the up button's press edge and -40 exactly on the down button's; only wheel turns, at most two |
| Emulator.ClickStep | src/input/gamepad.c:776-797 | a down goes out exactly on the intent's rising edge, an up exactly on its falling edge with a down recorded; the last intent is remembered |
| Emulator.ClickStepKeepsConsistent | src/input/gamepad.c:776-821 | from a state where a button is down exactly when the intent was on, every step keeps that; a down is sent only while up, and an up only while down |
| Emulator.ClickRun | src/input/gamepad.c:767-821 | a run of ticks sends at most one click edge per tick |
| Emulator.ClickRunAlternates | src/input/gamepad.c:767-821 | downs and ups alternate, and the button ends down exactly when the last edge was a down |
| Emulator.HeldThenReleased | src/input/gamepad.c:776-797 | holding the intent for N ticks and letting go gives exactly one down and one up |
| Emulator.HeldStaysDown | src/input/gamepad.c:776-797 | with the button already down, further held ticks send nothing and the release sends one up |
| Emulator.ClickEvent | src/input/gamepad.c:777-796 | a click edge becomes its button's down or up event and nothing else |
| Emulator.MouseStep | src/input/gamepad.c:646-822 | an abandoned tick changes nothing and sends nothing; a tick sends only mouse input |
| Emulator.MouseStepKeepsInvariant | src/input/gamepad.c:712-821 | every tick keeps both click machines consistent and the accumulator within one unit |
| Gamepad.UpdatedSlot | src/input/gamepad.c:156-189 | the previous report becomes the pre-call current one and wasConnected the pre-call isConnected; the slot is connected exactly when the query worked |
| Gamepad.TransitionsHappenOnce | src/input/gamepad.c:167-188 | two failures in a row show no second disconnect, and two successes no second connect |
| Gamepad.Performances | src/input/gamepad.c:506-510 | one performed event per effect, in order |
| Gamepad.PerformancesConcat | src/input/gamepad.c:481-511 | the events of two lists of effects are the two event lists joined |
| Gamepad.FiredStep | src/input/gamepad.c:481-511 | one more table entry adds its effect after the effects of the entries before it |
| Gamepad.MappingAt | src/input/gamepad.c:11-22 | entry i toggles the overlay exactly when it is entry 0, which is START's |
| Gamepad.NoVibrationIn | src/input/gamepad.c:121-134 | a tick whose update writes nothing and whose later steps only perform effects, toggle the mode or send mouse input writes no vibration |
| Gamepad.InputSystem.Mouse | src/input/gamepad.c:770-773 | the left button's machine runs on the `Right` statics and the right button's on the `Left` statics |
| Gamepad.InputSystem.constructor | src/input/gamepad.c:6 | all slots empty, not initialised, all emulator statics at their initial values |
| Gamepad.InputSystem.Initialize | src/input/gamepad.c:26-76 | a second call succeeds and changes nothing; otherwise every slot is cleared, and the system is initialised exactly when the thread started |
| Gamepad.InputSystem.IsButtonPressed | src/input/gamepad.c:214-231 | true exactly for a valid index of an initialised system with a connected slot whose current report holds the button |
| Gamepad.InputSystem.IsButtonJustPressed | src/input/gamepad.c:233-254 | true exactly for a ready slot whose button has a press edge |
| Gamepad.InputSystem.IsButtonJustReleased | src/input/gamepad.c:256-277 | true exactly for a ready slot whose button has a release edge |
| Gamepad.InputSystem.EdgeQueriesExclusive | src/input/gamepad.c:233-277 | never both just pressed and just released; both false for a bad index or an absent controller |
| Gamepad.InputSystem.HasStateChanged | src/input/gamepad.c:429-447 | true exactly for a ready slot whose two reports have different packet numbers |
| Gamepad.InputSystem.LeftTrigger | src/input/gamepad.c:279-301 | in [0, 1] and 0 unless the slot is ready; for a ready slot, 0 below the threshold of 128 and (bLeftTrigger - 128) / 127 from it |
| Gamepad.InputSystem.RightTrigger | src/input/gamepad.c:303-325 | in [0, 1] and 0 unless the slot is ready; for a ready slot, 0 below the threshold of 128 and (bRightTrigger - 128) / 127 from it |
| Gamepad.InputSystem.LeftStick | src/input/gamepad.c:327-356 | (0, 0) unless the slot is ready; for a ready slot, both thumb axes through the fixed INPUT_DEADZONE, as StickAxis (and StickAxisDeadzone) says |
| Gamepad.InputSystem.RightStick | src/input/gamepad.c:358-387 | (0, 0) unless the slot is ready; for a ready slot, both thumb axes through the fixed INPUT_DEADZONE, as StickAxis (and StickAxisDeadzone) says |
| Gamepad.InputSystem.MouseInputOf | src/input/gamepad.c:666-799 | the cursor follows the right stick and the scroll the left stick's Y axis; the d-pad flags are the d-pad buttons; the left-click intent is exactly the right trigger past one half or A held, and the right-click intent the left trigger past one half or B held; a slot that is not ready gives the centred, released input |
| Gamepad.InputSystem.SetVibration | src/input/gamepad.c:389-413 | a write happens exactly for a ready slot; it carries both motors clamped into [0, 1] and scaled to 0..65535 |
| Gamepad.InputSystem.Update | src/input/gamepad.c:143-192 | before initialisation nothing changes; otherwise every slot updates as UpdatedSlot says; no vibration write ever goes out, because the disconnect is recorded before the write is attempted |
| Gamepad.InputSystem.FirstConnected | src/input/gamepad.c:457-465 | the lowest-numbered connected slot, or -1 exactly when none is connected |
| Gamepad.InputSystem.FirstConnectedFrom | src/input/gamepad.c:458-465 | the lowest connected slot from k on, or -1 exactly when none from k on is connected |
| Gamepad.InputSystem.ActiveController | src/input/gamepad.c:457-465 | the search loop finds the first connected slot |
| Gamepad.InputSystem.ProcessActions | src/input/gamepad.c:449-512 | nothing happens before initialisation or with no controller; with the overlay up, an A press toggles the mode and nothing else; otherwise the table entries that fire perform their effects in order, and the overlay toggles exactly on a START press |
| Gamepad.InputSystem.RunMappings | src/input/gamepad.c:481-511 | the loop performs the effects of the entries that fire, in table order; only START's entry toggles the overlay; mode and position are untouched |
| Gamepad.InputSystem.RunEntry | src/input/gamepad.c:483-510 | an entry without an action is skipped; otherwise it fires on its button's press edge, and the overlay action toggles the overlay |
| Gamepad.InputSystem.UpdateMouseControl | src/input/gamepad.c:646-822 | outside desktop mode or for a slot that is not ready nothing changes, so a pending button-down stays unmatched; otherwise one MouseStep on the slot's conditioned input |
| Gamepad.InputSystem.Emulate | src/input/gamepad.c:665-821 | the statics and the events are exactly one MouseStep |
| Gamepad.InputSystem.MoveCursor | src/input/gamepad.c:665-700 | the cursor part as CursorStep says: abandoned exactly when the cursor query fails with the stick off centre |
| Gamepad.InputSystem.ScrollTick | src/input/gamepad.c:702-731 | the accumulator and the wheel event as ScrollStep says |
| Gamepad.InputSystem.DpadTick | src/input/gamepad.c:733-763 | the line-scroll events as DpadStep says, and the d-pad recorded as last seen |
| Gamepad.InputSystem.LeftButtonTick | src/input/gamepad.c:775-797 | the left-button machine steps as ClickStep says, sending LeftDown or LeftUp |
| Gamepad.InputSystem.RightButtonTick | src/input/gamepad.c:799-821 | the right-button machine steps as ClickStep says, sending RightDown or RightUp |
| Gamepad.InputSystem.Cleanup | src/input/gamepad.c:78-115 | when initialised, the writes are exactly one zero-vibration write per connected controller, in slot order, and none to any other slot; then the system is no longer initialised |
| Gamepad.InputSystem.ActThenEmulate | src/input/gamepad.c:124-134 | with no controller nothing changes; otherwise an overlay A press toggles the mode and is reported first, keeping the overlay as it was, or else the mappings fire and the overlay follows them (START toggles it and starts the slide); the slide position is never touched; then in desktop mode (as it now is) one MouseStep runs on the first controller, and outside it the emulator state is kept |
| Gamepad.InputSystem.Tick | src/input/gamepad.c:117-141 | the slots update as UpdatedSlot says; a tick in which no controller answers does nothing else; otherwise the mode toggles on an overlay A press, reported first, with the overlay kept, or the mappings fire and the overlay follows them; the slide position is untouched; and then the emulator steps by MouseStep exactly in desktop mode; an overlay A press that enters desktop mode also sends LeftDown in the same tick; no tick writes a vibration |
| ConfigText.Lower | src/config/config.c:354 | `_stricmp` folds exactly the ASCII capitals to lower case |
| ConfigText.EqualsIgnoreCaseIsEquivalence | src/config/config.c:354-393 | equality up to case is an equivalence, and is plain equality on text without capitals |
| ConfigText.TrimLeft | src/config/config.c:340-344 | the result is the input without its leading spaces and tabs, and starts with neither |
| ConfigText.TrimRight | src/config/config.c:346-351 | the result is the input without its trailing spaces and tabs, and ends with neither |
| ConfigText.NatToStringValue | src/config/config.c:432 | the digits `%d` writes for a natural number read back as that number |
| ConfigText.IntToStringChars | src/config/config.c:432 | `%d` writes a minus exactly for a negative number, and digits otherwise |
| ConfigText.IntToString | src/config/config.c:432 | `%d` never writes an empty string |
| ConfigText.NatToString | src/config/config.c:432 | the digits of a natural number are never empty |
| ConfigText.IntToStringLength | src/config/config.c:432 | an `int` prints in at most 11 characters, well within the 383-character value field |
| ConfigText.Saturate | src/config/config.c:361 | `atoi` keeps in-range values and saturates at the ends of the `int` range |
| ConfigText.Atoi | src/config/config.c:361 | text with no digits after its white space and sign reads as 0 |
| ConfigText.AtoiIntToString | src/config/config.c:361 | `atoi` reads back every `int` that `%d` writes |
| ConfigText.AtoiNonNumeric | src/config/config.c:361 | text that starts with no digit, sign or space reads as 0 |
| ConfigText.Atof | src/config/config.c:369 | text with neither digits nor a point after its white space and sign reads as 0 |
| ConfigText.Hundredths | src/config/config.c:440 | `%.2f` shows the absolute value rounded to the nearest hundredth |
| ConfigText.Format2 | src/config/config.c:440 | `%.2f` text ends with a point and two decimals |
| ConfigText.Format2Chars | src/config/config.c:440 | `%.2f` writes a minus exactly for a negative value, then digits and the point |
| ConfigText.AtofFormat2 | src/config/config.c:369 | `atof` reads `%.2f` text back as the value rounded to hundredths |
| ConfigText.AtofFormat2Exact | src/config/config.c:369 | a whole number of hundredths survives `%.2f` and `atof` exactly |
| Config.Defaults | src/config/config.c:71-100 | the default deadzone is INPUT_DEADZONE |
| Config.DefaultsInRange | src/config/config.c:71-92 | every default passes every range check of the validator |
| Config.ValidatedRepairs | src/config/config.c:474-521 | after validation every checked field is in range; in-range fields are kept and out-of-range ones take the default; flags and strings never change |
| Config.ValidatedIdempotent | src/config/config.c:474-521 | validation changes nothing exactly when everything is in range, and a second validation changes nothing |
| Config.Validated | src/config/config.c:474-521 | every checked field ends in range, and the unchecked flags and strings are kept |
| Config.AfterInitialize | src/config/config.c:28-33 | what initialisation keeps is always in range |
| Config.InitializeDiscardsRepairs | src/config/config.c:28-33 | a failed validation resets everything to the defaults, discarding loaded flags and strings that validation had kept |
| ConfigFormat.KeyNameShape | src/config/config.c:354-393 | every key name has 1 to 127 characters, none of them '=', and starts and ends with a letter or digit, so the loader's trims and skip check leave it whole |
| ConfigFormat.KeyNamesDistinct | src/config/config.c:354-393 | no two keys have names equal up to case |
| ConfigFormat.EqualNamesSameSignature | src/config/config.c:354-393 | names equal up to case have the same length and the same first and last letter up to case |
| ConfigFormat.InChain | src/config/config.c:354-393 | the `_stricmp` chain tries every key |
| ConfigFormat.FindKey | src/config/config.c:354-393 | the key found has a name equal to the text up to case; no key is found only when none matches |
| ConfigFormat.KeyOf | src/config/config.c:354-393 | a key text names a key exactly when it equals that key's name up to case, and names no key otherwise |
| ConfigFormat.KeyOfIgnoresCase | src/config/config.c:354-393 | keys match regardless of case |
| ConfigFormat.TrailingBlankKeyIgnored | src/config/config.c:340-341 | a key text that ends in a blank names no key |
| ConfigFormat.BlankEndedDiffers | src/config/config.c:340-341 | text ending in a blank differs up to case from every key name |
| ConfigFormat.Get | include/config.h:15-50 | each key's field holds a value of that key's kind |
| ConfigFormat.GetDetermines | include/config.h:15-50 | the keys cover every setting: settings that agree on every key are equal |
| ConfigFormat.Convert | src/config/config.c:354-393 | each key's value text becomes a value of that key's kind |
| ConfigFormat.Assign | src/config/config.c:354-393 | the matched key's field takes the converted value |
| ConfigFormat.AssignFrame | src/config/config.c:354-393 | setting one key leaves every other key's field unchanged |
| ConfigFormat.AssignOverwrites | src/config/config.c:354-393 | setting the same key twice keeps only the second value |
| ConfigFormat.KeyRun | src/config/config.c:337 | the `%127[^=]` run stops at the first '=' or at the end |
| ConfigFormat.ValueRun | src/config/config.c:337 | the `%383[^\n\r]` run stops at the first line break or at the end |
| ConfigFormat.ScanKeyValue | src/config/config.c:337 | the scan matches exactly when 1 to 127 non-'=' characters, an '=' and a non-break character follow each other; the value runs to the line break, cut at 383 characters |
| ConfigFormat.ParseLine | src/config/config.c:333-351 | a line yields a key and value exactly when it is not a comment or blank line and the scan matches; the key has no leading blank and the value no edge blank |
| ConfigFormat.LoadLinesStep | src/config/config.c:330-395 | reading one more line applies it to what the earlier lines gave |
| ConfigFormat.ApplyLineEffect | src/config/config.c:337-393 | a line naming a key sets exactly that key's field from its value; a line naming no key changes nothing |
| ConfigFormat.ParserIgnores | src/config/config.c:333-337 | comment and line-break lines, lines with no '=', an empty key part, a key part over 127 characters, or nothing after the '=' change nothing |
| ConfigFormat.EmptyKeyIgnored | src/config/config.c:354-393 | an empty key text names no key |
| ConfigFormat.BlankBeforeEqualsIgnored | src/config/config.c:340-341 | a blank just before the '=' (as in "LogLevel =3") makes the line name no key and change nothing |
| ConfigFormat.LoadLinesConcat | src/config/config.c:330-395 | loading a file in two parts is loading the second part over the first |
| ConfigFormat.LastOccurrenceWins | src/config/config.c:330-395 | the last line naming a key decides its field |
| ConfigFormat.ApplyLine | src/config/config.c:337-393 | a comment or blank line changes nothing |
| ConfigFormat.CommentsChangeNothing | src/config/config.c:330-395 | a file of comment and blank lines only leaves the settings as they were |
| ConfigFormat.UnnamedKeyKept | src/config/config.c:330-395 | a key named by no line keeps its prior value |
| ConfigFormat.LaterLineWins | src/config/config.c:354-393 | a later line for a key replaces what an earlier one set |
| ConfigFormat.ValueSpellings | src/config/config.c:354-381 | "true" and "1" in any case set a flag and anything else clears it; a number without digits reads as 0 |
| ConfigFormat.ConvertFlag | src/config/config.c:355 | a flag key reads true exactly for "true" or "1" up to case |
| ConfigFormat.ConvertNumber | src/config/config.c:361 | a number key's value is read with `atoi` |
| ConfigFormat.Entries | src/config/config.c:429-458 | one line per key written |
| ConfigFormat.SaveLines | src/config/config.c:425-458 | the saved file has exactly 34 lines |
| ConfigFormat.WrittenStorable | src/config/config.c:429-450 | flags and numbers always print as text the loader reads back unchanged, and so does a volume whose `%.2f` fits the value field |
| ConfigFormat.ApplyEntry | src/config/config.c:337-393 | an entry line with a readable value names its key and sets exactly that key to the value |
| ConfigFormat.ParseEntry | src/config/config.c:337-351 | "name=value" with a well-formed name and a readable value parses to exactly that name and value |
| ConfigFormat.EmptyEntryIgnored | src/config/config.c:337 | an entry with an empty value ("FavoriteApp1=") names no key and is skipped |
| ConfigFormat.TitleIgnored | src/config/config.c:337 | a section title line is skipped |
| ConfigFormat.HeaderIgnored | src/config/config.c:333 | the two comment lines at the top are skipped |
| ConfigFormat.SectionHeadIgnored | src/config/config.c:333-337 | the blank line and title line before each section are skipped |
| ConfigFormat.LoadSection | src/config/config.c:428-458 | loading a saved section sets each key of the section from its saved text |
| ConfigFormat.LoadEntries | src/config/config.c:429-458 | loading the entry lines of some keys sets each of those keys from its saved text |
| ConfigFormat.EntryStep | src/config/config.c:429-458 | one more entry line adds its key to those restored |
| ConfigFormat.StoredEntry | src/config/config.c:429-458 | a non-empty entry restores its own key and touches no other |
| ConfigFormat.WrittenNonEmpty | src/config/config.c:453-458 | only an empty string is written as nothing |
| ConfigFormat.ReadBackFlag | src/config/config.c:429 | "true"/"false" read back as the flag written |
| ConfigFormat.FlagReadsBack | src/config/config.c:429 | a flag key reads back the flag written |
| ConfigFormat.NumberReadsBack | src/config/config.c:432 | a number key reads back every `int` written with `%d` |
| ConfigFormat.ReadBackKey | src/config/config.c:429-458 | every key whose saved text is not empty reads back as the round trip restores it |
| ConfigFormat.InSomeSection | src/config/config.c:428-458 | every key is written in one of the six sections |
| ConfigFormat.RestoredFromReloaded | src/config/config.c:428-458 | once every key is restored, the result is the restored settings |
| ConfigFormat.SaveLoadRoundTrip | src/config/config.c:425-458 | when every string is empty or 1 to 383 characters with no line break and no blank at either end, and the volume's `%.2f` text fits, loading the saved file over any settings restores flags and numbers exactly, the volume rounded to hundredths, and every non-empty string; an empty string's line is skipped, so the prior value stays |
| ConfigFormat.SaveLoadExact | src/config/config.c:425-458 | settings with non-empty readable strings and a volume in whole hundredths survive a save and a load exactly |
| ConfigFormat.Entry | src/config/config.c:429-458 | a saved line is the key, '=', the value and a newline: its length is theirs plus 2 |
| ConfigFormat.Written | src/config/config.c:429-458 | a field prints as the empty string only when it is the empty string |
| ConfigFormat.Section | src/config/config.c:429-458 | a section is a blank line, its header and one line per key |
| ConfigFormat.EntriesContent | src/config/config.c:429-458 | the i-th entry line is the i-th key, '=', its field as printed and a newline |
| ConfigFormat.SectionContent | src/config/config.c:429-458 | a section is a blank line, the line `[title Settings]`, and then the entry lines of its keys |
| ConfigFormat.EmptyFavoriteReverts | src/config/config.c:456 | an emptied FavoriteApp1 comes back as "notepad.exe" when loaded over the defaults |
| ConfigStore.Store.constructor | src/config/config.c:6 | the global starts zeroed and not loaded |
| ConfigStore.Store.SetDefaults | src/config/config.c:66-104 | afterwards the settings are exactly the defaults |
| ConfigStore.Store.ValidateSettings | src/config/config.c:467-525 | the result is true exactly when every checked field was in range, and the settings become their validated repair |
| ConfigStore.Store.SetField | src/config/config.c:354-393 | the matched key's field takes the converted value and nothing else changes |
| ConfigStore.Store.LoadFromFile | src/config/config.c:305-402 | a file that cannot be opened changes nothing and returns false; otherwise every line is applied in order |
| ConfigStore.Store.LoadLine | src/config/config.c:332-394 | one pass of the read loop applies the line as ApplyLine says |
| ConfigStore.Store.SaveToFile | src/config/config.c:425-458 | the lines written are the header and the six sections of the current settings |
| ConfigStore.Store.WriteSection | src/config/config.c:428-458 | one section: the blank line, its title, and one entry per key in order |
| ConfigStore.Store.Initialize | src/config/config.c:8-42 | a second call changes nothing; otherwise the settings are the defaults overlaid by the file, kept if valid and reset to the defaults otherwise |
| ConfigStore.Store.Cleanup | src/config/config.c:44-64 | when loaded the current settings are saved and the store is marked unloaded; otherwise nothing is saved |
| ConfigStore.CheckWhole | src/config/config.c:474-479 | an integer check passes exactly within its range and otherwise resets the value |
| ConfigStore.CheckFraction | src/config/config.c:495-500 | the volume check passes exactly within [0.01, 1.0] and otherwise resets the value |
| ConfigStore.SplitLine | src/config/config.c:332-351 | the skip check, the scan and the trims give exactly ParseLine |
| ConfigStore.SkipBlanks | src/config/config.c:340-344 | the loop that steps past leading blanks yields the text without them |
| ConfigStore.DropTrailingBlanks | src/config/config.c:346-351 | writing '\0' over trailing blanks yields the text without its trailing blanks |
| ConfigStore.LeftTrimUnique | src/config/config.c:341 | where the left-trim loop stops is where TrimLeft cuts |
| ConfigStore.RightTrimUnique | src/config/config.c:348-351 | where the right-trim loop stops is where TrimRight cuts |

## Left out

- Threads and locks: the input thread, `Sleep(16)`, the critical sections, `shouldStopThread` and the thread join (src/input/gamepad.c:26-141) are concurrency. One pass of the thread's loop is `Gamepad.InputSystem.Tick`, run sequentially.
- Gamepad.InputSystem.Initialize: the thread creation is the `threadStarted` parameter. The critical-section setup is not modelled.
- Gamepad.InputSystem.Update: a failed XInputGetState is taken to leave the current report as it was. The API does not promise that, and no behaviour here depends on it while the slot is disconnected.
- The tick-count fields `lastUpdateTime`, `connectionCheckTime` and `lastPacketNumber` are written but drive nothing, so they are not modelled.
- Windows calls are inputs and events:
  - XInputGetState answers, GetCursorPos, GetSystemMetrics and the monitor readings are parameters.
  - SendInput, SetCursorPos and XInputSetState are events.
  - The mouse wheel's `mouseData` is a signed delta rather than the DWORD it is stored in.
- Actions.ExecuteAction: the effects are not carried out. Audio, the launcher, the command runner and the browser keys are not part of this model. The on-screen keyboard's FindWindow/ShellExecute path is the single `OnScreenKeyboardToggled` effect.
- `Input_MouseClick` (src/input/gamepad.c:824-854) is not modelled. The emulator sends its clicks through SendInput directly.
- Floating point: stick, trigger, accumulator, motor and volume values are reals. IEEE single-precision rounding is not modelled.
- Signal.MotorSpeed: only the end points are stated. The exact `(WORD)` of a rounded float product is left as the truncation of a real.
- Emulator.CursorStep: the cursor coordinates are unbounded integers, so `int` overflow of the cursor position plus the delta is not modelled.
- Display.BrightnessUp: the current percent plus the increment is an unbounded sum. Signed `int` overflow for increments near INT_MAX (undefined in C) is not modelled; the sum is clamped as written.
- Display: the monitor enumeration, the allocation and the DDC/CI calls are the `Probe` value and the `writeOk` flag. Display_TurnOff, Display_TurnOn and the rest of src/system/display_control.c after line 193 are not part of this model.
- The `Display.UpDownDirection` and `Display.ReadBackAfterSet` lemmas assume a sane reading, with min <= cur <= max and no 32-bit wrap-around in the scaling. For other readings the functions still model the wrapping arithmetic.
- main.c windowing is left out: the window classes, painting, the tray, the message loop, ShowWindow, SetTimer, KillTimer and SetWindowPos. The timer id check `wParam == 1` is folded into `OnAnimationTimer`, which models the one animation timer.
- Config_Load, Config_Save, the registry functions and fopen/fgets/fclose (src/config/config.c:106-303, 544-593) are not modelled. `ConfigStore.Store.Initialize` and `LoadFromFile` take the file as an optional sequence of lines; `SaveToFile` and `Cleanup` return the lines written.
- ConfigStore.Store.LoadFromFile: the file is given as the lines `fgets` returns. The 512-byte chunking of longer lines and embedded NUL characters are not modelled.
- ConfigStore.Store.Cleanup: a failure to save (only logged in C) is not modelled.
- ConfigStore.Store.ValidateSettings: the seven checks compute their values first and assign the settings once. The final state and result are those of the in-place checks; the warning log lines are left out.
- Config_ApplySettings and the logger are left out. They only set the log level and write log lines.
- ConfigText.Atof: only plain decimal text is read (sign, digits, point, digits). Exponents, hexadecimal floats, infinities and NaN are not modelled.
- ConfigFormat.SaveLoadRoundTrip: a string with a space or tab at either end, a line break, or more than 383 characters does not come back unchanged, because the reader trims edge blanks and the `%383[^\n\r]` scan stops at a line break or at 383 characters (src/config/config.c:337 for the scan, 340-351 for the trims); the round trip is stated only for strings that fit.
- ConfigText.Hundredths: `%.2f` is modelled as rounding the real value half away from zero. The binary float it actually prints from is not modelled.
- The prototypes without bodies are not part of this model: `Input_LoadButtonMappings`, `Input_SetButtonMapping`, `Config_Get*`, `Config_Set*` and similar.
- src/system/audio_control.c, power_control.c, app_control.c and src/core/logger.c are not part of this model. They are thin wrappers over system calls.
