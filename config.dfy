/** The configuration of src/config/config.c as values: the settings record of
    include/config.h, its defaults, the range validation that repairs it, and what the
    initialisation sequence keeps of loaded settings. ConfigFormat holds the file format and
    ConfigStore the global that the C functions update in place. */
module Config {
  import opened Common
  import opened ConfigText
  import Signal

  /** The Config struct without isLoaded. `float` is modelled as a real and each
      `char[512]` as a string. */
  datatype Settings = Settings(
    startWithWindows: bool,
    minimizeToTray: bool,
    showOverlayOnStart: bool,
    logLevel: Int32,
    enableGamepadInput: bool,
    gamepadDeadzone: Int32,
    gamepadVibrationLevel: Int32,
    volumeIncrement: real,
    muteOnStartup: bool,
    brightnessIncrement: Int32,
    turnOffDisplayOnIdle: bool,
    idleTimeout: Int32,
    confirmPowerActions: bool,
    powerButtonHoldTime: Int32,
    customCommand1: string,
    customCommand2: string,
    customCommand3: string,
    favoriteApp1: string,
    favoriteApp2: string,
    favoriteApp3: string)

  /** The zero-initialised global before anything is set. */
  const Zeroed: Settings :=
    Settings(false, false, false, 0, false, 0, 0, 0.0, false, 0, false, 0, false, 0,
             "", "", "", "", "", "")

  /** The values Config_SetDefaults assigns. */
  function Defaults(): (d: Settings)
    ensures d.gamepadDeadzone == Signal.InputDeadzone
  {
    Settings(
      false, true, false, 0,
      true, Signal.InputDeadzone, 50,
      0.1, false,
      10, false, 300,
      true, 2000,
      "", "", "", "notepad.exe", "calc.exe", "mspaint.exe")
  }

  /** The ranges Config_ValidateSettings accepts, field by field. */
  predicate LogLevelOk(x: int) { 0 <= x <= 3 }
  predicate DeadzoneOk(x: int) { 0 <= x <= 32767 }
  predicate VibrationOk(x: int) { 0 <= x <= 100 }
  predicate VolumeOk(x: real) { 0.01 <= x <= 1.0 }
  predicate BrightnessOk(x: int) { 1 <= x <= 100 }
  predicate IdleTimeoutOk(x: int) { 10 <= x <= 3600 }
  predicate HoldTimeOk(x: int) { 100 <= x <= 10000 }

  predicate InRange(s: Settings)
  {
    && LogLevelOk(s.logLevel) && DeadzoneOk(s.gamepadDeadzone)
    && VibrationOk(s.gamepadVibrationLevel) && VolumeOk(s.volumeIncrement)
    && BrightnessOk(s.brightnessIncrement) && IdleTimeoutOk(s.idleTimeout)
    && HoldTimeOk(s.powerButtonHoldTime)
  }

  /** Every default passes its range check. */
  lemma DefaultsInRange()
    ensures InRange(Defaults())
  {
  }

  /** One range check of Config_ValidateSettings: a value outside [lo, hi] is replaced. */
  function Repaired(x: Int32, lo: int, hi: int, reset: Int32): Int32
  {
    if lo <= x <= hi then x else reset
  }

  /** The same check on the one float setting. */
  function RepairedFraction(x: real, lo: real, hi: real, reset: real): real
  {
    if lo <= x <= hi then x else reset
  }

  /** The settings after Config_ValidateSettings: every out-of-range field replaced by its
      fixed reset value. */
  function Validated(s: Settings): (v: Settings)
    ensures InRange(v) && SameUnchecked(v, s)
  {
    s.(logLevel := Repaired(s.logLevel, 0, 3, 0),
       gamepadDeadzone := Repaired(s.gamepadDeadzone, 0, 32767, Signal.InputDeadzone),
       gamepadVibrationLevel := Repaired(s.gamepadVibrationLevel, 0, 100, 50),
       volumeIncrement := RepairedFraction(s.volumeIncrement, 0.01, 1.0, 0.1),
       brightnessIncrement := Repaired(s.brightnessIncrement, 1, 100, 10),
       idleTimeout := Repaired(s.idleTimeout, 10, 3600, 300),
       powerButtonHoldTime := Repaired(s.powerButtonHoldTime, 100, 10000, 2000))
  }

  /** The fields no range check looks at: the flags and the strings. */
  predicate SameUnchecked(a: Settings, b: Settings)
  {
    && a.startWithWindows == b.startWithWindows && a.minimizeToTray == b.minimizeToTray
    && a.showOverlayOnStart == b.showOverlayOnStart && a.enableGamepadInput == b.enableGamepadInput
    && a.muteOnStartup == b.muteOnStartup && a.turnOffDisplayOnIdle == b.turnOffDisplayOnIdle
    && a.confirmPowerActions == b.confirmPowerActions
    && a.customCommand1 == b.customCommand1 && a.customCommand2 == b.customCommand2
    && a.customCommand3 == b.customCommand3 && a.favoriteApp1 == b.favoriteApp1
    && a.favoriteApp2 == b.favoriteApp2 && a.favoriteApp3 == b.favoriteApp3
  }

  /** Validation repairs: afterwards every field is in range; an in-range field keeps its
      value and an out-of-range one takes the default's; flags and strings never change. */
  lemma ValidatedRepairs(s: Settings)
    ensures InRange(Validated(s))
    ensures SameUnchecked(Validated(s), s)
    ensures Validated(s).logLevel
         == (if LogLevelOk(s.logLevel) then s.logLevel else Defaults().logLevel)
    ensures Validated(s).gamepadDeadzone
         == (if DeadzoneOk(s.gamepadDeadzone) then s.gamepadDeadzone else Defaults().gamepadDeadzone)
    ensures Validated(s).gamepadVibrationLevel
         == (if VibrationOk(s.gamepadVibrationLevel) then s.gamepadVibrationLevel
             else Defaults().gamepadVibrationLevel)
    ensures Validated(s).volumeIncrement
         == (if VolumeOk(s.volumeIncrement) then s.volumeIncrement else Defaults().volumeIncrement)
    ensures Validated(s).brightnessIncrement
         == (if BrightnessOk(s.brightnessIncrement) then s.brightnessIncrement
             else Defaults().brightnessIncrement)
    ensures Validated(s).idleTimeout
         == (if IdleTimeoutOk(s.idleTimeout) then s.idleTimeout else Defaults().idleTimeout)
    ensures Validated(s).powerButtonHoldTime
         == (if HoldTimeOk(s.powerButtonHoldTime) then s.powerButtonHoldTime
             else Defaults().powerButtonHoldTime)
  {
  }

  /** Validation changes nothing exactly when everything is in range, so a second
      validation reports success and changes nothing. */
  lemma ValidatedIdempotent(s: Settings)
    ensures Validated(s) == s <==> InRange(s)
    ensures Validated(Validated(s)) == Validated(s)
  {
    ValidatedRepairs(s);
    if InRange(s) {
      assert Validated(s) == s;
    }
  }

  /** What Config_Initialize keeps of the loaded settings: all of them if they are valid,
      otherwise none, since a failed validation is followed by a reset to the defaults. */
  function AfterInitialize(loaded: Settings): (s: Settings)
    ensures InRange(s)
  {
    if InRange(loaded) then loaded else Defaults()
  }

  /** The reset after a failed validation throws away what validation had kept: loaded
      flags and strings are lost along with the repaired fields. */
  lemma InitializeDiscardsRepairs(loaded: Settings)
    requires !InRange(loaded)
    ensures AfterInitialize(loaded) == Defaults()
    ensures SameUnchecked(Validated(loaded), loaded)
    ensures loaded.favoriteApp1 != Defaults().favoriteApp1 ==>
              AfterInitialize(loaded).favoriteApp1 != Validated(loaded).favoriteApp1
  {
    ValidatedRepairs(loaded);
  }
}
