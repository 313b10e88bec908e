/** The global configuration `g_config` of src/config/config.c and the functions that update
    it in place: setting the defaults, validating, loading from the lines of a file, writing
    the file, and the initialisation sequence. Each method is proved against the functions of
    Config and ConfigFormat that specify it. */
module ConfigStore {
  import opened Common
  import opened ConfigText
  import opened Config
  import opened ConfigFormat

  /** The global Config struct: the settings record and its isLoaded flag. */
  class Store {
    var settings: Settings
    var isLoaded: bool

    /** `Config g_config = {0}`. */
    constructor ()
      ensures settings == Zeroed && !isLoaded
    {
      settings := Zeroed;
      isLoaded := false;
    }

    /** Config_SetDefaults: every field assigned its default, section by section. */
    method SetDefaults()
      modifies this`settings
      ensures settings == Defaults()
    {
      settings := settings.(startWithWindows := false, minimizeToTray := true,
                            showOverlayOnStart := false, logLevel := 0);
      settings := settings.(enableGamepadInput := true, gamepadDeadzone := Signal.InputDeadzone,
                            gamepadVibrationLevel := 50);
      settings := settings.(volumeIncrement := 0.1, muteOnStartup := false);
      settings := settings.(brightnessIncrement := 10, turnOffDisplayOnIdle := false,
                            idleTimeout := 300);
      settings := settings.(confirmPowerActions := true, powerButtonHoldTime := 2000);
      settings := settings.(customCommand1 := "", customCommand2 := "", customCommand3 := "",
                            favoriteApp1 := "notepad.exe", favoriteApp2 := "calc.exe",
                            favoriteApp3 := "mspaint.exe");
    }

    /** Config_ValidateSettings: the seven range checks, each replacing its own field by a
        fixed value when out of range; the result says whether nothing had to be replaced. */
    method ValidateSettings() returns (isValid: bool)
      modifies this`settings
      ensures isValid == InRange(old(settings))
      ensures settings == Validated(old(settings))
    {
      var s := settings;
      var level, okLevel := CheckWhole(s.logLevel, 0, 3, 0);
      var deadzone, okDeadzone := CheckWhole(s.gamepadDeadzone, 0, 32767, Signal.InputDeadzone);
      var vibration, okVibration := CheckWhole(s.gamepadVibrationLevel, 0, 100, 50);
      var volume, okVolume := CheckFraction(s.volumeIncrement, 0.01, 1.0, 0.1);
      var brightness, okBrightness := CheckWhole(s.brightnessIncrement, 1, 100, 10);
      var timeout, okTimeout := CheckWhole(s.idleTimeout, 10, 3600, 300);
      var holdTime, okHoldTime := CheckWhole(s.powerButtonHoldTime, 100, 10000, 2000);
      settings := s.(logLevel := level, gamepadDeadzone := deadzone,
                     gamepadVibrationLevel := vibration, volumeIncrement := volume,
                     brightnessIncrement := brightness, idleTimeout := timeout,
                     powerButtonHoldTime := holdTime);
      isValid := okLevel && okDeadzone && okVibration && okVolume && okBrightness && okTimeout
                 && okHoldTime;
    }

    /** The `_stricmp` chain of Config_LoadFromFile once the key is known: the field of key k
        takes the converted value. */
    method SetField(k: Key, f: Field)
      requires Fits(k, f)
      modifies this`settings
      ensures settings == Assign(old(settings), k, f)
    {
      match k
      case StartWithWindows => settings := settings.(startWithWindows := f.b);
      case MinimizeToTray => settings := settings.(minimizeToTray := f.b);
      case ShowOverlayOnStart => settings := settings.(showOverlayOnStart := f.b);
      case LogLevel => settings := settings.(logLevel := f.n);
      case EnableGamepadInput => settings := settings.(enableGamepadInput := f.b);
      case GamepadDeadzone => settings := settings.(gamepadDeadzone := f.n);
      case GamepadVibrationLevel => settings := settings.(gamepadVibrationLevel := f.n);
      case VolumeIncrement => settings := settings.(volumeIncrement := f.r);
      case MuteOnStartup => settings := settings.(muteOnStartup := f.b);
      case BrightnessIncrement => settings := settings.(brightnessIncrement := f.n);
      case TurnOffDisplayOnIdle => settings := settings.(turnOffDisplayOnIdle := f.b);
      case IdleTimeout => settings := settings.(idleTimeout := f.n);
      case ConfirmPowerActions => settings := settings.(confirmPowerActions := f.b);
      case PowerButtonHoldTime => settings := settings.(powerButtonHoldTime := f.n);
      case CustomCommand1 => settings := settings.(customCommand1 := f.t);
      case CustomCommand2 => settings := settings.(customCommand2 := f.t);
      case CustomCommand3 => settings := settings.(customCommand3 := f.t);
      case FavoriteApp1 => settings := settings.(favoriteApp1 := f.t);
      case FavoriteApp2 => settings := settings.(favoriteApp2 := f.t);
      case FavoriteApp3 => settings := settings.(favoriteApp3 := f.t);
    }

    /** Config_LoadFromFile: `file` is the file's lines as `fgets` returns them, or None when
        it cannot be opened. Every line is applied in order. */
    method LoadFromFile(file: Option<seq<string>>) returns (ok: bool)
      modifies this`settings
      ensures ok == file.Some?
      ensures file.None? ==> settings == old(settings)
      ensures file.Some? ==> settings == LoadLines(old(settings), file.value)
    {
      if file.None? {
        return false;
      }
      var lines := file.value;
      var i := 0;
      while i < |lines|
        invariant 0 <= i <= |lines|
        invariant settings == LoadLines(old(settings), lines[..i])
      {
        LoadLine(lines[i]);
        LoadLinesStep(old(settings), lines, i);
        i := i + 1;
      }
      assert lines[..i] == lines;
      ok := true;
    }

    /** The body of the read loop for one line: the line is split and trimmed, and a known
        key has its field set. */
    method LoadLine(line: string)
      modifies this`settings
      ensures settings == ApplyLine(old(settings), line)
    {
      var parsed := SplitLine(line);
      if parsed.None? {
        return;
      }
      var k := KeyOf(parsed.value.0);
      if k.None? {
        return;
      }
      SetField(k.value, Convert(k.value, parsed.value.1));
    }

    /** SaveToFile: the lines written, in order. */
    method SaveToFile() returns (lines: seq<string>)
      ensures lines == SaveLines(settings)
    {
      lines := Header;
      var section := WriteSection("Application", ApplicationKeys);
      lines := lines + section;
      section := WriteSection("Input", InputKeys);
      lines := lines + section;
      section := WriteSection("Audio", AudioKeys);
      lines := lines + section;
      section := WriteSection("Display", DisplayKeys);
      lines := lines + section;
      section := WriteSection("Power", PowerKeys);
      lines := lines + section;
      section := WriteSection("Custom", CustomKeys);
      lines := lines + section;
    }

    /** One section: the blank line and title, then one `fprintf` per key. */
    method WriteSection(title: string, ks: seq<Key>) returns (lines: seq<string>)
      ensures lines == Section(settings, title, ks)
    {
      lines := [];
      var i := 0;
      while i < |ks|
        invariant 0 <= i <= |ks|
        invariant lines == Entries(settings, ks[..i])
      {
        assert ks[..i + 1][..i] == ks[..i];
        lines := lines + [Entry(ks[i], Written(Get(settings, ks[i])))];
        i := i + 1;
      }
      assert ks[..i] == ks;
      lines := ["\n", "[" + title + " Settings]\n"] + lines;
    }

    /** Config_Initialize with `file` standing for what Config_Load finds (the registry is
        not modelled): a second call changes nothing; otherwise the defaults, then the file
        over them, then validation, and a reset to the defaults if validation failed. */
    method Initialize(file: Option<seq<string>>) returns (ok: bool)
      modifies this
      ensures ok
      ensures old(isLoaded) ==> settings == old(settings) && isLoaded
      ensures !old(isLoaded) ==>
        && isLoaded
        && settings == AfterInitialize(if file.Some? then LoadLines(Defaults(), file.value)
                                       else Defaults())
    {
      if isLoaded {
        return true;
      }
      SetDefaults();
      var loaded := LoadFromFile(file);
      ghost var read := settings;
      var valid := ValidateSettings();
      if !valid {
        SetDefaults();
      } else {
        ValidatedIdempotent(read);
      }
      isLoaded := true;
      ok := true;
    }

    /** Config_Cleanup: when loaded, the file is written (returned here) and the store marked
        unloaded; otherwise nothing happens. */
    method Cleanup() returns (written: Option<seq<string>>)
      modifies this`isLoaded
      ensures old(isLoaded) ==> written == Some(SaveLines(settings)) && !isLoaded
      ensures !old(isLoaded) ==> written.None? && !isLoaded
    {
      if !isLoaded {
        return None;
      }
      var lines := SaveToFile();
      written := Some(lines);
      isLoaded := false;
    }
  }

  /** One integer check of Config_ValidateSettings: `x < lo || x > hi` resets the value. */
  method CheckWhole(x: Int32, lo: int, hi: int, reset: Int32) returns (y: Int32, ok: bool)
    ensures ok <==> lo <= x <= hi
    ensures y == Repaired(x, lo, hi, reset)
  {
    ok := true;
    y := x;
    if x < lo || x > hi {
      y := reset;
      ok := false;
    }
  }

  /** The float check of Config_ValidateSettings, on the volume step. */
  method CheckFraction(x: real, lo: real, hi: real, reset: real) returns (y: real, ok: bool)
    ensures ok <==> lo <= x <= hi
    ensures y == RepairedFraction(x, lo, hi, reset)
  {
    ok := true;
    y := x;
    if x < lo || x > hi {
      y := reset;
      ok := false;
    }
  }

  /** The part of the read loop before the `_stricmp` chain: comment and blank lines are
      skipped, `sscanf` splits the line at '=', and both halves are trimmed. */
  method SplitLine(line: string) returns (r: Option<(string, string)>)
    ensures r == ParseLine(line)
  {
    if |line| > 0 && (line[0] == '#' || line[0] == ';' || line[0] == '\n' || line[0] == '\r') {
      return None;
    }
    var scanned := ScanKeyValue(line);
    if scanned.None? {
      return None;
    }
    var trimmedKey := SkipBlanks(scanned.value.0);
    var trimmedValue := SkipBlanks(scanned.value.1);
    trimmedValue := DropTrailingBlanks(trimmedValue);
    r := Some((trimmedKey, trimmedValue));
  }

  /** `while (*p == ' ' || *p == '\t') p++`: the text after its leading blanks. */
  method SkipBlanks(t: string) returns (r: string)
    ensures r == TrimLeft(t)
  {
    var a := 0;
    while a < |t| && IsBlank(t[a])
      invariant 0 <= a <= |t|
      invariant forall i :: 0 <= i < a ==> IsBlank(t[i])
    {
      a := a + 1;
    }
    r := t[a..];
    LeftTrimUnique(t, a);
  }

  /** The loop writing '\0' over trailing blanks: the text without its trailing blanks. */
  method DropTrailingBlanks(t: string) returns (r: string)
    ensures r == TrimRight(t)
  {
    var len := |t|;
    while len > 0 && IsBlank(t[len - 1])
      invariant 0 <= len <= |t|
      invariant forall i :: len <= i < |t| ==> IsBlank(t[i])
    {
      len := len - 1;
    }
    r := t[..len];
    RightTrimUnique(t, len);
  }

  /** Only one cut leaves nothing but blanks before it and a non-blank (or the end) at it. */
  lemma LeftTrimUnique(t: string, a: nat)
    requires a <= |t| && (forall i :: 0 <= i < a ==> IsBlank(t[i]))
    requires a < |t| ==> !IsBlank(t[a])
    ensures t[a..] == TrimLeft(t)
  {
  }

  /** Only one cut leaves nothing but blanks after it and a non-blank (or the start) before
      it. */
  lemma RightTrimUnique(t: string, len: nat)
    requires len <= |t| && (forall i :: len <= i < |t| ==> IsBlank(t[i]))
    requires len > 0 ==> !IsBlank(t[len - 1])
    ensures t[..len] == TrimRight(t)
  {
  }
}
