/** The `key=value` text format of src/config/config.c: the keys, how Config_LoadFromFile reads
    one line and folds the lines of a file into the settings, and the lines Config_SaveToFile
    writes. A file is the sequence of its lines as `fgets` returns them, each ending in its
    line break. */
module ConfigFormat {
  import opened Common
  import opened ConfigText
  import opened Config

  /** The keys the file format knows, one per setting. */
  datatype Key =
    | StartWithWindows | MinimizeToTray | ShowOverlayOnStart | LogLevel
    | EnableGamepadInput | GamepadDeadzone | GamepadVibrationLevel
    | VolumeIncrement | MuteOnStartup
    | BrightnessIncrement | TurnOffDisplayOnIdle | IdleTimeout
    | ConfirmPowerActions | PowerButtonHoldTime
    | CustomCommand1 | CustomCommand2 | CustomCommand3 | FavoriteApp1 | FavoriteApp2 | FavoriteApp3

  function KeyName(k: Key): string
  {
    match k
    case StartWithWindows => "StartWithWindows"
    case MinimizeToTray => "MinimizeToTray"
    case ShowOverlayOnStart => "ShowOverlayOnStart"
    case LogLevel => "LogLevel"
    case EnableGamepadInput => "EnableGamepadInput"
    case GamepadDeadzone => "GamepadDeadzone"
    case GamepadVibrationLevel => "GamepadVibrationLevel"
    case VolumeIncrement => "VolumeIncrement"
    case MuteOnStartup => "MuteOnStartup"
    case BrightnessIncrement => "BrightnessIncrement"
    case TurnOffDisplayOnIdle => "TurnOffDisplayOnIdle"
    case IdleTimeout => "IdleTimeout"
    case ConfirmPowerActions => "ConfirmPowerActions"
    case PowerButtonHoldTime => "PowerButtonHoldTime"
    case CustomCommand1 => "CustomCommand1"
    case CustomCommand2 => "CustomCommand2"
    case CustomCommand3 => "CustomCommand3"
    case FavoriteApp1 => "FavoriteApp1"
    case FavoriteApp2 => "FavoriteApp2"
    case FavoriteApp3 => "FavoriteApp3"
  }

  /** Length, first and last letter of a name, up to case: enough to tell the key names
      apart. */
  function Signature(name: string): (int, char, char)
    requires |name| > 0
  {
    (|name|, Lower(name[0]), Lower(name[|name| - 1]))
  }

  /** A letter or a digit. */
  predicate Plain(c: char)
  {
    'a' <= c <= 'z' || 'A' <= c <= 'Z' || '0' <= c <= '9'
  }

  /** What the loader needs of a key name: 1 to 127 characters, none of them '=', starting
      and ending with a letter or a digit (so no leading or trailing blank, no comment
      marker and no line break at the start). */
  predicate NameShaped(n: string)
  {
    && 0 < |n| <= 127
    && (forall i :: 0 <= i < |n| ==> n[i] != '=')
    && Plain(n[0]) && Plain(n[|n| - 1])
  }

  /** Every key name is well shaped.
      The twenty keys are split into five groups of four, each proved by its own lemma
      (the ones numbered 0 to 4 below), so that no single proof has to unfold all twenty. */
  lemma KeyNameShape(k: Key)
    ensures NameShaped(KeyName(k))
  {
    if k.StartWithWindows? || k.MinimizeToTray? || k.ShowOverlayOnStart? || k.LogLevel? {
      KeyNameShape0(k);
    } else if k.EnableGamepadInput? || k.GamepadDeadzone? || k.GamepadVibrationLevel? || k.VolumeIncrement? {
      KeyNameShape1(k);
    } else if k.MuteOnStartup? || k.BrightnessIncrement? || k.TurnOffDisplayOnIdle? || k.IdleTimeout? {
      KeyNameShape2(k);
    } else if k.ConfirmPowerActions? || k.PowerButtonHoldTime? || k.CustomCommand1? || k.CustomCommand2? {
      KeyNameShape3(k);
    } else if k.CustomCommand3? || k.FavoriteApp1? || k.FavoriteApp2? || k.FavoriteApp3? {
      KeyNameShape4(k);
    }
  }

  lemma KeyNameShape0(k: Key)
    requires k.StartWithWindows? || k.MinimizeToTray? || k.ShowOverlayOnStart? || k.LogLevel?
    ensures NameShaped(KeyName(k))
  {
  }

  lemma KeyNameShape1(k: Key)
    requires k.EnableGamepadInput? || k.GamepadDeadzone? || k.GamepadVibrationLevel? || k.VolumeIncrement?
    ensures NameShaped(KeyName(k))
  {
  }

  lemma KeyNameShape2(k: Key)
    requires k.MuteOnStartup? || k.BrightnessIncrement? || k.TurnOffDisplayOnIdle? || k.IdleTimeout?
    ensures NameShaped(KeyName(k))
  {
  }

  lemma KeyNameShape3(k: Key)
    requires k.ConfirmPowerActions? || k.PowerButtonHoldTime? || k.CustomCommand1? || k.CustomCommand2?
    ensures NameShaped(KeyName(k))
  {
  }

  lemma KeyNameShape4(k: Key)
    requires k.CustomCommand3? || k.FavoriteApp1? || k.FavoriteApp2? || k.FavoriteApp3?
    ensures NameShaped(KeyName(k))
  {
  }

  /** No two keys have names equal up to case.
      The twenty keys are split into five groups of four, each proved by its own lemma
      (the ones numbered 0 to 4 below), so that no single proof has to unfold all twenty. */
  lemma KeyNamesDistinct(k: Key, j: Key)
    requires Signature(KeyName(k)) == Signature(KeyName(j))
    ensures k == j
  {
    if k.StartWithWindows? || k.MinimizeToTray? || k.ShowOverlayOnStart? || k.LogLevel? {
      KeyNamesDistinct0(k, j);
    } else if k.EnableGamepadInput? || k.GamepadDeadzone? || k.GamepadVibrationLevel? || k.VolumeIncrement? {
      KeyNamesDistinct1(k, j);
    } else if k.MuteOnStartup? || k.BrightnessIncrement? || k.TurnOffDisplayOnIdle? || k.IdleTimeout? {
      KeyNamesDistinct2(k, j);
    } else if k.ConfirmPowerActions? || k.PowerButtonHoldTime? || k.CustomCommand1? || k.CustomCommand2? {
      KeyNamesDistinct3(k, j);
    } else if k.CustomCommand3? || k.FavoriteApp1? || k.FavoriteApp2? || k.FavoriteApp3? {
      KeyNamesDistinct4(k, j);
    }
  }

  lemma KeyNamesDistinct0(k: Key, j: Key)
    requires k.StartWithWindows? || k.MinimizeToTray? || k.ShowOverlayOnStart? || k.LogLevel?
    requires Signature(KeyName(k)) == Signature(KeyName(j))
    ensures k == j
  {
  }

  lemma KeyNamesDistinct1(k: Key, j: Key)
    requires k.EnableGamepadInput? || k.GamepadDeadzone? || k.GamepadVibrationLevel? || k.VolumeIncrement?
    requires Signature(KeyName(k)) == Signature(KeyName(j))
    ensures k == j
  {
  }

  lemma KeyNamesDistinct2(k: Key, j: Key)
    requires k.MuteOnStartup? || k.BrightnessIncrement? || k.TurnOffDisplayOnIdle? || k.IdleTimeout?
    requires Signature(KeyName(k)) == Signature(KeyName(j))
    ensures k == j
  {
  }

  lemma KeyNamesDistinct3(k: Key, j: Key)
    requires k.ConfirmPowerActions? || k.PowerButtonHoldTime? || k.CustomCommand1? || k.CustomCommand2?
    requires Signature(KeyName(k)) == Signature(KeyName(j))
    ensures k == j
  {
  }

  lemma KeyNamesDistinct4(k: Key, j: Key)
    requires k.CustomCommand3? || k.FavoriteApp1? || k.FavoriteApp2? || k.FavoriteApp3?
    requires Signature(KeyName(k)) == Signature(KeyName(j))
    ensures k == j
  {
  }

  lemma EqualNamesSameSignature(a: string, b: string)
    requires |a| > 0 && EqualsIgnoreCase(a, b)
    ensures |b| > 0 && Signature(a) == Signature(b)
  {
  }

  /** The keys in the order the `_stricmp` chain of Config_LoadFromFile tries them. */
  const ChainOrder: seq<Key> := [
    StartWithWindows, MinimizeToTray, ShowOverlayOnStart, LogLevel,
    EnableGamepadInput, GamepadDeadzone, GamepadVibrationLevel,
    VolumeIncrement, MuteOnStartup,
    BrightnessIncrement, TurnOffDisplayOnIdle, IdleTimeout,
    ConfirmPowerActions, PowerButtonHoldTime,
    CustomCommand1, CustomCommand2, CustomCommand3, FavoriteApp1, FavoriteApp2, FavoriteApp3]

  /** Every key is in the chain.
      The twenty keys are split into five groups of four, each proved by its own lemma
      (the ones numbered 0 to 4 below), so that no single proof has to unfold all twenty. */
  lemma InChain(k: Key)
    ensures k in ChainOrder
  {
    if k.StartWithWindows? || k.MinimizeToTray? || k.ShowOverlayOnStart? || k.LogLevel? {
      InChain0(k);
    } else if k.EnableGamepadInput? || k.GamepadDeadzone? || k.GamepadVibrationLevel? || k.VolumeIncrement? {
      InChain1(k);
    } else if k.MuteOnStartup? || k.BrightnessIncrement? || k.TurnOffDisplayOnIdle? || k.IdleTimeout? {
      InChain2(k);
    } else if k.ConfirmPowerActions? || k.PowerButtonHoldTime? || k.CustomCommand1? || k.CustomCommand2? {
      InChain3(k);
    } else if k.CustomCommand3? || k.FavoriteApp1? || k.FavoriteApp2? || k.FavoriteApp3? {
      InChain4(k);
    }
  }

  lemma InChain0(k: Key)
    requires k.StartWithWindows? || k.MinimizeToTray? || k.ShowOverlayOnStart? || k.LogLevel?
    ensures k in ChainOrder
  {
    match k
    case StartWithWindows => assert ChainOrder[0] == k;
    case MinimizeToTray => assert ChainOrder[1] == k;
    case ShowOverlayOnStart => assert ChainOrder[2] == k;
    case LogLevel => assert ChainOrder[3] == k;
  }

  lemma InChain1(k: Key)
    requires k.EnableGamepadInput? || k.GamepadDeadzone? || k.GamepadVibrationLevel? || k.VolumeIncrement?
    ensures k in ChainOrder
  {
    match k
    case EnableGamepadInput => assert ChainOrder[4] == k;
    case GamepadDeadzone => assert ChainOrder[5] == k;
    case GamepadVibrationLevel => assert ChainOrder[6] == k;
    case VolumeIncrement => assert ChainOrder[7] == k;
  }

  lemma InChain2(k: Key)
    requires k.MuteOnStartup? || k.BrightnessIncrement? || k.TurnOffDisplayOnIdle? || k.IdleTimeout?
    ensures k in ChainOrder
  {
    match k
    case MuteOnStartup => assert ChainOrder[8] == k;
    case BrightnessIncrement => assert ChainOrder[9] == k;
    case TurnOffDisplayOnIdle => assert ChainOrder[10] == k;
    case IdleTimeout => assert ChainOrder[11] == k;
  }

  lemma InChain3(k: Key)
    requires k.ConfirmPowerActions? || k.PowerButtonHoldTime? || k.CustomCommand1? || k.CustomCommand2?
    ensures k in ChainOrder
  {
    match k
    case ConfirmPowerActions => assert ChainOrder[12] == k;
    case PowerButtonHoldTime => assert ChainOrder[13] == k;
    case CustomCommand1 => assert ChainOrder[14] == k;
    case CustomCommand2 => assert ChainOrder[15] == k;
  }

  lemma InChain4(k: Key)
    requires k.CustomCommand3? || k.FavoriteApp1? || k.FavoriteApp2? || k.FavoriteApp3?
    ensures k in ChainOrder
  {
    match k
    case CustomCommand3 => assert ChainOrder[16] == k;
    case FavoriteApp1 => assert ChainOrder[17] == k;
    case FavoriteApp2 => assert ChainOrder[18] == k;
    case FavoriteApp3 => assert ChainOrder[19] == k;
  }

  /** The first key among ks whose name equals `name` up to case. */
  function FindKey(name: string, ks: seq<Key>): (r: Option<Key>)
    ensures r.Some? ==> r.value in ks && EqualsIgnoreCase(name, KeyName(r.value))
    ensures r.None? ==> forall k :: k in ks ==> !EqualsIgnoreCase(name, KeyName(k))
  {
    if |ks| == 0 then None
    else if EqualsIgnoreCase(name, KeyName(ks[0])) then Some(ks[0])
    else FindKey(name, ks[1..])
  }

  /** The `_stricmp` chain of Config_LoadFromFile: the key a trimmed key text names, if any. */
  function KeyOf(name: string): (r: Option<Key>)
    ensures r.Some? ==> EqualsIgnoreCase(name, KeyName(r.value))
    ensures r.None? ==> forall k :: !EqualsIgnoreCase(name, KeyName(k))
  {
    var r := FindKey(name, ChainOrder);
    assert r.None? ==> forall k :: !EqualsIgnoreCase(name, KeyName(k)) by {
      forall k
        ensures r.None? ==> !EqualsIgnoreCase(name, KeyName(k))
      {
        InChain(k);
      }
    }
    r
  }

  /** Keys match regardless of case: a key text names a key exactly when it equals that
      key's name up to case. */
  lemma {:induction false} KeyOfIgnoresCase(name: string, k: Key)
    ensures KeyOf(name) == Some(k) <==> EqualsIgnoreCase(name, KeyName(k))
  {
    if EqualsIgnoreCase(name, KeyName(k)) {
      var r := KeyOf(name);
      assert r.Some?;
      EqualsIgnoreCaseIsEquivalence(name, KeyName(r.value), KeyName(k));
      EqualsIgnoreCaseIsEquivalence(KeyName(r.value), name, KeyName(k));
      KeyNameShape(r.value);
      EqualNamesSameSignature(KeyName(r.value), KeyName(k));
      KeyNamesDistinct(r.value, k);
    }
  }

  /** Only leading blanks are stripped from the key, so a key text with a blank at its end
      ("LogLevel " in "LogLevel =3") names no key. */
  lemma {:induction false} TrailingBlankKeyIgnored(name: string)
    requires |name| > 0 && IsBlank(name[|name| - 1])
    ensures KeyOf(name) == None
  {
    var r := KeyOf(name);
    if r.Some? {
      KeyNameShape(r.value);
      BlankEndedDiffers(name, KeyName(r.value));
    }
  }

  lemma BlankEndedDiffers(name: string, n: string)
    requires |name| > 0 && IsBlank(name[|name| - 1])
    requires NameShaped(n)
    ensures !EqualsIgnoreCase(name, n)
  {
    if |n| == |name| {
      assert Lower(name[|name| - 1]) == name[|name| - 1];
      assert !IsBlank(Lower(n[|n| - 1]));
    }
  }

  /** The value of one setting, by the type of its field. */
  datatype Field = Flag(b: bool) | Number(n: Int32) | Fraction(r: real) | Text(t: string)

  /** The kind of value the setting of key k holds. */
  predicate Fits(k: Key, f: Field)
  {
    match k
    case StartWithWindows | MinimizeToTray | ShowOverlayOnStart | EnableGamepadInput
       | MuteOnStartup | TurnOffDisplayOnIdle | ConfirmPowerActions => f.Flag?
    case LogLevel | GamepadDeadzone | GamepadVibrationLevel | BrightnessIncrement
       | IdleTimeout | PowerButtonHoldTime => f.Number?
    case VolumeIncrement => f.Fraction?
    case CustomCommand1 | CustomCommand2 | CustomCommand3
       | FavoriteApp1 | FavoriteApp2 | FavoriteApp3 => f.Text?
  }

  /** The field a key names. */
  function Get(s: Settings, k: Key): (f: Field)
    ensures Fits(k, f)
  {
    match k
    case StartWithWindows => Flag(s.startWithWindows)
    case MinimizeToTray => Flag(s.minimizeToTray)
    case ShowOverlayOnStart => Flag(s.showOverlayOnStart)
    case LogLevel => Number(s.logLevel)
    case EnableGamepadInput => Flag(s.enableGamepadInput)
    case GamepadDeadzone => Number(s.gamepadDeadzone)
    case GamepadVibrationLevel => Number(s.gamepadVibrationLevel)
    case VolumeIncrement => Fraction(s.volumeIncrement)
    case MuteOnStartup => Flag(s.muteOnStartup)
    case BrightnessIncrement => Number(s.brightnessIncrement)
    case TurnOffDisplayOnIdle => Flag(s.turnOffDisplayOnIdle)
    case IdleTimeout => Number(s.idleTimeout)
    case ConfirmPowerActions => Flag(s.confirmPowerActions)
    case PowerButtonHoldTime => Number(s.powerButtonHoldTime)
    case CustomCommand1 => Text(s.customCommand1)
    case CustomCommand2 => Text(s.customCommand2)
    case CustomCommand3 => Text(s.customCommand3)
    case FavoriteApp1 => Text(s.favoriteApp1)
    case FavoriteApp2 => Text(s.favoriteApp2)
    case FavoriteApp3 => Text(s.favoriteApp3)
  }

  /** The keys cover the settings: two settings that agree on every key are equal. */
  lemma {:induction false} GetDetermines(a: Settings, b: Settings)
    requires forall k :: Get(a, k) == Get(b, k)
    ensures a == b
  {
    GetDeterminesFirst(a, b);
    GetDeterminesLast(a, b);
  }

  lemma GetDeterminesFirst(a: Settings, b: Settings)
    requires forall k :: Get(a, k) == Get(b, k)
    ensures && a.startWithWindows == b.startWithWindows && a.minimizeToTray == b.minimizeToTray
            && a.showOverlayOnStart == b.showOverlayOnStart && a.logLevel == b.logLevel
            && a.enableGamepadInput == b.enableGamepadInput
            && a.gamepadDeadzone == b.gamepadDeadzone
            && a.gamepadVibrationLevel == b.gamepadVibrationLevel
            && a.volumeIncrement == b.volumeIncrement && a.muteOnStartup == b.muteOnStartup
            && a.brightnessIncrement == b.brightnessIncrement
  {
    assert Get(a, StartWithWindows) == Get(b, StartWithWindows);
    assert Get(a, MinimizeToTray) == Get(b, MinimizeToTray);
    assert Get(a, ShowOverlayOnStart) == Get(b, ShowOverlayOnStart);
    assert Get(a, LogLevel) == Get(b, LogLevel);
    assert Get(a, EnableGamepadInput) == Get(b, EnableGamepadInput);
    assert Get(a, GamepadDeadzone) == Get(b, GamepadDeadzone);
    assert Get(a, GamepadVibrationLevel) == Get(b, GamepadVibrationLevel);
    assert Get(a, VolumeIncrement) == Get(b, VolumeIncrement);
    assert Get(a, MuteOnStartup) == Get(b, MuteOnStartup);
    assert Get(a, BrightnessIncrement) == Get(b, BrightnessIncrement);
  }

  lemma GetDeterminesLast(a: Settings, b: Settings)
    requires forall k :: Get(a, k) == Get(b, k)
    ensures && a.turnOffDisplayOnIdle == b.turnOffDisplayOnIdle && a.idleTimeout == b.idleTimeout
            && a.confirmPowerActions == b.confirmPowerActions
            && a.powerButtonHoldTime == b.powerButtonHoldTime
            && a.customCommand1 == b.customCommand1 && a.customCommand2 == b.customCommand2
            && a.customCommand3 == b.customCommand3 && a.favoriteApp1 == b.favoriteApp1
            && a.favoriteApp2 == b.favoriteApp2 && a.favoriteApp3 == b.favoriteApp3
  {
    assert Get(a, TurnOffDisplayOnIdle) == Get(b, TurnOffDisplayOnIdle);
    assert Get(a, IdleTimeout) == Get(b, IdleTimeout);
    assert Get(a, ConfirmPowerActions) == Get(b, ConfirmPowerActions);
    assert Get(a, PowerButtonHoldTime) == Get(b, PowerButtonHoldTime);
    assert Get(a, CustomCommand1) == Get(b, CustomCommand1);
    assert Get(a, CustomCommand2) == Get(b, CustomCommand2);
    assert Get(a, CustomCommand3) == Get(b, CustomCommand3);
    assert Get(a, FavoriteApp1) == Get(b, FavoriteApp1);
    assert Get(a, FavoriteApp2) == Get(b, FavoriteApp2);
    assert Get(a, FavoriteApp3) == Get(b, FavoriteApp3);
  }

  /** A flag is set by "true" or "1" in any case, and cleared by anything else. */
  predicate ParseBool(v: string)
  {
    EqualsIgnoreCase(v, "true") || EqualsIgnoreCase(v, "1")
  }

  /** What a value text becomes in the field a key names: a flag, an `atoi`, an `atof`, or the
      text itself. */
  function Convert(k: Key, v: string): (f: Field)
    ensures Fits(k, f)
  {
    match k
    case StartWithWindows | MinimizeToTray | ShowOverlayOnStart | EnableGamepadInput
       | MuteOnStartup | TurnOffDisplayOnIdle | ConfirmPowerActions => Flag(ParseBool(v))
    case LogLevel | GamepadDeadzone | GamepadVibrationLevel | BrightnessIncrement
       | IdleTimeout | PowerButtonHoldTime => Number(Atoi(v))
    case VolumeIncrement => Fraction(Atof(v))
    case CustomCommand1 | CustomCommand2 | CustomCommand3
       | FavoriteApp1 | FavoriteApp2 | FavoriteApp3 => Text(v)
  }

  /** One branch of the `_stricmp` chain: the field of key k set to a value of its kind. Only
      that field changes. */
  function Assign(s: Settings, k: Key, f: Field): (r: Settings)
    requires Fits(k, f)
    ensures Get(r, k) == f
  {
    match k
    case StartWithWindows => s.(startWithWindows := f.b)
    case MinimizeToTray => s.(minimizeToTray := f.b)
    case ShowOverlayOnStart => s.(showOverlayOnStart := f.b)
    case LogLevel => s.(logLevel := f.n)
    case EnableGamepadInput => s.(enableGamepadInput := f.b)
    case GamepadDeadzone => s.(gamepadDeadzone := f.n)
    case GamepadVibrationLevel => s.(gamepadVibrationLevel := f.n)
    case VolumeIncrement => s.(volumeIncrement := f.r)
    case MuteOnStartup => s.(muteOnStartup := f.b)
    case BrightnessIncrement => s.(brightnessIncrement := f.n)
    case TurnOffDisplayOnIdle => s.(turnOffDisplayOnIdle := f.b)
    case IdleTimeout => s.(idleTimeout := f.n)
    case ConfirmPowerActions => s.(confirmPowerActions := f.b)
    case PowerButtonHoldTime => s.(powerButtonHoldTime := f.n)
    case CustomCommand1 => s.(customCommand1 := f.t)
    case CustomCommand2 => s.(customCommand2 := f.t)
    case CustomCommand3 => s.(customCommand3 := f.t)
    case FavoriteApp1 => s.(favoriteApp1 := f.t)
    case FavoriteApp2 => s.(favoriteApp2 := f.t)
    case FavoriteApp3 => s.(favoriteApp3 := f.t)
  }

  /** Setting one key leaves the field of every other key as it was. */
  lemma AssignFrame(s: Settings, k: Key, f: Field, j: Key)
    requires Fits(k, f) && j != k
    ensures Get(Assign(s, k, f), j) == Get(s, j)
  {
    match k
    case StartWithWindows =>
    case MinimizeToTray =>
    case ShowOverlayOnStart =>
    case LogLevel =>
    case EnableGamepadInput =>
    case GamepadDeadzone =>
    case GamepadVibrationLevel =>
    case VolumeIncrement =>
    case MuteOnStartup =>
    case BrightnessIncrement =>
    case TurnOffDisplayOnIdle =>
    case IdleTimeout =>
    case ConfirmPowerActions =>
    case PowerButtonHoldTime =>
    case CustomCommand1 =>
    case CustomCommand2 =>
    case CustomCommand3 =>
    case FavoriteApp1 =>
    case FavoriteApp2 =>
    case FavoriteApp3 =>
  }

  /** Setting the same key twice keeps only the second value. */
  lemma {:induction false} AssignOverwrites(s: Settings, k: Key, x: Field, y: Field)
    requires Fits(k, x) && Fits(k, y)
    ensures Assign(Assign(s, k, x), k, y) == Assign(s, k, y)
  {
    match k
    case StartWithWindows =>
    case MinimizeToTray =>
    case ShowOverlayOnStart =>
    case LogLevel =>
    case EnableGamepadInput =>
    case GamepadDeadzone =>
    case GamepadVibrationLevel =>
    case VolumeIncrement =>
    case MuteOnStartup =>
    case BrightnessIncrement =>
    case TurnOffDisplayOnIdle =>
    case IdleTimeout =>
    case ConfirmPowerActions =>
    case PowerButtonHoldTime =>
    case CustomCommand1 =>
    case CustomCommand2 =>
    case CustomCommand3 =>
    case FavoriteApp1 =>
    case FavoriteApp2 =>
    case FavoriteApp3 =>
  }

  /** The widths of the two `sscanf` conversions: `%127[^=]` for the key and `%383[^\n\r]`
      for the value (the key and value buffers less their terminators). */
  const KeyWidth: nat := 127
  const ValueWidth: nat := 383

  predicate LineBreak(c: char)
  {
    c == '\n' || c == '\r'
  }

  /** The length of the run of characters other than '=' at the start of the line. */
  function KeyRun(line: string): (n: nat)
    ensures n <= |line|
    ensures forall i :: 0 <= i < n ==> line[i] != '='
    ensures n < |line| ==> line[n] == '='
  {
    if |line| > 0 && line[0] != '=' then 1 + KeyRun(line[1..]) else 0
  }

  /** The length of the run of characters other than line breaks at the start of t. */
  function ValueRun(t: string): (n: nat)
    ensures n <= |t|
    ensures forall i :: 0 <= i < n ==> !LineBreak(t[i])
    ensures n < |t| ==> LineBreak(t[n])
  {
    if |t| > 0 && !LineBreak(t[0]) then 1 + ValueRun(t[1..]) else 0
  }

  /** `sscanf(line, "%127[^=]=%383[^\n\r]", key, value) == 2`: both conversions match when the
      line starts with 1 to 127 characters other than '=' followed by '=' and at least one
      character that is not a line break; the key is that run and the value the run up to the
      line break, cut at 383 characters. */
  function ScanKeyValue(line: string): (r: Option<(string, string)>)
    ensures r.Some? <==> 1 <= KeyRun(line) <= KeyWidth && KeyRun(line) < |line|
                         && ValueRun(line[KeyRun(line) + 1..]) > 0
    ensures r.Some? ==>
      var (key, value) := r.value;
      && |key| == KeyRun(line) && key == line[..|key|] && line[|key|] == '='
      && 1 <= |value| <= ValueWidth && |key| + 1 + |value| <= |line|
      && value == line[|key| + 1..][..|value|]
      && (forall i :: 0 <= i < |value| ==> !LineBreak(value[i]))
      && (|value| < ValueWidth ==> |key| + 1 + |value| == |line| || LineBreak(line[|key| + 1 + |value|]))
  {
    var k := KeyRun(line);
    if k == 0 || k > KeyWidth || k == |line| then None
    else
      var rest := line[k + 1..];
      var n := ValueRun(rest);
      if n == 0 then None
      else Some((line[..k], rest[..if n < ValueWidth then n else ValueWidth]))
  }

  /** A line the loader skips before scanning it: one starting with '#', ';' or a line break. */
  predicate CommentOrBlank(line: string)
  {
    |line| > 0 && (line[0] == '#' || line[0] == ';' || LineBreak(line[0]))
  }

  /** The key and value text one line yields, if any: the scanned key without its leading
      blanks and the scanned value without its leading and trailing blanks. */
  function ParseLine(line: string): (r: Option<(string, string)>)
    ensures r.Some? <==> !CommentOrBlank(line) && ScanKeyValue(line).Some?
    ensures r.Some? ==>
      var (key, value) := r.value;
      && (|key| > 0 ==> !IsBlank(key[0]))
      && (|value| > 0 ==> !IsBlank(value[0]) && !IsBlank(value[|value| - 1]))
  {
    if CommentOrBlank(line) then None
    else
      match ScanKeyValue(line)
      case None => None
      case Some((key, value)) => Some((TrimLeft(key), TrimRight(TrimLeft(value))))
  }

  /** Config_LoadFromFile on one line: a line naming a known key sets that key's field from its
      value; every other line leaves the settings alone. */
  function ApplyLine(s: Settings, line: string): (r: Settings)
    ensures CommentOrBlank(line) ==> r == s
  {
    match ParseLine(line)
    case None => s
    case Some((key, value)) =>
      match KeyOf(key)
      case None => s
      case Some(k) => Assign(s, k, Convert(k, value))
  }

  /** The settings after reading the lines of a file in order. */
  function LoadLines(s: Settings, lines: seq<string>): Settings
  {
    if |lines| == 0 then s
    else ApplyLine(LoadLines(s, lines[..|lines| - 1]), lines[|lines| - 1])
  }

  /** Reading one more line applies it to what the earlier lines gave. */
  lemma LoadLinesStep(s: Settings, lines: seq<string>, i: nat)
    requires i < |lines|
    ensures LoadLines(s, lines[..i + 1]) == ApplyLine(LoadLines(s, lines[..i]), lines[i])
  {
    assert lines[..i + 1][..i] == lines[..i];
  }

  /** A line names key k: it parses, and its key text is k's name up to case. */
  predicate Names(line: string, k: Key)
  {
    ParseLine(line).Some? && KeyOf(ParseLine(line).value.0) == Some(k)
  }

  /** A line that names a key sets that key's field from the line's value and leaves every
      other field alone; a line that names no key changes nothing. */
  lemma ApplyLineEffect(s: Settings, line: string, j: Key)
    ensures Names(line, j) ==> Get(ApplyLine(s, line), j) == Convert(j, ParseLine(line).value.1)
    ensures !Names(line, j) ==> Get(ApplyLine(s, line), j) == Get(s, j)
  {
    var p := ParseLine(line);
    if p.Some? && KeyOf(p.value.0).Some? {
      var k := KeyOf(p.value.0).value;
      var f := Convert(k, p.value.1);
      assert ApplyLine(s, line) == Assign(s, k, f);
      if k != j {
        AssignFrame(s, k, f, j);
      }
    } else {
      assert ApplyLine(s, line) == s;
    }
  }

  /** The lines the loader drops without effect: a comment or line-break start, no '=', an
      empty key part, a key part over 127 characters, or nothing before the line break after
      the '='. */
  lemma ParserIgnores(s: Settings, line: string)
    requires || CommentOrBlank(line)
             || KeyRun(line) == |line|
             || KeyRun(line) == 0
             || KeyRun(line) > KeyWidth
             || ValueRun(line[KeyRun(line) + 1..]) == 0
    ensures ApplyLine(s, line) == s
  {
    if !CommentOrBlank(line) {
      assert ScanKeyValue(line).None?;
    }
    assert ParseLine(line).None?;
  }

  /** No key has an empty name. */
  lemma EmptyKeyIgnored()
    ensures KeyOf("") == None
  {
    var r := KeyOf("");
    if r.Some? {
      KeyNameShape(r.value);
    }
  }

  /** Only leading blanks are stripped from the key, so a blank just before the '=' (as in
      "LogLevel =3") makes the line name no key. */
  lemma {:induction false} BlankBeforeEqualsIgnored(s: Settings, line: string)
    requires 0 < KeyRun(line) && IsBlank(line[KeyRun(line) - 1])
    ensures forall k :: !Names(line, k)
    ensures ApplyLine(s, line) == s
  {
    var p := ParseLine(line);
    if p.Some? {
      var raw := line[..KeyRun(line)];
      var key := p.value.0;
      assert key == TrimLeft(raw);
      if |key| == 0 {
        EmptyKeyIgnored();
      } else {
        assert key[|key| - 1] == raw[|raw| - 1];
        TrailingBlankKeyIgnored(key);
      }
    }
  }

  /** Loading a file in two parts is loading the second part over the result of the first. */
  lemma {:induction false} LoadLinesConcat(s: Settings, a: seq<string>, b: seq<string>)
    ensures LoadLines(s, a + b) == LoadLines(LoadLines(s, a), b)
    decreases |b|
  {
    if |b| == 0 {
      assert a + b == a;
    } else {
      var ab := a + b;
      assert ab[..|ab| - 1] == a + b[..|b| - 1];
      assert ab[|ab| - 1] == b[|b| - 1];
      LoadLinesConcat(s, a, b[..|b| - 1]);
    }
  }

  /** A file of comment and blank lines only changes nothing. */
  lemma {:induction false} CommentsChangeNothing(s: Settings, lines: seq<string>)
    requires forall i :: 0 <= i < |lines| ==> CommentOrBlank(lines[i])
    ensures LoadLines(s, lines) == s
    decreases |lines|
  {
    if |lines| > 0 {
      var init := lines[..|lines| - 1];
      assert forall i :: 0 <= i < |init| ==> init[i] == lines[i];
      CommentsChangeNothing(s, init);
    }
  }

  /** The last line naming a key decides that key's field, whatever came before it. */
  lemma {:induction false} LastOccurrenceWins(s: Settings, lines: seq<string>, k: Key, i: nat)
    requires i < |lines| && Names(lines[i], k)
    requires forall j :: i < j < |lines| ==> !Names(lines[j], k)
    ensures Get(LoadLines(s, lines), k) == Convert(k, ParseLine(lines[i]).value.1)
    decreases |lines|
  {
    var init := lines[..|lines| - 1];
    var last := lines[|lines| - 1];
    ApplyLineEffect(LoadLines(s, init), last, k);
    if i < |lines| - 1 {
      assert init[i] == lines[i];
      assert forall j :: i < j < |init| ==> init[j] == lines[j];
      LastOccurrenceWins(s, init, k, i);
    }
  }

  /** With no line naming a key, its field keeps the value it had before loading. */
  lemma {:induction false} UnnamedKeyKept(s: Settings, lines: seq<string>, k: Key)
    requires forall j :: 0 <= j < |lines| ==> !Names(lines[j], k)
    ensures Get(LoadLines(s, lines), k) == Get(s, k)
    decreases |lines|
  {
    if |lines| > 0 {
      var init := lines[..|lines| - 1];
      assert forall j :: 0 <= j < |init| ==> init[j] == lines[j];
      ApplyLineEffect(LoadLines(s, init), lines[|lines| - 1], k);
      UnnamedKeyKept(s, init, k);
    }
  }

  /** A later line for the same key replaces what an earlier one set. */
  lemma LaterLineWins(s: Settings, a: string, b: string, k: Key)
    requires Names(a, k) && Names(b, k)
    ensures ApplyLine(ApplyLine(s, a), b) == ApplyLine(s, b)
  {
    AssignOverwrites(s, k, Convert(k, ParseLine(a).value.1), Convert(k, ParseLine(b).value.1));
  }

  /** How flags read: "true" and "1" in any case set them, anything else clears them, and a
      number field reads text without digits as 0. */
  lemma ValueSpellings()
    ensures ParseBool("true") && ParseBool("TRUE") && ParseBool("True") && ParseBool("1")
    ensures !ParseBool("false") && !ParseBool("0") && !ParseBool("yes") && !ParseBool("")
    ensures Atoi("yes") == 0 && Atoi("") == 0
  {
    assert Lower("0"[0]) != Lower("1"[0]);
    AtoiNonNumeric("yes");
  }

  /** The text `fprintf` writes for one key: its name, '=', the value text and a line break. */
  function Entry(k: Key, v: string): (line: string)
    ensures |line| == |KeyName(k)| + |v| + 2
    ensures line[|KeyName(k)|] == '=' && line[|line| - 1] == '\n'
  {
    KeyName(k) + "=" + v + "\n"
  }

  /** How Config_SaveToFile prints a field: "true" or "false", `%d`, `%.2f`, or the string. */
  function Written(f: Field): (t: string)
    ensures t == "" ==> f == Text("")
  {
    match f
    case Flag(b) => if b then "true" else "false"
    case Number(n) => IntToString(n)
    case Fraction(r) => Format2(r)
    case Text(t) => t
  }

  /** One entry line per key, in order. */
  function Entries(s: Settings, ks: seq<Key>): (lines: seq<string>)
    ensures |lines| == |ks|
  {
    if |ks| == 0 then []
    else Entries(s, ks[..|ks| - 1]) + [Entry(ks[|ks| - 1], Written(Get(s, ks[|ks| - 1])))]
  }

  /** A section: a blank line, the bracketed title, then the section's entries. */
  function Section(s: Settings, title: string, ks: seq<Key>): (lines: seq<string>)
    ensures |lines| == |ks| + 2
  {
    ["\n", "[" + title + " Settings]\n"] + Entries(s, ks)
  }

  /** The i-th entry line is the i-th key, '=', its field as printed, and a newline. */
  lemma {:induction false} EntriesContent(s: Settings, ks: seq<Key>)
    ensures forall i :: 0 <= i < |ks| ==> Entries(s, ks)[i] == Entry(ks[i], Written(Get(s, ks[i])))
    decreases |ks|
  {
    if |ks| > 0 {
      var init := ks[..|ks| - 1];
      EntriesContent(s, init);
      forall i | 0 <= i < |ks|
        ensures Entries(s, ks)[i] == Entry(ks[i], Written(Get(s, ks[i])))
      {
        EntriesAt(s, ks, i);
      }
    }
  }

  /** Entry i of a list of keys is entry i of the list without its last key, or the last
      key's line. */
  lemma EntriesAt(s: Settings, ks: seq<Key>, i: int)
    requires 0 <= i < |ks|
    ensures i < |ks| - 1 ==> Entries(s, ks)[i] == Entries(s, ks[..|ks| - 1])[i] && ks[i] == ks[..|ks| - 1][i]
    ensures i == |ks| - 1 ==> Entries(s, ks)[i] == Entry(ks[i], Written(Get(s, ks[i])))
  {
  }

  /** A section is a blank line, the bracketed title, and then the entry lines of its keys
      (whose content EntriesContent gives). */
  lemma SectionContent(s: Settings, title: string, ks: seq<Key>)
    ensures var lines := Section(s, title, ks);
      && lines[0] == "\n" && lines[1] == "[" + title + " Settings]\n"
      && lines[2..] == Entries(s, ks)
  {
    var lines := Section(s, title, ks);
    assert lines == ["\n", "[" + title + " Settings]\n"] + Entries(s, ks);
  }

  const Header: seq<string> := ["# GPDesk Configuration File\n", "# This file is automatically generated\n"]

  /** The keys of each section, in the order they are written. */
  const ApplicationKeys: seq<Key> := [StartWithWindows, MinimizeToTray, ShowOverlayOnStart, LogLevel]
  const InputKeys: seq<Key> := [EnableGamepadInput, GamepadDeadzone, GamepadVibrationLevel]
  const AudioKeys: seq<Key> := [VolumeIncrement, MuteOnStartup]
  const DisplayKeys: seq<Key> := [BrightnessIncrement, TurnOffDisplayOnIdle, IdleTimeout]
  const PowerKeys: seq<Key> := [ConfirmPowerActions, PowerButtonHoldTime]
  const CustomKeys: seq<Key> :=
    [CustomCommand1, CustomCommand2, CustomCommand3, FavoriteApp1, FavoriteApp2, FavoriteApp3]

  /** The lines of the file Config_SaveToFile writes: two comment lines, then six sections
      (the blank line before the first section is the second line break after the header). */
  function SaveLines(s: Settings): (lines: seq<string>)
    ensures |lines| == 34
  {
    Header
    + Section(s, "Application", ApplicationKeys)
    + Section(s, "Input", InputKeys)
    + Section(s, "Audio", AudioKeys)
    + Section(s, "Display", DisplayKeys)
    + Section(s, "Power", PowerKeys)
    + Section(s, "Custom", CustomKeys)
  }

  /** A value the loader reads back unchanged: 1 to 383 characters, no line break, and no
      blank at either end. */
  predicate Storable(t: string)
  {
    && 1 <= |t| <= ValueWidth
    && (forall i :: 0 <= i < |t| ==> !LineBreak(t[i]))
    && !IsBlank(t[0]) && !IsBlank(t[|t| - 1])
  }

  predicate NoEquals(t: string)
  {
    forall i :: 0 <= i < |t| ==> t[i] != '='
  }

  /** Flags and numbers always print as storable text, and so does a volume whose `%.2f`
      fits the value buffer. */
  lemma WrittenStorable(f: Field)
    requires !f.Text?
    requires f.Fraction? ==> |Format2(f.r)| <= ValueWidth
    ensures Storable(Written(f))
  {
    match f
    case Flag(b) =>
      assert Written(f)[0] != ' ';
    case Number(n) =>
      IntToStringLength(n);
      IntToStringChars(n);
    case Fraction(r) =>
      Format2Chars(r);
  }

  /** An entry line with a storable value sets exactly that key to that value. */
  lemma {:induction false} ApplyEntry(t: Settings, k: Key, v: string)
    requires Storable(v)
    ensures Names(Entry(k, v), k) && ParseLine(Entry(k, v)).value.1 == v
    ensures ApplyLine(t, Entry(k, v)) == Assign(t, k, Convert(k, v))
  {
    var n := KeyName(k);
    KeyNameShape(k);
    ParseEntry(n, v);
    EqualsIgnoreCaseIsEquivalence(n, n, n);
    KeyOfIgnoresCase(n, k);
  }

  /** A line "name=value" with a well-formed name and a storable value parses to exactly that
      name and value. */
  lemma {:induction false} ParseEntry(n: string, v: string)
    requires NameShaped(n) && Storable(v)
    ensures ParseLine(n + "=" + v + "\n") == Some((n, v))
  {
    var line := n + "=" + v + "\n";
    ScanEntry(n, v);
    assert !CommentOrBlank(line) by {
      assert line[0] == n[0];
    }
    TrimmedAlready(n);
    TrimmedAlready(v);
  }

  /** Text that neither starts nor ends with a blank is its own trim. */
  lemma TrimmedAlready(t: string)
    requires |t| > 0 && !IsBlank(t[0]) && !IsBlank(t[|t| - 1])
    ensures TrimLeft(t) == t && TrimRight(t) == t
  {
  }

  lemma {:induction false} ScanEntry(n: string, v: string)
    requires NameShaped(n) && Storable(v)
    ensures ScanKeyValue(n + "=" + v + "\n") == Some((n, v))
  {
    var line := n + "=" + v + "\n";
    assert line[|n|] == '=';
    assert forall i :: 0 <= i < |n| ==> line[i] == n[i];
    assert KeyRun(line) == |n|;
    var rest := line[|n| + 1..];
    assert rest == v + "\n";
    ValueRunOf(v);
    assert rest[..|v|] == v;
    assert line[..|n|] == n;
  }

  lemma ValueRunOf(v: string)
    requires forall i :: 0 <= i < |v| ==> !LineBreak(v[i])
    ensures ValueRun(v + "\n") == |v|
  {
    var rest := v + "\n";
    assert rest[|v|] == '\n';
    assert forall i :: 0 <= i < |v| ==> rest[i] == v[i];
  }

  /** An entry with an empty value ("FavoriteApp1=") has nothing after the '=', so the loader
      skips it. */
  lemma {:induction false} EmptyEntryIgnored(t: Settings, k: Key)
    ensures forall j :: !Names(Entry(k, ""), j)
    ensures ApplyLine(t, Entry(k, "")) == t
  {
    var n := KeyName(k);
    var line := Entry(k, "");
    KeyNameShape(k);
    assert line == n + "=\n";
    assert line[|n|] == '=';
    assert forall i :: 0 <= i < |n| ==> line[i] == n[i];
    assert KeyRun(line) == |n|;
    assert line[|n| + 1..] == "\n";
  }

  /** A section title line has no '=' when the title has none, so the loader skips it. */
  lemma {:induction false} TitleIgnored(t: Settings, title: string)
    requires NoEquals(title)
    ensures ApplyLine(t, "[" + title + " Settings]\n") == t
  {
    var line := "[" + title + " Settings]\n";
    assert forall i :: 0 <= i < |title| ==> line[i + 1] == title[i];
    assert NoEquals(line);
    assert KeyRun(line) == |line|;
  }

  /** A saved field can be read back: storable, or an empty string (which the loader skips). */
  predicate Readable(f: Field)
  {
    Written(f) == "" || Storable(Written(f))
  }

  /** r is t with the fields of the keys in ks as a round trip over t restores them. */
  predicate Reloaded(r: Settings, t: Settings, s: Settings, ks: seq<Key>)
  {
    forall j :: Get(r, j) == if j in ks then Get(Restored(t, s), j) else Get(t, j)
  }

  /** Loading the entry lines of some keys sets each of those keys from its saved text. */
  lemma {:induction false} LoadEntries(t: Settings, s: Settings, ks: seq<Key>)
    requires forall j :: j in ks ==> Readable(Get(s, j))
    ensures Reloaded(LoadLines(t, Entries(s, ks)), t, s, ks)
    decreases |ks|
  {
    if |ks| > 0 {
      var init := ks[..|ks| - 1];
      LoadEntries(t, s, init);
      LoadNextEntry(t, s, ks);
      EntryStep(LoadLines(t, Entries(s, init)), t, s, ks);
    }
  }

  /** Loading one more entry line applies that line to what the earlier ones loaded. */
  lemma LoadNextEntry(t: Settings, s: Settings, ks: seq<Key>)
    requires |ks| > 0
    ensures var k := ks[|ks| - 1];
      LoadLines(t, Entries(s, ks))
      == ApplyLine(LoadLines(t, Entries(s, ks[..|ks| - 1])), Entry(k, Written(Get(s, k))))
  {
    var lines := Entries(s, ks);
    assert lines[..|lines| - 1] == Entries(s, ks[..|ks| - 1]);
  }

  /** One more entry line adds its key to those set. */
  lemma {:induction false} EntryStep(before: Settings, t: Settings, s: Settings, ks: seq<Key>)
    requires |ks| > 0 && Reloaded(before, t, s, ks[..|ks| - 1]) && Readable(Get(s, ks[|ks| - 1]))
    ensures var k := ks[|ks| - 1];
      Reloaded(ApplyLine(before, Entry(k, Written(Get(s, k)))), t, s, ks)
  {
    var init, k := ks[..|ks| - 1], ks[|ks| - 1];
    var w := Written(Get(s, k));
    var after := ApplyLine(before, Entry(k, w));
    WrittenNonEmpty(Get(s, k));
    if w == "" {
      EmptyEntryIgnored(before, k);
    } else {
      StoredEntry(before, t, s, k);
    }
    forall j
      ensures Get(after, j) == if j in ks then Get(Restored(t, s), j) else Get(t, j)
    {
      LastMember(ks, j);
    }
  }

  /** A key is in a non-empty list exactly when it is the last one or in the rest. */
  lemma LastMember(ks: seq<Key>, j: Key)
    requires |ks| > 0
    ensures j in ks <==> j in ks[..|ks| - 1] || j == ks[|ks| - 1]
  {
    assert ks == ks[..|ks| - 1] + [ks[|ks| - 1]];
  }

  /** A non-empty entry line sets its key as a round trip over t would and no other key. */
  lemma StoredEntry(before: Settings, t: Settings, s: Settings, k: Key)
    requires Written(Get(s, k)) != "" && Readable(Get(s, k))
    ensures var after := ApplyLine(before, Entry(k, Written(Get(s, k))));
      && Get(after, k) == Get(Restored(t, s), k)
      && forall j :: j != k ==> Get(after, j) == Get(before, j)
  {
    var w := Written(Get(s, k));
    ApplyEntry(before, k, w);
    ReadBackKey(t, s, k);
    forall j | j != k
      ensures Get(Assign(before, k, Convert(k, w)), j) == Get(before, j)
    {
      AssignFrame(before, k, Convert(k, w), j);
    }
  }

  /** Only a string can be written as nothing. */
  lemma WrittenNonEmpty(f: Field)
    ensures Written(f) == "" ==> f == Text("")
  {
    match f
    case Flag(b) =>
    case Number(n) =>
    case Fraction(r) =>
    case Text(t) =>
  }

  /** Loading a section sets the keys of that section from their saved text. */
  lemma {:induction false} LoadSection(t: Settings, s: Settings, title: string, ks: seq<Key>)
    requires NoEquals(title)
    requires forall j :: j in ks ==> Readable(Get(s, j))
    ensures Reloaded(LoadLines(t, Section(s, title, ks)), t, s, ks)
  {
    var head := ["\n", "[" + title + " Settings]\n"];
    LoadLinesConcat(t, head, Entries(s, ks));
    SectionHeadIgnored(t, title);
    LoadEntries(t, s, ks);
  }

  /** The blank line and the title line before a section's entries change nothing. */
  lemma {:induction false} SectionHeadIgnored(t: Settings, title: string)
    requires NoEquals(title)
    ensures LoadLines(t, ["\n", "[" + title + " Settings]\n"]) == t
  {
    var head := ["\n", "[" + title + " Settings]\n"];
    assert head[..1] == ["\n"];
    assert ["\n"][..0] == [];
    assert CommentOrBlank("\n");
    assert LoadLines(t, ["\n"]) == t;
    TitleIgnored(t, title);
  }

  /** Loading one part after another sets the keys of both. */
  lemma ReloadedCompose(r1: Settings, r2: Settings, t: Settings, s: Settings,
                        k1: seq<Key>, k2: seq<Key>)
    requires Reloaded(r1, t, s, k1) && Reloaded(r2, r1, s, k2)
    ensures Reloaded(r2, t, s, k1 + k2)
  {
    forall j
      ensures Get(r2, j) == if j in k1 + k2 then Get(Restored(t, s), j) else Get(t, j)
    {
      assert j in k1 + k2 <==> j in k1 || j in k2;
      RestoredOver(r1, t, s, j);
    }
  }

  /** What a round trip restores for key j depends on the prior field of j only when the saved
      text is empty, and then that field is kept; so a prior already restored over b, or
      equal to b's, restores as over b. */
  lemma RestoredOver(a: Settings, b: Settings, s: Settings, j: Key)
    requires Get(a, j) == Get(b, j) || Get(a, j) == Get(Restored(b, s), j)
    ensures Get(Restored(a, s), j) == Get(Restored(b, s), j)
  {
  }

  /** The section titles hold no '='. */
  lemma TitlesHaveNoEquals()
    ensures NoEquals("Application") && NoEquals("Input") && NoEquals("Audio")
    ensures NoEquals("Display") && NoEquals("Power") && NoEquals("Custom")
  {
  }

  /** The two comment lines at the top change nothing. */
  lemma HeaderIgnored(t: Settings)
    ensures LoadLines(t, Header) == t
  {
    var first := Header[..1];
    assert first == ["# GPDesk Configuration File\n"] && first[..0] == [];
    assert CommentOrBlank(Header[0]) && CommentOrBlank(Header[1]);
    assert LoadLines(t, first) == ApplyLine(LoadLines(t, []), Header[0]) == t;
  }

  /** A string setting the writer and the loader agree on: empty, or storable. */
  predicate TextFits(t: string)
  {
    t == "" || Storable(t)
  }

  /** What a save-and-load round trip needs of the settings: the volume's `%.2f` fits the
      value buffer (every `float` does), and each string is empty or storable. */
  predicate SaveFits(s: Settings)
  {
    && |Format2(s.volumeIncrement)| <= ValueWidth
    && TextFits(s.customCommand1) && TextFits(s.customCommand2) && TextFits(s.customCommand3)
    && TextFits(s.favoriteApp1) && TextFits(s.favoriteApp2) && TextFits(s.favoriteApp3)
  }

  lemma AllReadable(s: Settings)
    requires SaveFits(s)
    ensures forall k :: Readable(Get(s, k))
  {
    forall k
      ensures Readable(Get(s, k))
    {
      if !Get(s, k).Text? {
        WrittenStorable(Get(s, k));
      }
    }
  }

  /** A string field after the round trip: the saved string, or the prior value when the
      saved string was empty (its line is skipped). */
  function Kept(saved: string, prior: string): string
  {
    if saved == "" then prior else saved
  }

  /** The settings a round trip over `base` yields: flags and numbers as saved, the volume
      rounded to hundredths, and each string as saved unless it was empty. */
  function Restored(base: Settings, s: Settings): Settings
  {
    s.(volumeIncrement := RoundedToHundredths(s.volumeIncrement),
       customCommand1 := Kept(s.customCommand1, base.customCommand1),
       customCommand2 := Kept(s.customCommand2, base.customCommand2),
       customCommand3 := Kept(s.customCommand3, base.customCommand3),
       favoriteApp1 := Kept(s.favoriteApp1, base.favoriteApp1),
       favoriteApp2 := Kept(s.favoriteApp2, base.favoriteApp2),
       favoriteApp3 := Kept(s.favoriteApp3, base.favoriteApp3))
  }

  /** A flag prints as "true" or "false" and reads back as itself. */
  lemma ReadBackFlag(b: bool)
    ensures ParseBool(Written(Flag(b))) == b
  {
    assert !EqualsIgnoreCase("false", "1");
  }

  /** Loading the saved file over any settings `base` restores the saved settings: flags and
      numbers exactly, the volume rounded by `%.2f`, and every string except an empty one,
      whose line is skipped so that base's value stays. */
  lemma {:induction false} SaveLoadRoundTrip(base: Settings, s: Settings)
    requires SaveFits(s)
    ensures LoadLines(base, SaveLines(s)) == Restored(base, s)
  {
    AllReadable(s);
    TitlesHaveNoEquals();
    var p0 := Header;
    var p1 := p0 + Section(s, "Application", ApplicationKeys);
    var p2 := p1 + Section(s, "Input", InputKeys);
    var p3 := p2 + Section(s, "Audio", AudioKeys);
    var p4 := p3 + Section(s, "Display", DisplayKeys);
    var p5 := p4 + Section(s, "Power", PowerKeys);
    var p6 := p5 + Section(s, "Custom", CustomKeys);
    HeaderIgnored(base);
    LoadLinesConcat(base, p0, Section(s, "Application", ApplicationKeys));
    LoadSection(base, s, "Application", ApplicationKeys);
    LoadLinesConcat(base, p1, Section(s, "Input", InputKeys));
    LoadSection(LoadLines(base, p1), s, "Input", InputKeys);
    ReloadedCompose(LoadLines(base, p1), LoadLines(base, p2), base, s, ApplicationKeys, InputKeys);
    var k2 := ApplicationKeys + InputKeys;
    LoadLinesConcat(base, p2, Section(s, "Audio", AudioKeys));
    LoadSection(LoadLines(base, p2), s, "Audio", AudioKeys);
    ReloadedCompose(LoadLines(base, p2), LoadLines(base, p3), base, s, k2, AudioKeys);
    var k3 := k2 + AudioKeys;
    LoadLinesConcat(base, p3, Section(s, "Display", DisplayKeys));
    LoadSection(LoadLines(base, p3), s, "Display", DisplayKeys);
    ReloadedCompose(LoadLines(base, p3), LoadLines(base, p4), base, s, k3, DisplayKeys);
    var k4 := k3 + DisplayKeys;
    LoadLinesConcat(base, p4, Section(s, "Power", PowerKeys));
    LoadSection(LoadLines(base, p4), s, "Power", PowerKeys);
    ReloadedCompose(LoadLines(base, p4), LoadLines(base, p5), base, s, k4, PowerKeys);
    var k5 := k4 + PowerKeys;
    LoadLinesConcat(base, p5, Section(s, "Custom", CustomKeys));
    LoadSection(LoadLines(base, p5), s, "Custom", CustomKeys);
    ReloadedCompose(LoadLines(base, p5), LoadLines(base, p6), base, s, k5, CustomKeys);
    RestoredFromReloaded(LoadLines(base, p6), base, s);
  }

  /** Once every key is set from its saved text, the result is the restored settings. */
  lemma RestoredFromReloaded(r: Settings, base: Settings, s: Settings)
    requires Reloaded(r, base, s, ApplicationKeys + InputKeys + AudioKeys + DisplayKeys + PowerKeys + CustomKeys)
    ensures r == Restored(base, s)
  {
    forall k
      ensures Get(r, k) == Get(Restored(base, s), k)
    {
      InSomeSection(k);
    }
    GetDetermines(r, Restored(base, s));
  }

  /** A key whose saved text is not empty reads back as the round trip restores it. */
  lemma ReadBackKey(t: Settings, s: Settings, k: Key)
    requires Written(Get(s, k)) != ""
    ensures Convert(k, Written(Get(s, k))) == Get(Restored(t, s), k)
  {
    match k
    case StartWithWindows | MinimizeToTray | ShowOverlayOnStart | EnableGamepadInput
       | MuteOnStartup | TurnOffDisplayOnIdle | ConfirmPowerActions =>
      FlagReadsBack(k, Get(s, k).b);
    case LogLevel | GamepadDeadzone | GamepadVibrationLevel | BrightnessIncrement
       | IdleTimeout | PowerButtonHoldTime =>
      NumberReadsBack(k, Get(s, k).n);
    case VolumeIncrement => AtofFormat2(s.volumeIncrement);
    case CustomCommand1 | CustomCommand2 | CustomCommand3
       | FavoriteApp1 | FavoriteApp2 | FavoriteApp3 =>
  }

  /** A flag key reads "true" as true and "false" as false. */
  lemma FlagReadsBack(k: Key, b: bool)
    requires k.StartWithWindows? || k.MinimizeToTray? || k.ShowOverlayOnStart?
          || k.EnableGamepadInput? || k.MuteOnStartup? || k.TurnOffDisplayOnIdle?
          || k.ConfirmPowerActions?
    ensures Convert(k, Written(Flag(b))) == Flag(b)
  {
    ConvertFlag(k, Written(Flag(b)));
    ReadBackFlag(b);
  }

  /** A flag key's value is read as true exactly when it spells a true value. */
  lemma ConvertFlag(k: Key, v: string)
    requires k.StartWithWindows? || k.MinimizeToTray? || k.ShowOverlayOnStart?
          || k.EnableGamepadInput? || k.MuteOnStartup? || k.TurnOffDisplayOnIdle?
          || k.ConfirmPowerActions?
    ensures Convert(k, v) == Flag(ParseBool(v))
  {
  }

  /** A number key reads back every `int` written with `%d`. */
  lemma NumberReadsBack(k: Key, n: Int32)
    requires k.LogLevel? || k.GamepadDeadzone? || k.GamepadVibrationLevel?
          || k.BrightnessIncrement? || k.IdleTimeout? || k.PowerButtonHoldTime?
    ensures Convert(k, IntToString(n)) == Number(n)
  {
    ConvertNumber(k, IntToString(n));
    AtoiIntToString(n);
  }

  /** A number key's value is read with `atoi`. */
  lemma ConvertNumber(k: Key, v: string)
    requires k.LogLevel? || k.GamepadDeadzone? || k.GamepadVibrationLevel?
          || k.BrightnessIncrement? || k.IdleTimeout? || k.PowerButtonHoldTime?
    ensures Convert(k, v) == Number(Atoi(v))
  {
  }

  /** Every key is written in one of the sections. */
  lemma InSomeSection(k: Key)
    ensures k in ApplicationKeys + InputKeys + AudioKeys + DisplayKeys + PowerKeys + CustomKeys
  {
  }

  /** So settings whose strings are all non-empty and storable and whose volume is a whole
      number of hundredths survive a save and a load exactly. */
  lemma SaveLoadExact(base: Settings, s: Settings)
    requires SaveFits(s)
    requires s.customCommand1 != "" && s.customCommand2 != "" && s.customCommand3 != ""
    requires s.favoriteApp1 != "" && s.favoriteApp2 != "" && s.favoriteApp3 != ""
    requires (s.volumeIncrement * 100.0).Floor as real == s.volumeIncrement * 100.0
    ensures LoadLines(base, SaveLines(s)) == s
  {
    SaveLoadRoundTrip(base, s);
    RestoredExact(base, s);
  }

  lemma RestoredExact(base: Settings, s: Settings)
    requires s.customCommand1 != "" && s.customCommand2 != "" && s.customCommand3 != ""
    requires s.favoriteApp1 != "" && s.favoriteApp2 != "" && s.favoriteApp3 != ""
    requires (s.volumeIncrement * 100.0).Floor as real == s.volumeIncrement * 100.0
    ensures Restored(base, s) == s
  {
    RoundedExact(s.volumeIncrement);
  }

  /** An empty string is written as "Key=" and skipped on load: after the defaults have been
      set, an emptied FavoriteApp1 comes back as "notepad.exe". */
  lemma EmptyFavoriteReverts(s: Settings)
    requires SaveFits(s) && s.favoriteApp1 == ""
    ensures LoadLines(Defaults(), SaveLines(s)).favoriteApp1 == "notepad.exe"
  {
    SaveLoadRoundTrip(Defaults(), s);
  }
}
