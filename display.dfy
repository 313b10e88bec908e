/** Brightness scaling of src/system/display_control.c. The monitor enumeration and the DDC/CI
    calls are replaced by a probe value (what the enumeration found and what
    GetMonitorBrightness read) and a flag saying whether SetMonitorBrightness succeeds; the
    operations return the raw level they would write. */
module Display {
  import opened Common

  /** Windows' DWORD: an unsigned 32-bit integer, with arithmetic modulo 2^32. */
  const U32: int := 0x1_0000_0000
  type DWord = x: int | 0 <= x < U32

  /** The C conversion of a DWORD to a 32-bit `int` (two's complement wrap). */
  function ToInt32(x: DWord): (r: int)
    ensures -0x8000_0000 <= r < 0x8000_0000
    ensures r % U32 == x
  {
    if x < 0x8000_0000 then x else x - U32
  }

  /** The (minimum, current, maximum) triple GetMonitorBrightness reports. */
  datatype Range = Range(min: DWord, cur: DWord, max: DWord)

  /** What the primary monitor's enumeration yields: a failure to count, allocate or list the
      physical monitors; an empty list; or a first physical monitor, whose brightness query
      may fail. */
  datatype Probe = EnumFailed | NoMonitors | FirstMonitor(reading: Option<Range>)

  /** What Display_SetBrightness does: the raw level it passes to SetMonitorBrightness (if it
      gets that far) and the value it returns. */
  datatype SetOutcome = SetOutcome(written: Option<DWord>, success: bool)

  /** A reading whose current level lies in its range and whose span fits the scaling
      arithmetic without 32-bit wrap-around. Real monitors report small ranges such as 0..100. */
  predicate Sane(r: Range)
  {
    r.min <= r.cur <= r.max && (r.max - r.min) * 100 < U32
  }

  /** The clamp at the top of Display_SetBrightness. */
  function ClampPercent(b: int): (p: int)
    ensures 0 <= p <= 100
    ensures 0 <= b <= 100 ==> p == b
    ensures b < 0 ==> p == 0
    ensures b > 100 ==> p == 100
  {
    if b < 0 then 0 else if b > 100 then 100 else b
  }

  /** The DWORD expression `min + ((max - min) * brightness) / 100` for a clamped percent. */
  function RawLevel(r: Range, p: int): (raw: DWord)
    requires 0 <= p <= 100
    ensures p == 0 ==> raw == r.min
  {
    var span := (r.max - r.min) % U32;
    var scaled := (span * p) % U32;
    (r.min + scaled / 100) % U32
  }

  /** With min <= max and no wrap-around, the raw level is the exact linear interpolation,
      truncated: 0 percent is the minimum, 100 percent the maximum, and every level lies in
      between. */
  lemma {:induction false} RawLevelInRange(r: Range, p: int)
    requires 0 <= p <= 100
    requires r.min <= r.max && (r.max - r.min) * 100 < U32
    ensures RawLevel(r, p) == r.min + ((r.max - r.min) * p) / 100
    ensures r.min <= RawLevel(r, p) <= r.max
    ensures p == 0 ==> RawLevel(r, p) == r.min
    ensures p == 100 ==> RawLevel(r, p) == r.max
  {
    var d := r.max - r.min;
    ModSmall(d, U32);
    MulLe(0, p, d);
    MulLe(p, 100, d);
    ModSmall(d * p, U32);
    var v := (d * p) / 100;
    DivMonotone(0, d * p, 100);
    DivMonotone(d * p, d * 100, 100);
    DivUnique(d * 100, 100, d);
    ModSmall(r.min + v, U32);
  }

  /** A higher percent never gives a lower raw level. */
  lemma {:induction false} RawLevelMonotone(r: Range, p: int, q: int)
    requires 0 <= p <= q <= 100
    requires r.min <= r.max && (r.max - r.min) * 100 < U32
    ensures RawLevel(r, p) <= RawLevel(r, q)
  {
    RawLevelInRange(r, p);
    RawLevelInRange(r, q);
    MulLe(p, q, r.max - r.min);
    DivMonotone((r.max - r.min) * p, (r.max - r.min) * q, 100);
  }

  /** The percent Display_GetBrightness computes from a reading: the DWORD expression
      `((cur - min) * 100) / (max - min)` converted to `int` when max > min, 0 otherwise. */
  function Percent(r: Range): (pct: int)
    ensures -0x8000_0000 <= pct < 0x8000_0000
    ensures r.max <= r.min ==> pct == 0
  {
    if r.max > r.min then
      var above := (r.cur - r.min) % U32;
      var scaled := (above * 100) % U32;
      DivAtMost(scaled, r.max - r.min);
      ToInt32(scaled / (r.max - r.min))
    else 0
  }

  /** For a sane reading the percent is the truncated position of cur within [min, max], and
      so lies in [0, 100]. */
  lemma {:induction false} PercentInRange(r: Range)
    requires Sane(r)
    ensures r.max > r.min ==> Percent(r) == ((r.cur - r.min) * 100) / (r.max - r.min)
    ensures r.max == r.min ==> Percent(r) == 0
    ensures 0 <= Percent(r) <= 100
  {
    if r.max > r.min {
      var d := r.max - r.min;
      var c := r.cur - r.min;
      ModSmall(c, U32);
      MulLe(0, c, 100);
      MulLe(c, d, 100);
      ModSmall(c * 100, U32);
      DivMonotone(0, c * 100, d);
      DivMonotone(c * 100, d * 100, d);
      DivUnique(d * 100, d, 100);
      var g := (c * 100) / d;
      assert Percent(r) == ToInt32(g);
    }
  }

  /** Display_GetBrightness: 0 whenever the enumeration fails, there is no monitor or the
      brightness query fails; otherwise the percent of the first monitor's reading. */
  function GetBrightness(probe: Probe): (pct: int)
    ensures !(probe.FirstMonitor? && probe.reading.Some?) ==> pct == 0
    ensures probe.FirstMonitor? && probe.reading.Some? ==> pct == Percent(probe.reading.value)
  {
    match probe
    case FirstMonitor(Some(r)) => Percent(r)
    case _ => 0
  }

  /** Display_SetBrightness: clamps the request into [0, 100], then writes the scaled raw level
      to the first physical monitor. It succeeds only when every step, the write included,
      succeeds; nothing is written when enumeration or the brightness query fails. */
  function SetBrightness(brightness: int, probe: Probe, writeOk: bool): (out: SetOutcome)
    ensures out.success <==> probe.FirstMonitor? && probe.reading.Some? && writeOk
    ensures out.written.Some? <==> probe.FirstMonitor? && probe.reading.Some?
    ensures out.written.Some? ==>
      out.written.value == RawLevel(probe.reading.value, ClampPercent(brightness))
  {
    match probe
    case FirstMonitor(Some(r)) =>
      SetOutcome(Some(RawLevel(r, ClampPercent(brightness))), writeOk)
    case _ => SetOutcome(None, false)
  }

  /** Scaling a percent to a span and back truncates twice, each time downward. */
  lemma {:induction false} ScaleBack(d: int, p: int)
    requires d > 0 && 0 <= p
    ensures (((d * p) / 100) * 100) / d <= p
    ensures (d * p) % 100 == 0 ==> (((d * p) / 100) * 100) / d == p
  {
    var q := (d * p) / 100;
    DivBounds(d * p, 100);
    DivMonotone(q * 100, d * p, d);
    DivUnique(d * p, d, p);
    if (d * p) % 100 == 0 {
      assert d * p == 100 * q + (d * p) % 100;
    }
  }

  /** Setting a percent p in [0, 100] and reading it back gives at most p, and exactly p when
      (max - min) * p is a multiple of 100 (for example when max - min is 100). */
  lemma {:induction false} ReadBackAfterSet(r: Range, p: int)
    requires 0 <= p <= 100
    requires r.min < r.max && (r.max - r.min) * 100 < U32
    ensures Percent(Range(r.min, RawLevel(r, p), r.max)) <= p
    ensures ((r.max - r.min) * p) % 100 == 0 ==> Percent(Range(r.min, RawLevel(r, p), r.max)) == p
  {
    PercentOfLevel(r, p);
    ScaleBack(r.max - r.min, p);
  }

  /** Reading back the level set for p recovers the truncated scaled percent. */
  lemma {:induction false} PercentOfLevel(r: Range, p: int)
    requires 0 <= p <= 100
    requires r.min < r.max && (r.max - r.min) * 100 < U32
    ensures var d := r.max - r.min;
      Percent(Range(r.min, RawLevel(r, p), r.max)) == (((d * p) / 100) * 100) / d
  {
    LevelSane(r, p);
    PercentInRange(Range(r.min, RawLevel(r, p), r.max));
  }

  /** The level set for p, read back with the same range, is a sane reading p percent of the
      way up. */
  lemma LevelSane(r: Range, p: int)
    requires 0 <= p <= 100
    requires r.min < r.max && (r.max - r.min) * 100 < U32
    ensures Sane(Range(r.min, RawLevel(r, p), r.max))
    ensures RawLevel(r, p) - r.min == ((r.max - r.min) * p) / 100
  {
    RawLevelInRange(r, p);
  }

  /** Display_BrightnessUp: a non-positive increment is refused without touching the monitor;
      otherwise it reads the current percent and sets that plus the increment. The read and
      the write are two separate enumerations and queries, so each has its own probe. */
  function BrightnessUp(increment: int, readProbe: Probe, writeProbe: Probe, writeOk: bool)
    : (out: SetOutcome)
    ensures increment <= 0 ==> out == SetOutcome(None, false)
    ensures increment > 0 ==>
      out == SetBrightness(GetBrightness(readProbe) + increment, writeProbe, writeOk)
  {
    if increment <= 0 then SetOutcome(None, false)
    else SetBrightness(GetBrightness(readProbe) + increment, writeProbe, writeOk)
  }

  /** Display_BrightnessDown: as BrightnessUp, with the increment subtracted. */
  function BrightnessDown(increment: int, readProbe: Probe, writeProbe: Probe, writeOk: bool)
    : (out: SetOutcome)
    ensures increment <= 0 ==> out == SetOutcome(None, false)
    ensures increment > 0 ==>
      out == SetBrightness(GetBrightness(readProbe) - increment, writeProbe, writeOk)
  {
    if increment <= 0 then SetOutcome(None, false)
    else SetBrightness(GetBrightness(readProbe) - increment, writeProbe, writeOk)
  }

  /** Scaling the truncated percent of c within a span d back to the span never exceeds c,
      and any higher percent reaches at least c. */
  lemma {:induction false} PercentScaleBounds(d: int, c: int, p: int)
    requires d > 0 && 0 <= c
    ensures (d * ((c * 100) / d)) / 100 <= c
    ensures p > (c * 100) / d ==> (d * p) / 100 >= c
  {
    var g := (c * 100) / d;
    DivBounds(c * 100, d);
    DivMonotone(d * g, c * 100, 100);
    DivUnique(c * 100, 100, c);
    if p > g {
      MulSucc(g, d);
      MulLe(g + 1, p, d);
      DivMonotone(c * 100, d * p, 100);
    }
  }

  /** The raw level of the percent read back never exceeds the current level. */
  lemma {:induction false} RawOfPercentAtMostCur(r: Range)
    requires Sane(r)
    ensures 0 <= Percent(r) <= 100 && RawLevel(r, Percent(r)) <= r.cur
  {
    PercentInRange(r);
    var g := Percent(r);
    RawLevelInRange(r, g);
    if r.max > r.min {
      var d := r.max - r.min;
      var c := r.cur - r.min;
      assert g == (c * 100) / d;
      PercentScaleBounds(d, c, g);
      assert RawLevel(r, g) == r.min + (d * g) / 100;
    }
  }

  /** Any percent above the one read back gives a raw level at least the current one. */
  lemma {:induction false} RawAbovePercentAtLeastCur(r: Range, p: int)
    requires Sane(r) && 0 <= p <= 100 && Percent(r) < p
    ensures RawLevel(r, p) >= r.cur
  {
    PercentInRange(r);
    RawLevelInRange(r, p);
    if r.max > r.min {
      PercentScaleBounds(r.max - r.min, r.cur - r.min, p);
    }
  }

  /** When both passes read the same sane reading, BrightnessUp never dims the monitor and
      BrightnessDown never brightens it. */
  lemma {:induction false} UpDownDirection(r: Range, increment: int, writeOk: bool)
    requires Sane(r) && increment > 0
    ensures BrightnessUp(increment, FirstMonitor(Some(r)), FirstMonitor(Some(r)), writeOk)
              .written.value >= r.cur
    ensures BrightnessDown(increment, FirstMonitor(Some(r)), FirstMonitor(Some(r)), writeOk)
              .written.value <= r.cur
  {
    var g := Percent(r);
    PercentInRange(r);
    var up := ClampPercent(g + increment);
    if g < 100 {
      RawAbovePercentAtLeastCur(r, up);
    } else {
      RawLevelInRange(r, up);
    }
    RawOfPercentAtMostCur(r);
    RawLevelMonotone(r, ClampPercent(g - increment), g);
  }

  /** Display_GetBrightness reports a failed read as 0 percent. If the read pass fails and the
      write pass succeeds, BrightnessUp sets the increment itself as the new percent and
      BrightnessDown sets the minimum, whatever the monitor's current level. */
  lemma {:induction false} FailedReadStartsFromZero(readProbe: Probe, r: Range, increment: int,
                                                    writeOk: bool)
    requires !(readProbe.FirstMonitor? && readProbe.reading.Some?) && increment > 0
    requires r.min <= r.max && (r.max - r.min) * 100 < U32
    ensures BrightnessUp(increment, readProbe, FirstMonitor(Some(r)), writeOk).written
            == Some(RawLevel(r, ClampPercent(increment)))
    ensures BrightnessDown(increment, readProbe, FirstMonitor(Some(r)), writeOk).written
            == Some(r.min)
  {
    RawLevelInRange(r, 0);
  }

  /** So brightness up can dim: a monitor at 80 of 0..100 whose read fails is set to 10. */
  lemma BrightnessUpCanDim()
    ensures var r := Range(0, 80, 100);
      BrightnessUp(10, FirstMonitor(None), FirstMonitor(Some(r)), true).written == Some(10)
      && 10 < r.cur
  {
    FailedReadStartsFromZero(FirstMonitor(None), Range(0, 80, 100), 10, true);
    RawLevelInRange(Range(0, 80, 100), 10);
  }
}
