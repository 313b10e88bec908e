/** The C runtime text handling that src/config/config.c relies on: `_stricmp` (ASCII case
    folding), the space-and-tab trims of the loader, `atoi` and `%d`, and `atof` and `%.2f` for
    the one floating-point setting. The runtime functions are library calls, so they are
    modelled as functions. */
module ConfigText {
  import opened Common

  /** A C `int`. */
  type Int32 = x: int | -0x8000_0000 <= x < 0x8000_0000

  /** `tolower` on the ASCII letters; every other character is left alone. */
  function Lower(c: char): (d: char)
    ensures 'A' <= c <= 'Z' ==> d as int == c as int + 32
    ensures !('A' <= c <= 'Z') ==> d == c
  {
    if 'A' <= c <= 'Z' then (c as int + 32) as char else c
  }

  /** `_stricmp(a, b) == 0`: the same length, and the same characters up to ASCII case. */
  predicate EqualsIgnoreCase(a: string, b: string)
  {
    |a| == |b| && forall i :: 0 <= i < |a| ==> Lower(a[i]) == Lower(b[i])
  }

  /** Equality up to case is an equivalence, and it is plain equality on strings without
      upper-case letters. */
  lemma EqualsIgnoreCaseIsEquivalence(a: string, b: string, c: string)
    ensures EqualsIgnoreCase(a, a)
    ensures EqualsIgnoreCase(a, b) ==> EqualsIgnoreCase(b, a)
    ensures EqualsIgnoreCase(a, b) && EqualsIgnoreCase(b, c) ==> EqualsIgnoreCase(a, c)
    ensures (forall i :: 0 <= i < |a| ==> !('A' <= a[i] <= 'Z'))
         && (forall i :: 0 <= i < |b| ==> !('A' <= b[i] <= 'Z'))
         ==> (EqualsIgnoreCase(a, b) <==> a == b)
  {
  }

  /** The blanks the loader strips: space and tab. */
  predicate IsBlank(c: char)
  {
    c == ' ' || c == '\t'
  }

  /** The characters `isspace` accepts in the C locale, which `atoi` and `atof` skip. */
  predicate IsSpace(c: char)
  {
    c == ' ' || c == '\t' || c == '\n' || c == 11 as char || c == 12 as char || c == '\r'
  }

  predicate IsDigit(c: char)
  {
    '0' <= c <= '9'
  }

  /** The string with its leading blanks removed. */
  function TrimLeft(s: string): (t: string)
    ensures |t| <= |s| && t == s[|s| - |t|..]
    ensures |t| > 0 ==> !IsBlank(t[0])
    ensures forall i :: 0 <= i < |s| - |t| ==> IsBlank(s[i])
  {
    if |s| > 0 && IsBlank(s[0]) then
      var t := TrimLeft(s[1..]);
      assert forall i :: 1 <= i < |s| - |t| ==> s[i] == s[1..][i - 1];
      t
    else s
  }

  /** The string with its trailing blanks removed. */
  function TrimRight(s: string): (t: string)
    ensures |t| <= |s| && t == s[..|t|]
    ensures |t| > 0 ==> !IsBlank(t[|t| - 1])
    ensures forall i :: |t| <= i < |s| ==> IsBlank(s[i])
  {
    if |s| > 0 && IsBlank(s[|s| - 1]) then TrimRight(s[..|s| - 1]) else s
  }

  /** The string with its leading `isspace` characters removed. */
  function SkipSpace(s: string): (t: string)
    ensures |t| <= |s| && t == s[|s| - |t|..]
    ensures |t| > 0 ==> !IsSpace(t[0])
  {
    if |s| > 0 && IsSpace(s[0]) then SkipSpace(s[1..]) else s
  }

  /** The length of the run of digits at the start of s. */
  function DigitRun(s: string): (n: nat)
    ensures n <= |s|
    ensures forall i :: 0 <= i < n ==> IsDigit(s[i])
    ensures n < |s| ==> !IsDigit(s[n])
  {
    if |s| > 0 && IsDigit(s[0]) then 1 + DigitRun(s[1..]) else 0
  }

  /** The decimal value of a string of digits. */
  function DigitsValue(s: string): (n: nat)
    requires forall i :: 0 <= i < |s| ==> IsDigit(s[i])
  {
    if |s| == 0 then 0 else DigitsValue(s[..|s| - 1]) * 10 + DigitValue(s[|s| - 1])
  }

  function DigitValue(c: char): (d: nat)
    requires IsDigit(c)
    ensures d < 10
  {
    c as int - '0' as int
  }

  function DigitChar(d: int): (c: char)
    requires 0 <= d < 10
    ensures IsDigit(c) && DigitValue(c) == d
  {
    ('0' as int + d) as char
  }

  /** `%u`: the decimal digits of n, without leading zeros. */
  function NatToString(n: nat): (s: string)
    ensures |s| > 0
    decreases n
  {
    if n < 10 then [DigitChar(n)] else NatToString(n / 10) + [DigitChar(n % 10)]
  }

  /** `%u` writes digits only. */
  lemma {:induction false} NatToStringDigits(n: nat)
    ensures forall i :: 0 <= i < |NatToString(n)| ==> IsDigit(NatToString(n)[i])
    decreases n
  {
    if n >= 10 {
      NatToStringDigits(n / 10);
    }
  }

  /** Reading the digits back gives the number. */
  lemma {:induction false} NatToStringValue(n: nat)
    ensures forall i :: 0 <= i < |NatToString(n)| ==> IsDigit(NatToString(n)[i])
    ensures DigitsValue(NatToString(n)) == n
    decreases n
  {
    NatToStringDigits(n);
    var s := NatToString(n);
    if n >= 10 {
      NatToStringValue(n / 10);
      assert s[..|s| - 1] == NatToString(n / 10);
    }
  }

  /** A run of digits followed by a non-digit (or by nothing) is read exactly. */
  lemma {:induction false} DigitRunOf(t: string, rest: string)
    requires forall i :: 0 <= i < |t| ==> IsDigit(t[i])
    requires |rest| > 0 ==> !IsDigit(rest[0])
    ensures DigitRun(t + rest) == |t|
    ensures (t + rest)[..|t|] == t
    decreases |t|
  {
    if |t| > 0 {
      assert (t + rest)[1..] == t[1..] + rest;
      DigitRunOf(t[1..], rest);
    }
  }

  function Pow10(k: nat): (p: nat)
    ensures p >= 1
  {
    if k == 0 then 1 else 10 * Pow10(k - 1)
  }

  /** A number below 10^k has at most k digits. */
  lemma {:induction false} NatToStringLength(n: nat, k: nat)
    requires k >= 1 && n < Pow10(k)
    ensures |NatToString(n)| <= k
    decreases k
  {
    if n >= 10 {
      NatToStringLength(n / 10, k - 1);
    }
  }

  /** `%d`: a minus for a negative number, then the digits of its magnitude. */
  function IntToString(n: int): (s: string)
    ensures |s| > 0
  {
    if n < 0 then "-" + NatToString(-n) else NatToString(n)
  }

  /** `%d` writes a minus exactly for a negative number, and digits otherwise. */
  lemma IntToStringChars(n: int)
    ensures var s := IntToString(n);
      && (s[0] == '-' <==> n < 0) && (|s| > 1 ==> IsDigit(s[|s| - 1]))
      && forall i :: 0 <= i < |s| ==> IsDigit(s[i]) || (i == 0 && s[i] == '-')
  {
    NatToStringDigits(if n < 0 then -n else n);
  }

  /** An `int` prints in at most 11 characters. */
  lemma IntToStringLength(n: Int32)
    ensures |IntToString(n)| <= 11
  {
    assert Pow10(10) == 10_000_000_000;
    NatToStringLength(if n < 0 then -(n as int) else n, 10);
  }

  /** The saturation of `atoi` at the ends of the `int` range. */
  function Saturate(n: int): (r: Int32)
    ensures -0x8000_0000 <= n < 0x8000_0000 ==> r == n
    ensures n >= 0x8000_0000 ==> r == 0x7FFF_FFFF
    ensures n < -0x8000_0000 ==> r == -0x8000_0000
  {
    if n >= 0x8000_0000 then 0x7FFF_FFFF else if n < -0x8000_0000 then -0x8000_0000 else n
  }

  /** The text after an optional sign, and whether the sign was a minus. */
  function Unsigned(t: string): (r: (bool, string))
    ensures |r.1| <= |t|
  {
    if |t| > 0 && t[0] == '-' then (true, t[1..])
    else if |t| > 0 && t[0] == '+' then (false, t[1..])
    else (false, t)
  }

  /** `atoi`: leading white space, an optional sign, then as many digits as follow; the value
      saturates at the ends of the `int` range, and text without digits reads as 0. */
  function Atoi(s: string): (n: Int32)
    ensures DigitRun(Unsigned(SkipSpace(s)).1) == 0 ==> n == 0
  {
    var (negative, u) := Unsigned(SkipSpace(s));
    var magnitude: int := DigitsValue(u[..DigitRun(u)]);
    Saturate(if negative then -magnitude else magnitude)
  }

  /** `atoi` reads back every `int` that `%d` writes. */
  lemma {:induction false} AtoiIntToString(n: Int32)
    ensures Atoi(IntToString(n)) == n
  {
    var m: nat := if n < 0 then -(n as int) else n;
    UnsignedIntToString(n);
    ReadDigits(m);
  }

  /** `%d` text has no leading space, and its sign and digits split as `atoi` expects. */
  lemma {:induction false} UnsignedIntToString(n: Int32)
    ensures Unsigned(SkipSpace(IntToString(n)))
         == (n < 0, NatToString(if n < 0 then -(n as int) else n))
  {
    var m: nat := if n < 0 then -(n as int) else n;
    NatToStringDigits(m);
    SignedDigits(n < 0, NatToString(m));
  }

  /** Digits, with or without a minus in front, are read as that sign and those digits. */
  lemma SignedDigits(negative: bool, digits: string)
    requires |digits| > 0 && IsDigit(digits[0])
    ensures var s := if negative then "-" + digits else digits;
      Unsigned(SkipSpace(s)) == (negative, digits)
  {
    var s := if negative then "-" + digits else digits;
    assert SkipSpace(s) == s;
    if negative {
      assert s[1..] == digits;
    }
  }

  /** The digits of m, read as far as they go, give m. */
  lemma ReadDigits(m: nat)
    ensures DigitRun(NatToString(m)) == |NatToString(m)|
    ensures DigitsValue(NatToString(m)[..DigitRun(NatToString(m))]) == m
  {
    var digits := NatToString(m);
    NatToStringDigits(m);
    DigitRunOf(digits, "");
    assert digits + "" == digits;
    assert digits[..|digits|] == digits;
    NatToStringValue(m);
  }

  /** Text that starts, after white space and a sign, with no digit reads as 0. */
  lemma AtoiNonNumeric(s: string)
    requires |s| > 0 && !IsSpace(s[0]) && !IsDigit(s[0]) && s[0] != '-' && s[0] != '+'
    ensures Atoi(s) == 0
  {
    assert SkipSpace(s) == s;
  }

  /** A decimal fraction: the value of a string of digits placed after the point. */
  function FractionValue(s: string): (r: real)
    requires forall i :: 0 <= i < |s| ==> IsDigit(s[i])
    ensures 0.0 <= r < 1.0
  {
    if |s| == 0 then 0.0
    else (DigitValue(s[0]) as real + FractionValue(s[1..])) / 10.0
  }

  /** `atof` on plain decimal text: white space, an optional sign, digits, and optionally a
      point followed by more digits. */
  function Atof(s: string): (v: real)
    ensures (DigitRun(Unsigned(SkipSpace(s)).1) == 0
             && !(|Unsigned(SkipSpace(s)).1| > 0 && Unsigned(SkipSpace(s)).1[0] == '.'))
            ==> v == 0.0
  {
    var u := Unsigned(SkipSpace(s));
    var magnitude := Magnitude(u.1);
    if u.0 then -magnitude else magnitude
  }

  /** The unsigned number at the start of t: its whole part and, after a point, its
      fraction. */
  function Magnitude(t: string): (m: real)
    ensures m >= 0.0
    ensures DigitRun(t) == 0 && !(|t| > 0 && t[0] == '.') ==> m == 0.0
  {
    var k := DigitRun(t);
    var whole := DigitsValue(t[..k]) as real;
    var rest := t[k..];
    var fraction :=
      if |rest| > 0 && rest[0] == '.' then FractionValue(rest[1..][..DigitRun(rest[1..])]) else 0.0;
    assert k == 0 ==> t[..k] == [];
    whole + fraction
  }

  /** The number of hundredths `%.2f` shows for |v|: rounded to the nearest, halves up. */
  function Hundredths(v: real): (n: nat)
    ensures (n as real) - 0.5 <= AbsReal(v) * 100.0 < (n as real) + 0.5
  {
    var f := (AbsReal(v) * 100.0 + 0.5).Floor;
    f
  }

  /** `%.2f`: a minus for a negative value, the whole part, a point and two decimals. */
  function Format2(v: real): (s: string)
    ensures |s| >= 4 && s[|s| - 3] == '.'
  {
    var body := Decimals(Hundredths(v));
    if v < 0.0 then "-" + body else body
  }

  /** `%.2f` writes a minus exactly for a negative value, then digits and the point. */
  lemma Format2Chars(v: real)
    ensures var s := Format2(v);
      && (s[0] == '-' <==> v < 0.0) && IsDigit(s[|s| - 1])
      && forall i :: 0 <= i < |s| ==> IsDigit(s[i]) || s[i] == '.' || (i == 0 && s[i] == '-')
  {
    DecimalsChars(Hundredths(v));
  }

  /** n hundredths written with two decimals. */
  function Decimals(n: nat): (s: string)
    ensures |s| >= 4
  {
    NatToString(n / 100) + "." + [DigitChar(n / 10 % 10), DigitChar(n % 10)]
  }

  /** The decimals start and end with a digit and hold only digits and the point. */
  lemma DecimalsChars(n: nat)
    ensures var s := Decimals(n);
      && IsDigit(s[0]) && IsDigit(s[|s| - 1])
      && forall i :: 0 <= i < |s| ==> IsDigit(s[i]) || s[i] == '.'
  {
    NatToStringDigits(n / 100);
  }

  /** v rounded to the nearest hundredth, halves away from zero. */
  function RoundedToHundredths(v: real): real
  {
    (if v < 0.0 then -1.0 else 1.0) * (Hundredths(v) as real) / 100.0
  }

  /** Reading `%.2f` back gives the value rounded to hundredths. */
  lemma {:induction false} AtofFormat2(v: real)
    ensures Atof(Format2(v)) == RoundedToHundredths(v)
  {
    var body := Decimals(Hundredths(v));
    AtofDecimals(Hundredths(v));
    if v < 0.0 {
      DecimalsChars(Hundredths(v));
      AtofNegated(body);
    }
  }

  /** A minus in front of a number negates what `atof` reads. */
  lemma {:induction false} AtofNegated(body: string)
    requires |body| > 0 && IsDigit(body[0])
    ensures Atof("-" + body) == -Atof(body)
  {
    var s := "-" + body;
    assert SkipSpace(body) == body;
    assert SkipSpace(s) == s;
    assert s[1..] == body;
    assert Unsigned(s) == (true, body);
    assert Unsigned(body) == (false, body);
  }

  /** Values that are a whole number of hundredths survive `%.2f` and `atof` exactly. */
  lemma {:induction false} AtofFormat2Exact(v: real)
    requires (v * 100.0).Floor as real == v * 100.0
    ensures Atof(Format2(v)) == v
  {
    AtofFormat2(v);
    RoundedExact(v);
  }

  /** Rounding keeps a whole number of hundredths. */
  lemma {:induction false} RoundedExact(v: real)
    requires (v * 100.0).Floor as real == v * 100.0
    ensures RoundedToHundredths(v) == v
  {
    var k := (v * 100.0).Floor;
    if v >= 0.0 {
      assert (AbsReal(v) * 100.0 + 0.5).Floor == k;
    } else {
      assert (AbsReal(v) * 100.0 + 0.5).Floor == -k;
    }
  }

  /** The unsigned text reads back as n hundredths. */
  lemma {:induction false} AtofDecimals(n: nat)
    ensures Unsigned(Decimals(n)).1 == Decimals(n)
    ensures Atof(Decimals(n)) == (n as real) / 100.0
  {
    DecimalsChars(n);
    DigitLed(Decimals(n));
    MagnitudeDecimals(n);
  }

  /** Text that starts with a digit has no leading space and no sign. */
  lemma DigitLed(s: string)
    requires |s| > 0 && IsDigit(s[0])
    ensures SkipSpace(s) == s && Unsigned(s) == (false, s)
  {
    assert !IsSpace(s[0]);
    assert s[0] != '-' && s[0] != '+';
  }

  lemma {:induction false} MagnitudeDecimals(n: nat)
    ensures Magnitude(Decimals(n)) == (n as real) / 100.0
  {
    var whole := NatToString(n / 100);
    var d1 := DigitChar(n / 10 % 10);
    var d2 := DigitChar(n % 10);
    var tail := "." + [d1, d2];
    var body := Decimals(n);
    assert body == whole + tail;
    NatToStringDigits(n / 100);
    DigitRunOf(whole, tail);
    NatToStringValue(n / 100);
    assert body[DigitRun(body)..] == tail;
    assert tail[1..] == [d1, d2];
    assert DigitRun([d1, d2]) == 2;
    assert [d1, d2][..2] == [d1, d2];
    assert [d1, d2][1..] == [d2];
    assert FractionValue([d2]) == (n % 10) as real / 10.0;
    assert FractionValue([d1, d2]) == ((n / 10 % 10) as real + (n % 10) as real / 10.0) / 10.0;
    HundredthsSplit(n);
  }

  /** n hundredths are n / 100 units and two decimals. */
  lemma HundredthsSplit(n: nat)
    ensures (n / 100) as real + ((n / 10 % 10) as real + (n % 10) as real / 10.0) / 10.0
         == (n as real) / 100.0
  {
    var a := n / 100;
    var b := n / 10 % 10;
    var c := n % 10;
    assert n / 10 == a * 10 + b;
    assert n == (a * 10 + b) * 10 + c;
    assert n == a * 100 + b * 10 + c;
  }
}
