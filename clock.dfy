/** Instants, elapsed time and the two duration renderings of the page
    (src/app/page.tsx: the timer effect, formatTime, formatDuration,
    getDateKey, getSessionDuration). */
module Clock {
  import opened Strings
  import opened Types

  const MillisPerDay: nat := 86_400_000

  /** Days from 0000-01-01 to 1970-01-01 in the proleptic Gregorian calendar. */
  const UnixEpochDay: nat := 719_528

  // ---------------------------------------------------------------- fields of an instant

  function Year(t: Instant): nat {
    100 * Num2(t, 0) + Num2(t, 2)
  }

  function MonthOfYear(t: Instant): (m: nat)
    ensures 1 <= m <= 12
  {
    Num2(t, 5)
  }

  function DayOfMonth(t: Instant): (d: nat)
    ensures 1 <= d <= DaysInMonth(Year(t), MonthOfYear(t))
  {
    Num2(t, 8)
  }

  function TimeOfDayMillis(t: Instant): (ms: nat)
    ensures ms < MillisPerDay
  {
    ((Num2(t, 11) * 60 + Num2(t, 14)) * 60 + Num2(t, 17)) * 1000
    + 100 * DigitValue(t[20]) + 10 * DigitValue(t[21]) + DigitValue(t[22])
  }

  /** Days from 0000-01-01 to the first day of year y. */
  function DaysBeforeYear(y: nat): nat {
    365 * y + (y + 3) / 4 - (y + 99) / 100 + (y + 399) / 400
  }

  /** Days from the first day of year y to the first day of month m. */
  function DaysBeforeMonth(y: nat, m: nat): nat
    requires 1 <= m <= 12
  {
    [0, 31, 59, 90, 120, 151, 181, 212, 243, 273, 304, 334][m - 1]
    + (if m > 2 && IsLeapYear(y) then 1 else 0)
  }

  /** Whole days from 1970-01-01 to the calendar day of t. */
  function EpochDay(t: Instant): int {
    DaysBeforeYear(Year(t)) + DaysBeforeMonth(Year(t), MonthOfYear(t)) + DayOfMonth(t) - 1 - UnixEpochDay
  }

  /** `new Date(t).getTime()`: milliseconds since 1970-01-01T00:00:00.000Z. */
  function Millis(t: Instant): (ms: int)
    ensures EpochDay(t) * MillisPerDay <= ms < EpochDay(t) * MillisPerDay + MillisPerDay
  {
    EpochDay(t) * MillisPerDay + TimeOfDayMillis(t)
  }

  // ---------------------------------------------------------------- text order is time order

  function DaysInYear(y: nat): nat {
    if IsLeapYear(y) then 366 else 365
  }

  lemma DivStep4(y: nat)
    ensures (y + 4) / 4 - (y + 3) / 4 == (if y % 4 == 0 then 1 else 0)
  {
  }

  lemma DivStep100(y: nat)
    ensures (y + 100) / 100 - (y + 99) / 100 == (if y % 100 == 0 then 1 else 0)
  {
  }

  lemma DivStep400(y: nat)
    ensures (y + 400) / 400 - (y + 399) / 400 == (if y % 400 == 0 then 1 else 0)
  {
  }

  /** A year holds 366 days when it is a leap year and 365 otherwise. */
  lemma {:induction false} YearLength(y: nat)
    ensures DaysBeforeYear(y + 1) == DaysBeforeYear(y) + DaysInYear(y)
  {
    var d4, d100, d400 := (y + 4) / 4 - (y + 3) / 4, (y + 100) / 100 - (y + 99) / 100, (y + 400) / 400 - (y + 399) / 400;
    DivStep4(y);
    DivStep100(y);
    DivStep400(y);
    assert DaysBeforeYear(y + 1) == DaysBeforeYear(y) + 365 + d4 - d100 + d400;
    assert d4 - d100 + d400 == (if IsLeapYear(y) then 1 else 0);
  }

  lemma {:induction false} YearsAfter(y: nat, z: nat)
    requires y < z
    ensures DaysBeforeYear(y + 1) <= DaysBeforeYear(z)
    decreases z - y
  {
    if y + 1 < z {
      YearsAfter(y, z - 1);
      YearLength(z - 1);
    }
  }

  /** The days of month m end no later than the first day of any later
      month, and within the year. */
  lemma MonthsAfter(y: nat, m: nat, n: nat)
    requires 1 <= m <= 12 && 1 <= n <= 12
    ensures DaysBeforeMonth(y, m) + DaysInMonth(y, m) <= DaysInYear(y)
    ensures m < n ==> DaysBeforeMonth(y, m) + DaysInMonth(y, m) <= DaysBeforeMonth(y, n)
  {
  }

  /** Calendar days in (year, month, day) order are in epoch-day order. */
  lemma DayOrder(a: Instant, b: Instant)
    requires Year(a) < Year(b)
      || (Year(a) == Year(b) && MonthOfYear(a) < MonthOfYear(b))
      || (Year(a) == Year(b) && MonthOfYear(a) == MonthOfYear(b) && DayOfMonth(a) < DayOfMonth(b))
    ensures EpochDay(a) < EpochDay(b)
  {
    MonthsAfter(Year(a), MonthOfYear(a), MonthOfYear(b));
    if Year(a) < Year(b) {
      YearLength(Year(a));
      YearsAfter(Year(a), Year(b));
    }
  }

  /** The start of field n of an instant: year (two halves), month, day,
      hour, minute, second, and the first two digits of the milliseconds. */
  function FieldStart(n: nat): (i: nat)
    requires n < 8
    ensures i + 1 < 23 && i != 4 && i + 1 != 4 && i != 7 && i + 1 != 7
    ensures i != 10 && i + 1 != 10 && i != 13 && i + 1 != 13 && i != 16 && i + 1 != 16 && i != 19 && i + 1 != 19
  {
    [0, 2, 5, 8, 11, 14, 17, 20][n]
  }

  /** The first n two-digit fields of an instant read as one decimal number. */
  function FieldsValue(t: Instant, n: nat): nat
    requires n <= 8
  {
    if n == 0 then 0 else FieldsValue(t, n - 1) * 100 + Num2(t, FieldStart(n - 1))
  }

  /** The digits of an instant, separators left out, read as one number:
      `YYYYMMDDHHMMSSsss`. */
  function Stamp(t: Instant): nat {
    FieldsValue(t, 8) * 10 + DigitValue(t[22])
  }

  /** a and b agree before position k. */
  predicate Agree(a: string, b: string, k: nat) {
    k <= |a| && k <= |b| && forall j :: 0 <= j < k ==> a[j] == b[j]
  }

  lemma Num2Order(a: string, b: string, i: nat)
    requires i + 1 < |a| && i + 1 < |b|
    requires IsDigit(a[i]) && IsDigit(a[i + 1]) && IsDigit(b[i]) && IsDigit(b[i + 1])
    requires Agree(a, b, i)
    ensures Num2(a, i) < Num2(b, i) ==> Less(a, b)
    ensures Num2(a, i) == Num2(b, i) ==> Agree(a, b, i + 2)
  {
    if Num2(a, i) < Num2(b, i) {
      if a[i] == b[i] {
        LessAt(a, b, i + 1);
      } else {
        LessAt(a, b, i);
      }
    }
  }

  /** Comparing the first n fields as numbers compares the texts. */
  lemma {:induction false} FieldsText(a: Instant, b: Instant, n: nat)
    requires n <= 8
    ensures FieldsValue(a, n) < FieldsValue(b, n) ==> Less(a, b)
    ensures FieldsValue(a, n) == FieldsValue(b, n) ==> Agree(a, b, if n == 0 then 0 else FieldStart(n - 1) + 2)
  {
    if n > 0 {
      FieldsText(a, b, n - 1);
      var i := FieldStart(n - 1);
      if FieldsValue(a, n - 1) == FieldsValue(b, n - 1) {
        assert Agree(a, b, i);
        Num2Order(a, b, i);
      }
    }
  }

  /** Comparing stamps compares the texts, and equal stamps mean equal texts. */
  lemma StampText(a: Instant, b: Instant)
    ensures Stamp(a) < Stamp(b) ==> Less(a, b)
    ensures Stamp(a) == Stamp(b) ==> a == b
  {
    FieldsText(a, b, 8);
    if FieldsValue(a, 8) == FieldsValue(b, 8) {
      if a[22] < b[22] {
        LessAt(a, b, 22);
      }
    }
  }

  function DayStamp(t: Instant): nat {
    Year(t) * 10_000 + MonthOfYear(t) * 100 + DayOfMonth(t)
  }

  function ClockStamp(t: Instant): nat {
    Num2(t, 11) * 10_000_000 + Num2(t, 14) * 100_000 + Num2(t, 17) * 1000
    + 100 * DigitValue(t[20]) + 10 * DigitValue(t[21]) + DigitValue(t[22])
  }

  lemma StampParts(t: Instant)
    ensures Stamp(t) == DayStamp(t) * 1_000_000_000 + ClockStamp(t)
  {
    var v0, v1, v2, v3 := Num2(t, 0), Num2(t, 2), Num2(t, 5), Num2(t, 8);
    var v4, v5, v6, v7 := Num2(t, 11), Num2(t, 14), Num2(t, 17), Num2(t, 20);
    assert FieldsValue(t, 1) == v0;
    assert FieldsValue(t, 2) == v0 * 100 + v1;
    assert FieldsValue(t, 3) == (v0 * 100 + v1) * 100 + v2;
    assert FieldsValue(t, 4) == DayStamp(t);
    assert FieldsValue(t, 5) == DayStamp(t) * 100 + v4;
    assert FieldsValue(t, 6) == DayStamp(t) * 10_000 + v4 * 100 + v5;
    assert FieldsValue(t, 7) == DayStamp(t) * 1_000_000 + v4 * 10_000 + v5 * 100 + v6;
    assert FieldsValue(t, 8) == DayStamp(t) * 100_000_000 + v4 * 1_000_000 + v5 * 10_000 + v6 * 100 + v7;
  }

  /** Read as mixed-radix numbers, clock fields below their bounds compare
      the same way in decimal positions and in milliseconds. */
  lemma ClockFieldsOrder(ha: nat, ma: nat, sa: nat, fa: nat, hb: nat, mb: nat, sb: nat, fb: nat)
    requires ma < 60 && sa < 60 && fa < 1000 && mb < 60 && sb < 60 && fb < 1000
    requires ha * 10_000_000 + ma * 100_000 + sa * 1000 + fa < hb * 10_000_000 + mb * 100_000 + sb * 1000 + fb
    ensures ha * 3_600_000 + ma * 60_000 + sa * 1000 + fa < hb * 3_600_000 + mb * 60_000 + sb * 1000 + fb
  {
    if ha != hb {
      assert ha < hb;
    } else if ma != mb {
      assert ma < mb;
    } else if sa != sb {
      assert sa < sb;
    }
  }

  /** An earlier (hour, minute, second, millisecond) is an earlier time of day. */
  lemma ClockOrder(a: Instant, b: Instant)
    requires ClockStamp(a) < ClockStamp(b)
    ensures TimeOfDayMillis(a) < TimeOfDayMillis(b)
  {
    var fa := 100 * DigitValue(a[20]) + 10 * DigitValue(a[21]) + DigitValue(a[22]);
    var fb := 100 * DigitValue(b[20]) + 10 * DigitValue(b[21]) + DigitValue(b[22]);
    ClockFieldsOrder(Num2(a, 11), Num2(a, 14), Num2(a, 17), fa, Num2(b, 11), Num2(b, 14), Num2(b, 17), fb);
  }

  /** An earlier day stamp is an earlier (year, month, day). */
  lemma DayStampOrder(a: Instant, b: Instant)
    requires DayStamp(a) < DayStamp(b)
    ensures Year(a) < Year(b)
      || (Year(a) == Year(b) && MonthOfYear(a) < MonthOfYear(b))
      || (Year(a) == Year(b) && MonthOfYear(a) == MonthOfYear(b) && DayOfMonth(a) < DayOfMonth(b))
  {
    assert DayOfMonth(a) <= 31 && DayOfMonth(b) <= 31;
  }

  /** A later stamp is a later `getTime`. */
  lemma StampTime(a: Instant, b: Instant)
    requires Stamp(a) < Stamp(b)
    ensures Millis(a) < Millis(b)
  {
    StampParts(a);
    StampParts(b);
    assert ClockStamp(a) < 1_000_000_000 && ClockStamp(b) < 1_000_000_000;
    if DayStamp(a) < DayStamp(b) {
      DayStampOrder(a, b);
      DayOrder(a, b);
    } else {
      assert DayStamp(a) == DayStamp(b) && ClockStamp(a) < ClockStamp(b);
      ClockOrder(a, b);
      assert Year(a) == Year(b) && MonthOfYear(a) == MonthOfYear(b) && DayOfMonth(a) == DayOfMonth(b);
    }
  }

  /** `a < b` on two canonical ISO texts holds exactly when a is the earlier
      instant by `getTime`, and `a <= b` exactly when it is not later: the
      report's text window and the timeline's time order agree. */
  lemma MillisOrder(a: Instant, b: Instant)
    ensures Less(a, b) <==> Millis(a) < Millis(b)
    ensures LessEq(a, b) <==> Millis(a) <= Millis(b)
  {
    StampText(a, b);
    StampText(b, a);
    if Stamp(a) < Stamp(b) {
      StampTime(a, b);
      LessAsymmetric(a, b);
    } else if Stamp(b) < Stamp(a) {
      StampTime(b, a);
      LessAsymmetric(b, a);
    } else {
      LessIrreflexive(a);
    }
  }

  // ---------------------------------------------------------------- day and month keys

  /** `getDateKey(new Date(t))`: the UTC calendar day `YYYY-MM-DD` of t. */
  function DateKey(t: Instant): (k: string)
    ensures |k| == 10 && k <= t
  {
    t[..10]
  }

  /** `new Date(t).toISOString().slice(0, 7)`: the UTC month `YYYY-MM` of t. */
  function MonthKey(t: Instant): (m: string)
    ensures |m| == 7 && m <= DateKey(t)
  {
    t[..7]
  }

  /** Two instants with the same day key lie less than a day apart. */
  lemma SameDayWithinADay(a: Instant, b: Instant)
    requires DateKey(a) == DateKey(b)
    ensures -(MillisPerDay as int) < Millis(a) - Millis(b) < MillisPerDay
  {
    forall i | 0 <= i < 10 ensures a[i] == b[i] {
      assert a[i] == DateKey(a)[i] && b[i] == DateKey(b)[i];
    }
    assert EpochDay(a) == EpochDay(b);
  }

  // ---------------------------------------------------------------- durations

  /** `Math.floor(ms / 1000)`: whole seconds, rounded towards minus infinity. */
  function WholeSeconds(ms: int): (s: int)
    ensures s * 1000 <= ms < s * 1000 + 1000
  {
    ms / 1000
  }

  /** `getSessionDuration`: the whole seconds from start to end, and 0 for a
      session that has no end yet. */
  function SessionDuration(s: Session): (d: int)
    ensures s.endTime.None? ==> d == 0
    ensures s.endTime.Some? ==>
      d * 1000 <= Millis(s.endTime.value) - Millis(s.startTime) < d * 1000 + 1000
  {
    if s.endTime.None? then 0 else WholeSeconds(Millis(s.endTime.value) - Millis(s.startTime))
  }

  /** The value the running timer shows: `Math.floor((Date.now() - start) / 1000)`
      for the clock reading `now` in milliseconds. */
  function Elapsed(start: Instant, now: int): (s: int)
    ensures s * 1000 <= now - Millis(start) < s * 1000 + 1000
  {
    WholeSeconds(now - Millis(start))
  }

  /** When a session ends at instant e, the timer's reading at e is the
      duration the timeline then shows for it. */
  lemma TimerStopsAtDuration(s: Session, e: Instant)
    requires s.endTime == Some(e)
    ensures SessionDuration(s) == Elapsed(s.startTime, Millis(e))
  {
  }

  // ---------------------------------------------------------------- renderings

  /** The quotient of a by b rounded towards zero, as JavaScript's `%`
      uses it. */
  function JsQuot(a: int, b: int): int
    requires b > 0
  {
    if a >= 0 then a / b else -((-a) / b)
  }

  /** JavaScript's `a % b` for b > 0: what is left of a after taking away
      b times the quotient rounded towards zero, so the remainder takes the
      sign of a. */
  function JsRem(a: int, b: int): (r: int)
    requires b > 0
    ensures a == b * JsQuot(a, b) + r
    ensures a >= 0 ==> 0 <= r < b
    ensures a < 0 ==> -b < r <= 0
  {
    if a >= 0 then a % b else -((-a) % b)
  }

  /** `formatTime`: `H:MM:SS` from one hour on, `M:SS` below. */
  function FormatTime(seconds: int): string {
    var h := seconds / 3600;
    var m := JsRem(seconds, 3600) / 60;
    var s := JsRem(seconds, 60);
    if h > 0 then IntToString(h) + ":" + PadStart2(IntToString(m)) + ":" + PadStart2(IntToString(s))
    else IntToString(m) + ":" + PadStart2(IntToString(s))
  }

  /** `formatDuration`: `Xh Ym`, `Xh`, `Ym`, or `Ns` when there is no whole minute. */
  function FormatDuration(seconds: int): string {
    var h := seconds / 3600;
    var m := JsRem(seconds, 3600) / 60;
    if h > 0 && m > 0 then IntToString(h) + "h " + IntToString(m) + "m"
    else if h > 0 then IntToString(h) + "h"
    else if m > 0 then IntToString(m) + "m"
    else IntToString(seconds) + "s"
  }

  // ---------------------------------------------------------------- reading renderings back

  /** A clock field: a numeral of at least `width` digits; a two-digit field
      is below 60. */
  predicate IsField(s: string, width: nat) {
    IsNumeral(s) && |s| >= width && (width == 2 ==> |s| == 2 && DigitsValue(s) < 60)
  }

  /** The seconds a clock text `M:SS` (M below 60) or `H:MM:SS` (H above 0)
      denotes. */
  function ClockValue(text: string): Option<int> {
    ClockFields(Split(text, ':'))
  }

  function ClockFields(parts: seq<string>): Option<int> {
    if |parts| == 2 && IsField(parts[0], 1) && IsField(parts[1], 2) && DigitsValue(parts[0]) < 60 then
      Some(DigitsValue(parts[0]) * 60 + DigitsValue(parts[1]))
    else if |parts| == 3 && IsField(parts[0], 1) && IsField(parts[1], 2) && IsField(parts[2], 2)
      && DigitsValue(parts[0]) > 0 then
      Some(DigitsValue(parts[0]) * 3600 + DigitsValue(parts[1]) * 60 + DigitsValue(parts[2]))
    else None
  }

  /** The number in front of a one-letter unit, as in `12h` or `5m`. */
  function Amount(p: string, unit: char): Option<nat> {
    if |p| >= 2 && p[|p| - 1] == unit && AllDigits(p[..|p| - 1]) then Some(DigitsValue(p[..|p| - 1]))
    else None
  }

  predicate IsNumeral(s: string) {
    |s| >= 1 && AllDigits(s)
  }

  /** An integer written with an optional minus sign. */
  function SignedValue(p: string): Option<int> {
    if |p| >= 2 && p[0] == '-' && AllDigits(p[1..]) then Some(0 - DigitsValue(p[1..]))
    else if IsNumeral(p) then Some(DigitsValue(p))
    else None
  }

  /** Reading the rendering `${i}` of an integer back gives the integer. */
  lemma IntToStringRoundTrip(i: int)
    ensures SignedValue(IntToString(i)) == Some(i)
  {
    if i < 0 {
      NegativeValue(-i);
    } else {
      NatToStringRoundTrip(i);
    }
  }

  /** The seconds a duration text `Xh Ym`, `Xh`, `Ym` or `Ns` denotes, when
      every unit is used as formatDuration uses it. */
  function DurationValue(text: string): Option<int> {
    DurationFields(Split(text, ' '))
  }

  function DurationFields(parts: seq<string>): Option<int> {
    if |parts| == 2 then
      var h := Amount(parts[0], 'h');
      var m := Amount(parts[1], 'm');
      if h.Some? && m.Some? && h.value > 0 && 0 < m.value < 60 then Some(h.value * 3600 + m.value * 60)
      else None
    else if |parts| == 1 && |parts[0]| >= 2 then
      var text := parts[0];
      var h := Amount(text, 'h');
      var m := Amount(text, 'm');
      var s := SignedValue(text[..|text| - 1]);
      if h.Some? && h.value > 0 then Some(h.value * 3600)
      else if m.Some? && 0 < m.value < 60 then Some(m.value * 60)
      else if text[|text| - 1] == 's' && s.Some? && s.value < 60 then Some(s.value)
      else None
    else None
  }

  lemma DigitsHaveNo(s: string, c: char)
    requires AllDigits(s) && !IsDigit(c)
    ensures c !in s
  {
  }

  lemma HourSplit(seconds: nat)
    ensures seconds == (seconds / 3600) * 3600 + seconds % 3600
  {
  }

  lemma MinuteSplit(r: nat)
    requires r < 3600
    ensures r == (r / 60) * 60 + r % 60 && r / 60 < 60
  {
  }

  lemma SecondOfMinute(seconds: nat)
    ensures (seconds % 3600) % 60 == seconds % 60
  {
    var h := seconds / 3600;
    var r := seconds % 3600;
    assert seconds == 3600 * h + r;
    assert seconds == 60 * (60 * h) + r;
  }

  lemma ClockArithmetic(seconds: nat)
    ensures seconds == (seconds / 3600) * 3600 + ((seconds % 3600) / 60) * 60 + seconds % 60
    ensures (seconds % 3600) / 60 < 60
    ensures seconds < 3600 ==> seconds / 3600 == 0 && seconds % 3600 == seconds
  {
    HourSplit(seconds);
    MinuteSplit(seconds % 3600);
    SecondOfMinute(seconds);
  }

  lemma ClockTextThree(v: int, h: nat, m: nat, sec: nat, hh: string, mm: string, ss: string)
    requires IsNumeral(hh) && DigitsValue(hh) == h && h > 0
    requires |mm| == 2 && AllDigits(mm) && DigitsValue(mm) == m && m < 60
    requires |ss| == 2 && AllDigits(ss) && DigitsValue(ss) == sec && sec < 60
    requires v == h * 3600 + m * 60 + sec
    ensures Split(hh + ":" + mm + ":" + ss, ':') == [hh, mm, ss]
    ensures ClockValue(hh + ":" + mm + ":" + ss) == Some(v)
  {
    var text := hh + ":" + mm + ":" + ss;
    DigitsHaveNo(hh, ':');
    DigitsHaveNo(mm, ':');
    DigitsHaveNo(ss, ':');
    SplitNoSeparator(ss, ':');
    SplitAfter(mm, ss, ':');
    assert text == hh + [':'] + (mm + [':'] + ss);
    SplitAfter(hh, mm + [':'] + ss, ':');
    ClockFieldsThree(v, h, m, sec, hh, mm, ss);
  }

  lemma ClockFieldsThree(v: int, h: nat, m: nat, sec: nat, hh: string, mm: string, ss: string)
    requires IsField(hh, 1) && IsField(mm, 2) && IsField(ss, 2) && h > 0
    requires DigitsValue(hh) == h && DigitsValue(mm) == m && DigitsValue(ss) == sec
    requires v == h * 3600 + m * 60 + sec
    ensures ClockFields([hh, mm, ss]) == Some(v)
  {
  }

  lemma ClockFieldsTwo(v: int, m: nat, sec: nat, mt: string, ss: string)
    requires IsField(mt, 1) && IsField(ss, 2) && m < 60
    requires DigitsValue(mt) == m && DigitsValue(ss) == sec && v == m * 60 + sec
    ensures ClockFields([mt, ss]) == Some(v)
  {
  }

  lemma ClockTextTwo(v: int, m: nat, sec: nat, mt: string, ss: string)
    requires IsNumeral(mt) && DigitsValue(mt) == m && m < 60
    requires |ss| == 2 && AllDigits(ss) && DigitsValue(ss) == sec && sec < 60
    requires v == m * 60 + sec
    ensures Split(mt + ":" + ss, ':') == [mt, ss]
    ensures ClockValue(mt + ":" + ss) == Some(v)
  {
    DigitsHaveNo(mt, ':');
    DigitsHaveNo(ss, ':');
    SplitNoSeparator(ss, ':');
    SplitAfter(mt, ss, ':');
    ClockFieldsTwo(v, m, sec, mt, ss);
  }

  lemma FormatTimeOfNat(seconds: nat)
    ensures var h, m, s := seconds / 3600, (seconds % 3600) / 60, seconds % 60;
      FormatTime(seconds) == if h > 0
        then NatToString(h) + ":" + PadStart2(NatToString(m)) + ":" + PadStart2(NatToString(s))
        else NatToString(m) + ":" + PadStart2(NatToString(s))
  {
    var h, m, s := seconds / 3600, (seconds % 3600) / 60, seconds % 60;
    assert IntToString(h) == NatToString(h);
    assert IntToString(m) == NatToString(m);
    assert IntToString(s) == NatToString(s);
  }

  /** Reading a formatTime text back gives the seconds it was made from; the
      text has three fields from one hour on and two below. */
  lemma FormatTimeRoundTrip(seconds: nat)
    ensures ClockValue(FormatTime(seconds)) == Some(seconds)
    ensures |Split(FormatTime(seconds), ':')| == (if seconds < 3600 then 2 else 3)
  {
    var h := seconds / 3600;
    var m := (seconds % 3600) / 60;
    var s := seconds % 60;
    ClockArithmetic(seconds);
    FormatTimeOfNat(seconds);
    PadTwoDigits(m);
    PadTwoDigits(s);
    NatToStringRoundTrip(h);
    NatToStringRoundTrip(m);
    if h > 0 {
      ClockTextThree(seconds, h, m, s, NatToString(h), PadStart2(NatToString(m)), PadStart2(NatToString(s)));
    } else {
      ClockTextTwo(seconds, m, s, NatToString(m), PadStart2(NatToString(s)));
    }
  }

  /** A formatTime text is made of numerals separated by colons: three from
      one hour on and two below, every field after the first two digits wide. */
  lemma FormatTimeShape(seconds: nat)
    ensures var parts := Split(FormatTime(seconds), ':');
      && |parts| == (if seconds < 3600 then 2 else 3)
      && (forall i :: 0 <= i < |parts| ==> IsNumeral(parts[i]))
      && (forall i :: 0 < i < |parts| ==> |parts[i]| == 2)
  {
    FormatTimeRoundTrip(seconds);
    ClockFieldsShape(Split(FormatTime(seconds), ':'));
  }

  lemma ClockFieldsShape(parts: seq<string>)
    requires ClockFields(parts).Some?
    ensures forall i :: 0 <= i < |parts| ==> IsNumeral(parts[i])
    ensures forall i :: 0 < i < |parts| ==> |parts[i]| == 2
  {
  }

  lemma AmountOf(digits: string, unit: char)
    requires IsNumeral(digits)
    ensures Amount(digits + [unit], unit) == Some(DigitsValue(digits))
  {
    assert (digits + [unit])[..|digits|] == digits;
  }

  lemma DurationTextHoursMinutes(v: int, h: nat, m: nat, hs: string, ms: string)
    requires h > 0 && 0 < m < 60 && v == h * 3600 + m * 60
    requires IsNumeral(hs) && DigitsValue(hs) == h && IsNumeral(ms) && DigitsValue(ms) == m
    ensures Split(hs + "h " + ms + "m", ' ') == [hs + "h", ms + "m"]
    ensures DurationValue(hs + "h " + ms + "m") == Some(v)
  {
    HoursMinutesText(hs, ms);
    DurationPair(v, h, m, hs, ms, hs + "h " + ms + "m");
  }

  lemma DurationPair(v: int, h: nat, m: nat, hs: string, ms: string, text: string)
    requires h > 0 && 0 < m < 60 && v == h * 3600 + m * 60
    requires IsNumeral(hs) && DigitsValue(hs) == h && IsNumeral(ms) && DigitsValue(ms) == m
    requires text == (hs + "h") + [' '] + (ms + "m")
    ensures Split(text, ' ') == [hs + "h", ms + "m"]
    ensures DurationValue(text) == Some(v)
  {
    var a, b := hs + "h", ms + "m";
    DigitsHaveNo(hs, ' ');
    DigitsHaveNo(ms, ' ');
    AmountOf(hs, 'h');
    AmountOf(ms, 'm');
    SplitPair(a, b);
    DurationFieldsTwo(h, m, a, b);
  }

  lemma HoursMinutesText(hs: string, ms: string)
    ensures hs + "h " + ms + "m" == (hs + "h") + [' '] + (ms + "m")
  {
  }

  lemma SplitPair(a: string, b: string)
    requires ' ' !in a && ' ' !in b
    ensures Split(a + [' '] + b, ' ') == [a, b]
  {
    SplitAfter(a, b, ' ');
    SplitNoSeparator(b, ' ');
  }

  lemma DurationFieldsTwo(h: nat, m: nat, a: string, b: string)
    requires h > 0 && 0 < m < 60
    requires Amount(a, 'h') == Some(h) && Amount(b, 'm') == Some(m)
    ensures DurationFields([a, b]) == Some(h * 3600 + m * 60)
  {
  }

  lemma DurationTextOneUnit(v: int, n: nat, ds: string, unit: char)
    requires unit == 'h' || unit == 'm'
    requires unit == 'h' ==> n > 0 && v == n * 3600
    requires unit == 'm' ==> 0 < n < 60 && v == n * 60
    requires IsNumeral(ds) && DigitsValue(ds) == n
    ensures Split(ds + [unit], ' ') == [ds + [unit]]
    ensures DurationValue(ds + [unit]) == Some(v)
  {
    DigitsHaveNo(ds, ' ');
    assert ' ' !in ds + [unit];
    SplitNoSeparator(ds + [unit], ' ');
    AmountOf(ds, unit);
  }

  lemma DurationTextSeconds(n: int)
    requires n < 60
    ensures Split(IntToString(n) + "s", ' ') == [IntToString(n) + "s"]
    ensures DurationValue(IntToString(n) + "s") == Some(n)
  {
    var text := IntToString(n) + "s";
    var digits := NatToString(if n < 0 then -n else n);
    DigitsHaveNo(digits, ' ');
    assert ' ' !in text;
    SplitNoSeparator(text, ' ');
    assert text[..|text| - 1] == IntToString(n);
    if n < 0 {
      NegativeValue(-n);
    } else {
      NatToStringRoundTrip(n);
    }
    DurationFieldsSeconds(text, n);
  }

  lemma NegativeValue(n: int)
    requires n > 0
    ensures SignedValue(IntToString(-n)) == Some(-n)
  {
    NatToStringRoundTrip(n);
    assert IntToString(-n)[1..] == NatToString(n);
  }

  lemma DurationFieldsSeconds(text: string, n: int)
    requires |text| >= 2 && text[|text| - 1] == 's' && n < 60
    requires SignedValue(text[..|text| - 1]) == Some(n)
    ensures DurationFields([text]) == Some(n)
  {
  }

  /** Reading a formatDuration text back gives the seconds rounded down to a
      whole minute, or the exact seconds when there is no whole minute; and
      the text is in seconds exactly when the input is below a minute. */
  lemma FormatDurationRoundTrip(seconds: int)
    ensures DurationValue(FormatDuration(seconds)) == Some(if seconds >= 60 then seconds - seconds % 60 else seconds)
    ensures var text := FormatDuration(seconds); |text| >= 2 && (text[|text| - 1] == 's' <==> seconds < 60)
    ensures |Split(FormatDuration(seconds), ' ')| == (if seconds >= 3600 && seconds % 3600 >= 60 then 2 else 1)
  {
    if seconds >= 60 {
      DurationOverMinute(seconds);
    } else {
      DurationUnderMinute(seconds);
    }
  }

  lemma FormatDurationOfNat(seconds: nat)
    ensures var h, m := seconds / 3600, (seconds % 3600) / 60;
      FormatDuration(seconds) == if h > 0 && m > 0 then NatToString(h) + "h " + NatToString(m) + "m"
        else if h > 0 then NatToString(h) + "h"
        else if m > 0 then NatToString(m) + "m"
        else NatToString(seconds) + "s"
  {
  }

  /** From a minute on, formatDuration writes whole hours and minutes. */
  lemma DurationOverMinute(seconds: int)
    requires seconds >= 60
    ensures DurationValue(FormatDuration(seconds)) == Some(seconds - seconds % 60)
    ensures var text := FormatDuration(seconds); |text| >= 2 && text[|text| - 1] != 's'
    ensures |Split(FormatDuration(seconds), ' ')| == (if seconds >= 3600 && seconds % 3600 >= 60 then 2 else 1)
  {
    var h := seconds / 3600;
    var m := (seconds % 3600) / 60;
    var v := seconds - seconds % 60;
    ClockArithmetic(seconds);
    assert v == h * 3600 + m * 60;
    FormatDurationOfNat(seconds);
    NatToStringRoundTrip(h);
    NatToStringRoundTrip(m);
    if h > 0 && m > 0 {
      DurationTextHoursMinutes(v, h, m, NatToString(h), NatToString(m));
    } else if h > 0 {
      DurationTextOneUnit(v, h, NatToString(h), 'h');
    } else {
      DurationTextOneUnit(v, m, NatToString(m), 'm');
    }
  }

  /** Below a minute, formatDuration writes the seconds themselves. */
  lemma DurationUnderMinute(seconds: int)
    requires seconds < 60
    ensures FormatDuration(seconds) == IntToString(seconds) + "s"
    ensures DurationValue(FormatDuration(seconds)) == Some(seconds)
    ensures |Split(FormatDuration(seconds), ' ')| == 1
  {
    var h := seconds / 3600;
    var m := JsRem(seconds, 3600) / 60;
    if seconds < 0 {
      assert h < 0;
    } else {
      assert h == 0 && m == 0;
    }
    DurationTextSeconds(seconds);
  }

  /** The worked example of a session ended 125 seconds after it started. */
  lemma TwoMinutesFiveSeconds()
    ensures FormatTime(125) == "2:05"
    ensures FormatDuration(125) == "2m"
  {
    FormatTimeOfNat(125);
    FormatDurationOfNat(125);
    assert NatToString(2) == "2";
    assert NatToString(5) == "5";
    assert PadStart2("5") == "05";
  }
}
