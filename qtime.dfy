/** Calendar dates, clock times and instants as the Qt classes QDate, QTime and
    QDateTime use them, plus the text forms the scheduler reads and writes. */
module QtTime {
  import opened Text

  // ---------------------------------------------------------------- dates

  /** A QDate: either the null date or a year-month-day triple. */
  datatype QDate = Null | Ymd(year: int, month: int, day: int)

  /** Gregorian leap years. */
  predicate IsLeap(y: int) {
    (y % 4 == 0 && y % 100 != 0) || y % 400 == 0
  }

  function DaysInMonth(y: int, m: int): (n: int)
    requires 1 <= m <= 12
    ensures 28 <= n <= 31
  {
    if m == 2 then (if IsLeap(y) then 29 else 28)
    else if m == 4 || m == 6 || m == 9 || m == 11 then 30
    else 31
  }

  /** A calendar date the model covers (years 1 and later). */
  predicate IsValidYmd(y: int, m: int, d: int) {
    1 <= y && 1 <= m <= 12 && 1 <= d <= DaysInMonth(y, m)
  }

  /** QDate values: the null date or a valid calendar date, as Qt guarantees. */
  type Date = d: QDate | d.Null? || IsValidYmd(d.year, d.month, d.day) witness Null

  /** Qt's day number of the null date: below every valid date. */
  const NullDay: int := -0x8000_0000_0000_0000

  /** Days from 0000-03-01 to March 1 of year `y` (years counted from March, as the
      civil-calendar day count does, so that a leap day ends its year). */
  function MarchStart(y: nat): int {
    var yoe := y % 400;
    (y / 400) * 146097 + yoe * 365 + yoe / 4 - yoe / 100
  }

  /** Days from March 1 to the first of month `m` in a year counted from March. */
  function MonthStart(m: int): int
    requires 1 <= m <= 12
  {
    var mp := if m > 2 then m - 3 else m + 9;
    (153 * mp + 2) / 5
  }

  /** Days since 1970-01-01 (the proleptic Gregorian "days from civil" count). */
  function DayNumber(d: Date): int {
    match d
    case Null => NullDay
    case Ymd(y, m, dd) =>
      var y' := if m <= 2 then y - 1 else y;
      MarchStart(y') + MonthStart(m) + dd - 1 - 719468
  }

  /** Consecutive months within one year counted from March. */
  lemma MonthStartStep(y: int, m: int)
    requires 1 <= m < 12 && m != 2
    ensures MonthStart(m + 1) == MonthStart(m) + DaysInMonth(y, m)
  {
  }

  /** A year counted from March has 366 days exactly when the following February has 29. */
  lemma MarchStartStep(y: nat)
    ensures MarchStart(y + 1) == MarchStart(y) + (if IsLeap(y + 1) then 366 else 365)
  {
    var q, r := y / 400, y % 400;
    assert y == 400 * q + r && 0 <= r < 400;
    if r == 399 {
      assert (y + 1) / 400 == q + 1 && (y + 1) % 400 == 0;
      assert MarchStart(y + 1) == (q + 1) * 146097;
      assert MarchStart(y) == q * 146097 + 145731;
    } else {
      assert (y + 1) / 400 == q && (y + 1) % 400 == r + 1;
      assert MarchStart(y + 1) == q * 146097 + (r + 1) * 365 + (r + 1) / 4 - (r + 1) / 100;
      assert MarchStart(y) == q * 146097 + r * 365 + r / 4 - r / 100;
      CycleYearStep(r);
      DivMod4(y + 1, 100 * q + (r + 1) / 4, (r + 1) % 4);
      DivMod100(y + 1, 4 * q + (r + 1) / 100, (r + 1) % 100);
    }
  }

  lemma DivMod4(x: int, a: int, u: int)
    requires x == 4 * a + u && 0 <= u < 4
    ensures x % 4 == u
  {
  }

  lemma DivMod100(x: int, a: int, u: int)
    requires x == 100 * a + u && 0 <= u < 100
    ensures x % 100 == u
  {
  }

  /** Within a 400-year cycle, the year after the `r`-th is long exactly when leap. */
  lemma CycleYearStep(r: int)
    requires 0 <= r < 399
    ensures (r + 1) / 4 - r / 4 - ((r + 1) / 100 - r / 100)
            == (if (r + 1) % 4 == 0 && (r + 1) % 100 != 0 then 1 else 0)
  {
    assert (r + 1) / 4 - r / 4 == (if (r + 1) % 4 == 0 then 1 else 0);
    assert (r + 1) / 100 - r / 100 == (if (r + 1) % 100 == 0 then 1 else 0);
    if (r + 1) % 100 == 0 {
      assert (r + 1) % 4 == 0;
    }
  }

  /** QDate's `<`, which compares day numbers. */
  predicate Before(a: Date, b: Date) {
    DayNumber(a) < DayNumber(b)
  }

  /** The following calendar day. */
  function NextDay(d: Date): (r: Date)
    requires d.Ymd?
    ensures r.Ymd?
  {
    if d.day < DaysInMonth(d.year, d.month) then Ymd(d.year, d.month, d.day + 1)
    else if d.month < 12 then Ymd(d.year, d.month + 1, 1)
    else Ymd(d.year + 1, 1, 1)
  }

  /** The preceding calendar day (the null date before 0001-01-01). */
  function PrevDay(d: Date): (r: Date)
    requires d.Ymd?
  {
    if d.day > 1 then Ymd(d.year, d.month, d.day - 1)
    else if d.month > 1 then Ymd(d.year, d.month - 1, DaysInMonth(d.year, d.month - 1))
    else if d.year > 1 then Ymd(d.year - 1, 12, 31)
    else Null
  }

  /** The day numbers of consecutive days differ by one. */
  lemma NextDayNumber(d: Date)
    requires d.Ymd?
    ensures DayNumber(NextDay(d)) == DayNumber(d) + 1
  {
    if d.day < DaysInMonth(d.year, d.month) {
      assert NextDay(d) == Ymd(d.year, d.month, d.day + 1);
    } else if d.month == 2 {
      EndOfFebruaryNumber(d);
    } else if d.month < 12 {
      EndOfMonthNumber(d);
    } else {
      assert NextDay(d) == Ymd(d.year + 1, 1, 1);
      assert DayNumber(NextDay(d)) == MarchStart(d.year) + 306 - 719468;
    }
  }

  lemma EndOfFebruaryNumber(d: Date)
    requires d.Ymd? && d.month == 2 && d.day == DaysInMonth(d.year, 2)
    ensures DayNumber(NextDay(d)) == DayNumber(d) + 1
  {
    var p: nat := d.year - 1;
    var leap := IsLeap(d.year);
    MarchStartStep(p);
    assert p + 1 == d.year;
    assert MarchStart(d.year) == MarchStart(p) + (if leap then 366 else 365);
    assert d.day == (if leap then 29 else 28);
    assert NextDay(d) == Ymd(d.year, 3, 1);
    assert DayNumber(Ymd(d.year, 3, 1)) == MarchStart(d.year) - 719468;
    assert DayNumber(d) == MarchStart(p) + 337 + d.day - 1 - 719468;
  }

  lemma EndOfMonthNumber(d: Date)
    requires d.Ymd? && d.month != 2 && d.month < 12 && d.day == DaysInMonth(d.year, d.month)
    ensures DayNumber(NextDay(d)) == DayNumber(d) + 1
  {
    var y, m := d.year, d.month;
    MonthStartStep(y, m);
    var y' := if m <= 2 then y - 1 else y;
    assert NextDay(d) == Ymd(y, m + 1, 1);
    assert DayNumber(Ymd(y, m + 1, 1)) == MarchStart(y') + MonthStart(m + 1) - 719468;
    assert DayNumber(d) == MarchStart(y') + MonthStart(m) + d.day - 1 - 719468;
  }

  lemma PrevDayNumber(d: Date)
    requires d.Ymd? && PrevDay(d).Ymd?
    ensures DayNumber(PrevDay(d)) == DayNumber(d) - 1
  {
    NextOfPrev(d);
    NextDayNumber(PrevDay(d));
  }

  /** The day after the preceding day is the day itself. */
  lemma NextOfPrev(d: Date)
    requires d.Ymd? && PrevDay(d).Ymd?
    ensures NextDay(PrevDay(d)) == d
  {
  }

  /** QDate::addDays, stepping one day at a time (the null date stays null). */
  function AddDays(d: Date, n: int): Date
    decreases if n >= 0 then n else -n
  {
    if d.Null? || n == 0 then d
    else if n > 0 then AddDays(NextDay(d), n - 1)
    else AddDays(PrevDay(d), n + 1)
  }

  /** Adding `n` days moves the day number by exactly `n` (forward steps never leave the calendar). */
  lemma {:induction false} AddDaysNumber(d: Date, n: nat)
    requires d.Ymd?
    ensures AddDays(d, n).Ymd? && DayNumber(AddDays(d, n)) == DayNumber(d) + n
    decreases n
  {
    if n > 0 {
      NextDayNumber(d);
      AddDaysNumber(NextDay(d), n - 1);
    }
  }

  /** Moving forward never goes earlier: `d.addDays(n) >= d` for n >= 0. */
  lemma AddDaysNotBefore(d: Date, n: nat)
    ensures !Before(AddDays(d, n), d)
  {
    if d.Ymd? { AddDaysNumber(d, n); }
  }

  /** `a.daysTo(b)`: the days from `a` to `b`, or 0 when either date is null. */
  function DaysTo(a: Date, b: Date): int {
    if a.Null? || b.Null? then 0 else DayNumber(b) - DayNumber(a)
  }

  // ------------------------------------------------------ text forms of dates

  /** `QDate::toString("yyyy-MM-dd")`, the ISO 8601 extended calendar-date form; "" for the null date. */
  function FormatIso(d: Date): string {
    match d
    case Null => ""
    case Ymd(y, m, dd) => PadNat(y, 4) + "-" + PadNat(m, 2) + "-" + PadNat(dd, 2)
  }

  /** `QDate::fromString(s, "yyyy-MM-dd")`: four, two and two ASCII digits separated
      by '-', naming a valid date; anything else gives the null date. */
  function ParseIso(s: string): (r: Date)
    ensures r.Ymd? ==> |s| == 10
  {
    if |s| == 10 && s[4] == '-' && s[7] == '-'
       && AllDigits(s[..4]) && AllDigits(s[5..7]) && AllDigits(s[8..])
    then
      var y := DigitsValue(s[..4]);
      var m := DigitsValue(s[5..7]);
      var d := DigitsValue(s[8..]);
      if IsValidYmd(y, m, d) then Ymd(y, m, d) else Null
    else Null
  }

  /** Writing a date and reading it back gives the same date (years 1 to 9999). */
  lemma IsoRoundTrip(d: Date)
    requires d.Null? || d.year <= 9999
    ensures ParseIso(FormatIso(d)) == d
  {
    if d.Ymd? {
      var s := FormatIso(d);
      var ys, ms, ds := PadNat(d.year, 4), PadNat(d.month, 2), PadNat(d.day, 2);
      NatToStringLength(d.year, 4);
      NatToStringLength(d.month, 2);
      NatToStringLength(d.day, 2);
      assert |ys| == 4 && |ms| == 2 && |ds| == 2;
      assert s[..4] == ys && s[5..7] == ms && s[8..] == ds;
      PadNatValue(d.year, 4);
      PadNatValue(d.month, 2);
      PadNatValue(d.day, 2);
    }
  }

  /** `QDate::toString("MM.dd.yyyy")`: the recording folder name. */
  function FolderName(d: Date): string {
    match d
    case Null => ""
    case Ymd(y, m, dd) => PadNat(m, 2) + "." + PadNat(dd, 2) + "." + PadNat(y, 4)
  }

  /** `QDate::toString("MMdd")` / `strftime("%m%d")`: the file name prefix. */
  function FilePrefix(d: Date): string {
    match d
    case Null => ""
    case Ymd(_, m, dd) => PadNat(m, 2) + PadNat(dd, 2)
  }

  // ------------------------------------------------------ clock and instants

  /** C++ integer division, which truncates toward zero. */
  function TruncDiv(a: int, b: int): (q: int)
    requires b > 0
    ensures a >= 0 ==> q == a / b
    ensures a < 0 ==> q == -((-a) / b)
  {
    if a >= 0 then a / b else -((-a) / b)
  }

  /** QTime(h, m) is valid exactly for 0 <= h < 24 and 0 <= m < 60. */
  predicate ValidTime(h: int, m: int) {
    0 <= h < 24 && 0 <= m < 60
  }

  const MsPerDay: int := 86_400_000

  /** Milliseconds since the epoch of `QDateTime(date, QTime(h, m))`; an invalid
      time counts as midnight, as Qt 6 does. Local time is taken to be UTC. */
  function DateTimeAt(d: Date, h: int, m: int): int {
    DayNumber(d) * MsPerDay + (if ValidTime(h, m) then (h * 60 + m) * 60_000 else 0)
  }

  /** The clock fields the source derives from an hour value held in seconds:
      `int(hours)` and `int((hours % 1) * 60)`, which drop the seconds. */
  function ClockOf(sec: int): (hm: (int, int))
    ensures sec >= 0 ==> hm.0 == sec / 3600
    ensures 0 <= hm.1 < 60
  {
    (TruncDiv(sec, 3600), (sec % 3600) / 60)
  }

  /** The whole-minute time of day that `ClockOf` keeps, for hours in [0, 24). */
  lemma ClockOfTruncates(sec: int)
    requires 0 <= sec < 86400
    ensures ValidTime(ClockOf(sec).0, ClockOf(sec).1)
    ensures var (h, m) := ClockOf(sec); (h * 60 + m) * 60 == sec - sec % 60
  {
  }

  /** Seconds below the minute do not change the clock fields. */
  lemma ClockOfMinute(sec: int)
    requires sec >= 0
    ensures ClockOf(sec - sec % 60) == ClockOf(sec)
  {
    var q, rem := sec / 3600, sec % 3600;
    var m, s := rem / 60, rem % 60;
    assert sec == 3600 * q + 60 * m + s && 0 <= m < 60 && 0 <= s < 60;
    assert sec % 60 == s;
    var sec' := sec - s;
    assert sec' == 3600 * q + 60 * m;
    assert sec' / 3600 == q && sec' % 3600 == 60 * m;
    assert (60 * m) / 60 == m;
  }

  /** `QDateTime(date, QTime(int(h), int((h % 1) * 60)))` for an hour value `h` held in seconds. */
  function StartInstant(d: Date, sec: int): int {
    var (h, m) := ClockOf(sec);
    DateTimeAt(d, h, m)
  }

  /** `a.secsTo(b)`: whole seconds from `a` to `b`, truncated toward zero. */
  function SecsTo(a: int, b: int): int {
    TruncDiv(b - a, 1000)
  }

  /** `0 <= a.secsTo(b) <= 1` holds on the open window of 3 seconds from 999 ms before `a`. */
  lemma SecsToWindow(a: int, b: int)
    ensures 0 <= SecsTo(a, b) <= 1 <==> a - 1000 < b < a + 2000
  {
  }

  /** `QTime(h, m).toString("HH:mm")` for a valid time. */
  function TimeText(h: int, m: int): string
    requires ValidTime(h, m)
  {
    PadNat(h, 2) + ":" + PadNat(m, 2)
  }

  /** Midnight reads "00:00". */
  lemma MidnightText()
    ensures TimeText(0, 0) == "00:00"
  {
    assert NatToString(0) == "0";
    assert Zeros(1) == "0";
    assert PadNat(0, 2) == "00";
  }

  /** `round(h + m / 60, 2)` hours, in seconds: the nearest hundredth of an hour (36 s).
      In minutes t = 60 h + m the hundredths are 5 t / 3, whose fraction is 0, 1/3 or 2/3,
      so there is never a tie and the nearest is (5 t + 1) / 3 rounded down. */
  function RoundedHours(h: int, m: int): int {
    ((5 * (60 * h + m) + 1) / 3) * 36
  }

  /** The rounded value is a whole number of hundredths of an hour and at most 12 s from
      the exact time h:m. */
  lemma RoundedHoursClose(h: int, m: int)
    ensures RoundedHours(h, m) % 36 == 0
    ensures -12 <= RoundedHours(h, m) - (3600 * h + 60 * m) <= 12
  {
    var t := 60 * h + m;
    var q := (5 * t + 1) / 3;
    ThirdsClose(t);
    MultipleOf36(q);
    assert RoundedHours(h, m) == q * 36;
  }

  /** The nearest third: 36 q is within 12 of 60 t. */
  lemma ThirdsClose(t: int)
    ensures -12 <= (5 * t + 1) / 3 * 36 - 60 * t <= 12
  {
    var x := 5 * t + 1;
    assert x == 3 * (x / 3) + x % 3 && 0 <= x % 3 < 3;
  }

  lemma MultipleOf36(q: int)
    ensures (q * 36) % 36 == 0
  {
  }

  /** A time of day stored by rounding and read back by `ClockOf` loses a minute
      whenever the rounding went down: 09:20 is stored as 9.33 hours and read as 09:19. */
  lemma MinuteDrift()
    ensures RoundedHours(9, 20) == 33588 && ClockOf(RoundedHours(9, 20)) == (9, 19)
  {
  }

  /** The clock fields read to the nearest minute, as `round((hours % 1) * 60)` would. */
  function ClockNearest(sec: int): (hm: (int, int))
    ensures 0 <= hm.1 < 60
  {
    var t := (sec + 30) / 60;
    (t / 60, t % 60)
  }

  /** Reading to the nearest minute gives back every stored time of day. */
  lemma ClockNearestRoundTrip(h: int, m: int)
    requires ValidTime(h, m)
    ensures ClockNearest(RoundedHours(h, m)) == (h, m)
  {
    RoundedHoursClose(h, m);
    var t := 60 * h + m;
    var sec := RoundedHours(h, m);
    DivideBy60(sec + 30, t);
    DivideBy60(t, h);
  }

  /** `a / 60 == q` when `a` lies in `[60 q, 60 q + 60)`. */
  lemma DivideBy60(a: int, q: int)
    requires 60 * q <= a < 60 * q + 60
    ensures a / 60 == q && a % 60 == a - 60 * q
  {
  }


}
