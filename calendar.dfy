/**
 * UTC calendar arithmetic behind `_timestamp_to_date` and `_timestamp_to_time`
 * (api/services.py:115-121), which format `datetime.fromtimestamp(ts, tz=utc)`
 * with `%Y-%m-%d` and `%H:%M:%S`.
 *
 * A non-negative Unix timestamp is split into a day number `ts / 86400`
 * (days since 1970-01-01) and a second of the day `ts % 86400`. The day
 * number is turned into a proleptic Gregorian date by `CivilFromDays`, which
 * is proved to be the inverse of the day count `DaysFromCivil`.
 */
module Calendar {

  const SecondsPerDay: nat := 86400
  const EpochYear: int := 1970

  // ---------------------------------------------------------------------
  // Gregorian calendar
  // ---------------------------------------------------------------------

  predicate IsLeapYear(y: int) {
    y % 4 == 0 && (y % 100 != 0 || y % 400 == 0)
  }

  function DaysInYear(y: int): nat {
    if IsLeapYear(y) then 366 else 365
  }

  function DaysInMonth(y: int, m: int): nat
    requires 1 <= m <= 12
  {
    if m == 2 then (if IsLeapYear(y) then 29 else 28)
    else if m == 4 || m == 6 || m == 9 || m == 11 then 30
    else 31
  }

  /** Days of year `y` that lie before the first of month `m`; `m == 13` gives the whole year. */
  function DaysBeforeMonth(y: int, m: int): nat
    requires 1 <= m <= 13
  {
    [0, 31, 59, 90, 120, 151, 181, 212, 243, 273, 304, 334, 365][m - 1]
      + (if m > 2 && IsLeapYear(y) then 1 else 0)
  }

  lemma DaysBeforeNextMonth(y: int, m: int)
    requires 1 <= m <= 12
    ensures DaysBeforeMonth(y, m + 1) == DaysBeforeMonth(y, m) + DaysInMonth(y, m)
    ensures DaysBeforeMonth(y, 13) == DaysInYear(y)
  {
  }

  datatype Date = Date(year: int, month: int, day: int)

  predicate ValidDate(d: Date) {
    1 <= d.month <= 12 && 1 <= d.day <= DaysInMonth(d.year, d.month)
  }

  /** Days from 1970-01-01 to January 1 of year `y`. */
  function DaysBeforeYear(y: int): nat
    requires y >= EpochYear
    decreases y - EpochYear
  {
    if y == EpochYear then 0 else DaysBeforeYear(y - 1) + DaysInYear(y - 1)
  }

  /** Leap years among the years 1 .. y-1 of the proleptic Gregorian calendar. */
  function LeapYearsBefore(y: int): int {
    (y - 1) / 4 - (y - 1) / 100 + (y - 1) / 400
  }

  lemma LeapYearsBeforeStep(y: int)
    ensures LeapYearsBefore(y + 1) == LeapYearsBefore(y) + (if IsLeapYear(y) then 1 else 0)
  {
    QuotientStep4(y);
    QuotientStep100(y);
    QuotientStep400(y);
  }

  lemma QuotientStep4(y: int)
    ensures y / 4 - (y - 1) / 4 == if y % 4 == 0 then 1 else 0
  {
  }

  lemma QuotientStep100(y: int)
    ensures y / 100 - (y - 1) / 100 == if y % 100 == 0 then 1 else 0
  {
  }

  lemma QuotientStep400(y: int)
    ensures y / 400 - (y - 1) / 400 == if y % 400 == 0 then 1 else 0
  {
  }

  /** The closed form of `DaysBeforeYear`: 365 days a year plus one per leap year since 1970. */
  lemma {:induction false} DaysBeforeYearClosedForm(y: int)
    requires y >= EpochYear
    ensures DaysBeforeYear(y) == 365 * (y - EpochYear) + LeapYearsBefore(y) - LeapYearsBefore(EpochYear)
    decreases y - EpochYear
  {
    if y > EpochYear {
      DaysBeforeYearClosedForm(y - 1);
      LeapYearsBeforeStep(y - 1);
    }
  }

  /** The reference definition: the number of days from 1970-01-01 to `d`. */
  function DaysFromCivil(d: Date): nat
    requires ValidDate(d) && d.year >= EpochYear
  {
    DaysBeforeYear(d.year) + DaysBeforeMonth(d.year, d.month) + d.day - 1
  }

  // ---------------------------------------------------------------------
  // Day number -> date
  // ---------------------------------------------------------------------

  /** The date that lies `z` days after the first of month `m` of year `y`, within that year. */
  function MonthAndDay(y: int, m: int, z: nat): Date
    requires 1 <= m <= 12 && DaysBeforeMonth(y, m) + z < DaysInYear(y)
    decreases 12 - m
  {
    DaysBeforeNextMonth(y, m);
    if z < DaysInMonth(y, m) then Date(y, m, z + 1)
    else MonthAndDay(y, m + 1, z - DaysInMonth(y, m))
  }

  lemma {:induction false} MonthAndDayFacts(y: int, m: int, z: nat)
    requires 1 <= m <= 12 && DaysBeforeMonth(y, m) + z < DaysInYear(y)
    ensures var r := MonthAndDay(y, m, z);
      && ValidDate(r) && r.year == y
      && DaysBeforeMonth(y, r.month) + r.day - 1 == DaysBeforeMonth(y, m) + z
    decreases 12 - m
  {
    DaysBeforeNextMonth(y, m);
    if z >= DaysInMonth(y, m) {
      MonthAndDayFacts(y, m + 1, z - DaysInMonth(y, m));
    }
  }

  /**
   * The year in which the day `z` days after January 1 of year `y` falls,
   * and the day's offset within that year.
   */
  function YearAndOffset(y: int, z: nat): (int, nat)
    requires y >= EpochYear
    decreases z
  {
    if z < DaysInYear(y) then (y, z) else YearAndOffset(y + 1, z - DaysInYear(y))
  }

  lemma {:induction false} YearAndOffsetFacts(y: int, z: nat)
    requires y >= EpochYear
    ensures var (yr, off) := YearAndOffset(y, z);
      && yr >= y && off < DaysInYear(yr)
      && DaysBeforeYear(yr) + off == DaysBeforeYear(y) + z
    decreases z
  {
    if z >= DaysInYear(y) {
      YearAndOffsetFacts(y + 1, z - DaysInYear(y));
    }
  }

  /** The date that lies `z` days after January 1 of year `y`. */
  function CivilFromYear(y: int, z: nat): Date
    requires y >= EpochYear
  {
    YearAndOffsetFacts(y, z);
    var (yr, off) := YearAndOffset(y, z);
    MonthAndDay(yr, 1, off)
  }

  lemma CivilFromYearFacts(y: int, z: nat)
    requires y >= EpochYear
    ensures ValidDate(CivilFromYear(y, z)) && CivilFromYear(y, z).year >= y
    ensures DaysFromCivil(CivilFromYear(y, z)) == DaysBeforeYear(y) + z
  {
    YearAndOffsetFacts(y, z);
    var (yr, off) := YearAndOffset(y, z);
    MonthAndDayFacts(yr, 1, off);
  }

  /** The UTC calendar date of day number `z` (days since 1970-01-01). */
  function CivilFromDays(z: nat): Date {
    CivilFromYear(EpochYear, z)
  }

  /** Day number `z` names a valid date from 1970 on whose day count is `z`. */
  lemma CivilFromDaysFacts(z: nat)
    ensures ValidDate(CivilFromDays(z)) && CivilFromDays(z).year >= EpochYear
    ensures DaysFromCivil(CivilFromDays(z)) == z
  {
    CivilFromYearFacts(EpochYear, z);
  }

  lemma {:induction false} DaysBeforeYearMonotone(a: int, b: int)
    requires EpochYear <= a < b
    ensures DaysBeforeYear(a) + DaysInYear(a) <= DaysBeforeYear(b)
    decreases b - a
  {
    if a + 1 < b {
      DaysBeforeYearMonotone(a, b - 1);
    }
  }

  /** Distinct valid dates have distinct day counts. */
  lemma DaysFromCivilInjective(a: Date, b: Date)
    requires ValidDate(a) && a.year >= EpochYear
    requires ValidDate(b) && b.year >= EpochYear
    requires DaysFromCivil(a) == DaysFromCivil(b)
    ensures a == b
  {
    DaysBeforeNextMonth(a.year, a.month);
    DaysBeforeNextMonth(b.year, b.month);
    DaysBeforeMonthMonotone(a.year, a.month, 13);
    DaysBeforeMonthMonotone(b.year, b.month, 13);
    if a.year < b.year {
      DaysBeforeYearMonotone(a.year, b.year);
    } else if b.year < a.year {
      DaysBeforeYearMonotone(b.year, a.year);
    } else if a.month < b.month {
      DaysBeforeMonthMonotone(a.year, a.month + 1, b.month);
    } else if b.month < a.month {
      DaysBeforeMonthMonotone(b.year, b.month + 1, a.month);
    }
  }

  lemma {:induction false} DaysBeforeMonthMonotone(y: int, a: int, b: int)
    requires 1 <= a <= b <= 13
    ensures DaysBeforeMonth(y, a) <= DaysBeforeMonth(y, b)
    decreases b - a
  {
    if a < b {
      DaysBeforeNextMonth(y, a);
      DaysBeforeMonthMonotone(y, a + 1, b);
    }
  }

  /** `CivilFromDays` and `DaysFromCivil` are inverse bijections between day numbers and valid dates from 1970 on. */
  lemma CivilRoundTrip(d: Date)
    requires ValidDate(d) && d.year >= EpochYear
    ensures CivilFromDays(DaysFromCivil(d)) == d
  {
    CivilFromDaysFacts(DaysFromCivil(d));
    DaysFromCivilInjective(CivilFromDays(DaysFromCivil(d)), d);
  }

  // ---------------------------------------------------------------------
  // Decimal digits
  // ---------------------------------------------------------------------

  predicate IsDigit(c: char) {
    '0' <= c <= '9'
  }

  /** Every character of `s` is a decimal digit. */
  predicate AllDigits(s: string) {
    s == [] || (AllDigits(s[..|s| - 1]) && IsDigit(s[|s| - 1]))
  }

  lemma {:induction false} AllDigitsAppend(a: string, b: string)
    requires AllDigits(a) && AllDigits(b)
    ensures AllDigits(a + b)
    decreases |b|
  {
    if b == [] {
      assert a + b == a;
    } else {
      AllDigitsAppend(a, b[..|b| - 1]);
      assert (a + b)[..|a + b| - 1] == a + b[..|b| - 1];
    }
  }

  function DigitChar(d: nat): (c: char)
    requires d < 10
    ensures IsDigit(c)
  {
    ('0' as int + d) as char
  }

  function DigitValue(c: char): int {
    c as int - '0' as int
  }

  /** The value of a string of decimal digits, most significant first. */
  function DecimalValue(s: string): int {
    if s == [] then 0 else DecimalValue(s[..|s| - 1]) * 10 + DigitValue(s[|s| - 1])
  }

  /** The shortest decimal representation of `n`. */
  function Decimal(n: nat): string {
    if n < 10 then [DigitChar(n)] else Decimal(n / 10) + [DigitChar(n % 10)]
  }

  /** `Decimal(n)` is a non-empty string of digits that reads back as `n`. */
  lemma {:induction false} DecimalFacts(n: nat)
    ensures AllDigits(Decimal(n)) && 1 <= |Decimal(n)| && DecimalValue(Decimal(n)) == n
  {
    if n >= 10 {
      DecimalFacts(n / 10);
      var s := Decimal(n);
      assert s[..|s| - 1] == Decimal(n / 10);
    }
  }

  function Pow10(k: nat): nat {
    if k == 0 then 1 else 10 * Pow10(k - 1)
  }

  /** A number below `10^k` has at most `k` digits. */
  lemma {:induction false} DecimalLength(n: nat, k: nat)
    requires 1 <= k && n < Pow10(k)
    ensures |Decimal(n)| <= k
  {
    if n >= 10 {
      DecimalLength(n / 10, k - 1);
    }
  }

  function Zeros(k: nat): string {
    if k == 0 then [] else Zeros(k - 1) + ['0']
  }

  lemma {:induction false} ZerosFacts(k: nat)
    ensures |Zeros(k)| == k && AllDigits(Zeros(k)) && DecimalValue(Zeros(k)) == 0
  {
    if k > 0 {
      ZerosFacts(k - 1);
      var s := Zeros(k);
      assert s[..|s| - 1] == Zeros(k - 1);
    }
  }

  lemma {:induction false} LeadingZeros(k: nat, s: string)
    ensures DecimalValue(Zeros(k) + s) == DecimalValue(s)
    decreases |s|
  {
    var t := Zeros(k) + s;
    if s == [] {
      assert t == Zeros(k);
      ZerosFacts(k);
    } else {
      LeadingZeros(k, s[..|s| - 1]);
      assert t[..|t| - 1] == Zeros(k) + s[..|s| - 1];
    }
  }

  /** `n` in decimal, left-padded with zeros to at least `width` characters (strftime's `%02d`, `%04d`). */
  function ZeroPad(n: nat, width: nat): string {
    var digits := Decimal(n);
    Zeros(if |digits| < width then width - |digits| else 0) + digits
  }

  /**
   * A padded field is all digits and reads back as `n`; it has at least
   * `width` characters, and exactly `width` when `n` has no more digits.
   */
  lemma ZeroPadFacts(n: nat, width: nat)
    ensures var s := ZeroPad(n, width);
      && AllDigits(s) && DecimalValue(s) == n && 1 <= |s| && width <= |s|
      && (1 <= width && n < Pow10(width) ==> |s| == width)
  {
    var digits := Decimal(n);
    var k := if |digits| < width then width - |digits| else 0;
    DecimalFacts(n);
    ZerosFacts(k);
    LeadingZeros(k, digits);
    AllDigitsAppend(Zeros(k), digits);
    if 1 <= width && n < Pow10(width) {
      DecimalLength(n, width);
    }
    assert ZeroPad(n, width) == Zeros(k) + digits;
  }

  // ---------------------------------------------------------------------
  // Timestamps
  // ---------------------------------------------------------------------

  /** The fields joined by `sep`, as formatting a pattern such as `%Y-%m-%d` field by field does. */
  function Join(fields: seq<string>, sep: char): string {
    if fields == [] then []
    else if |fields| == 1 then fields[0]
    else Join(fields[..|fields| - 1], sep) + [sep] + fields[|fields| - 1]
  }

  lemma JoinThree(a: string, b: string, c: string, sep: char)
    ensures Join([a, b, c], sep) == a + [sep] + b + [sep] + c
  {
    assert [a, b, c][..2] == [a, b];
    assert [a, b][..1] == [a];
    assert Join([a], sep) == a;
    assert Join([a, b], sep) == a + [sep] + b;
  }

  /** `%Y-%m-%d` of a date: the year padded to four digits, month and day to two. */
  function DateString(d: Date): string
    requires d.year >= 0 && 1 <= d.month <= 12 && 1 <= d.day <= 31
  {
    Join([ZeroPad(d.year, 4), ZeroPad(d.month, 2), ZeroPad(d.day, 2)], '-')
  }

  /** The date a `DateString` spells, read back from its fields. */
  function ReadDate(s: string): Date
    requires |s| >= 6
  {
    Date(DecimalValue(s[..|s| - 6]), DecimalValue(s[|s| - 5..|s| - 3]), DecimalValue(s[|s| - 2..]))
  }

  /** Where the fields of `y-m-d` sit when `m` and `d` have two characters, and what they read back as. */
  lemma DashedFields(y: string, m: string, d: string)
    requires |m| == 2 && |d| == 2
    requires AllDigits(y) && AllDigits(m) && AllDigits(d)
    ensures var s := y + "-" + m + "-" + d;
      && |s| == |y| + 6 && s[|s| - 6] == '-' && s[|s| - 3] == '-'
      && AllDigits(s[..|s| - 6]) && AllDigits(s[|s| - 5..|s| - 3]) && AllDigits(s[|s| - 2..])
      && ReadDate(s) == Date(DecimalValue(y), DecimalValue(m), DecimalValue(d))
  {
    var s := y + "-" + m + "-" + d;
    assert s[..|s| - 6] == y;
    assert s[|s| - 5..|s| - 3] == m;
    assert s[|s| - 2..] == d;
  }

  /** A `DateString` is its three padded fields joined by dashes. */
  lemma DateStringJoin(d: Date)
    requires d.year >= 0 && 1 <= d.month <= 12 && 1 <= d.day <= 31
    ensures var y, m, dd := ZeroPad(d.year, 4), ZeroPad(d.month, 2), ZeroPad(d.day, 2);
      && DateString(d) == y + "-" + m + "-" + dd
      && AllDigits(y) && AllDigits(m) && AllDigits(dd) && |m| == 2 && |dd| == 2 && |y| >= 4
      && (d.year < 10000 ==> |y| == 4)
      && DecimalValue(y) == d.year && DecimalValue(m) == d.month && DecimalValue(dd) == d.day
  {
    ZeroPadFacts(d.year, 4);
    ZeroPadFacts(d.month, 2);
    ZeroPadFacts(d.day, 2);
    assert Pow10(2) == 100 && Pow10(4) == 10000;
    JoinThree(ZeroPad(d.year, 4), ZeroPad(d.month, 2), ZeroPad(d.day, 2), '-');
  }

  /** The fields of a `DateString` sit at fixed offsets from its end and read back as the date. */
  lemma DateStringFields(d: Date)
    requires d.year >= 0 && 1 <= d.month <= 12 && 1 <= d.day <= 31
    ensures var s := DateString(d);
      && |s| >= 10 && s[|s| - 6] == '-' && s[|s| - 3] == '-'
      && AllDigits(s[..|s| - 6]) && AllDigits(s[|s| - 5..|s| - 3]) && AllDigits(s[|s| - 2..])
      && ReadDate(s) == d
      && (d.year < 10000 ==> |s| == 10)
  {
    DateStringJoin(d);
    DashedFields(ZeroPad(d.year, 4), ZeroPad(d.month, 2), ZeroPad(d.day, 2));
  }

  /** The `YYYY-MM-DD` string of day number `z`. */
  function DayString(z: nat): string {
    CivilFromDaysFacts(z);
    DateString(CivilFromDays(z))
  }

  /** `_timestamp_to_date`: the UTC calendar date of `ts`, as `YYYY-MM-DD`. */
  function TimestampToDate(ts: nat): string {
    DayString(ts / SecondsPerDay)
  }

  /**
   * `s` has the `YYYY-MM-DD` shape (a four-digit year below 10000) and reads
   * back as the valid date whose day count is `z`.
   */
  predicate SpellsDay(s: string, z: nat) {
    && |s| >= 10 && s[|s| - 6] == '-' && s[|s| - 3] == '-'
    && AllDigits(s[..|s| - 6]) && AllDigits(s[|s| - 5..|s| - 3]) && AllDigits(s[|s| - 2..])
    && ValidDate(ReadDate(s)) && ReadDate(s).year >= EpochYear
    && DaysFromCivil(ReadDate(s)) == z
    && (ReadDate(s).year < 10000 ==> |s| == 10)
  }

  lemma DayStringReadsBack(z: nat)
    ensures SpellsDay(DayString(z), z)
  {
    var c := CivilFromDays(z);
    CivilFromDaysFacts(z);
    assert ValidDate(c) && c.year >= EpochYear && DaysFromCivil(c) == z;
    assert c.day <= 31;
    DateStringFields(c);
  }

  /** The date string of `ts` spells its day number `ts / 86400`. */
  lemma TimestampToDateReadsBack(ts: nat)
    ensures SpellsDay(TimestampToDate(ts), ts / SecondsPerDay)
  {
    DayStringReadsBack(ts / SecondsPerDay);
  }

  /** `%H:%M:%S` of `hour:minute:second`, each padded to two digits. */
  function TimeString(h: nat, m: nat, sec: nat): string {
    Join([ZeroPad(h, 2), ZeroPad(m, 2), ZeroPad(sec, 2)], ':')
  }

  /** Where the fields of `h:m:s` sit when each has two characters. */
  lemma ColonSlices(h: string, m: string, sec: string)
    requires |h| == 2 && |m| == 2 && |sec| == 2
    ensures var s := h + ":" + m + ":" + sec;
      && |s| == 8 && s[2] == ':' && s[5] == ':' && s[..2] == h && s[3..5] == m && s[6..] == sec
  {
    var s := h + ":" + m + ":" + sec;
    assert s[..2] == h;
    assert s[3..5] == m;
    assert s[6..] == sec;
  }

  /** The fields of a `TimeString` of two-digit values sit at offsets 0, 3 and 6 and read back as the values. */
  lemma TimeStringFields(h: nat, m: nat, sec: nat)
    requires h < 100 && m < 100 && sec < 100
    ensures var s := TimeString(h, m, sec);
      && |s| == 8 && s[2] == ':' && s[5] == ':'
      && AllDigits(s[..2]) && AllDigits(s[3..5]) && AllDigits(s[6..])
      && DecimalValue(s[..2]) == h && DecimalValue(s[3..5]) == m && DecimalValue(s[6..]) == sec
  {
    ZeroPadFacts(h, 2);
    ZeroPadFacts(m, 2);
    ZeroPadFacts(sec, 2);
    assert Pow10(2) == 100;
    JoinThree(ZeroPad(h, 2), ZeroPad(m, 2), ZeroPad(sec, 2), ':');
    ColonSlices(ZeroPad(h, 2), ZeroPad(m, 2), ZeroPad(sec, 2));
  }

  /** Hours, minutes and seconds of a second of the day. */
  lemma SplitSecondOfDay(secs: nat)
    requires secs < SecondsPerDay
    ensures secs / 3600 < 24 && secs % 3600 / 60 < 60 && secs % 60 < 60
    ensures secs / 3600 * 3600 + secs % 3600 / 60 * 60 + secs % 60 == secs
  {
  }

  /** `_timestamp_to_time`: the UTC time of day of `ts`, as `HH:MM:SS` on a 24-hour clock. */
  function TimestampToTime(ts: nat): string {
    var secs := ts % SecondsPerDay;
    TimeString(secs / 3600, secs % 3600 / 60, secs % 60)
  }

  /**
   * The time string of `ts` is `HH:MM:SS`: three two-digit fields, an hour
   * below 24 and minute and second below 60, that together give `ts % 86400`.
   */
  lemma TimestampToTimeReadsBack(ts: nat)
    ensures var s := TimestampToTime(ts);
      && |s| == 8 && s[2] == ':' && s[5] == ':'
      && AllDigits(s[..2]) && AllDigits(s[3..5]) && AllDigits(s[6..])
      && DecimalValue(s[..2]) < 24 && DecimalValue(s[3..5]) < 60 && DecimalValue(s[6..]) < 60
      && DecimalValue(s[..2]) * 3600 + DecimalValue(s[3..5]) * 60 + DecimalValue(s[6..]) == ts % SecondsPerDay
  {
    var secs := ts % SecondsPerDay;
    SplitSecondOfDay(secs);
    TimeStringFields(secs / 3600, secs % 3600 / 60, secs % 60);
  }

  // ---------------------------------------------------------------------
  // Properties of the two conversions
  // ---------------------------------------------------------------------

  /** Two timestamps get the same date string exactly when they lie in the same 86400-second UTC day. */
  lemma SameDateIffSameDay(a: nat, b: nat)
    ensures TimestampToDate(a) == TimestampToDate(b) <==> a / SecondsPerDay == b / SecondsPerDay
  {
    if TimestampToDate(a) == TimestampToDate(b) {
      SameDateImpliesSameDay(a, b);
    }
  }

  lemma SameDateImpliesSameDay(a: nat, b: nat)
    requires TimestampToDate(a) == TimestampToDate(b)
    ensures a / SecondsPerDay == b / SecondsPerDay
  {
    TimestampToDateReadsBack(a);
    TimestampToDateReadsBack(b);
  }

  /** Two timestamps get the same time string exactly when they lie at the same second of a UTC day. */
  lemma SameTimeIffSameSecondOfDay(a: nat, b: nat)
    ensures TimestampToTime(a) == TimestampToTime(b) <==> a % SecondsPerDay == b % SecondsPerDay
  {
    TimestampToTimeReadsBack(a);
    TimestampToTimeReadsBack(b);
  }

  /** Date and time string together determine the timestamp. */
  lemma DateAndTimeDetermineTimestamp(a: nat, b: nat)
    requires TimestampToDate(a) == TimestampToDate(b) && TimestampToTime(a) == TimestampToTime(b)
    ensures a == b
  {
    SameDateIffSameDay(a, b);
    SameTimeIffSameSecondOfDay(a, b);
  }

  /** The instant used by the view tests: 1634486400 is 2021-10-17 16:00:00 UTC. */
  lemma TestInstant()
    ensures TimestampToDate(1634486400) == "2021-10-17"
    ensures TimestampToTime(1634486400) == "16:00:00"
  {
    TestDay();
    CivilRoundTrip(Date(2021, 10, 17));
    assert 1634486400 / SecondsPerDay == 18917;
    assert TimestampToDate(1634486400) == DayString(18917);
    TestDateString();
    TestTime();
  }

  lemma TestDay() ensures DaysFromCivil(Date(2021, 10, 17)) == 18917 {
    DaysBeforeYearClosedForm(2021);
  }
  lemma TestDateString() ensures DateString(Date(2021, 10, 17)) == "2021-10-17" {
    JoinThree(ZeroPad(2021, 4), ZeroPad(10, 2), ZeroPad(17, 2), '-');
    assert ZeroPad(2021, 4) == "2021";
    assert ZeroPad(10, 2) == "10";
    assert ZeroPad(17, 2) == "17";
  }
  lemma TestTime() ensures TimestampToTime(1634486400) == "16:00:00" {
    assert 1634486400 % SecondsPerDay == 57600;
    assert TimestampToTime(1634486400) == TimeString(16, 0, 0);
    TestTimeString();
  }
  lemma TestTimeString() ensures TimeString(16, 0, 0) == "16:00:00" {
    JoinThree(ZeroPad(16, 2), ZeroPad(0, 2), ZeroPad(0, 2), ':');
    assert ZeroPad(16, 2) == "16";
    assert ZeroPad(0, 2) == "00";
  }
}
