/**
 * PHP's `date('c', $t)` with the default time zone set to UTC: a count of seconds since
 * 1970-01-01T00:00:00Z written as an ISO 8601 date-time such as 2022-02-01T00:05:11+00:00,
 * using the proleptic Gregorian calendar.
 */
module Calendar {
  import opened Php

  datatype DateTime = DateTime(year: int, month: int, day: int, hour: int, minute: int, second: int)

  predicate IsLeapYear(y: int) {
    y % 4 == 0 && (y % 100 != 0 || y % 400 == 0)
  }

  function DaysInMonth(y: int, m: int): int
    requires 1 <= m <= 12
  {
    if m == 2 then (if IsLeapYear(y) then 29 else 28)
    else if m == 4 || m == 6 || m == 9 || m == 11 then 30
    else 31
  }

  predicate ValidDate(y: int, m: int, d: int) {
    1 <= m <= 12 && 1 <= d <= DaysInMonth(y, m)
  }

  predicate Valid(dt: DateTime) {
    && ValidDate(dt.year, dt.month, dt.day)
    && 0 <= dt.hour < 24 && 0 <= dt.minute < 60 && 0 <= dt.second < 60
  }

  // ---------------------------------------------------------------------------------------
  // Reference numbering of days

  /** Days from 0000-01-01 to the first of January of year `y`. */
  function DaysBeforeYear(y: int): int {
    365 * y + (y + 3) / 4 - (y + 99) / 100 + (y + 399) / 400
  }

  /** Days from the first of January to the first of month `m` in year `y`. */
  function DaysBeforeMonth(y: int, m: int): int
    requires 1 <= m <= 12
  {
    [0, 31, 59, 90, 120, 151, 181, 212, 243, 273, 304, 334][m - 1]
      + (if m > 2 && IsLeapYear(y) then 1 else 0)
  }

  /** Days from 0000-01-01 to 1970-01-01. */
  const UNIX_EPOCH_DAYS: int := 719528

  /** The number of the day `y-m-d`, counted from 1970-01-01. */
  function DaysFromCivil(y: int, m: int, d: int): int
    requires 1 <= m <= 12
  {
    DaysBeforeYear(y) + DaysBeforeMonth(y, m) + d - 1 - UNIX_EPOCH_DAYS
  }

  /** The calendar day after a valid date. */
  function NextDay(y: int, m: int, d: int): (int, int, int)
    requires ValidDate(y, m, d)
  {
    if d < DaysInMonth(y, m) then (y, m, d + 1)
    else if m < 12 then (y, m + 1, 1)
    else (y + 1, 1, 1)
  }

  lemma FloorStep4(k: int)
    ensures (k + 1) / 4 - k / 4 == if (k + 1) % 4 == 0 then 1 else 0
  {
  }

  lemma FloorStep100(k: int)
    ensures (k + 1) / 100 - k / 100 == if (k + 1) % 100 == 0 then 1 else 0
  {
  }

  lemma FloorStep400(k: int)
    ensures (k + 1) / 400 - k / 400 == if (k + 1) % 400 == 0 then 1 else 0
  {
  }

  lemma CeilStep(k: int)
    ensures (k + 3) / 4 - k / 4 == if k % 4 == 0 then 0 else 1
    ensures (k + 99) / 100 - k / 100 == if k % 100 == 0 then 0 else 1
    ensures (k + 399) / 400 - k / 400 == if k % 400 == 0 then 0 else 1
  {
  }

  /** Every multiple of 400 is a multiple of 100, and every multiple of 100 one of 4. */
  lemma ModNest(y: int)
    ensures y % 400 == 0 ==> y % 100 == 0
    ensures y % 100 == 0 ==> y % 4 == 0
  {
    ModNest400(y);
    ModNest100(y);
  }

  lemma ModNest400(y: int)
    ensures y % 400 == 0 ==> y % 100 == 0
  {
    if y % 400 == 0 {
      var k := y / 400;
      assert y == 100 * (4 * k);
    }
  }

  lemma ModNest100(y: int)
    ensures y % 100 == 0 ==> y % 4 == 0
  {
    if y % 100 == 0 {
      var k := y / 100;
      assert y == 4 * (25 * k);
    }
  }

  lemma EraShift(e: int, k: int)
    ensures (400 * e + k + 3) / 4 == 100 * e + (k + 3) / 4
    ensures (400 * e + k + 99) / 100 == 4 * e + (k + 99) / 100
    ensures (400 * e + k + 399) / 400 == e + (k + 399) / 400
  {
  }

  /** A year has 366 days exactly when it is a leap year. */
  lemma YearLength(y: int)
    ensures DaysBeforeYear(y + 1) - DaysBeforeYear(y) == if IsLeapYear(y) then 366 else 365
  {
    FloorStep4(y + 3);
    FloorStep100(y + 99);
    FloorStep400(y + 399);
    var four := (y + 4) / 4 - (y + 3) / 4;
    var hundred := (y + 100) / 100 - (y + 99) / 100;
    var fourHundred := (y + 400) / 400 - (y + 399) / 400;
    assert four == if y % 4 == 0 then 1 else 0 by { assert (y + 4) % 4 == y % 4; }
    assert hundred == if y % 100 == 0 then 1 else 0 by { assert (y + 100) % 100 == y % 100; }
    assert fourHundred == if y % 400 == 0 then 1 else 0 by { assert (y + 400) % 400 == y % 400; }
    assert DaysBeforeYear(y + 1) - DaysBeforeYear(y) == 365 + four - hundred + fourHundred;
    ModNest(y);
  }

  /** Day zero is 1970-01-01, and consecutive calendar days get consecutive numbers: together
      these fix DaysFromCivil on every valid date. */
  lemma DaysFromCivilCounts(y: int, m: int, d: int)
    requires ValidDate(y, m, d)
    ensures DaysFromCivil(1970, 1, 1) == 0
    ensures var (y', m', d') := NextDay(y, m, d);
            ValidDate(y', m', d') && DaysFromCivil(y', m', d') == DaysFromCivil(y, m, d) + 1
  {
    YearLength(y);
  }

  /** Every 400 years hold the same number of days, 146097. */
  lemma DaysBeforeYearEra(e: int, k: int)
    ensures DaysBeforeYear(400 * e + k) == 146097 * e + DaysBeforeYear(k)
  {
    EraShift(e, k);
  }

  /** The leap-year rule repeats every 400 years. */
  lemma LeapPeriodic(e: int, k: int)
    ensures IsLeapYear(400 * e + k) == IsLeapYear(k)
  {
    EraShift(e, k - 3);
    EraShift(e, k - 99);
    EraShift(e, k - 399);
    assert (400 * e + k) % 4 == k % 4;
    assert (400 * e + k) % 100 == k % 100;
    assert (400 * e + k) % 400 == k % 400;
  }

  // ---------------------------------------------------------------------------------------
  // From a day number to a date: split the day number into 400-year eras, centuries,
  // four-year blocks and years, all counted from a first of March so that the leap day
  // closes each block

  /** Days from the first of March of year 0 of an era to the first of March of year `n`. */
  function MarchYearStart(n: int): int {
    365 * n + n / 4 - n / 100 + n / 400
  }

  /** The year of the era and the day of that (March-based) year for day `doe` of an era. */
  function EraYear(doe: int): (int, int)
    requires 0 <= doe < 146097
  {
    var c := if doe / 36524 == 4 then 3 else doe / 36524;
    var doc := doe - 36524 * c;
    var q := doc / 1461;
    var dq := doc - 1461 * q;
    var j := if dq / 365 == 4 then 3 else dq / 365;
    (100 * c + 4 * q + j, dq - 365 * j)
  }

  lemma MarchYearStartSplit(c: int, q: int, j: int)
    requires 0 <= c < 4 && 0 <= q < 25 && 0 <= j < 4
    ensures MarchYearStart(100 * c + 4 * q + j) == 36524 * c + 1461 * q + 365 * j
  {
    var n := 100 * c + 4 * q + j;
    assert n / 4 == 25 * c + q;
    assert n / 100 == c;
    assert n / 400 == 0;
  }

  /** The year that closes a four-year block with a 1461st day is a leap year. */
  lemma LeapAtBlockEnd(c: int, q: int)
    requires 0 <= c < 4 && 0 <= q < 25
    requires q == 24 ==> c == 3
    ensures IsLeapYear(100 * c + 4 * q + 4)
  {
    var y := 100 * c + 4 * q + 4;
    assert y % 4 == 0;
    if q < 24 {
      assert y % 100 == 4 * q + 4;
    } else {
      assert y == 400;
    }
  }

  /** EraYear picks the year of the era whose days hold `doe`; that year's February lies in
      calendar year `yoe + 1`, which decides its length. */
  lemma EraYearSplit(doe: int)
    requires 0 <= doe < 146097
    ensures var (yoe, doy) := EraYear(doe);
            && 0 <= yoe < 400
            && 0 <= doy < (if IsLeapYear(yoe + 1) then 366 else 365)
            && doe == MarchYearStart(yoe) + doy
  {
    var c := if doe / 36524 == 4 then 3 else doe / 36524;
    assert 0 <= c < 4;
    var doc := doe - 36524 * c;
    assert 0 <= doc <= 36524;
    assert doc == 36524 ==> c == 3;
    var q := doc / 1461;
    assert 0 <= q < 25;
    var dq := doc - 1461 * q;
    assert 0 <= dq < 1461;
    assert dq == 1460 ==> q < 24 || c == 3;
    var j := if dq / 365 == 4 then 3 else dq / 365;
    assert 0 <= j < 4;
    var doy := dq - 365 * j;
    assert 0 <= doy <= 365;
    MarchYearStartSplit(c, q, j);
    if doy == 365 {
      LeapAtBlockEnd(c, q);
    }
  }

  /** The first of March of year `k`, counted from the first of March of year 0. */
  lemma MarchFirst(k: int)
    ensures DaysBeforeYear(k) + (if IsLeapYear(k) then 1 else 0) - 1 == MarchYearStart(k)
  {
    CeilStep(k);
    ModNest(k);
  }

  /** Month and day within a March-based year of `doy` days so far (the month formula of
      H. Hinnant's civil_from_days). */
  function MonthDay(doy: int): (int, int) {
    var mp := (5 * doy + 2) / 153;
    var d := doy - (153 * mp + 2) / 5 + 1;
    (if mp < 10 then mp + 3 else mp - 9, d)
  }

  /** The month and day MonthDay gives are a valid date of the right year, whose offset from
      the first of March is `doy`. */
  lemma MonthOfYear(doy: int, leap: bool)
    requires 0 <= doy < (if leap then 366 else 365)
    ensures var (m, d) := MonthDay(doy);
            && 1 <= m <= 12
            && 1 <= d <= (if m == 2 then (if leap then 29 else 28)
                          else if m == 4 || m == 6 || m == 9 || m == 11 then 30 else 31)
            && (m >= 3 ==> doy == DaysBeforeMonth(1, m) - 59 + d - 1)
            && (m <= 2 ==> doy == DaysBeforeMonth(1, m) + 306 + d - 1)
  {
    var mp := (5 * doy + 2) / 153;
    assert 0 <= mp < 12;
    if mp == 0 {} else if mp == 1 {} else if mp == 2 {} else if mp == 3 {} else if mp == 4 {}
    else if mp == 5 {} else if mp == 6 {} else if mp == 7 {} else if mp == 8 {} else if mp == 9 {}
    else if mp == 10 {} else {}
  }

  /** The date of day `z`, counted from 1970-01-01. */
  function CivilFromDays(z: int): (int, int, int) {
    var zp := z + 719468;  // days since 0000-03-01
    var era := zp / 146097;
    var (yoe, doy) := EraYear(zp % 146097);
    var (m, d) := MonthDay(doy);
    (400 * era + yoe + (if m <= 2 then 1 else 0), m, d)
  }

  /** The month and day of day `doy` of March-based year `yoe` of era `era` form a valid date
      whose number is that day's. */
  lemma MarchDate(era: int, yoe: int, doy: int)
    requires 0 <= yoe < 400
    requires 0 <= doy < (if IsLeapYear(yoe + 1) then 366 else 365)
    ensures var (m, d) := MonthDay(doy);
            var y := 400 * era + yoe + (if m <= 2 then 1 else 0);
            ValidDate(y, m, d)
            && DaysFromCivil(y, m, d) == 146097 * era + MarchYearStart(yoe) + doy - 719468
  {
    MonthOfYear(doy, IsLeapYear(yoe + 1));
    var (m, d) := MonthDay(doy);
    MarchFirst(yoe);
    if m >= 3 {
      var y := 400 * era + yoe;
      DaysBeforeYearEra(era, yoe);
      LeapPeriodic(era, yoe);
      assert DaysBeforeMonth(y, m) == DaysBeforeMonth(1, m) + (if IsLeapYear(yoe) then 1 else 0);
    } else {
      var y := 400 * era + (yoe + 1);
      DaysBeforeYearEra(era, yoe + 1);
      LeapPeriodic(era, yoe + 1);
      YearLength(yoe);
      assert DaysBeforeMonth(y, m) == DaysBeforeMonth(1, m);
    }
  }

  /** Every day number names a valid date, and that date gets the same number back. */
  lemma CivilFromDaysRoundTrip(z: int)
    ensures var (y, m, d) := CivilFromDays(z);
            ValidDate(y, m, d) && DaysFromCivil(y, m, d) == z
  {
    var zp := z + 719468;
    var doe := zp % 146097;
    assert zp == 146097 * (zp / 146097) + doe;
    EraYearSplit(doe);
    MarchDate(zp / 146097, EraYear(doe).0, EraYear(doe).1);
  }

  // ---------------------------------------------------------------------------------------
  // Seconds

  /** The UTC date and time `t` seconds after the Unix epoch. */
  function FromUnixTime(t: int): DateTime {
    var days := t / 86400;
    var secs := t % 86400;
    var (y, m, d) := CivilFromDays(days);
    DateTime(y, m, d, secs / 3600, secs % 3600 / 60, secs % 60)
  }

  function ToUnixTime(dt: DateTime): int
    requires 1 <= dt.month <= 12
  {
    DaysFromCivil(dt.year, dt.month, dt.day) * 86400 + dt.hour * 3600 + dt.minute * 60 + dt.second
  }

  lemma SecondsOfDay(secs: int)
    requires 0 <= secs < 86400
    ensures 0 <= secs / 3600 < 24 && 0 <= secs % 3600 / 60 < 60 && 0 <= secs % 60 < 60
    ensures secs == secs / 3600 * 3600 + secs % 3600 / 60 * 60 + secs % 60
  {
    var r := secs % 3600;
    assert secs == secs / 3600 * 3600 + r;
    assert r == r / 60 * 60 + r % 60;
    assert r % 60 == secs % 60 by {
      assert secs == (secs / 3600 * 60 + r / 60) * 60 + r % 60;
    }
  }

  /** Every timestamp becomes a valid date-time that denotes that same instant. */
  lemma UnixTimeRoundTrip(t: int)
    ensures Valid(FromUnixTime(t)) && ToUnixTime(FromUnixTime(t)) == t
  {
    var days := t / 86400;
    var secs := t % 86400;
    assert t == days * 86400 + secs;
    CivilFromDaysRoundTrip(days);
    SecondsOfDay(secs);
  }

  // ---------------------------------------------------------------------------------------
  // Text

  function Zeros(n: int): (r: string)
    ensures |r| == if n <= 0 then 0 else n
    decreases n
  {
    if n <= 0 then "" else "0" + Zeros(n - 1)
  }

  function Pad2(n: int): (r: string)
    requires 0 <= n < 100
    ensures |r| == 2 && ReadTwo(r[0], r[1]) == n
  {
    [DigitChar(n / 10), DigitChar(n % 10)]
  }

  /** The number two decimal digit characters denote. */
  function ReadTwo(hi: char, lo: char): int {
    (hi as int - '0' as int) * 10 + (lo as int - '0' as int)
  }

  /** The year as `date('Y')` writes it inside 'c': a sign for years before year 0, and at least
      four digits. */
  function YearText(y: int): (r: string)
    ensures |r| >= 4
  {
    var digits := Decimal(if y < 0 then -y else y);
    (if y < 0 then "-" else "") + Zeros(4 - |digits|) + digits
  }

  /** Reads back what `date('c')` writes after the year, `-MM-DDTHH:MM:SS+00:00`: the month,
      day, hour, minute and second, or nothing when the text has another shape. */
  function ReadTail(s: string): Option<(int, int, int, int, int)> {
    if |s| == 21 && s[0] == '-' && s[3] == '-' && s[6] == 'T' && s[9] == ':' && s[12] == ':' && s[15..] == "+00:00"
    then Some((ReadTwo(s[1], s[2]), ReadTwo(s[4], s[5]), ReadTwo(s[7], s[8]), ReadTwo(s[10], s[11]), ReadTwo(s[13], s[14])))
    else None
  }

  /** What `date('c')` writes after the year. */
  function Tail(dt: DateTime): (r: string)
    requires Valid(dt)
    ensures |r| == 21 && ReadTail(r) == Some((dt.month, dt.day, dt.hour, dt.minute, dt.second))
  {
    var mo := Pad2(dt.month);
    var d := Pad2(dt.day);
    var h := Pad2(dt.hour);
    var mi := Pad2(dt.minute);
    var se := Pad2(dt.second);
    var r := ['-', mo[0], mo[1], '-', d[0], d[1], 'T', h[0], h[1], ':', mi[0], mi[1], ':', se[0], se[1],
              '+', '0', '0', ':', '0', '0'];
    assert r[15..] == "+00:00";
    r
  }

  /** `date('c')` of a UTC date-time: the year, then the month, day, hour, minute and second. */
  function FormatC(dt: DateTime): string
    requires Valid(dt)
  {
    YearText(dt.year) + Tail(dt)
  }

  /** The text `date('c')` writes splits into the year and a tail that reads back as the month,
      day, hour, minute and second. */
  lemma FormatCReadBack(dt: DateTime)
    requires Valid(dt)
    ensures var r := FormatC(dt);
      |r| >= 25 && r[..|r| - 21] == YearText(dt.year)
      && ReadTail(r[|r| - 21..]) == Some((dt.month, dt.day, dt.hour, dt.minute, dt.second))
  {
    var y := YearText(dt.year);
    var t := Tail(dt);
    assert (y + t)[..|y|] == y && (y + t)[|y|..] == t;
  }

  /** `date('c', $t)` in UTC: the text of a valid date-time that denotes the instant `t`. */
  function DateC(t: int): (r: string)
    ensures exists dt :: Valid(dt) && ToUnixTime(dt) == t && r == FormatC(dt)
  {
    UnixTimeRoundTrip(t);
    FormatC(FromUnixTime(t))
  }
}
