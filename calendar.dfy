/** Instants as integer milliseconds since 1970-01-01T00:00Z and the date
    parts the database's date operators (`$hour`, `$dayOfWeek`,
    `$dateToString`) extract from them, in UTC. */
module Calendar {

  const MsPerMinute: int := 60000
  const MsPerHour: int := 3600000
  const MsPerDay: int := 86400000

  /** The calendar date of an instant as a day number (days since
      1970-01-01); `%Y-%m-%d` labels order like these numbers. */
  function DayOf(ts: int): (d: int)
    ensures d * MsPerDay <= ts < (d + 1) * MsPerDay
  {
    ts / MsPerDay
  }

  /** `$hour`: the hour of the day, counted from that day's midnight. */
  function HourOf(ts: int): (h: int)
    ensures 0 <= h < 24
    ensures DayOf(ts) * MsPerDay + h * MsPerHour <= ts < DayOf(ts) * MsPerDay + (h + 1) * MsPerHour
  {
    (ts % MsPerDay) / MsPerHour
  }

  /** `$dayOfWeek`: 1 for Sunday through 7 for Saturday (day 0 was a Thursday). */
  function DayOfWeek(ts: int): (d: int)
    ensures 1 <= d <= 7
  {
    (DayOf(ts) + 4) % 7 + 1
  }

  /** 1970-01-01 was a Thursday, and each day is the weekday after the one before. */
  lemma DayOfWeekSteps(ts: int)
    ensures DayOfWeek(0) == 5
    ensures DayOfWeek(ts + MsPerDay) == DayOfWeek(ts) % 7 + 1
    ensures DayOfWeek(ts + 7 * MsPerDay) == DayOfWeek(ts)
  {
    var q := DayOf(ts);
    DaysForward(ts, 1);
    DaysForward(ts, 7);
    var k := (q + 4) % 7;
    assert q + 4 == 7 * ((q + 4) / 7) + k;
    assert q + 5 == 7 * ((q + 4) / 7) + k + 1;
    assert q + 11 == 7 * ((q + 4) / 7 + 1) + k;
  }

  /** Whole days forward move the day number forward by as many. */
  lemma DaysForward(ts: int, days: int)
    ensures DayOf(ts + days * MsPerDay) == DayOf(ts) + days
  {
    var q := DayOf(ts);
    assert ts + days * MsPerDay == (q + days) * MsPerDay + ts % MsPerDay;
  }

  /** The start of the day that contains `ts`. */
  function Midnight(ts: int): (m: int)
    ensures m <= ts < m + MsPerDay
    ensures DayOf(m) == DayOf(ts)
  {
    var m := ts - ts % MsPerDay;
    assert m == DayOf(ts) * MsPerDay;
    m
  }

  datatype Date = Date(year: int, month: int, day: int)

  predicate IsLeap(y: int)
  {
    y % 4 == 0 && (y % 100 != 0 || y % 400 == 0)
  }

  function DaysInMonth(y: int, m: int): (n: int)
    ensures 28 <= n <= 31
  {
    if m == 2 then (if IsLeap(y) then 29 else 28)
    else if m == 4 || m == 6 || m == 9 || m == 11 then 30
    else 31
  }

  /** A month of the year and a day that month has. */
  predicate ValidDate(date: Date)
  {
    1 <= date.month <= 12 && 1 <= date.day <= DaysInMonth(date.year, date.month)
  }

  // The conversions below count years from March 1st, so that 29 February
  // is the last day of its year, and group 400 such years into an era of
  // 146097 days. `yoe` is the year of the era (0..399), `mp` the month
  // counted from March (0..11) and `doy` the day of that year.

  /** Days from the era's first March 1st to that of year `yoe`. */
  function YearStart(yoe: int): int
  {
    365 * yoe + yoe / 4 - yoe / 100
  }

  /** Year `yoe` of the era ends with a 29 February. */
  predicate EraLeap(yoe: int)
  {
    (yoe + 1) % 4 == 0 && ((yoe + 1) % 100 != 0 || yoe + 1 == 400)
  }

  function YearLength(yoe: int): int
  {
    if EraLeap(yoe) then 366 else 365
  }

  /** The year of the era that day `doe` of the era falls in. */
  function YearOfEra(doe: int): int
  {
    (doe - doe / 1460 + doe / 36524 - doe / 146096) / 365
  }

  /** Days from March 1st to the first day of month `mp`. */
  function MonthStart(mp: int): int
  {
    (153 * mp + 2) / 5
  }

  /** The month, counted from March, that day `doy` of the year falls in. */
  function MonthOfYear(doy: int): int
  {
    (5 * doy + 2) / 153
  }

  function MarchMonthLength(mp: int): int
  {
    if mp == 11 then 29 else if mp == 1 || mp == 3 || mp == 6 || mp == 8 then 30 else 31
  }

  /** Day number, counted from 0000-03-01, of March 1st of the year
      counted from March `y`. */
  function MarchFirst(y: int): int
  {
    (y / 400) * 146097 + YearStart(y % 400)
  }

  /** The date of day `doy` of the March-based year `y`. */
  function YearDate(y: int, doy: int): Date
  {
    var mp := MonthOfYear(doy);
    var m := if mp < 10 then mp + 3 else mp - 9;
    Date(y + (if m <= 2 then 1 else 0), m, doy - MonthStart(mp) + 1)
  }

  /** The date of day `doe` of era `era`. */
  function EraDate(era: int, doe: int): Date
  {
    var yoe := YearOfEra(doe);
    YearDate(era * 400 + yoe, doe - YearStart(yoe))
  }

  /** Proleptic Gregorian date of a day number (the era-based conversion
      that counts years from March 1st). */
  function CivilFromDays(days: int): Date
  {
    var z := days + 719468;
    var era := z / 146097;
    EraDate(era, z - era * 146097)
  }

  /** The day of the March-based year on which day `d` of month `m` falls. */
  function MarchDay(m: int, d: int): int
  {
    MonthStart(if m > 2 then m - 3 else m + 9) + d - 1
  }

  /** Day number of a proleptic Gregorian date. */
  function DaysFromCivil(y: int, m: int, d: int): int
  {
    var y' := if m <= 2 then y - 1 else y;
    var era := y' / 400;
    var yoe := y' - era * 400;
    era * 146097 + YearStart(yoe) + MarchDay(m, d) - 719468
  }

  lemma YearStartSplit(yoe: int)
    requires 0 <= yoe < 400
    ensures YearStart(yoe) == 36524 * (yoe / 100) + 1461 * ((yoe % 100) / 4) + 365 * (yoe % 4)
  {
    var c, q, r := yoe / 100, (yoe % 100) / 4, yoe % 4;
    assert yoe == 100 * c + 4 * q + r;
    assert yoe / 4 == 25 * c + q;
  }

  lemma Quotient1460(x: int, k: int)
    requires 1460 * k <= x < 1460 * k + 1460
    ensures x / 1460 == k
  {
  }

  lemma Quotient36524(x: int, k: int)
    requires 36524 * k <= x < 36524 * k + 36524
    ensures x / 36524 == k
  {
  }

  lemma Quotient365(x: int, k: int)
    requires 365 * k <= x < 365 * k + 365
    ensures x / 365 == k
  {
  }

  /** Only the last year of an era ends on its day 146096. */
  lemma EraLastDay(yoe: int, doy: int)
    requires 0 <= yoe < 400 && 0 <= doy < YearLength(yoe)
    ensures var w := 1461 * ((yoe % 100) / 4) + 365 * (yoe % 4) + doy;
      0 <= w < 36524 || (yoe / 100 == 3 && w == 36524)
    ensures doy == 365 ==> yoe % 4 == 3
  {
    var c, q, r := yoe / 100, (yoe % 100) / 4, yoe % 4;
    assert yoe + 1 == 4 * (25 * c + q) + (r + 1);
    assert yoe + 1 == 100 * c + (4 * q + r + 1);
  }

  /** The numerator of `YearOfEra` on day `doy` of the year made of `c`
      centuries, `q` four-year cycles and `r` years: the leap days that the
      divisions take out leave 365 days a year. */
  lemma CountFromParts(c: int, q: int, r: int, doy: int, doe: int)
    requires 0 <= c < 4 && 0 <= q < 25 && 0 <= r < 4 && 0 <= doy < 366
    requires doy == 365 ==> r == 3
    requires var w := 1461 * q + 365 * r + doy; w < 36524 || (c == 3 && w == 36524)
    requires doe == 36524 * c + 1461 * q + 365 * r + doy
    ensures 365 * (100 * c + 4 * q + r) <= doe - doe / 1460 + doe / 36524 - doe / 146096 < 365 * (100 * c + 4 * q + r) + 365
  {
    var e := 24 * c + q + 365 * r + doy;
    var skip := if e >= 1460 then 1 else 0;
    Quotient1460(doe, 25 * c + q + skip);
    var last := if doe == 146096 then 1 else 0;
    Quotient36524(doe, c + last);
    assert doe / 146096 == last;
  }

  /** The numerator of `YearOfEra` on a day of year `yoe`. */
  lemma EraYearsCount(yoe: int, doy: int, doe: int)
    requires 0 <= yoe < 400 && 0 <= doy < YearLength(yoe) && doe == YearStart(yoe) + doy
    ensures 365 * yoe <= doe - doe / 1460 + doe / 36524 - doe / 146096 < 365 * yoe + 365
  {
    var c, q, r := yoe / 100, (yoe % 100) / 4, yoe % 4;
    YearStartSplit(yoe);
    EraLastDay(yoe, doy);
    assert yoe == 100 * c + 4 * q + r;
    CountFromParts(c, q, r, doy, doe);
  }

  /** `YearOfEra` recovers the year from any day inside it. */
  lemma YearOfEraStart(yoe: int, doy: int)
    requires 0 <= yoe < 400 && 0 <= doy < YearLength(yoe)
    ensures YearOfEra(YearStart(yoe) + doy) == yoe
  {
    var doe := YearStart(yoe) + doy;
    EraYearsCount(yoe, doy, doe);
    var years := doe - doe / 1460 + doe / 36524 - doe / 146096;
    Quotient365(years, yoe);
  }

  lemma YearStartStep(yoe: int)
    requires 0 <= yoe < 399
    ensures YearStart(yoe + 1) == YearStart(yoe) + YearLength(yoe)
  {
    var x := yoe + 1;
    assert x / 4 - yoe / 4 == (if x % 4 == 0 then 1 else 0);
    assert x / 100 - yoe / 100 == (if x % 100 == 0 then 1 else 0);
    assert x % 100 == 0 ==> x == 4 * (25 * (x / 100));
  }

  lemma {:induction false} LocateYear(doe: int, y: int)
    requires 0 <= y < 400 && 0 <= doe < YearStart(y) + YearLength(y)
    ensures exists yoe :: 0 <= yoe <= y && YearStart(yoe) <= doe < YearStart(yoe) + YearLength(yoe)
    decreases y
  {
    if doe < YearStart(y) {
      YearStartStep(y - 1);
      LocateYear(doe, y - 1);
    }
  }

  /** Every day of the era lies in the year `YearOfEra` names. */
  lemma YearOfEraBounds(doe: int)
    requires 0 <= doe < 146097
    ensures var yoe := YearOfEra(doe); 0 <= yoe < 400 && 0 <= doe - YearStart(yoe) < YearLength(yoe)
  {
    LocateYear(doe, 399);
    var yoe :| 0 <= yoe <= 399 && YearStart(yoe) <= doe < YearStart(yoe) + YearLength(yoe);
    YearOfEraStart(yoe, doe - YearStart(yoe));
  }

  lemma MonthOfYearBounds(doy: int)
    requires 0 <= doy < 366
    ensures var mp := MonthOfYear(doy); 0 <= mp < 12 && MonthStart(mp) <= doy < MonthStart(mp) + MarchMonthLength(mp)
  {
  }

  lemma MonthOfYearStart(mp: int, k: int)
    requires 0 <= mp < 12 && 0 <= k < MarchMonthLength(mp)
    ensures MonthOfYear(MonthStart(mp) + k) == mp
  {
  }

  /** The civil year in which year `yoe` of era `era` ends is a leap year
      exactly when that era year ends with a 29 February. */
  lemma EraLeapIsLeap(era: int, yoe: int)
    requires 0 <= yoe < 400
    ensures IsLeap(era * 400 + yoe + 1) <==> EraLeap(yoe)
  {
    var y, x := era * 400 + yoe + 1, yoe + 1;
    RemainderOf(y, 4, 100 * era + x / 4, x % 4);
    RemainderOf(y, 100, 4 * era + x / 100, x % 100);
    if x < 400 {
      RemainderOf(y, 400, era, x);
    } else {
      RemainderOf(y, 400, era + 1, 0);
    }
  }

  /** The remainder of `y` by `c` is the `r` of any split `y == c * q + r`
      with `0 <= r < c`. */
  lemma RemainderOf(y: int, c: int, q: int, r: int)
    requires 0 <= r < c && y == c * q + r
    ensures y % c == r
  {
    var t := q - y / c;
    assert c * t == y % c - r;
  }

  /** Month `mp` counted from March is as long as the civil month it names. */
  lemma MarchMonthIsMonth(y: int, mp: int)
    requires 0 <= mp < 12
    ensures var m := if mp < 10 then mp + 3 else mp - 9;
      mp != 11 ==> MarchMonthLength(mp) == DaysInMonth(y, m)
  {
  }

  /** From one March 1st to the next: 366 days when the February between
      them has a 29th. */
  lemma MarchFirstStep(y: int)
    ensures MarchFirst(y + 1) == MarchFirst(y) + (if IsLeap(y + 1) then 366 else 365)
  {
    var era, yoe := y / 400, y % 400;
    assert y == era * 400 + yoe;
    EraLeapIsLeap(era, yoe);
    if yoe < 399 {
      assert (y + 1) / 400 == era && (y + 1) % 400 == yoe + 1;
      YearStartStep(yoe);
    } else {
      assert (y + 1) / 400 == era + 1 && (y + 1) % 400 == 0;
      YearStartSplit(399);
    }
  }

  /** Day numbers through March-based years: the same arithmetic as
      `DaysFromCivil`, read as March 1st plus the days into the year. */
  lemma DaysFromCivilSplit(y: int, m: int, d: int, y': int)
    requires y' == if m <= 2 then y - 1 else y
    ensures DaysFromCivil(y, m, d) == MarchFirst(y') + MarchDay(m, d) - 719468
  {
    assert y' - (y' / 400) * 400 == y' % 400;
  }

  /** Every era fits its 400 years. */
  lemma YearStartRange(yoe: int)
    requires 0 <= yoe < 400
    ensures 0 <= YearStart(yoe) && YearStart(yoe) + YearLength(yoe) <= 146097
  {
    YearStartSplit(yoe);
  }

  /** The day of a March-based year names a valid date, from which
      `MarchDay` and the year counted from March give that day back. */
  lemma YearDateValid(y: int, doy: int)
    requires 0 <= doy < 366 && (doy == 365 ==> IsLeap(y + 1))
    ensures var c := YearDate(y, doy);
      ValidDate(c) && (if c.month <= 2 then c.year - 1 else c.year) == y && MarchDay(c.month, c.day) == doy
  {
    MonthOfYearBounds(doy);
    MarchMonthIsMonth(y + 1, MonthOfYear(doy));
  }

  /** A valid date is the `MarchDay` of its March-based year. */
  lemma YearDateOf(date: Date, y: int, doy: int)
    requires ValidDate(date)
    requires y == (if date.month <= 2 then date.year - 1 else date.year) && doy == MarchDay(date.month, date.day)
    ensures 0 <= doy < 366 && YearDate(y, doy) == date
    ensures doy == 365 ==> IsLeap(date.year)
  {
    var mp := if date.month > 2 then date.month - 3 else date.month + 9;
    MarchMonthIsMonth(date.year, mp);
    MonthOfYearStart(mp, date.day - 1);
  }

  /** Within an era, a day of year `yoe` is dated in that year. */
  lemma EraDateOf(era: int, yoe: int, doy: int, doe: int, y: int)
    requires 0 <= yoe < 400 && 0 <= doy < YearLength(yoe)
    requires doe == YearStart(yoe) + doy && y == era * 400 + yoe
    ensures EraDate(era, doe) == YearDate(y, doy)
  {
    YearOfEraStart(yoe, doy);
    EraDateUnfold(era, doe, yoe, y, doy);
  }

  /** A day number splits into its era and the day of that era. */
  lemma CivilOfEraDay(n: int, era: int, doe: int)
    requires 0 <= doe < 146097 && n == era * 146097 + doe - 719468
    ensures CivilFromDays(n) == EraDate(era, doe)
  {
    assert (n + 719468) / 146097 == era;
  }

  lemma CivilFromDaysEra(days: int, era: int, doe: int)
    requires era == (days + 719468) / 146097 && doe == days + 719468 - era * 146097
    ensures CivilFromDays(days) == EraDate(era, doe)
  {
  }

  lemma EraDateUnfold(era: int, doe: int, yoe: int, y: int, doy: int)
    requires yoe == YearOfEra(doe) && y == era * 400 + yoe && doy == doe - YearStart(yoe)
    ensures EraDate(era, doe) == YearDate(y, doy)
  {
  }

  /** A day of a March-based year converts back to the day number of
      that year's March 1st plus the day. */
  lemma DaysFromYearDate(y: int, doy: int)
    requires 0 <= doy < 366 && (doy == 365 ==> IsLeap(y + 1))
    ensures var c := YearDate(y, doy);
      ValidDate(c) && DaysFromCivil(c.year, c.month, c.day) == MarchFirst(y) + doy - 719468
  {
    YearDateValid(y, doy);
    var c := YearDate(y, doy);
    DaysFromCivilSplit(c.year, c.month, c.day, y);
  }

  lemma MarchFirstOfEra(y: int, era: int, yoe: int)
    requires 0 <= yoe < 400 && y == era * 400 + yoe
    ensures MarchFirst(y) == era * 146097 + YearStart(yoe)
  {
    assert y / 400 == era && y % 400 == yoe;
  }

  /** Every day number names a valid date that converts back to it. */
  lemma CivilRoundTrip(days: int)
    ensures var c := CivilFromDays(days);
      ValidDate(c) && DaysFromCivil(c.year, c.month, c.day) == days
  {
    var z := days + 719468;
    var era := z / 146097;
    var doe := z - era * 146097;
    var yoe := YearOfEra(doe);
    var doy := doe - YearStart(yoe);
    var y := era * 400 + yoe;
    CivilFromDaysEra(days, era, doe);
    EraDateUnfold(era, doe, yoe, y, doy);
    assert 0 <= yoe < 400 && 0 <= doy < YearLength(yoe) by { YearOfEraBounds(doe); }
    assert doy == 365 ==> IsLeap(y + 1) by { EraLeapIsLeap(era, yoe); }
    DaysFromYearDate(y, doy);
    MarchFirstOfEra(y, era, yoe);
  }

  /** Day `doy` of year `yoe` of era `era`, as a day number, is dated on
      that day of that year. */
  lemma CivilAt(n: int, era: int, yoe: int, doy: int, y: int)
    requires 0 <= yoe < 400 && 0 <= doy < YearLength(yoe) && y == era * 400 + yoe
    requires n == era * 146097 + YearStart(yoe) + doy - 719468
    ensures CivilFromDays(n) == YearDate(y, doy)
  {
    var doe := YearStart(yoe) + doy;
    YearStartRange(yoe);
    CivilOfEraDay(n, era, doe);
    EraDateOf(era, yoe, doy, doe, y);
  }

  /** Every valid date converts to a day number that converts back to it. */
  lemma CivilOfDays(date: Date)
    requires ValidDate(date)
    ensures CivilFromDays(DaysFromCivil(date.year, date.month, date.day)) == date
  {
    var y := if date.month <= 2 then date.year - 1 else date.year;
    var era := y / 400;
    var yoe := y - era * 400;
    var doy := MarchDay(date.month, date.day);
    var n := DaysFromCivil(date.year, date.month, date.day);
    assert n == era * 146097 + YearStart(yoe) + doy - 719468;
    assert 0 <= yoe < 400 && y == era * 400 + yoe;
    YearDateOf(date, y, doy);
    EraLeapIsLeap(era, yoe);
    CivilAt(n, era, yoe, doy, y);
  }

  /** The same day of the next month lies that month's length later
      (a day the next month lacks counting on into the month after). */
  lemma NextMonthDays(y: int, m: int, d: int)
    requires 1 <= m <= 12
    ensures m < 12 ==> DaysFromCivil(y, m + 1, d) == DaysFromCivil(y, m, d) + DaysInMonth(y, m)
    ensures m == 12 ==> DaysFromCivil(y + 1, 1, d) == DaysFromCivil(y, m, d) + DaysInMonth(y, m)
  {
    var y2, m2 := if m == 12 then y + 1 else y, if m == 12 then 1 else m + 1;
    var from := if m <= 2 then y - 1 else y;
    var to := if m2 <= 2 then y2 - 1 else y2;
    DaysFromCivilSplit(y, m, d, from);
    DaysFromCivilSplit(y2, m2, d, to);
    if m == 2 {
      MarchFirstStep(from);
      assert to == from + 1;
      assert MarchDay(3, d) == d - 1 && MarchDay(2, d) == 337 + d - 1;
    } else {
      MarchDayNext(y, m, d);
    }
  }

  /** Within a March-based year, the next month starts a month later. */
  lemma MarchDayNext(y: int, m: int, d: int)
    requires 1 <= m <= 12 && m != 2
    ensures MarchDay(if m == 12 then 1 else m + 1, d) == MarchDay(m, d) + DaysInMonth(y, m)
  {
  }

  /** The same month and day of the next year lies 366 days later when a
      29 February falls between them, 365 otherwise. */
  lemma NextYearDays(y: int, m: int, d: int)
    requires 1 <= m <= 12
    ensures DaysFromCivil(y + 1, m, d) - DaysFromCivil(y, m, d) ==
      if (m <= 2 && IsLeap(y)) || (m > 2 && IsLeap(y + 1)) then 366 else 365
  {
    var from := if m <= 2 then y - 1 else y;
    var to := from + 1;
    DaysFromCivilSplit(y, m, d, from);
    DaysFromCivilSplit(y + 1, m, d, to);
    MarchFirstStep(from);
  }

  /** Day numbers within a month run on with the day. */
  lemma DaysFromCivilDay(y: int, m: int, d: int)
    ensures DaysFromCivil(y, m, d) == DaysFromCivil(y, m, 1) + d - 1
  {
  }

  /** A leap year follows a common one. */
  lemma LeapYearsApart(y: int)
    requires IsLeap(y)
    ensures !IsLeap(y - 1)
  {
    assert y == 4 * (y / 4);
    assert y - 1 == 4 * (y / 4 - 1) + 3;
  }

  /** `%Y-%m` as the number year * 100 + month, which orders like the label. */
  function MonthLabel(ts: int): (r: int)
    ensures var date := CivilFromDays(DayOf(ts));
      1 <= r % 100 <= 12 && r / 100 == date.year && r % 100 == date.month
  {
    var date := CivilFromDays(DayOf(ts));
    CivilRoundTrip(DayOf(ts));
    LabelParts(date.year, date.month);
    date.year * 100 + date.month
  }

  /** `%Y-%U` as the number year * 100 + week, where week `%U` counts Sundays:
      days before the year's first Sunday are in week 0. */
  function WeekLabel(ts: int): (r: int)
    ensures var date := CivilFromDays(DayOf(ts));
      r / 100 == date.year && 0 <= r % 100 <= 53
  {
    var date := CivilFromDays(DayOf(ts));
    var w := SundayWeek(DayOf(ts) - DaysFromCivil(date.year, 1, 1), DayOfWeek(ts) - 1);
    DayOfYearBounds(DayOf(ts));
    LabelParts(date.year, w);
    date.year * 100 + w
  }

  /** The `%U` week of day `yday` of a year (0 on January 1st) falling on
      weekday `wday` (0 for Sunday). */
  function SundayWeek(yday: int, wday: int): int
  {
    (yday + 7 - wday) / 7
  }

  /** January 1st is in week 1 when it is a Sunday and in week 0 otherwise. */
  lemma WeekLabelNewYear(ts: int)
    requires DayOf(ts) == DaysFromCivil(CivilFromDays(DayOf(ts)).year, 1, 1)
    ensures WeekLabel(ts) % 100 == if DayOfWeek(ts) == 1 then 1 else 0
  {
    var y := CivilFromDays(DayOf(ts)).year;
    var w := SundayWeek(DayOf(ts) - DaysFromCivil(y, 1, 1), DayOfWeek(ts) - 1);
    assert w == if DayOfWeek(ts) == 1 then 1 else 0;
    LabelParts(y, w);
  }

  /** Within a year, the `%U` week goes up by one exactly on each Sunday. */
  lemma WeekLabelStep(ts: int)
    requires CivilFromDays(DayOf(ts + MsPerDay)).year == CivilFromDays(DayOf(ts)).year
    ensures WeekLabel(ts + MsPerDay) == WeekLabel(ts) + (if DayOfWeek(ts + MsPerDay) == 1 then 1 else 0)
  {
    var y := CivilFromDays(DayOf(ts)).year;
    var w := SundayWeek(DayOf(ts) - DaysFromCivil(y, 1, 1), DayOfWeek(ts) - 1);
    var w' := SundayWeek(DayOf(ts + MsPerDay) - DaysFromCivil(y, 1, 1), DayOfWeek(ts + MsPerDay) - 1);
    WeekLabelIs(ts, y, w);
    WeekLabelIs(ts + MsPerDay, y, w');
    NextDayWeek(ts, DaysFromCivil(y, 1, 1), w, w');
  }

  /** The next day's `%U` week, counted in a year starting on day `start`. */
  lemma NextDayWeek(ts: int, start: int, w: int, w': int)
    requires w == SundayWeek(DayOf(ts) - start, DayOfWeek(ts) - 1)
    requires w' == SundayWeek(DayOf(ts + MsPerDay) - start, DayOfWeek(ts + MsPerDay) - 1)
    ensures w' == w + (if DayOfWeek(ts + MsPerDay) == 1 then 1 else 0)
  {
    var t := ts + MsPerDay;
    DaysForward(ts, 1);
    DayOfWeekSteps(ts);
    SundayWeekStep(DayOf(ts) - start, DayOfWeek(ts) - 1, DayOf(t) - start, DayOfWeek(t) - 1);
  }

  lemma WeekLabelIs(ts: int, y: int, w: int)
    requires y == CivilFromDays(DayOf(ts)).year
    requires w == SundayWeek(DayOf(ts) - DaysFromCivil(y, 1, 1), DayOfWeek(ts) - 1)
    ensures WeekLabel(ts) == y * 100 + w
  {
  }

  lemma SundayWeekStep(yday: int, wday: int, yday': int, wday': int)
    requires 0 <= wday < 7 && yday' == yday + 1 && wday' == (wday + 1) % 7
    ensures SundayWeek(yday', wday') == SundayWeek(yday, wday) + (if wday' == 0 then 1 else 0)
  {
    if wday < 6 {
      assert yday' + 7 - wday' == yday + 7 - wday;
    } else {
      assert yday' + 7 - wday' == (yday + 7 - wday) + 7;
    }
  }

  lemma LabelParts(a: int, b: int)
    requires 0 <= b < 100
    ensures (a * 100 + b) / 100 == a && (a * 100 + b) % 100 == b
  {
  }

  /** Days from January 1st to the first of month `m` of year `y`. */
  function DaysBeforeMonth(y: int, m: int): int
    requires 1 <= m <= 12
  {
    if m == 1 then 0 else DaysBeforeMonth(y, m - 1) + DaysInMonth(y, m - 1)
  }

  lemma {:induction false} MonthStartsFromJanuary(y: int, m: int, d: int)
    requires 1 <= m <= 12
    ensures DaysFromCivil(y, m, d) == DaysFromCivil(y, 1, d) + DaysBeforeMonth(y, m)
  {
    if m > 1 {
      var k := m - 1;
      MonthStartsFromJanuary(y, k, d);
      NextMonthDays(y, k, d);
      assert k + 1 == m;
    }
  }

  /** The running totals of the month lengths, January to December. */
  lemma {:induction false} DaysBeforeMonthTable(y: int, m: int)
    requires 1 <= m <= 12
    ensures DaysBeforeMonth(y, m) ==
      [0, 31, 59, 90, 120, 151, 181, 212, 243, 273, 304, 334][m - 1] + (if m > 2 && IsLeap(y) then 1 else 0)
  {
    if m > 1 {
      DaysBeforeMonthTable(y, m - 1);
    }
  }

  /** The day of the year of every day number: 0 on January 1st, through
      364 or 365 on December 31st. */
  lemma DayOfYearBounds(days: int)
    ensures var c := CivilFromDays(days);
      0 <= days - DaysFromCivil(c.year, 1, 1) < (if IsLeap(c.year) then 366 else 365)
  {
    var c := CivilFromDays(days);
    CivilRoundTrip(days);
    MonthStartsFromJanuary(c.year, c.month, c.day);
    DaysFromCivilDay(c.year, 1, c.day);
    DayInYear(c);
  }

  /** The days before a valid date's month and its day within the month
      fall inside the year. */
  lemma DayInYear(date: Date)
    requires ValidDate(date)
    ensures 0 <= DaysBeforeMonth(date.year, date.month) + date.day - 1 < (if IsLeap(date.year) then 366 else 365)
  {
    DaysBeforeMonthTable(date.year, date.month);
  }
}
