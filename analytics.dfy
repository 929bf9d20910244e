/** The analytics service: the date range a timeframe names, a user's
    overall statistics over it, and the language, project and file
    breakdowns that spread one hour over the groups in proportion to their
    record counts. */
module Analytics {
  import opened Wrappers
  import opened Numbers
  import opened Strings
  import opened Seqs
  import opened Calendar
  import opened Event
  import opened Store
  import opened Pipelines

  // ------------------------------------------------------------ date range

  /** The month before the one `date` falls in, as (year, month). */
  function PreviousMonth(date: Date): (int, int)
  {
    if date.month == 1 then (date.year - 1, 12) else (date.year, date.month - 1)
  }

  /** How far `setMonth(getMonth() - 1)` moves back, in days: the same day
      and time of the previous month, a day the month lacks rolling over
      into the next one, which is always the previous month's length. */
  function MonthBackDays(now: int): (n: int)
    ensures 28 <= n <= 31
  {
    var (y, m) := PreviousMonth(CivilFromDays(DayOf(now)));
    DaysInMonth(y, m)
  }

  /** How far `setFullYear(getFullYear() - 1)` moves back, in days: 366
      when the twelve months before `now` hold a 29 February. */
  function YearBackDays(now: int): (n: int)
    ensures 365 <= n <= 366
  {
    var date := CivilFromDays(DayOf(now));
    if (date.month <= 2 && IsLeap(date.year - 1)) || (date.month > 2 && IsLeap(date.year)) then 366 else 365
  }

  /** `setMonth(getMonth() - 1)` keeps the day of the month and the time
      of day: the result is that day of the previous month, and a day that
      month lacks (31 March back to "31 February") overflows into the
      current month. */
  lemma MonthBackDate(now: int)
    ensures var date := CivilFromDays(DayOf(now));
      var y, m := PreviousMonth(date).0, PreviousMonth(date).1;
      var k := MonthBackDays(now);
      k == DaysInMonth(y, m) &&
      DayOf(now) - k == DaysFromCivil(y, m, date.day) &&
      CivilFromDays(DayOf(now) - k) ==
        if date.day <= k then Date(y, m, date.day) else Date(date.year, date.month, date.day - k)
  {
    var date := CivilFromDays(DayOf(now));
    var y, m := PreviousMonth(date).0, PreviousMonth(date).1;
    CivilRoundTrip(DayOf(now));
    MonthBackOf(date, y, m, MonthBackDays(now), DayOf(now));
  }

  /** The arithmetic of `MonthBackDate` on a valid date numbered `n`. */
  lemma MonthBackOf(date: Date, y: int, m: int, k: int, n: int)
    requires ValidDate(date)
    requires (y, m) == PreviousMonth(date) && k == DaysInMonth(y, m)
    requires n == DaysFromCivil(date.year, date.month, date.day)
    ensures n - k == DaysFromCivil(y, m, date.day)
    ensures CivilFromDays(n - k) == if date.day <= k then Date(y, m, date.day) else Date(date.year, date.month, date.day - k)
  {
    MonthBackShift(date, y, m, k, n);
    if date.day <= k {
      CivilOfDays(Date(y, m, date.day));
    } else {
      DayOverflow(date, k, n);
    }
  }

  /** `k` days back from a day past the `k`th of the month lands `k` days
      earlier in the same month. */
  lemma DayOverflow(date: Date, k: int, n: int)
    requires ValidDate(date) && 28 <= k < date.day
    requires n == DaysFromCivil(date.year, date.month, date.day)
    ensures CivilFromDays(n - k) == Date(date.year, date.month, date.day - k)
  {
    var earlier := Date(date.year, date.month, date.day - k);
    assert ValidDate(earlier);
    DaysFromCivilDay(date.year, date.month, date.day);
    DaysFromCivilDay(date.year, date.month, date.day - k);
    assert n - k == DaysFromCivil(earlier.year, earlier.month, earlier.day);
    CivilOfDays(earlier);
  }

  /** `setFullYear(getFullYear() - 1)` keeps the month, the day and the time
      of day: the same date a year earlier, 29 February becoming 1 March. */
  lemma YearBackDate(now: int)
    ensures var date := CivilFromDays(DayOf(now));
      DayOf(now) - YearBackDays(now) == DaysFromCivil(date.year - 1, date.month, date.day)
    ensures var date := CivilFromDays(DayOf(now));
      CivilFromDays(DayOf(now) - YearBackDays(now)) ==
        if date.month == 2 && date.day == 29 then Date(date.year - 1, 3, 1) else Date(date.year - 1, date.month, date.day)
  {
    var date := CivilFromDays(DayOf(now));
    CivilRoundTrip(DayOf(now));
    YearBackOf(date, YearBackDays(now), DayOf(now));
  }

  /** A month back is the previous month's length in days. */
  lemma MonthBackShift(date: Date, y: int, m: int, k: int, n: int)
    requires 1 <= date.month <= 12
    requires (y, m) == PreviousMonth(date) && k == DaysInMonth(y, m)
    requires n == DaysFromCivil(date.year, date.month, date.day)
    ensures n - k == DaysFromCivil(y, m, date.day)
  {
    NextMonthDays(y, m, date.day);
    if m == 12 {
      assert y + 1 == date.year && date.month == 1;
    } else {
      assert m + 1 == date.month && y == date.year;
    }
  }

  /** The arithmetic of `YearBackDate` on a valid date numbered `n`. */
  lemma YearBackOf(date: Date, k: int, n: int)
    requires ValidDate(date)
    requires k == if (date.month <= 2 && IsLeap(date.year - 1)) || (date.month > 2 && IsLeap(date.year)) then 366 else 365
    requires n == DaysFromCivil(date.year, date.month, date.day)
    ensures n - k == DaysFromCivil(date.year - 1, date.month, date.day)
    ensures CivilFromDays(n - k) ==
      if date.month == 2 && date.day == 29 then Date(date.year - 1, 3, 1) else Date(date.year - 1, date.month, date.day)
  {
    YearBackShift(date, k, n);
    if date.month == 2 && date.day == 29 {
      LeapDayYearBack(date.year);
    } else {
      CivilOfDays(Date(date.year - 1, date.month, date.day));
    }
  }

  /** A year before a 29 February falls on 1 March. */
  lemma LeapDayYearBack(y: int)
    requires IsLeap(y)
    ensures CivilFromDays(DaysFromCivil(y - 1, 2, 29)) == Date(y - 1, 3, 1)
  {
    LeapYearsApart(y);
    FebruaryOverflow(y - 1);
    CivilOfDays(Date(y - 1, 3, 1));
  }

  /** A year back is 366 days when the 29 February in between exists. */
  lemma YearBackShift(date: Date, k: int, n: int)
    requires 1 <= date.month <= 12
    requires k == if (date.month <= 2 && IsLeap(date.year - 1)) || (date.month > 2 && IsLeap(date.year)) then 366 else 365
    requires n == DaysFromCivil(date.year, date.month, date.day)
    ensures n - k == DaysFromCivil(date.year - 1, date.month, date.day)
  {
    var y := date.year - 1;
    NextYearDays(y, date.month, date.day);
    assert y + 1 == date.year;
  }

  /** In a common year, 29 February is numbered as 1 March. */
  lemma FebruaryOverflow(y: int)
    requires !IsLeap(y)
    ensures DaysFromCivil(y, 2, 29) == DaysFromCivil(y, 3, 1)
  {
    NextMonthDays(y, 2, 1);
    DaysFromCivilDay(y, 2, 29);
  }

  /** The start of the range a timeframe names, ending at `now`. */
  function RangeStart(timeframe: string, now: int): int
  {
    if timeframe == "week" then now - 7 * MsPerDay
    else if timeframe == "month" then now - MonthBackDays(now) * MsPerDay
    else if timeframe == "year" then now - YearBackDays(now) * MsPerDay
    else if timeframe == "custom" then now - 30 * MsPerDay
    else Midnight(now)
  }

  /** Every range ends at `now`, starts at most one (leap) year earlier, and
      a "day" or unknown timeframe starts at the midnight of `now`'s day. */
  lemma RangeStartBounds(timeframe: string, now: int)
    ensures now - 366 * MsPerDay <= RangeStart(timeframe, now) <= now
    ensures timeframe !in {"week", "month", "year", "custom"} ==>
      DayOf(RangeStart(timeframe, now)) == DayOf(now) && RangeStart(timeframe, now) % MsPerDay == 0
    ensures timeframe in {"week", "month", "year", "custom"} ==> RangeStart(timeframe, now) % MsPerDay == now % MsPerDay
  {
    var start := RangeStart(timeframe, now);
    if timeframe == "week" {
      SameTimeOfDay(now, 7);
    } else if timeframe == "month" {
      SameTimeOfDay(now, MonthBackDays(now));
    } else if timeframe == "year" {
      SameTimeOfDay(now, YearBackDays(now));
    } else if timeframe == "custom" {
      SameTimeOfDay(now, 30);
    } else {
      assert start == DayOf(now) * MsPerDay;
    }
  }

  /** Whole days back move the day number back by as many. */
  lemma DayOfDaysBack(now: int, days: int)
    ensures DayOf(now - days * MsPerDay) == DayOf(now) - days
  {
    DaysForward(now, -days);
    assert now + -days * MsPerDay == now - days * MsPerDay;
  }

  /** Whole days back keep the time of day. */
  lemma SameTimeOfDay(now: int, days: int)
    ensures (now - days * MsPerDay) % MsPerDay == now % MsPerDay
  {
    var q := now / MsPerDay;
    assert now == q * MsPerDay + now % MsPerDay;
    assert now - days * MsPerDay == (q - days) * MsPerDay + now % MsPerDay;
  }

  /** getDateRange: the end is `now`, the start `now` moved back by the
      timeframe with the calendar setters. */
  method GetDateRange(timeframe: string, now: int) returns (startDate: int, endDate: int)
    ensures endDate == now
    ensures startDate == RangeStart(timeframe, now)
    ensures timeframe in {"week", "month", "year", "custom"} ==> startDate % MsPerDay == now % MsPerDay
    ensures timeframe == "week" ==> DayOf(startDate) == DayOf(now) - 7
    ensures timeframe == "custom" ==> DayOf(startDate) == DayOf(now) - 30
    ensures var date := CivilFromDays(DayOf(now));
      timeframe == "month" ==> DayOf(startDate) == DaysFromCivil(PreviousMonth(date).0, PreviousMonth(date).1, date.day)
    ensures var date := CivilFromDays(DayOf(now));
      timeframe == "year" ==> DayOf(startDate) == DaysFromCivil(date.year - 1, date.month, date.day)
    ensures timeframe !in {"week", "month", "year", "custom"} ==> DayOf(startDate) == DayOf(now) && startDate % MsPerDay == 0
  {
    endDate := now;
    startDate := now;
    if timeframe == "day" {
      startDate := Midnight(startDate);
    } else if timeframe == "week" {
      startDate := startDate - 7 * MsPerDay;
      DayOfDaysBack(now, 7);
    } else if timeframe == "month" {
      startDate := startDate - MonthBackDays(startDate) * MsPerDay;
      DayOfDaysBack(now, MonthBackDays(now));
      MonthBackDate(now);
    } else if timeframe == "year" {
      startDate := startDate - YearBackDays(startDate) * MsPerDay;
      DayOfDaysBack(now, YearBackDays(now));
      YearBackDate(now);
    } else if timeframe == "custom" {
      startDate := startDate - 30 * MsPerDay;
      DayOfDaysBack(now, 30);
    } else {
      startDate := Midnight(startDate);
    }
    RangeStartBounds(timeframe, now);
  }

  /** The user's records with a timestamp in `start..end`, both ends included. */
  function Period(log: seq<Activity>, username: string, start: int, end: int): (w: seq<Activity>)
    ensures forall a :: a in w <==> a in log && a.username == username && start <= a.timestamp <= end
  {
    Select(log, Selector(username, Some(start), Some(end), None))
  }

  // ------------------------------------------------------------ statistics

  datatype Stats = Stats(totalTime: string, linesWritten: string, filesModified: string, languagesUsed: string)

  datatype Statistics = Statistics(
    totalActivities: nat,
    editActivities: nat,
    totalChangeSize: nat,
    uniqueFiles: nat,
    uniqueLanguages: nat,
    activeTime: string,
    timeframe: string,
    startDate: int,
    endDate: int,
    stats: Stats)

  function IsEdit(a: Activity): bool
  {
    a.kind == Edit
  }

  function HasChange(a: Activity): bool
  {
    a.changeSize.Some?
  }

  /** One hour per sixty records, rounded, and at least one hour once there
      is any record. */
  function ActiveHours(n: nat): (h: nat)
    ensures n == 0 <==> h == 0
    ensures n > 0 ==> 2 * n - 60 < 120 * h && (h == 1 || 120 * h <= 2 * n + 60)
  {
    if n > 0 then Max(1, RoundDiv(n, 60)) else 0
  }

  /** The `${hours}h ${minutes}m` label. */
  function HoursLabel(hours: nat, minutes: nat): string
  {
    NatToString(hours) + "h " + NatToString(minutes) + "m"
  }

  lemma {:induction false} FilterConj<T(!new)>(s: seq<T>, p: T -> bool, q: T -> bool, pq: T -> bool)
    requires forall x :: pq(x) == (p(x) && q(x))
    ensures Filter(s, pq) == Filter(Filter(s, p), q)
  {
    if s != [] {
      var init := s[..|s| - 1];
      FilterConj(init, p, q, pq);
      var x := s[|s| - 1];
      if p(x) {
        var kept := Filter(init, p) + [x];
        assert kept[..|kept| - 1] == Filter(init, p);
      }
    }
  }

  lemma EditName(k: Kind)
    ensures KindName(k) == "edit" <==> k == Edit
  {
    KindNameRoundTrip(k);
  }

  /** The edit records of a period are the period's records of type "edit". */
  lemma EditPeriod(log: seq<Activity>, username: string, start: int, end: int)
    ensures Select(log, Selector(username, Some(start), Some(end), Some("edit"))) ==
      Filter(Period(log, username, start, end), IsEdit)
  {
    var all := Selector(username, Some(start), Some(end), None);
    var edits := Selector(username, Some(start), Some(end), Some("edit"));
    forall a ensures Selects(edits, a) == (Selects(all, a) && IsEdit(a)) {
      EditName(a.kind);
    }
    FilterConj(log, a => Selects(all, a), IsEdit, a => Selects(edits, a));
  }

  /** The change-size `$match` and `$sum`, with 0 for an empty result, is
      the period's change total with a missing size counting 0. */
  lemma ChangeSizeTotal(w: seq<Activity>)
    ensures Sum(Filter(w, HasChange), ChangeOf) == ChangeTotal(w)
  {
    SumFilterZero(w, HasChange, ChangeOf);
  }

  /** getStatistics over the records `log`, for the registered usernames
      `users`, at instant `now`. */
  method GetStatistics(log: seq<Activity>, users: set<string>, username: string, timeframe: Option<string>, now: int)
    returns (r: Result<Statistics, string>)
    ensures username !in users <==> r == Err("User not found")
    ensures username in users <==> r.Ok?
    ensures r.Ok? ==>
      var s := r.value;
      var w := Period(log, username, s.startDate, s.endDate);
      s.timeframe == timeframe.GetOr("day") &&
      s.startDate == RangeStart(s.timeframe, now) && s.endDate == now &&
      s.totalActivities == |w| &&
      s.editActivities == |Filter(w, IsEdit)| <= s.totalActivities &&
      s.totalChangeSize == ChangeTotal(w) &&
      s.uniqueFiles == |Image(w, FileNameOf)| <= s.totalActivities &&
      s.uniqueLanguages == |Image(Filter(w, HasLanguage), LanguageName)| <= s.totalActivities &&
      s.activeTime == HoursLabel(ActiveHours(s.totalActivities), 0) &&
      s.stats == Stats(s.activeTime, NatToString(s.totalChangeSize), NatToString(s.uniqueFiles), NatToString(s.uniqueLanguages))
  {
    var frame := timeframe.GetOr("day");
    var startDate, endDate := GetDateRange(frame, now);
    if username !in users {
      return Err("User not found");
    }
    var totalActivities := |Select(log, Selector(username, Some(startDate), Some(endDate), None))|;
    var editActivities := |Select(log, Selector(username, Some(startDate), Some(endDate), Some("edit")))|;
    var w := Period(log, username, startDate, endDate);
    var changed := Filter(w, HasChange);
    var totalChangeSize := if |changed| > 0 then Sum(changed, ChangeOf) else 0;
    var uniqueFiles := |Image(w, FileNameOf)|;
    var uniqueLanguages := |Image(Filter(w, HasLanguage), LanguageName)|;
    var hoursActive := ActiveHours(totalActivities);
    var hours := hoursActive;
    var minutes := (hoursActive - hours) * 60;
    var activeTime := HoursLabel(hours, minutes);

    EditPeriod(log, username, startDate, endDate);
    FilterWeaker(w, IsEdit, _ => true);
    assert Filter(w, _ => true) == w by {
      FilterAll(w);
    }
    ChangeSizeTotal(w);
    DistinctCountsBounded(w);
    r := Ok(Statistics(totalActivities, editActivities, totalChangeSize, uniqueFiles, uniqueLanguages,
      activeTime, frame, startDate, endDate,
      Stats(activeTime, NatToString(totalChangeSize), NatToString(uniqueFiles), NatToString(uniqueLanguages))));
  }

  lemma {:induction false} FilterAll<T(!new)>(s: seq<T>)
    ensures Filter(s, _ => true) == s
  {
    if s != [] {
      FilterAll(s[..|s| - 1]);
      assert s == s[..|s| - 1] + [s[|s| - 1]];
    }
  }

  // ------------------------------------------------- language and project

  /** One `$group` of the language or project pipeline. */
  datatype Group = Group(name: string, count: nat, changeSize: nat, files: nat)

  /** One entry of the returned breakdown: the group's share of an hour in
      minutes and in percent. */
  datatype Share = Share(name: string, timeSpent: int, percentage: int, files: nat)

  function GroupOf(tagged: seq<Activity>, nameOf: Activity -> string, n: string): Group
  {
    var g := Having(tagged, nameOf, n);
    Group(n, |g|, ChangeTotal(g), FileCount(g))
  }

  function GroupName(g: Group): string
  {
    g.name
  }

  function GroupCount(g: Group): int
  {
    g.count
  }

  /** `$match` on the field's presence, `$group` by it, `$sort` by count. */
  function Groups(window: seq<Activity>, has: Activity -> bool, nameOf: Activity -> string): seq<Group>
  {
    var tagged := Filter(window, has);
    SortBy(MapSeq(Keys(tagged, nameOf), n => GroupOf(tagged, nameOf, n)), GroupCount)
  }

  /** `Math.round(count / total * 60)` and `Math.round(count / total * 100)`. */
  function ShareOf(g: Group, total: int): Share
    requires total > 0
  {
    Share(g.name, RoundDiv(60 * g.count, total), RoundDiv(100 * g.count, total), g.files)
  }

  /** The `map` over the groups with their `reduce`d total. With no groups
      there is nothing to map. */
  function Shares(groups: seq<Group>): seq<Share>
  {
    var total := Sum(groups, GroupCount);
    if total <= 0 then [] else MapSeq(groups, g => ShareOf(g, total))
  }

  /** getProjectBreakdown's result for the records of its period. */
  function ProjectBreakdown(window: seq<Activity>): seq<Share>
  {
    Shares(Groups(window, HasProject, ProjectName))
  }

  /** getLanguageBreakdown's result for the records of its period, with the
      `count` each group needs kept. */
  function LanguageBreakdown(window: seq<Activity>): seq<Share>
  {
    Shares(Groups(window, HasLanguage, LanguageName))
  }

  /** One group per name among the tagged records, most records first; each
      counts its records, and the counts add up to the tagged records. */
  lemma GroupsFacts(window: seq<Activity>, has: Activity -> bool, nameOf: Activity -> string)
    ensures var r := Groups(window, has, nameOf);
      var tagged := Filter(window, has);
      SortedBy(r, GroupCount) && DistinctBy(r, GroupName) &&
      Image(r, GroupName) == Image(tagged, nameOf) &&
      (forall g :: g in r ==> g == GroupOf(tagged, nameOf, g.name) && g.count > 0) &&
      Sum(r, GroupCount) == |tagged|
  {
    var tagged := Filter(window, has);
    var f := n => GroupOf(tagged, nameOf, n);
    var m := MapSeq(Keys(tagged, nameOf), f);
    GroupTable(tagged, nameOf, f, GroupName, GroupCount);
    SumPermutation(SortBy(m, GroupCount), m, GroupCount);
    SumOverKeys(Keys(tagged, nameOf), tagged, nameOf, f, GroupCount);
    KeysPartition(tagged, nameOf);
  }

  /** Rounded shares of a positive total add up to `scale` within half a
      unit per entry: the sum of `b` lies between
      `scale * S - n * t / 2` and `scale * S + n * t / 2` (over `t`). */
  lemma {:induction false} RoundedSum<E, F>(a: seq<E>, b: seq<F>, count: E -> int, share: F -> int, t: int, scale: nat)
    requires t > 0 && |a| == |b|
    requires forall i :: 0 <= i < |a| ==> share(b[i]) == RoundDiv(scale * count(a[i]), t)
    ensures 2 * scale * Sum(a, count) - |a| * t < 2 * t * Sum(b, share) || a == []
    ensures 2 * t * Sum(b, share) <= 2 * scale * Sum(a, count) + |a| * t
  {
    if a != [] {
      var n := |a| - 1;
      RoundedSum(a[..n], b[..n], count, share, t, scale);
      RoundedStep(Sum(a[..n], count), Sum(b[..n], share), count(a[n]), share(b[n]), t, scale, n);
    }
  }

  /** One more rounded share widens the bounds by half a unit. */
  lemma RoundedStep(s: int, p: int, c: int, x: int, t: int, scale: nat, n: nat)
    requires t > 0 && x == RoundDiv(scale * c, t)
    requires 2 * scale * s - n * t < 2 * t * p || n == 0
    requires 2 * t * p <= 2 * scale * s + n * t
    requires n == 0 ==> s == 0 && p == 0
    ensures 2 * scale * (s + c) - (n + 1) * t < 2 * t * (p + x)
    ensures 2 * t * (p + x) <= 2 * scale * (s + c) + (n + 1) * t
  {
    Distribute(2 * scale, s, c);
    Distribute(2 * t, p, x);
    Distribute(t, n, 1);
    assert 2 * scale * c - t < 2 * t * x <= 2 * scale * c + t;
  }

  lemma Distribute(k: int, a: int, b: int)
    ensures k * (a + b) == k * a + k * b
    ensures (a + b) * k == a * k + b * k
  {
  }

  /** From `2 * t * x` within `2 * t * scale ± n * t`: `2 * x` within `2 * scale ± n`. */
  lemma DivideBounds(x: int, t: int, scale: nat, n: nat)
    requires t > 0
    requires 2 * scale * t - n * t < 2 * t * x <= 2 * scale * t + n * t
    ensures 2 * scale - n < 2 * x <= 2 * scale + n
  {
    if 2 * x <= 2 * scale - n {
      MulLeft(t, 2 * x, 2 * scale - n);
    }
    if 2 * x > 2 * scale + n {
      MulLeft(t, 2 * scale + n + 1, 2 * x);
    }
  }

  function SharePercentage(s: Share): int
  {
    s.percentage
  }

  function ShareMinutes(s: Share): int
  {
    s.timeSpent
  }

  /** What a breakdown promises: an entry per group in the groups' order,
      each share of the hour within 0..60 minutes and 0..100 percent, the
      percentages adding up to 100 within half a point per entry and the
      minutes to 60 within half a minute per entry. Without groups the
      breakdown is empty. */
  lemma SharesFacts(groups: seq<Group>)
    requires forall g :: g in groups ==> g.count > 0
    ensures var r := Shares(groups);
      var n := |r|;
      |r| == |groups| &&
      (forall i :: 0 <= i < n ==>
        r[i].name == groups[i].name && r[i].files == groups[i].files &&
        0 <= r[i].timeSpent <= 60 && 0 <= r[i].percentage <= 100) &&
      (n > 0 ==> 200 - n < 2 * Sum(r, SharePercentage) <= 200 + n && 120 - n < 2 * Sum(r, ShareMinutes) <= 120 + n)
  {
    var total := Sum(groups, GroupCount);
    SumNonNegative(groups, GroupCount);
    if groups != [] {
      SumBoundsTerm(groups, GroupCount, 0);
      assert groups[0] in groups;
      assert total > 0;
      var r := Shares(groups);
      forall i | 0 <= i < |r| ensures 0 <= r[i].timeSpent <= 60 && 0 <= r[i].percentage <= 100 {
        SumBoundsTerm(groups, GroupCount, i);
        RoundDivShareBounds(groups[i].count, total, 60);
        RoundDivShareBounds(groups[i].count, total, 100);
      }
      RoundedSum(groups, r, GroupCount, SharePercentage, total, 100);
      RoundedSum(groups, r, GroupCount, ShareMinutes, total, 60);
      DivideBounds(Sum(r, SharePercentage), total, 100, |r|);
      DivideBounds(Sum(r, ShareMinutes), total, 60, |r|);
    }
  }

  /** The project breakdown: one entry per project folder among the period's
      records, most used first, shares as `SharesFacts` states, and the
      breakdown is empty exactly when no record has a project folder. */
  lemma ProjectBreakdownFacts(window: seq<Activity>)
    ensures var groups := Groups(window, HasProject, ProjectName);
      var r := ProjectBreakdown(window);
      (r == [] <==> Filter(window, HasProject) == []) &&
      |r| == |groups| &&
      forall i :: 0 <= i < |r| ==> r[i].name == groups[i].name && 0 <= r[i].percentage <= 100
  {
    BreakdownFacts(window, HasProject, ProjectName);
  }

  /** The same, for languages. */
  lemma LanguageBreakdownFacts(window: seq<Activity>)
    ensures var groups := Groups(window, HasLanguage, LanguageName);
      var r := LanguageBreakdown(window);
      (r == [] <==> Filter(window, HasLanguage) == []) &&
      |r| == |groups| &&
      forall i :: 0 <= i < |r| ==> r[i].name == groups[i].name && 0 <= r[i].percentage <= 100
  {
    BreakdownFacts(window, HasLanguage, LanguageName);
  }

  lemma BreakdownFacts(window: seq<Activity>, has: Activity -> bool, nameOf: Activity -> string)
    ensures var groups := Groups(window, has, nameOf);
      var r := Shares(groups);
      (r == [] <==> Filter(window, has) == []) &&
      |r| == |groups| &&
      forall i :: 0 <= i < |r| ==> r[i].name == groups[i].name && 0 <= r[i].percentage <= 100
  {
    var groups := Groups(window, has, nameOf);
    GroupsFacts(window, has, nameOf);
    SharesFacts(groups);
    var tagged := Filter(window, has);
    if tagged != [] {
      assert nameOf(tagged[0]) in Image(tagged, nameOf);
    }
  }

  /** getProjectBreakdown for `username` over `timeframe` at `now`. */
  method GetProjectBreakdown(log: seq<Activity>, username: string, timeframe: Option<string>, now: int)
    returns (r: seq<Share>)
    ensures r == ProjectBreakdown(Period(log, username, RangeStart(timeframe.GetOr("day"), now), now))
  {
    var startDate, endDate := GetDateRange(timeframe.GetOr("day"), now);
    r := ProjectBreakdown(Period(log, username, startDate, endDate));
  }

  /** getLanguageBreakdown, as it is evidently meant to work. */
  method GetLanguageBreakdown(log: seq<Activity>, username: string, timeframe: Option<string>, now: int)
    returns (r: seq<Share>)
    ensures r == LanguageBreakdown(Period(log, username, RangeStart(timeframe.GetOr("day"), now), now))
  {
    var startDate, endDate := GetDateRange(timeframe.GetOr("day"), now);
    r := LanguageBreakdown(Period(log, username, startDate, endDate));
  }

  // ------------------------------------------- the language breakdown as written

  /** A JavaScript number that is either an integer or `NaN`. */
  datatype Number = Num(value: int) | NaN

  /** A language entry as getLanguageBreakdown returns it. */
  datatype RawShare = RawShare(name: string, timeSpent: Number, percentage: Number, files: nat)

  /** getLanguageBreakdown as written: its `$project` keeps `name`,
      `timeSpent`, `changeSize` and `files` but drops `count`, so the
      `reduce` adds `undefined` and every `Math.round(undefined / NaN * k)`
      is `NaN`; the `$sort` on the dropped field leaves the order of the
      groups to the database, taken here as the grouping order. */
  function LanguageBreakdownAsWritten(window: seq<Activity>): seq<RawShare>
  {
    var tagged := Filter(window, HasLanguage);
    MapSeq(Keys(tagged, LanguageName), l => RawShare(l, NaN, NaN, FileCount(Having(tagged, LanguageName, l))))
  }

  /** As written, the breakdown has one entry per language, but not one of
      them carries a number: every time and percentage is `NaN`, where the
      intended breakdown gives each language its share. */
  lemma LanguageBreakdownLosesCounts(window: seq<Activity>)
    ensures var r := LanguageBreakdownAsWritten(window);
      |r| == |LanguageBreakdown(window)| &&
      forall e :: e in r ==> e.timeSpent == NaN && e.percentage == NaN
  {
    var tagged := Filter(window, HasLanguage);
    GroupList(tagged, LanguageName, l => GroupOf(tagged, LanguageName, l), GroupName);
    LanguageBreakdownFacts(window);
  }

  /** A single TypeScript record: as written its percentage is `NaN`... */
  lemma LanguageBreakdownExample()
    ensures LanguageBreakdownAsWritten([SampleEdit])[0].percentage == NaN
  {
    SampleGroups();
  }

  /** ...where the intended breakdown gives it 100 percent of a 60-minute hour. */
  lemma LanguageBreakdownExampleIntended()
    ensures LanguageBreakdown([SampleEdit]) == [Share("typescript", 60, 100, 1)]
  {
    SampleGroups();
    SampleShares();
  }

  lemma SampleShares()
    ensures Shares([Group("typescript", 1, 0, 1)]) == [Share("typescript", 60, 100, 1)]
  {
    var g := Group("typescript", 1, 0, 1);
    assert Sum([g], GroupCount) == 1 by {
      assert [g][..0] == [];
    }
    RoundDivOne(60);
    RoundDivOne(100);
    var r := Shares([g]);
    assert |r| == 1 && r[0] == ShareOf(g, 1);
  }

  /** An edit of a TypeScript file. */
  const SampleEdit: Activity :=
    Activity(0, "ada", "s1", Edit, 0, "main.ts", None, Some("typescript"), None, None, None, None, None, None, None)

  lemma SampleGroups()
    ensures Keys(Filter([SampleEdit], HasLanguage), LanguageName) == ["typescript"]
    ensures Groups([SampleEdit], HasLanguage, LanguageName) == [Group("typescript", 1, 0, 1)]
  {
    var a := SampleEdit;
    var tagged := Filter([a], HasLanguage);
    assert tagged == [a];
    assert Keys(tagged, LanguageName) == ["typescript"];
    assert Having(tagged, LanguageName, "typescript") == [a];
    assert Image([a], FileNameOf) == {"main.ts"};
    assert |Image([a], FileNameOf)| == 1;
    assert [a][..0] == [];
    assert Sum([a], ChangeOf) == Sum([a][..0], ChangeOf) + ChangeOf(a) == 0;
    var g := Group("typescript", 1, 0, 1);
    assert GroupOf(tagged, LanguageName, "typescript") == g;
    assert MapSeq(Keys(tagged, LanguageName), l => GroupOf(tagged, LanguageName, l)) == [g];
  }

  // ---------------------------------------------------------------- files

  /** The `_id` of getFileActivity's `$group`. */
  datatype FileGroupKey = FileGroupKey(fileName: string, projectFolder: Option<string>, language: Option<string>)

  datatype FileGroup = FileGroup(key: FileGroupKey, count: nat, editCount: nat, changeSize: nat)

  /** One entry of getFileActivity's result. */
  datatype FileShare = FileShare(name: string, timeSpent: int, edits: nat, project: string, language: string)

  function FileGroupKeyOf(a: Activity): FileGroupKey
  {
    FileGroupKey(a.fileName, a.projectFolder, a.language)
  }

  function FileGroupOf(window: seq<Activity>, k: FileGroupKey): FileGroup
  {
    var g := Having(window, FileGroupKeyOf, k);
    FileGroup(k, |g|, |Filter(g, IsEdit)|, ChangeTotal(g))
  }

  function FileGroupKeyIn(f: FileGroup): FileGroupKey
  {
    f.key
  }

  function FileGroupCount(f: FileGroup): int
  {
    f.count
  }

  /** `$group`, `$sort: { totalActivity: -1 }`, `$limit: 50`. */
  function FileGroups(window: seq<Activity>): seq<FileGroup>
  {
    Take(SortBy(MapSeq(Keys(window, FileGroupKeyOf), k => FileGroupOf(window, k)), FileGroupCount), 50)
  }

  /** `value || "Unknown"`: a missing or empty name reads "Unknown". */
  function OrUnknown(o: Option<string>): (s: string)
    ensures s == "Unknown" <==> o.None? || o.value == "" || o.value == "Unknown"
    ensures o.Some? && o.value != "" ==> s == o.value
  {
    if o.Some? && o.value != "" then o.value else "Unknown"
  }

  function FileShareOf(f: FileGroup, total: int): FileShare
    requires total > 0
  {
    FileShare(f.key.fileName, RoundDiv(60 * f.count, total), f.editCount, OrUnknown(f.key.projectFolder), OrUnknown(f.key.language))
  }

  /** getFileActivity's result for the records of its period: the minutes
      are shares of the kept files' records only. */
  function FileActivity(window: seq<Activity>): seq<FileShare>
  {
    var kept := FileGroups(window);
    var total := Sum(kept, FileGroupCount);
    if total <= 0 then [] else MapSeq(kept, f => FileShareOf(f, total))
  }

  /** The kept groups: at most 50, one per key, most records first, each
      counting its records and its edit records. */
  lemma FileGroupsFacts(window: seq<Activity>)
    ensures var r := FileGroups(window);
      |r| <= 50 && SortedBy(r, FileGroupCount) &&
      (forall i :: 0 <= i < |r| ==> r[i] == FileGroupOf(window, r[i].key) && r[i].count > 0) &&
      (forall i, j :: 0 <= i < j < |r| ==> r[i].key != r[j].key)
  {
    GroupTable(window, FileGroupKeyOf, k => FileGroupOf(window, k), FileGroupKeyIn, FileGroupCount);
    var all := SortBy(MapSeq(Keys(window, FileGroupKeyOf), k => FileGroupOf(window, k)), FileGroupCount);
    var r := FileGroups(window);
    forall i | 0 <= i < |r| ensures r[i] == FileGroupOf(window, r[i].key) && r[i].count > 0 {
      assert r[i] == all[i] && all[i] in all;
    }
    forall i, j | 0 <= i < j < |r| ensures r[i].key != r[j].key {
      assert r[i] == all[i] && r[j] == all[j];
      assert FileGroupKeyIn(all[i]) != FileGroupKeyIn(all[j]);
    }
  }

  /** The file activity: at most 50 entries, one per kept file group in
      decreasing order of activity; each entry's edits are its group's edit
      records and its project and language read "Unknown" when the group
      has none. */
  lemma FileActivityEntries(window: seq<Activity>)
    ensures var kept := FileGroups(window);
      var r := FileActivity(window);
      |r| <= 50 && (r == [] <==> window == []) && (r != [] ==> |r| == |kept|) &&
      forall i :: 0 <= i < |r| ==>
        var g := Having(window, FileGroupKeyOf, kept[i].key);
        r[i].name == kept[i].key.fileName &&
        r[i].edits == |Filter(g, IsEdit)| &&
        r[i].project == OrUnknown(kept[i].key.projectFolder) &&
        r[i].language == OrUnknown(kept[i].key.language)
  {
    var kept := FileGroups(window);
    FileGroupsFacts(window);
    FileTotal(window);
    if window == [] {
      assert Keys(window, FileGroupKeyOf) == [];
    }
  }

  /** The kept groups' records add up to a positive total exactly when the
      period has records. */
  lemma FileTotal(window: seq<Activity>)
    ensures var kept := FileGroups(window);
      (Sum(kept, FileGroupCount) > 0 <==> window != []) &&
      forall i :: 0 <= i < |kept| ==> 0 < kept[i].count <= Sum(kept, FileGroupCount)
  {
    var kept := FileGroups(window);
    FileGroupsFacts(window);
    assert forall f :: f in kept ==> FileGroupCount(f) >= 0;
    SumNonNegative(kept, FileGroupCount);
    forall i | 0 <= i < |kept| ensures kept[i].count <= Sum(kept, FileGroupCount) {
      SumBoundsTerm(kept, FileGroupCount, i);
    }
    if window != [] {
      FileGroupsNonEmpty(window);
    } else {
      assert Keys(window, FileGroupKeyOf) == [];
    }
  }

  /** Each file's minutes are within 0..60, and they never increase down the
      list. */
  lemma FileActivityMinutes(window: seq<Activity>)
    ensures var r := FileActivity(window);
      (forall i :: 0 <= i < |r| ==> 0 <= r[i].timeSpent <= 60) &&
      (forall i, j :: 0 <= i < j < |r| ==> r[j].timeSpent <= r[i].timeSpent)
  {
    var kept := FileGroups(window);
    var total := Sum(kept, FileGroupCount);
    var r := FileActivity(window);
    FileGroupsFacts(window);
    FileTotal(window);
    if total > 0 {
      forall i | 0 <= i < |r| ensures 0 <= r[i].timeSpent <= 60 {
        RoundDivShareBounds(kept[i].count, total, 60);
      }
      forall i, j | 0 <= i < j < |r| ensures r[j].timeSpent <= r[i].timeSpent {
        MulLeft(60, kept[j].count, kept[i].count);
        RoundDivMonotone(60 * kept[j].count, 60 * kept[i].count, total);
      }
    }
  }

  /** A non-empty period keeps at least one file group. */
  lemma FileGroupsNonEmpty(window: seq<Activity>)
    requires window != []
    ensures FileGroups(window) != []
  {
    var f := k => FileGroupOf(window, k);
    GroupTable(window, FileGroupKeyOf, f, FileGroupKeyIn, FileGroupCount);
    var all := SortBy(MapSeq(Keys(window, FileGroupKeyOf), f), FileGroupCount);
    assert FileGroupKeyOf(window[0]) in Image(window, FileGroupKeyOf);
    assert all != [];
  }

  /** getFileActivity for `username` over `timeframe` at `now`. */
  method GetFileActivity(log: seq<Activity>, username: string, timeframe: Option<string>, now: int)
    returns (r: seq<FileShare>)
    ensures r == FileActivity(Period(log, username, RangeStart(timeframe.GetOr("day"), now), now))
  {
    var startDate, endDate := GetDateRange(timeframe.GetOr("day"), now);
    r := FileActivity(Period(log, username, startDate, endDate));
  }
}
