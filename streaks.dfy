/** GET /streaks: the days with activity over the last year, the current run
    of consecutive active days ending today (or yesterday), the longest such
    run, and a per-day calendar of record counts. Days are day numbers. */
module Streaks {
  import opened Wrappers
  import opened Numbers
  import opened Seqs
  import opened Calendar
  import opened Event
  import opened Store
  import opened Http
  import opened Pipelines

  // ------------------------------------------------------------ active days

  /** One `activeDays` entry: a day that has records, and how many. */
  datatype DayCount = DayCount(date: int, count: nat)

  function DayCountOf(window: seq<Activity>, d: int): DayCount
  {
    DayCount(d, |Having(window, DateOf, d)|)
  }

  function DayCountDate(e: DayCount): int
  {
    e.date
  }

  function DayCountAscending(e: DayCount): int
  {
    -e.date
  }

  /** The `$group` by date with its count, sorted by date. */
  function ActiveDays(window: seq<Activity>): seq<DayCount>
  {
    SortBy(MapSeq(Keys(window, DateOf), d => DayCountOf(window, d)), DayCountAscending)
  }

  /** `activeDays.map(day => new Date(day.date))`. */
  function ActiveDates(days: seq<DayCount>): seq<int>
  {
    MapSeq(days, DayCountDate)
  }

  predicate Increasing(s: seq<int>)
  {
    forall i, j :: 0 <= i < j < |s| ==> s[i] < s[j]
  }

  /** One entry per active day, in increasing date order, each with the
      day's record count. */
  lemma ActiveDaysGroups(window: seq<Activity>)
    ensures var days := ActiveDays(window);
      Increasing(ActiveDates(days)) &&
      Image(days, DayCountDate) == Image(window, DateOf) &&
      (forall e :: e in days ==> e.count == |Having(window, DateOf, e.date)| && e.count > 0)
  {
    var days := ActiveDays(window);
    GroupTable(window, DateOf, d => DayCountOf(window, d), DayCountDate, DayCountAscending);
    AscendingDates(days);
  }

  /** Entries sorted by date with no date twice have strictly increasing dates. */
  lemma AscendingDates(days: seq<DayCount>)
    requires SortedBy(days, DayCountAscending) && DistinctBy(days, DayCountDate)
    ensures Increasing(ActiveDates(days))
  {
    var dates := ActiveDates(days);
    forall i, j | 0 <= i < j < |dates| ensures dates[i] < dates[j] {
      assert DayCountAscending(days[i]) >= DayCountAscending(days[j]);
      assert DayCountDate(days[i]) != DayCountDate(days[j]);
    }
  }

  /** `totalActiveDays`: as many entries as distinct active days. */
  lemma ActiveDayCount(window: seq<Activity>)
    ensures |ActiveDays(window)| == |Image(window, DateOf)|
  {
    GroupTable(window, DateOf, d => DayCountOf(window, d), DayCountDate, DayCountAscending);
    DistinctKeysCard(ActiveDays(window), DayCountDate);
  }

  /** A day is among the active dates exactly when some record falls on it. */
  lemma ActiveDatesMembers(window: seq<Activity>)
    ensures forall d :: d in ActiveDates(ActiveDays(window)) <==> d in Image(window, DateOf)
  {
    var days := ActiveDays(window);
    var dates := ActiveDates(days);
    ActiveDaysGroups(window);
    forall d | d in dates ensures d in Image(days, DayCountDate) {
      var i :| 0 <= i < |dates| && dates[i] == d;
      assert days[i] in days;
    }
    forall d | d in Image(days, DayCountDate) ensures d in dates {
      var e :| e in days && DayCountDate(e) == d;
      var i :| 0 <= i < |days| && days[i] == e;
      assert dates[i] == d;
    }
  }

  /** The `reduce` into `calendarData`: each entry's date mapped to its
      count, a later entry overwriting an earlier one with the same date. */
  function CalendarData(days: seq<DayCount>): (m: map<int, nat>)
    ensures m.Keys == Image(days, DayCountDate)
    ensures forall i :: 0 <= i < |days| ==> days[i].date in m
    ensures forall i :: 0 <= i < |days| && (forall j :: i < j < |days| ==> days[j].date != days[i].date) ==>
      m[days[i].date] == days[i].count
  {
    if days == [] then map[]
    else
      var init := days[..|days| - 1];
      var last := days[|days| - 1];
      assert days == init + [last];
      assert forall i :: 0 <= i < |init| ==> days[i] == init[i];
      ImageSnoc(init, last, DayCountDate);
      CalendarData(init)[last.date := last.count]
  }

  // --------------------------------------------------------------- streaks

  /** The days `last - length + 1 .. last` are all active. */
  predicate ActiveRun(dates: seq<int>, last: int, length: nat)
  {
    forall d :: last - length < d <= last ==> d in dates
  }

  /** A run of active days ending at `last` that the day before it does
      not extend. */
  predicate MaximalRun(dates: seq<int>, last: int, length: nat)
  {
    ActiveRun(dates, last, length) && last - length !in dates
  }

  /** The current streak: from today when today is active, else from
      yesterday, step back one day at a time while the day is active. The
      result is the length of the run of active days ending at the start
      day, which is 0 when the start day is not active. */
  method CurrentStreak(dates: seq<int>, today: int) returns (streak: nat)
    ensures var start := if today in dates then today else today - 1;
      MaximalRun(dates, start, streak)
  {
    var codedToday := today in dates;
    var start := if codedToday then today else today - 1;
    var low := if dates == [] then start else Lowest(dates);
    var current := start;
    streak := 0;
    while current in dates
      invariant current == start - streak
      invariant ActiveRun(dates, start, streak)
      decreases current - low
    {
      streak := streak + 1;
      current := current - 1;
    }
  }

  function Lowest(s: seq<int>): (m: int)
    requires s != []
    ensures m in s && forall x :: x in s ==> m <= x
  {
    if |s| == 1 then s[0]
    else
      var rest := Lowest(s[1..]);
      assert forall x :: x in s ==> x == s[0] || x in s[1..];
      Min(s[0], rest)
  }

  /** The length of the run of successive entries one day apart that ends
      at index `i`: the `currentLongestStreak` after the loop visits `s[i]`. */
  function RunEndingAt(s: seq<int>, i: nat): (n: nat)
    requires i < |s|
    ensures 1 <= n <= i + 1
  {
    if i == 0 then 1
    else if Abs(s[i] - s[i - 1]) == 1 then RunEndingAt(s, i - 1) + 1
    else 1
  }

  /** The longest run among the first `n` entries. */
  function LongestUpTo(s: seq<int>, n: nat): (m: nat)
    requires n <= |s|
    ensures n == 0 <==> m == 0
    ensures forall i :: 0 <= i < n ==> RunEndingAt(s, i) <= m
  {
    if n == 0 then 0 else Max(LongestUpTo(s, n - 1), RunEndingAt(s, n - 1))
  }

  function LongestRun(s: seq<int>): nat
  {
    LongestUpTo(s, |s|)
  }

  /** `activeDateObjects.sort((a, b) => a - b)`: earlier days first. */
  function Chronological(d: int): int
  {
    -d
  }

  /** The longest streak: sort the dates, walk them keeping the run that
      ends at the previous date, and keep the longest run seen, the final
      run included. */
  method LongestStreak(activeDates: seq<int>) returns (longest: nat)
    ensures longest == LongestRun(SortBy(activeDates, Chronological))
  {
    var dates := SortBy(activeDates, Chronological);
    longest := 0;
    var run := 0;
    var previous: Option<int> := None;
    for i := 0 to |dates|
      invariant previous.None? <==> i == 0
      invariant i > 0 ==> previous == Some(dates[i - 1]) && run == RunEndingAt(dates, i - 1)
      invariant i == 0 ==> run == 0
      invariant Max(longest, run) == LongestUpTo(dates, i)
    {
      if previous.None? {
        run := 1;
        previous := Some(dates[i]);
        continue;
      }
      var diffDays := Abs(dates[i] - previous.value);
      if diffDays == 1 {
        run := run + 1;
      } else {
        if run > longest {
          longest := run;
        }
        run := 1;
      }
      previous := Some(dates[i]);
    }
    if run > longest {
      longest := run;
    }
  }

  /** In an increasing sequence a run of length `n` ending at index `i` is a
      run of consecutive active days ending at `s[i]`. */
  lemma {:induction false} RunIsActive(s: seq<int>, i: nat)
    requires Increasing(s) && i < |s|
    ensures ActiveRun(s, s[i], RunEndingAt(s, i))
  {
    if i > 0 && Abs(s[i] - s[i - 1]) == 1 {
      RunIsActive(s, i - 1);
      assert s[i - 1] == s[i] - 1;
      assert s[i] in s;
    } else {
      assert s[i] in s;
    }
  }

  /** In an increasing sequence, a run of `n` active days ending at `s[i]`
      makes the run ending at index `i` at least `n` long. */
  lemma {:induction false} ActiveRunBound(s: seq<int>, i: nat, n: nat)
    requires Increasing(s) && i < |s|
    requires ActiveRun(s, s[i], n)
    ensures n <= RunEndingAt(s, i)
  {
    if n > 1 {
      var d := s[i] - 1;
      assert d in s;
      var j :| 0 <= j < |s| && s[j] == d;
      assert s[i - 1] < s[i];
      assert s[i - 1] <= d;
      assert j == i - 1;
      assert ActiveRun(s, s[i - 1], n - 1);
      ActiveRunBound(s, i - 1, n - 1);
    }
  }

  /** Some index's run is as long as the longest among the first `n`. */
  lemma {:induction false} LongestUpToReached(s: seq<int>, n: nat)
    requires 0 < n <= |s|
    ensures exists i :: 0 <= i < n && RunEndingAt(s, i) == LongestUpTo(s, n)
  {
    if n > 1 && LongestUpTo(s, n - 1) >= RunEndingAt(s, n - 1) {
      LongestUpToReached(s, n - 1);
      var i :| 0 <= i < n - 1 && RunEndingAt(s, i) == LongestUpTo(s, n - 1);
      assert RunEndingAt(s, i) == LongestUpTo(s, n);
    } else {
      assert RunEndingAt(s, n - 1) == LongestUpTo(s, n);
    }
  }

  /** In an increasing sequence of days, the longest run is the length of
      the longest stretch of consecutive active days: there is a stretch
      that long, and none is longer. */
  lemma LongestRunMeaning(s: seq<int>)
    requires Increasing(s)
    ensures exists last :: ActiveRun(s, last, LongestRun(s))
    ensures forall last: int, n: nat :: ActiveRun(s, last, n) ==> n <= LongestRun(s)
  {
    if s == [] {
      assert ActiveRun(s, 0, 0);
    } else {
      LongestUpToReached(s, |s|);
      var i :| 0 <= i < |s| && RunEndingAt(s, i) == LongestRun(s);
      RunIsActive(s, i);
    }
    forall last: int, n: nat | ActiveRun(s, last, n) ensures n <= LongestRun(s) {
      if n > 0 {
        assert last in s;
        var i :| 0 <= i < |s| && s[i] == last;
        ActiveRunBound(s, i, n);
      }
    }
  }

  /** The longest streak is 0 exactly when there are no active days. */
  lemma LongestRunZero(s: seq<int>)
    ensures LongestRun(s) == 0 <==> s == []
  {
  }

  function DayId(d: int): int
  {
    d
  }

  /** Sorting distinct days gives an increasing sequence with the same days. */
  lemma SortedDates(ds: seq<int>)
    requires Increasing(ds)
    ensures Increasing(SortBy(ds, Chronological))
    ensures forall d :: d in SortBy(ds, Chronological) <==> d in ds
  {
    var r := SortBy(ds, Chronological);
    SortMembers(ds, Chronological);
    SortKeepsDistinctBy(ds, Chronological, DayId);
    forall i, j | 0 <= i < j < |r| ensures r[i] < r[j] {
      assert Chronological(r[i]) >= Chronological(r[j]);
      assert DayId(r[i]) != DayId(r[j]);
    }
  }

  /** For distinct active days in increasing order: the longest streak is
      the longest stretch of consecutive active days, it is 0 exactly when
      there are none, and no current streak exceeds it. */
  lemma StreakSummary(dates: seq<int>, start: int, current: nat)
    requires Increasing(dates)
    requires ActiveRun(dates, start, current)
    ensures var longest := LongestRun(SortBy(dates, Chronological));
      current <= longest && (longest == 0 <==> dates == []) &&
      (exists last :: ActiveRun(dates, last, longest)) &&
      (forall last: int, n: nat :: ActiveRun(dates, last, n) ==> n <= longest)
  {
    var sorted := SortBy(dates, Chronological);
    SortedDates(dates);
    LongestRunMeaning(sorted);
    LongestRunZero(sorted);
    var longest := LongestRun(sorted);
    var last :| ActiveRun(sorted, last, longest);
    assert ActiveRun(dates, last, longest);
    forall l: int, n: nat | ActiveRun(dates, l, n) ensures n <= longest {
      assert ActiveRun(sorted, l, n);
    }
    assert ActiveRun(sorted, start, current);
  }

  // ----------------------------------------------------------------- route

  datatype StreakReport = StreakReport(currentStreak: nat, longestStreak: nat, totalActiveDays: nat,
                                       calendarData: map<int, nat>)

  /** What the streak report says about the records of the window, `today`
      being the request's day: the number of distinct active days; the
      current run of active days ending today, or yesterday when today is
      not active; the longest run of active days, which is never shorter
      than the current one and is 0 exactly when no day is active; and the
      record count of every active day. */
  ghost predicate ReportsOn(window: seq<Activity>, today: int, r: StreakReport)
  {
    var active := Image(window, DateOf);
    var dates := ActiveDates(ActiveDays(window));
    var start := if today in dates then today else today - 1;
    r.totalActiveDays == |active| &&
    r.currentStreak <= r.longestStreak &&
    (r.longestStreak == 0 <==> r.totalActiveDays == 0) &&
    MaximalRun(dates, start, r.currentStreak) &&
    (exists last :: ActiveRun(dates, last, r.longestStreak)) &&
    (forall last: int, n: nat :: ActiveRun(dates, last, n) ==> n <= r.longestStreak) &&
    r.calendarData.Keys == active &&
    (forall d :: d in r.calendarData ==> r.calendarData[d] == |Having(window, DateOf, d)|)
  }

  /** GET /streaks over the user's records of the last 365 days, `now`
      being the request time. */
  method StreaksRoute(store: ActivityStore, username: string, now: int) returns (reply: Reply<StreakReport>)
    ensures reply.Failure? <==> username == ""
    ensures reply.Failure? ==> reply == Failure(400, "Username is required")
    ensures reply.Success? ==>
      reply.status == 200 && ReportsOn(Recent(store.records, username, DaysBack(now, 365)), DayOf(now), reply.body)
  {
    if username == "" {
      return Failure(400, "Username is required");
    }
    var window := Recent(store.records, username, DaysBack(now, 365));
    var days := ActiveDays(window);
    var dates := ActiveDates(days);
    var today := DayOf(now);
    var current := CurrentStreak(dates, today);
    var longest := LongestStreak(dates);
    var calendar := CalendarData(days);
    StreakReportCorrect(window, today, current, longest);
    reply := Success(200, StreakReport(current, longest, |days|, calendar));
  }

  /** The report assembled from the two streak computations over the
      active dates says what `ReportsOn` states. */
  lemma StreakReportCorrect(window: seq<Activity>, today: int, current: nat, longest: nat)
    requires var dates := ActiveDates(ActiveDays(window));
      var start := if today in dates then today else today - 1;
      MaximalRun(dates, start, current) &&
      longest == LongestRun(SortBy(dates, Chronological))
    ensures var days := ActiveDays(window);
      ReportsOn(window, today, StreakReport(current, longest, |days|, CalendarData(days)))
  {
    var days := ActiveDays(window);
    var dates := ActiveDates(days);
    var start := if today in dates then today else today - 1;
    ActiveDaysGroups(window);
    ActiveDayCount(window);
    ActiveDatesMembers(window);
    StreakSummary(dates, start, current);
    CalendarCounts(window);
  }

  /** Each calendar day holds that day's record count. */
  lemma CalendarCounts(window: seq<Activity>)
    ensures var m := CalendarData(ActiveDays(window));
      m.Keys == Image(window, DateOf) &&
      forall d :: d in m ==> m[d] == |Having(window, DateOf, d)|
  {
    var days := ActiveDays(window);
    var m := CalendarData(days);
    ActiveDaysGroups(window);
    forall d | d in m ensures m[d] == |Having(window, DateOf, d)| {
      var e :| e in days && DayCountDate(e) == d;
      var i :| 0 <= i < |days| && days[i] == e;
      forall j | i < j < |days| ensures days[j].date != days[i].date {
        assert ActiveDates(days)[i] < ActiveDates(days)[j];
      }
    }
  }
}
