/** The GET aggregation routes of the activity API. Each one answers 400
    without a username; otherwise it runs its pipeline over the user's
    records from `parseInt(days) || d` days before the request time `now`
    on, `d` being the route's own default. */
module Routes {
  import opened Wrappers
  import opened Seqs
  import opened Calendar
  import opened Event
  import opened Store
  import opened Http
  import opened Pipelines

  const UsernameRequired: string := "Username is required"

  /** The `$match` stage: the user's records at or after the start of the
      look-back period. */
  function Window(log: seq<Activity>, username: string, days: Option<int>, fallback: int, now: int): (w: seq<Activity>)
    ensures forall a :: a in w <==>
      a in log && a.username == username && now - IntOr(days, fallback) * MsPerDay <= a.timestamp
    ensures |w| <= |log|
  {
    Recent(log, username, DaysBack(now, IntOr(days, fallback)))
  }

  /** GET /summary, 7 days by default. */
  method SummaryRoute(store: ActivityStore, username: string, days: Option<int>, now: int)
    returns (reply: Reply<seq<DaySummary>>)
    ensures username == "" ==> reply == Failure(400, UsernameRequired)
    ensures username != "" ==> reply == Success(200, Summary(Window(store.records, username, days, 7, now)))
  {
    if username == "" {
      return Failure(400, UsernameRequired);
    }
    reply := Success(200, Summary(Window(store.records, username, days, 7, now)));
  }

  /** GET /languages, 30 days by default. */
  method LanguagesRoute(store: ActivityStore, username: string, days: Option<int>, now: int)
    returns (reply: Reply<seq<LanguageStat>>)
    ensures username == "" ==> reply == Failure(400, UsernameRequired)
    ensures username != "" ==>
      reply == Success(200, LanguageDistribution(Window(store.records, username, days, 30, now)))
  {
    if username == "" {
      return Failure(400, UsernameRequired);
    }
    reply := Success(200, LanguageDistribution(Window(store.records, username, days, 30, now)));
  }

  /** GET /projects, 30 days by default. */
  method ProjectsRoute(store: ActivityStore, username: string, days: Option<int>, now: int)
    returns (reply: Reply<seq<ProjectStat>>)
    ensures username == "" ==> reply == Failure(400, UsernameRequired)
    ensures username != "" ==>
      reply == Success(200, ProjectDistribution(Window(store.records, username, days, 30, now)))
  {
    if username == "" {
      return Failure(400, UsernameRequired);
    }
    reply := Success(200, ProjectDistribution(Window(store.records, username, days, 30, now)));
  }

  /** GET /files, 30 days and 50 files by default. `$limit` refuses a
      negative count, and the route answers 500. */
  method FilesRoute(store: ActivityStore, username: string, days: Option<int>, limit: Option<int>, now: int)
    returns (reply: Reply<seq<FileStat>>)
    ensures username == "" ==> reply == Failure(400, UsernameRequired)
    ensures username != "" && IntOr(limit, 50) < 0 ==> reply == Failure(500, "Failed to fetch file statistics")
    ensures username != "" && IntOr(limit, 50) > 0 ==>
      reply == Success(200, Take(FileTable(Window(store.records, username, days, 30, now)), IntOr(limit, 50)))
    ensures reply.Success? ==> |reply.body| <= IntOr(limit, 50)
  {
    if username == "" {
      return Failure(400, UsernameRequired);
    }
    var n := IntOr(limit, 50);
    if n < 0 {
      return Failure(500, "Failed to fetch file statistics");
    }
    reply := Success(200, Take(FileTable(Window(store.records, username, days, 30, now)), n));
  }

  /** GET /hours, 30 days by default. */
  method HoursRoute(store: ActivityStore, username: string, days: Option<int>, now: int)
    returns (reply: Reply<seq<HourEntry>>)
    ensures username == "" ==> reply == Failure(400, UsernameRequired)
    ensures username != "" ==>
      reply == Success(200, HourDistribution(Window(store.records, username, days, 30, now)))
  {
    if username == "" {
      return Failure(400, UsernameRequired);
    }
    reply := Success(200, HourDistribution(Window(store.records, username, days, 30, now)));
  }

  /** GET /weekdays, 90 days by default. */
  method WeekdaysRoute(store: ActivityStore, username: string, days: Option<int>, now: int)
    returns (reply: Reply<seq<WeekdayEntry>>)
    ensures username == "" ==> reply == Failure(400, UsernameRequired)
    ensures username != "" ==>
      reply == Success(200, WeekdayDistribution(Window(store.records, username, days, 90, now)))
  {
    if username == "" {
      return Failure(400, UsernameRequired);
    }
    reply := Success(200, WeekdayDistribution(Window(store.records, username, days, 90, now)));
  }

  /** GET /productivity, 30 days by default. */
  method ProductivityRoute(store: ActivityStore, username: string, days: Option<int>, now: int)
    returns (reply: Reply<seq<ProductivityScore>>)
    ensures username == "" ==> reply == Failure(400, UsernameRequired)
    ensures username != "" ==>
      reply == Success(200, Productivity(Window(store.records, username, days, 30, now)))
  {
    if username == "" {
      return Failure(400, UsernameRequired);
    }
    reply := Success(200, Productivity(Window(store.records, username, days, 30, now)));
  }

  /** The trends together with the interval as requested (`"day"` when
      none was given). */
  datatype TrendsReply = TrendsReply(trends: seq<TrendPoint>, interval: string)

  /** GET /trends, 90 days and daily labels by default. */
  method TrendsRoute(store: ActivityStore, username: string, days: Option<int>, interval: string, now: int)
    returns (reply: Reply<TrendsReply>)
    ensures username == "" ==> reply == Failure(400, UsernameRequired)
    ensures username != "" ==>
      var echoed := if interval == "" then "day" else interval;
      reply == Success(200, TrendsReply(Trends(Window(store.records, username, days, 90, now), ParseInterval(interval)), echoed))
  {
    if username == "" {
      return Failure(400, UsernameRequired);
    }
    var intervalValue := if interval == "" then "day" else interval;
    var window := Window(store.records, username, days, 90, now);
    reply := Success(200, TrendsReply(Trends(window, ParseInterval(interval)), intervalValue));
  }
}
