/** The aggregation routes over the activity log: per-day summary, language,
    project and file breakdowns, hour and weekday histograms, daily
    productivity scores and interval trends. Each pipeline is a function of
    the records its `$match` stage keeps. */
module Pipelines {
  import opened Wrappers
  import opened Numbers
  import opened Seqs
  import opened Calendar
  import opened Event
  import opened Store
  import opened Http

  /** The `$match` stage every aggregation starts with: the user's records
      with a timestamp from `since` on. */
  function Recent(log: seq<Activity>, username: string, since: int): seq<Activity>
  {
    Select(log, Selector(username, Some(since), None, None))
  }

  /** `daysAgo.setDate(daysAgo.getDate() - days)`: `days` whole days before `now`. */
  function DaysBack(now: int, days: int): int
  {
    now - days * MsPerDay
  }

  /** `{ $ifNull: ["$changeSize", 0] }`. */
  function ChangeOf(a: Activity): int
  {
    a.changeSize.GetOr(0)
  }

  /** `$sum` of the change sizes of a group, a missing one counting 0. */
  function ChangeTotal(g: seq<Activity>): nat
  {
    SumNonNegative(g, ChangeOf);
    Sum(g, ChangeOf)
  }

  function FileNameOf(a: Activity): string
  {
    a.fileName
  }

  function HasLanguage(a: Activity): bool
  {
    a.language.Some?
  }

  function LanguageName(a: Activity): string
  {
    a.language.GetOr("")
  }

  /** `{ $size: { $addToSet: "$fileName" } }`: the number of distinct file names. */
  function FileCount(g: seq<Activity>): nat
  {
    |Image(g, FileNameOf)|
  }

  /** The number of distinct languages among the records that have one. */
  function LanguageCount(g: seq<Activity>): nat
  {
    |Image(Filter(g, HasLanguage), LanguageName)|
  }

  lemma DistinctCountsBounded(g: seq<Activity>)
    ensures FileCount(g) <= |g|
    ensures LanguageCount(g) <= |g|
  {
    ImageCard(g, FileNameOf);
    ImageCard(Filter(g, HasLanguage), LanguageName);
  }

  /** `$max: "$timestamp"`. */
  function Latest(g: seq<Activity>): (t: int)
    requires g != []
    ensures forall a :: a in g ==> a.timestamp <= t
    ensures exists a :: a in g && a.timestamp == t
  {
    if |g| == 1 then
      assert g[0] in g;
      g[0].timestamp
    else
      var init := g[..|g| - 1];
      assert g == init + [g[|g| - 1]];
      var t := Latest(init);
      if g[|g| - 1].timestamp > t then g[|g| - 1].timestamp else t
  }

  /** `$min: "$timestamp"`. */
  function Earliest(g: seq<Activity>): (t: int)
    requires g != []
    ensures forall a :: a in g ==> t <= a.timestamp
    ensures exists a :: a in g && a.timestamp == t
  {
    if |g| == 1 then
      assert g[0] in g;
      g[0].timestamp
    else
      var init := g[..|g| - 1];
      assert g == init + [g[|g| - 1]];
      var t := Earliest(init);
      if g[|g| - 1].timestamp < t then g[|g| - 1].timestamp else t
  }

  /** `$dateToString` with `%Y-%m-%d`, as a day number. */
  function DateOf(a: Activity): int
  {
    DayOf(a.timestamp)
  }

  function KindOf(a: Activity): Kind
  {
    a.kind
  }

  // ---------------------------------------------------------------- summary

  datatype TypeCount = TypeCount(kind: Kind, count: nat)

  datatype DaySummary = DaySummary(date: int, activities: seq<TypeCount>, totalCount: int)

  function TypeCountOf(day: seq<Activity>, k: Kind): TypeCount
  {
    TypeCount(k, |Having(day, KindOf, k)|)
  }

  function CountedKind(t: TypeCount): Kind
  {
    t.kind
  }

  function TypeCountSize(t: TypeCount): int
  {
    t.count
  }

  /** The second `$group`: a day's per-type counts and their `$sum`. */
  function DaySummaryOf(window: seq<Activity>, d: int): DaySummary
  {
    var day := Having(window, DateOf, d);
    var kinds := MapSeq(Keys(day, KindOf), k => TypeCountOf(day, k));
    DaySummary(d, kinds, Sum(kinds, TypeCountSize))
  }

  function SummaryDate(d: DaySummary): int
  {
    d.date
  }

  /** Ascending by date (`$sort: { _id: 1 }`). */
  function SummaryDateAscending(d: DaySummary): int
  {
    -d.date
  }

  /** GET /summary's pipeline. */
  function Summary(window: seq<Activity>): seq<DaySummary>
  {
    SortBy(MapSeq(Keys(window, DateOf), d => DaySummaryOf(window, d)), SummaryDateAscending)
  }

  /** One entry per active day, in increasing date order. */
  lemma SummaryDays(window: seq<Activity>)
    ensures var r := Summary(window);
      (forall i, j :: 0 <= i < j < |r| ==> r[i].date < r[j].date) &&
      Image(r, SummaryDate) == Image(window, DateOf)
  {
    var f := d => DaySummaryOf(window, d);
    var r := Summary(window);
    GroupTable(window, DateOf, f, SummaryDate, SummaryDateAscending);
    forall i, j | 0 <= i < j < |r| ensures r[i].date < r[j].date {
      assert SummaryDateAscending(r[i]) >= SummaryDateAscending(r[j]);
      assert SummaryDate(r[i]) != SummaryDate(r[j]);
    }
  }

  /** Each day's type counts cover the types seen that day once each, and
      its total is the number of records that day. */
  lemma SummaryEntries(window: seq<Activity>)
    ensures forall e :: e in Summary(window) ==> DaySummaryCounts(window, e)
  {
    var f := d => DaySummaryOf(window, d);
    var r := Summary(window);
    GroupTable(window, DateOf, f, SummaryDate, SummaryDateAscending);
    forall e | e in r ensures DaySummaryCounts(window, e) {
      assert e == f(SummaryDate(e)) && Having(window, DateOf, SummaryDate(e)) != [];
      DayCounts(window, e.date);
    }
  }

  /** What a summary entry holds for its day. */
  predicate DaySummaryCounts(window: seq<Activity>, e: DaySummary)
  {
    var day := Having(window, DateOf, e.date);
    e == DaySummaryOf(window, e.date) &&
    e.totalCount == |day| > 0 &&
    DistinctBy(e.activities, CountedKind) &&
    Image(e.activities, CountedKind) == Image(day, KindOf) &&
    (forall t :: t in e.activities ==> t.count == |Having(day, KindOf, t.kind)| > 0)
  }

  lemma DayCounts(window: seq<Activity>, d: int)
    requires Having(window, DateOf, d) != []
    ensures DaySummaryCounts(window, DaySummaryOf(window, d))
  {
    var day := Having(window, DateOf, d);
    var f := k => TypeCountOf(day, k);
    GroupList(day, KindOf, f, CountedKind);
    SumOverKeys(Keys(day, KindOf), day, KindOf, f, TypeCountSize);
    KeysPartition(day, KindOf);
  }

  // ------------------------------------------------------ language, project

  datatype LanguageStat = LanguageStat(language: string, count: nat, changeSize: nat)

  function LanguageStatOf(tagged: seq<Activity>, l: string): LanguageStat
  {
    var g := Having(tagged, LanguageName, l);
    LanguageStat(l, |g|, ChangeTotal(g))
  }

  function StatLanguage(e: LanguageStat): string
  {
    e.language
  }

  /** Most records first (`$sort: { count: -1 }`). */
  function LanguageStatCount(e: LanguageStat): int
  {
    e.count
  }

  /** GET /languages' pipeline over the records that carry a language. */
  function LanguageDistribution(window: seq<Activity>): seq<LanguageStat>
  {
    var tagged := Filter(window, HasLanguage);
    SortBy(MapSeq(Keys(tagged, LanguageName), l => LanguageStatOf(tagged, l)), LanguageStatCount)
  }

  /** One entry per language present, most used first; each entry counts
      the records in that language and sums their change sizes. */
  lemma LanguageDistributionGroups(window: seq<Activity>)
    ensures var r := LanguageDistribution(window);
      var tagged := Filter(window, HasLanguage);
      SortedBy(r, LanguageStatCount) && DistinctBy(r, StatLanguage) &&
      Image(r, StatLanguage) == Image(tagged, LanguageName) &&
      (forall e :: e in r ==> e == LanguageStatOf(tagged, e.language) && e.count > 0)
  {
    var tagged := Filter(window, HasLanguage);
    GroupTable(tagged, LanguageName, l => LanguageStatOf(tagged, l), StatLanguage, LanguageStatCount);
  }

  datatype ProjectStat = ProjectStat(project: string, count: nat, changeSize: nat, fileCount: nat)

  function HasProject(a: Activity): bool
  {
    a.projectFolder.Some?
  }

  function ProjectName(a: Activity): string
  {
    a.projectFolder.GetOr("")
  }

  function ProjectStatOf(tagged: seq<Activity>, p: string): ProjectStat
  {
    var g := Having(tagged, ProjectName, p);
    ProjectStat(p, |g|, ChangeTotal(g), FileCount(g))
  }

  function StatProject(e: ProjectStat): string
  {
    e.project
  }

  function ProjectStatCount(e: ProjectStat): int
  {
    e.count
  }

  /** GET /projects' pipeline over the records that carry a project folder. */
  function ProjectDistribution(window: seq<Activity>): seq<ProjectStat>
  {
    var tagged := Filter(window, HasProject);
    SortBy(MapSeq(Keys(tagged, ProjectName), p => ProjectStatOf(tagged, p)), ProjectStatCount)
  }

  /** One entry per project present, most used first; each counts the
      project's records, sums their change sizes and counts its distinct
      file names, never more than its records. */
  lemma ProjectDistributionGroups(window: seq<Activity>)
    ensures var r := ProjectDistribution(window);
      var tagged := Filter(window, HasProject);
      SortedBy(r, ProjectStatCount) && DistinctBy(r, StatProject) &&
      Image(r, StatProject) == Image(tagged, ProjectName) &&
      (forall e :: e in r ==> e == ProjectStatOf(tagged, e.project) && 0 < e.fileCount <= e.count)
  {
    var tagged := Filter(window, HasProject);
    GroupTable(tagged, ProjectName, p => ProjectStatOf(tagged, p), StatProject, ProjectStatCount);
    forall e | e in ProjectDistribution(window) ensures 0 < e.fileCount <= e.count {
      var g := Having(tagged, ProjectName, e.project);
      DistinctCountsBounded(g);
      assert FileNameOf(g[0]) in Image(g, FileNameOf);
    }
  }

  // -------------------------------------------------------------- files

  /** The `_id` of GET /files' `$group`. */
  datatype FileKey = FileKey(fileName: string, filePath: Option<string>, language: Option<string>, projectFolder: Option<string>)

  datatype FileStat = FileStat(file: FileKey, count: nat, changeSize: nat, lastModified: int)

  function FileKeyOf(a: Activity): FileKey
  {
    FileKey(a.fileName, a.filePath, a.language, a.projectFolder)
  }

  function FileStatOf(window: seq<Activity>, k: FileKey): FileStat
  {
    var g := Having(window, FileKeyOf, k);
    FileStat(k, |g|, ChangeTotal(g), if g == [] then 0 else Latest(g))
  }

  function StatFile(e: FileStat): FileKey
  {
    e.file
  }

  function FileStatCount(e: FileStat): int
  {
    e.count
  }

  /** GET /files' pipeline before its `$limit`. */
  function FileTable(window: seq<Activity>): seq<FileStat>
  {
    SortBy(MapSeq(Keys(window, FileKeyOf), k => FileStatOf(window, k)), FileStatCount)
  }

  /** One entry per distinct (name, path, language, project), most used
      first; `lastModified` is the latest timestamp among its records. */
  lemma FileTableGroups(window: seq<Activity>)
    ensures var r := FileTable(window);
      SortedBy(r, FileStatCount) && DistinctBy(r, StatFile) &&
      Image(r, StatFile) == Image(window, FileKeyOf) &&
      (forall e :: e in r ==> FileEntry(window, e))
  {
    GroupTable(window, FileKeyOf, k => FileStatOf(window, k), StatFile, FileStatCount);
  }

  /** What a file entry holds for its key. */
  predicate FileEntry(window: seq<Activity>, e: FileStat)
  {
    var g := Having(window, FileKeyOf, e.file);
    e == FileStatOf(window, e.file) && e.count > 0 &&
    (forall a :: a in g ==> a.timestamp <= e.lastModified) &&
    (exists a :: a in g && a.timestamp == e.lastModified)
  }

  /** `$limit`: the first `n` entries; a kept file has at least as many
      records as any file cut off. */
  lemma FileLimit(window: seq<Activity>, n: nat)
    ensures var r := FileTable(window);
      var kept := Take(r, n);
      |kept| <= n && SortedBy(kept, FileStatCount) &&
      (forall i, j :: 0 <= i < |kept| <= j < |r| ==> r[j].count <= kept[i].count)
  {
    FileTableGroups(window);
  }

  // ------------------------------------------------------- hours, weekdays

  /** A `$group` on a numeric date part with its count and change total. */
  datatype Bucket = Bucket(key: int, count: nat, changeSize: nat)

  function BucketOf(window: seq<Activity>, key: Activity -> int, k: int): Bucket
  {
    var g := Having(window, key, k);
    Bucket(k, |g|, ChangeTotal(g))
  }

  function BucketKey(b: Bucket): int
  {
    b.key
  }

  function BucketKeyAscending(b: Bucket): int
  {
    -b.key
  }

  function Buckets(window: seq<Activity>, key: Activity -> int): seq<Bucket>
  {
    SortBy(MapSeq(Keys(window, key), k => BucketOf(window, key, k)), BucketKeyAscending)
  }

  /** `Array.prototype.find` on the grouped entries. */
  function FindBucket(groups: seq<Bucket>, k: int): (r: Option<Bucket>)
    ensures r.Some? ==> r.value in groups && r.value.key == k
    ensures r.None? ==> forall b :: b in groups ==> b.key != k
  {
    if groups == [] then None
    else if groups[0].key == k then Some(groups[0])
    else FindBucket(groups[1..], k)
  }

  /** Looking a key up among the groups finds that key's group, or nothing
      when no record has the key. */
  lemma FindInBuckets(window: seq<Activity>, key: Activity -> int, k: int)
    ensures FindBucket(Buckets(window, key), k) ==
      if Having(window, key, k) == [] then None else Some(BucketOf(window, key, k))
  {
    var groups := Buckets(window, key);
    GroupTable(window, key, k => BucketOf(window, key, k), BucketKey, BucketKeyAscending);
    if Having(window, key, k) != [] {
      var x := Having(window, key, k)[0];
      assert x in Having(window, key, k);
      assert k in Image(window, key);
      assert k in Image(groups, BucketKey);
    }
  }

  function HourKey(a: Activity): int
  {
    HourOf(a.timestamp)
  }

  datatype HourEntry = HourEntry(hour: int, count: nat, changeSize: nat)

  /** GET /hours: the hour groups spread over all 24 hours, zero where no
      group has that hour. */
  function HourDistribution(window: seq<Activity>): seq<HourEntry>
  {
    var groups := Buckets(window, HourKey);
    seq(24, i requires 0 <= i < 24 => HourSlot(groups, i))
  }

  function HourSlot(groups: seq<Bucket>, h: int): HourEntry
  {
    match FindBucket(groups, h)
    case Some(b) => HourEntry(h, b.count, b.changeSize)
    case None => HourEntry(h, 0, 0)
  }

  /** Exactly 24 entries, entry `i` for hour `i` with that hour's record
      count and change total (zero for an hour without records). */
  lemma HourDistributionComplete(window: seq<Activity>)
    ensures var r := HourDistribution(window);
      |r| == 24 &&
      forall i :: 0 <= i < 24 ==>
        r[i] == HourEntry(i, |Having(window, HourKey, i)|, ChangeTotal(Having(window, HourKey, i)))
  {
    forall i | 0 <= i < 24
      ensures HourDistribution(window)[i] ==
        HourEntry(i, |Having(window, HourKey, i)|, ChangeTotal(Having(window, HourKey, i)))
    {
      assert HourDistribution(window)[i] == HourSlot(Buckets(window, HourKey), i);
      FindInBuckets(window, HourKey, i);
    }
  }

  function HourEntryCount(e: HourEntry): int
  {
    e.count
  }

  function Range(n: nat): (r: seq<int>)
    ensures |r| == n && forall i :: 0 <= i < n ==> r[i] == i
  {
    seq(n, i requires 0 <= i < n => i)
  }

  /** Every record falls in exactly one hour: the 24 counts add up to the
      number of records. */
  lemma HourDistributionTotal(window: seq<Activity>)
    ensures Sum(HourDistribution(window), HourEntryCount) == |window|
  {
    var f := h => HourEntry(h, |Having(window, HourKey, h)|, ChangeTotal(Having(window, HourKey, h)));
    var hours := Range(24);
    assert HourDistribution(window) == MapSeq(hours, f) by {
      HourDistributionComplete(window);
    }
    SumOverKeys(hours, window, HourKey, f, HourEntryCount);
    HoursCoverWindow(window);
  }

  lemma HoursCoverWindow(window: seq<Activity>)
    ensures CountOver(Range(24), window, HourKey) == |window|
  {
    var hours := Range(24);
    forall x | x in window ensures HourKey(x) in hours {
      assert hours[HourKey(x)] == HourKey(x);
    }
    CoverPartition(hours, window, HourKey);
  }

  function WeekdayKey(a: Activity): int
  {
    DayOfWeek(a.timestamp)
  }

  const DayNames: seq<string> := ["Sunday", "Monday", "Tuesday", "Wednesday", "Thursday", "Friday", "Saturday"]

  datatype WeekdayEntry = WeekdayEntry(dayOfWeek: int, dayName: string, count: nat, changeSize: nat)

  /** GET /weekdays: the weekday groups spread over all seven days, Sunday
      first, zero where no group has that day. */
  function WeekdayDistribution(window: seq<Activity>): seq<WeekdayEntry>
  {
    var groups := Buckets(window, WeekdayKey);
    seq(7, i requires 0 <= i < 7 => WeekdaySlot(groups, i))
  }

  function WeekdaySlot(groups: seq<Bucket>, i: int): WeekdayEntry
    requires 0 <= i < 7
  {
    match FindBucket(groups, i + 1)
    case Some(b) => WeekdayEntry(i + 1, DayNames[i], b.count, b.changeSize)
    case None => WeekdayEntry(i + 1, DayNames[i], 0, 0)
  }

  /** Exactly seven entries, entry `i` for `$dayOfWeek` i + 1 (1 = Sunday)
      with its name and that day's record count and change total. */
  lemma WeekdayDistributionComplete(window: seq<Activity>)
    ensures var r := WeekdayDistribution(window);
      |r| == 7 &&
      forall i :: 0 <= i < 7 ==>
        r[i] == WeekdayEntry(i + 1, DayNames[i], |Having(window, WeekdayKey, i + 1)|,
          ChangeTotal(Having(window, WeekdayKey, i + 1)))
  {
    forall i | 0 <= i < 7
      ensures WeekdayDistribution(window)[i] ==
        WeekdayEntry(i + 1, DayNames[i], |Having(window, WeekdayKey, i + 1)|,
          ChangeTotal(Having(window, WeekdayKey, i + 1)))
    {
      assert WeekdayDistribution(window)[i] == WeekdaySlot(Buckets(window, WeekdayKey), i);
      FindInBuckets(window, WeekdayKey, i + 1);
    }
  }

  // ----------------------------------------------------------- productivity

  /** The `$project` of GET /productivity's daily `$group`. */
  datatype DailyMetrics = DailyMetrics(date: int, totalActivities: nat, totalChangeSize: nat,
                                       uniqueFileCount: nat, durationMs: nat)

  /** `$max` minus `$min` of the group's timestamps. */
  function Span(g: seq<Activity>): (span: nat)
    ensures g != [] ==> exists a, b :: a in g && b in g && span == a.timestamp - b.timestamp
    ensures forall a, b :: a in g && b in g ==> a.timestamp - b.timestamp <= span
  {
    if g == [] then 0 else assert g[0] in g; Latest(g) - Earliest(g)
  }

  function DailyMetricsOf(window: seq<Activity>, d: int): DailyMetrics
  {
    var g := Having(window, DateOf, d);
    DailyMetrics(d, |g|, ChangeTotal(g), FileCount(g), Span(g))
  }

  function MetricsDate(m: DailyMetrics): int
  {
    m.date
  }

  function MetricsDateAscending(m: DailyMetrics): int
  {
    -m.date
  }

  function DailyTable(window: seq<Activity>): seq<DailyMetrics>
  {
    SortBy(MapSeq(Keys(window, DateOf), d => DailyMetricsOf(window, d)), MetricsDateAscending)
  }

  /** The day's score in tenths: the mean of `min(n / 100, 10)`,
      `min(change / 1000, 10)` and `min(files, 10)`, rounded to one decimal.
      In thousandths the three parts are `10 * min(n, 1000)`,
      `min(change, 10000)` and `1000 * min(files, 10)`, so the tenths are
      their sum over 300, rounded. */
  function ScoreTenths(n: nat, change: nat, files: nat): (s: nat)
    ensures s <= 100
    ensures n >= 1000 && change >= 10000 && files >= 10 ==> s == 100
    ensures n == 0 && change == 0 && files == 0 ==> s == 0
    ensures var parts := 10 * Min(n, 1000) + Min(change, 10000) + 1000 * Min(files, 10);
      2 * parts - 300 < 600 * s <= 2 * parts + 300
  {
    var parts := 10 * Min(n, 1000) + Min(change, 10000) + 1000 * Min(files, 10);
    RoundDivShareBounds(parts, 30000, 100);
    assert 100 * parts / 30000 == parts / 300;
    RoundDiv(parts, 300)
  }

  /** More activity, more change or more files never lowers the score. */
  lemma ScoreMonotone(n1: nat, c1: nat, f1: nat, n2: nat, c2: nat, f2: nat)
    requires n1 <= n2 && c1 <= c2 && f1 <= f2
    ensures ScoreTenths(n1, c1, f1) <= ScoreTenths(n2, c2, f2)
  {
    var p1 := 10 * Min(n1, 1000) + Min(c1, 10000) + 1000 * Min(f1, 10);
    var p2 := 10 * Min(n2, 1000) + Min(c2, 10000) + 1000 * Min(f2, 10);
    RoundDivMonotone(p1, p2, 300);
  }

  datatype ProductivityScore = ProductivityScore(date: int, scoreTenths: nat, activityCount: nat,
                                                 changeSize: nat, fileCount: nat, sessionMinutes: nat)

  /** The post-processing `map` over one day's metrics. */
  function ScoreOf(m: DailyMetrics): ProductivityScore
  {
    var minutes := RoundDiv(m.durationMs, MsPerMinute);
    assert minutes >= 0 by {
      if minutes < 0 { MulLeft(2 * MsPerMinute, minutes, -1); }
    }
    ProductivityScore(m.date, ScoreTenths(m.totalActivities, m.totalChangeSize, m.uniqueFileCount),
      m.totalActivities, m.totalChangeSize, m.uniqueFileCount, minutes)
  }

  /** GET /productivity's scores, one per active day. */
  function Productivity(window: seq<Activity>): (r: seq<ProductivityScore>)
  {
    var table := DailyTable(window);
    seq(|table|, i requires 0 <= i < |table| => ScoreOf(table[i]))
  }

  /** The daily groups: one per active day, in increasing date order. */
  lemma DailyTableGroups(window: seq<Activity>)
    ensures var table := DailyTable(window);
      SortedBy(table, MetricsDateAscending) && DistinctBy(table, MetricsDate) &&
      Image(table, MetricsDate) == Image(window, DateOf) &&
      (forall m :: m in table ==> m == DailyMetricsOf(window, m.date) && Having(window, DateOf, m.date) != [])
  {
    GroupTable(window, DateOf, d => DailyMetricsOf(window, d), MetricsDate, MetricsDateAscending);
  }

  /** Score `i` is the post-processing of daily group `i`. */
  lemma ProductivityAt(window: seq<Activity>, i: int)
    requires 0 <= i < |DailyTable(window)|
    ensures |Productivity(window)| == |DailyTable(window)|
    ensures Productivity(window)[i] == ScoreOf(DailyTable(window)[i])
  {
  }

  /** One score per active day, in increasing date order. */
  lemma ProductivityOrdered(window: seq<Activity>)
    ensures var r := Productivity(window);
      forall i, j :: 0 <= i < j < |r| ==> r[i].date < r[j].date
  {
    var table := DailyTable(window);
    var r := Productivity(window);
    DailyTableGroups(window);
    forall i, j | 0 <= i < j < |r| ensures r[i].date < r[j].date {
      ProductivityAt(window, i);
      ProductivityAt(window, j);
      assert MetricsDateAscending(table[i]) >= MetricsDateAscending(table[j]);
      assert MetricsDate(table[i]) != MetricsDate(table[j]);
    }
  }

  /** As many scores as there are active days. */
  lemma ProductivityDayCount(window: seq<Activity>)
    ensures |Productivity(window)| == |Image(window, DateOf)|
  {
    DailyTableGroups(window);
    DistinctKeysCard(DailyTable(window), MetricsDate);
  }

  /** Each score is the day's capped score with the day's counts, and its
      session length is the span from the day's first to its last record
      in whole minutes. */
  lemma ProductivityEntries(window: seq<Activity>)
    ensures forall e :: e in Productivity(window) ==> ProductivityEntry(window, e)
  {
    var table := DailyTable(window);
    var r := Productivity(window);
    DailyTableGroups(window);
    forall e | e in r ensures ProductivityEntry(window, e) {
      var i :| 0 <= i < |r| && r[i] == e;
      ProductivityAt(window, i);
      assert table[i] in table;
      DayScore(window, table[i].date);
    }
  }

  lemma DayScore(window: seq<Activity>, d: int)
    requires Having(window, DateOf, d) != []
    ensures ProductivityEntry(window, ScoreOf(DailyMetricsOf(window, d)))
  {
  }

  /** What a productivity entry holds for its day. */
  predicate ProductivityEntry(window: seq<Activity>, e: ProductivityScore)
  {
    var g := Having(window, DateOf, e.date);
    g != [] &&
    e.activityCount == |g| && e.changeSize == ChangeTotal(g) && e.fileCount == FileCount(g) &&
    e.scoreTenths == ScoreTenths(|g|, ChangeTotal(g), FileCount(g)) && e.scoreTenths <= 100 &&
    e.sessionMinutes == RoundDiv(Span(g), MsPerMinute)
  }

  // ----------------------------------------------------------------- trends

  datatype Interval = ByDay | ByWeek | ByMonth

  /** `interval || "day"`, then "day", "week", and anything else by month. */
  function ParseInterval(interval: string): (iv: Interval)
    ensures iv == ByDay <==> interval == "" || interval == "day"
    ensures iv == ByWeek <==> interval == "week"
  {
    var value := if interval == "" then "day" else interval;
    if value == "day" then ByDay else if value == "week" then ByWeek else ByMonth
  }

  function WeekOf(a: Activity): int
  {
    WeekLabel(a.timestamp)
  }

  function MonthOf(a: Activity): int
  {
    MonthLabel(a.timestamp)
  }

  /** The `$dateToString` format the interval selects, as a key function. */
  function LabelKey(iv: Interval): Activity -> int
  {
    match iv
    case ByDay => DateOf
    case ByWeek => WeekOf
    case ByMonth => MonthOf
  }

  datatype TrendPoint = TrendPoint(period: int, count: nat, changeSize: nat, fileCount: nat, languageCount: nat)

  function TrendPointOf(window: seq<Activity>, key: Activity -> int, l: int): TrendPoint
  {
    var g := Having(window, key, l);
    TrendPoint(l, |g|, ChangeTotal(g), FileCount(g), LanguageCount(g))
  }

  function TrendPeriod(t: TrendPoint): int
  {
    t.period
  }

  function TrendPeriodAscending(t: TrendPoint): int
  {
    -t.period
  }

  /** GET /trends' pipeline. */
  function Trends(window: seq<Activity>, iv: Interval): seq<TrendPoint>
  {
    var key := LabelKey(iv);
    SortBy(MapSeq(Keys(window, key), l => TrendPointOf(window, key, l)), TrendPeriodAscending)
  }

  /** One point per label present, labels increasing; each point's file and
      language counts are distinct-set sizes, at most its record count. */
  lemma TrendsGroups(window: seq<Activity>, iv: Interval)
    ensures var r := Trends(window, iv);
      var key := LabelKey(iv);
      (forall i, j :: 0 <= i < j < |r| ==> r[i].period < r[j].period) &&
      Image(r, TrendPeriod) == Image(window, key) &&
      (forall e :: e in r ==> TrendEntry(window, key, e))
  {
    var key := LabelKey(iv);
    var r := Trends(window, iv);
    GroupTable(window, key, l => TrendPointOf(window, key, l), TrendPeriod, TrendPeriodAscending);
    PeriodsIncreasing(r);
    forall e | e in r ensures TrendEntry(window, key, e) {
      TrendPointBounds(window, key, e);
    }
  }

  /** Points sorted by period with no period twice have increasing periods. */
  lemma PeriodsIncreasing(r: seq<TrendPoint>)
    requires SortedBy(r, TrendPeriodAscending) && DistinctBy(r, TrendPeriod)
    ensures forall i, j :: 0 <= i < j < |r| ==> r[i].period < r[j].period
  {
    forall i, j | 0 <= i < j < |r| ensures r[i].period < r[j].period {
      assert TrendPeriodAscending(r[i]) >= TrendPeriodAscending(r[j]);
      assert TrendPeriod(r[i]) != TrendPeriod(r[j]);
    }
  }

  /** The point made for a label some record has holds the counts of its group. */
  lemma TrendPointBounds(window: seq<Activity>, key: Activity -> int, e: TrendPoint)
    requires e == TrendPointOf(window, key, e.period) && Having(window, key, e.period) != []
    ensures TrendEntry(window, key, e)
  {
    var g := Having(window, key, e.period);
    DistinctCountsBounded(g);
    assert FileNameOf(g[0]) in Image(g, FileNameOf);
  }

  /** What a trend point holds for its label. */
  predicate TrendEntry(window: seq<Activity>, key: Activity -> int, e: TrendPoint)
  {
    e == TrendPointOf(window, key, e.period) && 0 < e.fileCount <= e.count && e.languageCount <= e.count
  }
}
