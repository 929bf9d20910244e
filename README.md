# Code Tracker core, modelled in Dafny

Code Tracker records what a developer does in the editor and reports on it.

- The VS Code extension keeps a capture session. Its listeners turn document
  edits, editor switches and saves into activity events, and every minute it
  sends the events buffered so far to the server.
- The server checks that each event fits the activity schema and stores the
  batch.
- The server answers queries, deletions and a set of aggregation routes over
  the stored events: a per-day summary; language, project and file tables;
  hour and weekday histograms; daily productivity scores; coding streaks; and
  trends.
- The analytics service adds overall statistics for a timeframe and
  breakdowns that spread one hour over languages, projects and files.

In the model:

- Timestamps are integer milliseconds since the epoch, in UTC.
- A day is `timestamp / 86400000`. Hours, weekdays, months and `%U` (Sunday-first) week numbers
  are derived from that day number in the proleptic Gregorian calendar.
- The database is a `seq` of validated records. Each aggregation pipeline is
  a function of the records its `$match` stage keeps. The groups appear in a
  fixed, sorted order.
- Classes are used where the source updates state in place:
  - the activity collection (`Store.ActivityStore`);
  - a capture session's buffer (`Tracker.Session`);
  - the extension's module-level state (`Extension.CodeTracker`).

Modules, one per file:

| file | what it models |
|---|---|
| `wrappers.dfy` | Option / Result |
| `strings.dfy` | decimal rendering, ASCII lower case, UTF-16 length |
| `numbers.dfy` | `Math.round` of a quotient |
| `seqs.dfy` | filtering, grouping, sorting, sums |
| `calendar.dfy` | day numbers, the proleptic Gregorian calendar and the date labels |
| `http.dfy` | a route's reply |
| `event.dfy` | the activity schema |
| `helpers.dfy` | the formatting helpers |
| `store.dfy` | the collection and the record, query and delete routes |
| `pipelines.dfy` | the aggregation routes |
| `routes.dfy` | the aggregation routes' request handling |
| `streaks.dfy` | the streaks route |
| `analytics.dfy` | the analytics service |
| `tracker.dfy` | the editor tracker |
| `extension.dfy` | the extension's session life cycle |

## Model

A pipeline or helper function with no contract of its own (such as `Pipelines.Summary`, `Pipelines.Trends`, `Analytics.Groups`, `Analytics.Shares`, `Streaks.ActiveDays`, `Analytics.LanguageBreakdownAsWritten` and `Analytics.LanguageBreakdown`) has no row. The lemma rows that cite the same source lines specify it.

| member | source | states |
|---|---|---|
| Calendar.DayOf | server/routes/activity.js:125 | the day number of an instant: its midnight is at or before the instant, and the next midnight after it |
| Calendar.HourOf | server/routes/activity.js:352 | `$hour`: 0..23, and the instant lies within that hour of its day |
| Calendar.DayOfWeek | server/routes/activity.js:415 | `$dayOfWeek`: 1 (Sunday) to 7 (Saturday) |
| Calendar.DayOfWeekSteps | server/routes/activity.js:415 | 1970-01-01 has weekday 5 (Thursday); the next day has the next weekday, and seven days on the weekday repeats |
| Calendar.Midnight | server/services/analytics.js:335 | `setHours(0, 0, 0, 0)`: the start of the instant's own day, at most a day before it |
| Calendar.CivilRoundTrip | server/routes/activity.js:125 | every day number is a valid calendar date, and that date numbers back to it |
| Calendar.CivilOfDays | server/routes/activity.js:125 | every valid date numbers to a day that converts back to the date |
| Calendar.NextMonthDays | server/services/analytics.js:341 | the same day of the next month is that month's length further on, December to January of the next year included |
| Calendar.NextYearDays | server/services/analytics.js:344 | the same date of the next year is 366 days further on when a 29 February lies in between, otherwise 365 |
| Calendar.MonthLabel | server/routes/activity.js:702 | `%Y-%m` as year·100 + month: the parts are the date's year and a month in 1..12 |
| Calendar.WeekLabel | server/routes/activity.js:700 | `%Y-%U` as year·100 + week: the year is the date's year and the week is in 0..53 |
| Calendar.WeekLabelNewYear | server/routes/activity.js:700 | 1 January is in week 1 when it is a Sunday and in week 0 otherwise |
| Calendar.WeekLabelStep | server/routes/activity.js:700 | within a year, the week goes up by one on each Sunday and stays the same on every other day |
| Calendar.DayOfYearBounds | server/routes/activity.js:700 | a day is 0 to 364 (365 in a leap year) days after 1 January of its year |
| Numbers.RoundDiv | server/services/analytics.js:108 | `Math.round(a / b)`: `2a − b < 2br ≤ 2a + b`, the nearest integer with halves rounded up |
| Numbers.RoundDivOne | server/services/analytics.js:108 | rounding a whole number changes nothing |
| Numbers.RoundDivShareBounds | server/services/analytics.js:244-245 | a share of a positive total, rounded on a scale, is within 0..scale |
| Numbers.RoundDivMonotone | server/routes/activity.js:523-532 | rounding never reverses the order of two numerators, as the productivity score's `toFixed(1)` and the file minutes' `Math.round` at server/services/analytics.js:313 need |
| Strings.NatToString | server/utils/helpers.js:46 | decimal digits with no leading zero |
| Strings.DigitsRoundTrip | server/utils/helpers.js:46 | reading the digits back gives the number |
| Strings.NatToStringInjective | server/utils/helpers.js:46 | different numbers print differently |
| Strings.IntToString | server/utils/helpers.js:46 | a minus sign exactly for a negative number, followed by digits that read back as its magnitude |
| Strings.ToLower | server/utils/helpers.js:140 | the same length; ASCII capitals become their small letters, every other character is kept, and no ASCII capital is left |
| Strings.ToLowerIdempotent | server/utils/helpers.js:140 | lowering twice is lowering once |
| Strings.Utf16Length | vscode-extension/services/tracker.js:99 | JavaScript `.length`: between the number of characters and twice it, and equal to it exactly when no character is outside the Basic Multilingual Plane |
| Strings.Utf16LengthConcat | vscode-extension/services/tracker.js:99 | the length of a concatenation is the sum of the lengths |
| Strings.Utf16LengthExample | vscode-extension/services/tracker.js:83 | one emoji character has length 2 |
| Seqs.SortBy | server/routes/activity.js:196 | `$sort`: the same elements, as a multiset, in non-increasing rank order |
| Event.ParseKind | server/models/activity.js:19-23 | a type string is accepted exactly when it is the name of one of the six event kinds |
| Event.KindNameRoundTrip | server/models/activity.js:19-23 | parsing a kind's name gives the kind back |
| Event.Validate | server/models/activity.js:5-50 | a document is accepted iff it breaks no field rule; the stored record converts back to the document; a refusal lists exactly the broken rules and is never empty |
| Event.Violations | server/models/activity.js:5-32 | lists exactly the schema fields whose rule the document breaks |
| Event.ViolationsIn | server/models/activity.js:5-32 | the broken rules among a given list of fields, no more and no fewer |
| Event.ValidateToRaw | server/models/activity.js:5-50 | every stored record passes validation unchanged |
| Event.ValidIffRequiredPresent | server/models/activity.js:5-32 | valid iff user, non-empty username, non-empty sessionId, a known type, a timestamp and a non-empty fileName are all present |
| Event.OptionalFieldsIrrelevant | server/models/activity.js:33-50 | documents that agree on the six required fields are both valid or both invalid |
| Store.IntOr | server/routes/activity.js:89 | `parseInt(x) \|\| d`: a given non-zero number is kept; a missing or zero one gives the default |
| Store.Select | server/routes/activity.js:66-86 | a record is selected iff it is in the collection and matches the username, the inclusive time bounds and the type |
| Store.Unselected | server/routes/activity.js:762-778 | a record is kept iff it is in the collection and does not match the delete query |
| Store.SelectPartition | server/routes/activity.js:762-778 | the matched and unmatched records together are the collection, as multisets and by count |
| Store.StampAll | server/routes/activity.js:34-38 | one stamped document per submitted document, in order |
| Store.ValidateAll | server/routes/activity.js:41 | the batch is accepted iff every document is valid, and then gives one record per document, in order |
| Store.StampedBatchValid | server/routes/activity.js:34-41 | a stamped batch is accepted iff each stamped document is valid |
| Store.AppendStamped | server/routes/activity.js:41-46 | appending keeps the old records as a prefix and adds one record per stamped document, in order |
| Store.ActivityStore.constructor | server/models/activity.js:61-63 | an empty collection |
| Store.ActivityStore.Record | server/routes/activity.js:8-54 | 400 without a username or activities array, 404 for an unknown user, 500 "Failed to record activities" and nothing stored whenever a registered user's batch is refused (some document is invalid); otherwise 201 with the count, and every stamped document appended in order |
| Store.ActivityStore.Find | server/routes/activity.js:57-99 | 400 without a username; otherwise the matching records, newest first, cut to the limit |
| Store.ActivityStore.Delete | server/routes/activity.js:753-788 | 400 without a username; otherwise exactly the matching records are removed and the reply reports how many |
| Store.QueryResult | server/routes/activity.js:66-89 | a query returns only matching records, newest first, `min(limit, matches)` of them, and no left-out match is newer than a returned record |
| Store.DeleteResult | server/routes/activity.js:762-778 | the reported count is the number removed, every unmatched record is kept, and no matching record is left |
| Pipelines.Latest | server/routes/activity.js:295 | `$max` of the timestamps: bounds every record's timestamp and is reached |
| Pipelines.Earliest | server/routes/activity.js:496 | `$min` of the timestamps: bounded by every record's timestamp and is reached |
| Pipelines.DistinctCountsBounded | server/routes/activity.js:722-732 | distinct file and language counts never exceed the record count |
| Pipelines.SummaryDays | server/routes/activity.js:115-146 | one summary entry per active day, in increasing date order |
| Pipelines.SummaryEntries | server/routes/activity.js:116-146 | each day's type counts cover the types seen that day once each, and its total is the day's record count |
| Pipelines.DayCounts | server/routes/activity.js:116-146 | an active day's summary entry holds that day's counts |
| Pipelines.LanguageDistributionGroups | server/routes/activity.js:172-198 | one entry per language present, most used first, each with its record count and change-size sum |
| Pipelines.ProjectDistributionGroups | server/routes/activity.js:224-252 | one entry per project present, most used first, with records, change sum and 1..count distinct files |
| Pipelines.FileTableGroups | server/routes/activity.js:278-312 | one entry per distinct (name, path, language, project), most used first; `lastModified` is the latest timestamp among its records |
| Pipelines.FileLimit | server/routes/activity.js:313-315 | `$limit` keeps at most `n` entries, and none cut off has more records than one kept |
| Pipelines.FindBucket | server/routes/activity.js:372-379 | `find` returns a group with the key, or nothing when no group has it |
| Pipelines.FindInBuckets | server/routes/activity.js:372-379 | looking an hour up gives that hour's group, or nothing when no record has the hour |
| Pipelines.HourDistributionComplete | server/routes/activity.js:342-379 | exactly 24 entries, entry i for hour i with that hour's count and change sum, zero when the hour is empty |
| Pipelines.HourDistributionTotal | server/routes/activity.js:372-379 | the 24 counts add up to the number of records |
| Pipelines.HoursCoverWindow | server/routes/activity.js:349-357 | every record falls in exactly one of the 24 hours |
| Pipelines.WeekdayDistributionComplete | server/routes/activity.js:405-455 | exactly seven entries, Sunday first, each with its name, count and change sum |
| Pipelines.Span | server/routes/activity.js:496-511 | `$max − $min` of the timestamps: attained by two records and bounding every pair |
| Pipelines.ScoreTenths | server/routes/activity.js:521-538 | the score in tenths is the capped weighted sum `parts` (10·min(n,1000) + min(change,10000) + 1000·min(files,10)) over 300 rounded to the nearest, `2·parts − 300 < 600·s ≤ 2·parts + 300`; it is within 0..100, 100 at all three caps, 0 for no activity |
| Pipelines.ScoreMonotone | server/routes/activity.js:521-538 | more activity, change or files never lowers the score |
| Pipelines.DailyTableGroups | server/routes/activity.js:481-518 | one daily group per active day, in increasing date order |
| Pipelines.ProductivityAt | server/routes/activity.js:521-538 | score i is the post-processing of daily group i |
| Pipelines.ProductivityOrdered | server/routes/activity.js:468-548 | scores are in strictly increasing date order |
| Pipelines.ProductivityDayCount | server/routes/activity.js:468-548 | one score per distinct active day |
| Pipelines.ProductivityEntries | server/routes/activity.js:521-538 | each score has the day's capped score, its counts, and the session length in whole minutes |
| Pipelines.DayScore | server/routes/activity.js:521-538 | an active day's post-processed metrics form that day's productivity entry |
| Pipelines.ParseInterval | server/routes/activity.js:688-703 | "day" or no interval gives daily labels, "week" weekly labels, anything else monthly labels |
| Pipelines.TrendsGroups | server/routes/activity.js:688-739 | one point per label present, in increasing label order, with distinct file and language counts at most the record count |
| Routes.Window | server/routes/activity.js:110-120 | a record is in the window iff it is the user's and no older than `parseInt(days) \|\| d` days |
| Routes.SummaryRoute | server/routes/activity.js:102-156 | 400 without a username, else the summary of the last `days \|\| 7` days |
| Routes.LanguagesRoute | server/routes/activity.js:159-208 | 400 without a username, else the language distribution of the last `days \|\| 30` days |
| Routes.ProjectsRoute | server/routes/activity.js:211-262 | 400 without a username, else the project distribution of the last `days \|\| 30` days |
| Routes.FilesRoute | server/routes/activity.js:265-326 | 400 without a username; a 500 for a negative limit; otherwise at most `limit \|\| 50` file entries |
| Routes.HoursRoute | server/routes/activity.js:329-389 | 400 without a username, else the hourly distribution of the last `days \|\| 30` days |
| Routes.WeekdaysRoute | server/routes/activity.js:392-465 | 400 without a username, else the weekday distribution of the last `days \|\| 90` days |
| Routes.ProductivityRoute | server/routes/activity.js:468-548 | 400 without a username, else the productivity scores of the last `days \|\| 30` days |
| Routes.TrendsRoute | server/routes/activity.js:680-750 | 400 without a username, else the trends of the last `days \|\| 90` days, with the interval echoed back |
| Streaks.ActiveDaysGroups | server/routes/activity.js:563-588 | one entry per active day, in increasing date order, each with that day's positive record count |
| Streaks.ActiveDayCount | server/routes/activity.js:670 | `totalActiveDays` is the number of distinct active days |
| Streaks.ActiveDatesMembers | server/routes/activity.js:590-591 | a day is among the active dates iff some record falls on it |
| Streaks.CalendarData | server/routes/activity.js:661-664 | the calendar's keys are the entries' dates, and a date's last entry decides its count |
| Streaks.CalendarCounts | server/routes/activity.js:661-664 | each calendar day holds exactly that day's record count |
| Streaks.CurrentStreak | server/routes/activity.js:594-619 | the current streak is the maximal run of active days ending today, or yesterday when today is inactive |
| Streaks.LongestStreak | server/routes/activity.js:621-658 | the loop computes the longest run of successive dates one day apart, the final run included |
| Streaks.LongestRunMeaning | server/routes/activity.js:621-658 | the longest run is the length of the longest stretch of consecutive active days: one that long exists, and none is longer |
| Streaks.LongestRunZero | server/routes/activity.js:622-658 | the longest streak is 0 iff there are no active days |
| Streaks.SortedDates | server/routes/activity.js:626-627 | sorting distinct days keeps them increasing and keeps the same days |
| Streaks.StreakSummary | server/routes/activity.js:594-658 | the current streak never exceeds the longest, and the longest is 0 iff no day is active |
| Streaks.StreaksRoute | server/routes/activity.js:551-677 | 400 iff there is no username; otherwise a report whose counts, streaks and calendar are those of the last 365 days |
| Streaks.StreakReportCorrect | server/routes/activity.js:594-672 | the assembled report says what the records of the window imply |
| Streaks.RunIsActive | server/routes/activity.js:637-650 | the loop's running count names a run of consecutive active days |
| Streaks.ActiveRunBound | server/routes/activity.js:637-650 | any run of active days ending at a date is no longer than the loop's count there |
| Helpers.JsRem | server/utils/helpers.js:45 | JavaScript `%`: the Euclidean remainder for a non-negative dividend, within (−b, 0] for a negative one, and in both cases the dividend minus the remainder is a multiple of the divisor |
| Helpers.HoursMinutes | server/utils/helpers.js:42-46 | for a non-negative duration, hours·60 + minutes is the whole minutes, with minutes in 0..59 |
| Helpers.FormatTime | server/utils/helpers.js:41-47 | a non-negative duration prints as `"<h>h <m>m"` with h·60 + m the whole minutes and m < 60 |
| Helpers.FormatTimeNegative | server/utils/helpers.js:42-47 | one minute before the epoch prints "-1h -1m" |
| Helpers.PercentTenths | server/utils/helpers.js:59-60 | value/total·100 rounded to the nearest tenth, halves up |
| Helpers.TenthsString | server/utils/helpers.js:60 | `toFixed(1)` of n tenths: digits, a point and one digit, which read back as ten times the integer part plus the last digit, giving n |
| Helpers.CalculatePercentage | server/utils/helpers.js:55-60 | "0%" for a zero total, otherwise the signed one-decimal percentage followed by "%" |
| Helpers.PercentageOfShareBounded | server/utils/helpers.js:55-60 | a share of a positive total shows no minus sign and is at most 100.0 |
| Helpers.GetFileExtension | server/utils/helpers.js:138-156 | each known language, in any ASCII case, maps to its extension, and every other name maps to "txt" (both directions) |
| Helpers.FileExtensionIgnoresCase | server/utils/helpers.js:139-156 | a name and its lower-case form get the same extension |
| Analytics.MonthBackDays | server/services/analytics.js:340-342 | one month back moves 28 to 31 days |
| Analytics.MonthBackDate | server/services/analytics.js:340-342 | the move is the previous month's length; it lands on the same day of the previous month, and a day that month lacks (31 March) overflows into the current month at day − length (3 March, or 2 March in a leap year) |
| Analytics.YearBackDays | server/services/analytics.js:343-345 | one year back moves 365 or 366 days |
| Analytics.YearBackDate | server/services/analytics.js:343-345 | the move lands on the same month and day of the previous year, 29 February becoming 1 March |
| Analytics.DayOfDaysBack | server/services/analytics.js:337-348 | whole days back move the day number back by as many |
| Analytics.RangeStartBounds | server/services/analytics.js:329-355 | the start is at most a leap year before `now` and never after it; "day" and unknown timeframes start at that day's midnight, and the others keep the time of day |
| Analytics.SameTimeOfDay | server/services/analytics.js:337-348 | whole days back keep the time of day |
| Analytics.GetDateRange | server/services/analytics.js:329-355 | the end is `now`; "week" and "custom" start 7 and 30 days back at the same time of day; "month" and "year" start at the same time of day on the day numbered as the same day of the previous month, or as the same date of the previous year; "day" and unknown timeframes start at today's midnight |
| Analytics.Period | server/services/analytics.js:23-27 | a record is in the period iff it is the user's and its timestamp is within the inclusive range |
| Analytics.ActiveHours | server/services/analytics.js:107-108 | 0 hours iff no record; otherwise `2n − 60 < 120h`, and `120h ≤ 2n + 60` unless the one-hour floor applies: n/60 rounded, at least 1 |
| Analytics.EditPeriod | server/services/analytics.js:29-33 | the edit count's query selects exactly the period's edit records |
| Analytics.ChangeSizeTotal | server/services/analytics.js:36-53 | the change-size `$match` and `$sum`, 0 when empty, is the period's change total |
| Analytics.GetStatistics | server/services/analytics.js:10-136 | "User not found" iff the user is unknown, and statistics iff the user is registered; then the counts, change total and distinct files and languages of the period (each at most the total) and the hours label |
| Analytics.GroupsFacts | server/services/analytics.js:209-238 | one group per name, most records first, with counts summing to the tagged records |
| Analytics.RoundedSum | server/services/analytics.js:240-247 | rounded shares of a positive total sum to the scale within half a unit per entry |
| Analytics.SharesFacts | server/services/analytics.js:240-247 | one entry per group, each within 0..60 minutes and 0..100 %; minutes sum to 60 and percentages to 100, within half a unit per entry |
| Analytics.ProjectBreakdownFacts | server/services/analytics.js:203-252 | one entry per project, in group order, with percentages in 0..100; empty iff no record has a project |
| Analytics.LanguageBreakdownFacts | server/services/analytics.js:144-195 | the same for languages, with the dropped count kept |
| Analytics.BreakdownFacts | server/services/analytics.js:209-247 | a breakdown is empty iff nothing is tagged, and otherwise has one entry per group, in order, with percentages in 0..100 |
| Analytics.GetProjectBreakdown | server/services/analytics.js:203-252 | the project breakdown of the timeframe's period |
| Analytics.GetLanguageBreakdown | server/services/analytics.js:144-195 | the corrected language breakdown of the timeframe's period |
| Analytics.LanguageBreakdownLosesCounts | server/services/analytics.js:167-190 | as written there is one entry per language, but every time and percentage is NaN |
| Analytics.LanguageBreakdownExample | server/services/analytics.js:167-190 | a single TypeScript edit gets a NaN percentage as written |
| Analytics.LanguageBreakdownExampleIntended | server/services/analytics.js:183-189 | the same edit gets 60 minutes and 100 % in the corrected breakdown |
| Analytics.OrUnknown | server/services/analytics.js:315-316 | "Unknown" iff the value is missing, empty or "Unknown"; otherwise the value |
| Analytics.FileGroupsFacts | server/services/analytics.js:266-306 | at most 50 groups, one per key, most records first, each counting its records and edits |
| Analytics.FileActivityEntries | server/services/analytics.js:309-317 | at most 50 entries, none iff the period is empty, one per kept group with its edits, and "Unknown" fill-ins |
| Analytics.FileTotal | server/services/analytics.js:309 | the kept total is positive iff the period has records, and bounds every group's count |
| Analytics.FileActivityMinutes | server/services/analytics.js:313 | each file's minutes are in 0..60 and never increase down the list |
| Analytics.FileGroupsNonEmpty | server/services/analytics.js:266-306 | a non-empty period keeps at least one file group |
| Analytics.GetFileActivity | server/services/analytics.js:260-322 | the file activity of the timeframe's period |
| Tracker.Session.constructor | vscode-extension/extension.js:136-144 | a session with the given id, start, user and workspace, and an empty buffer |
| Tracker.StripTrailing | vscode-extension/services/tracker.js:15 | drops only trailing separators and leaves none at the end |
| Tracker.LastSegment | vscode-extension/services/tracker.js:15 | a separator-free suffix of the path, preceded by a separator when shorter than the path |
| Tracker.Basename | vscode-extension/services/tracker.js:15 | the base name holds no separator |
| Tracker.BasenameOfJoin | vscode-extension/services/tracker.js:15 | the base name of `dir + "/" + name` is `name` |
| Tracker.LastSegmentAfterSeparator | vscode-extension/services/tracker.js:15 | the last segment after a separator is the name that follows it |
| Tracker.ProjectFolder | vscode-extension/services/tracker.js:110-115 | "unknown" outside a workspace folder, otherwise the folder's base name |
| Tracker.GetTotalChangeSize | vscode-extension/services/tracker.js:94-103 | the loop's total is the sum of the inserted texts' lengths in UTF-16 code units, as `.length` counts them |
| Tracker.TotalChangeSizeConcat | vscode-extension/services/tracker.js:94-103 | change sizes of two change lists add up |
| Tracker.TrackedEvent | vscode-extension/services/tracker.js:20-30 | the event carries type, time, base name, path, language, project folder and one size, and no user, username or session id |
| Tracker.TrackEdit | vscode-extension/services/tracker.js:9-31 | nothing happens without an on-disk document; otherwise exactly one edit event is appended |
| Tracker.TrackEditorChange | vscode-extension/services/tracker.js:38-59 | nothing happens without an on-disk editor document; otherwise exactly one focus event is appended |
| Tracker.TrackSave | vscode-extension/services/tracker.js:66-87 | nothing happens without an on-disk document; otherwise exactly one save event, with the text's UTF-16 length as its size, is appended |
| Tracker.TrackerEventsRejected | vscode-extension/services/tracker.js:20-30 | tracker events lack a session id, so the schema refuses each of them, and with them every non-empty batch |
| Extension.WorkspaceName | vscode-extension/extension.js:141 | the workspace name, or "unnamed-workspace" when missing or empty |
| Extension.RequeueKeepsEvents | vscode-extension/extension.js:216-218 | the intended requeue loses no event and keeps the newer events first |
| Extension.RequeueLosesBatch | vscode-extension/extension.js:208-218 | as written, the failed batch disappears from the buffer |
| Extension.CodeTracker.constructor | vscode-extension/extension.js:16-71 | tracking as configured; a fresh empty session when enabled with a username |
| Extension.CodeTracker.StartTracking | vscode-extension/extension.js:114-170 | nothing changes without a username; otherwise a fresh empty session replaces any old one and tracking is on |
| Extension.CodeTracker.SyncData | vscode-extension/extension.js:191-212 | with a non-empty buffer and a server and user configured, the buffer is swapped for an empty one and becomes the batch in flight; otherwise nothing changes |
| Extension.CodeTracker.CompleteSync | vscode-extension/extension.js:213-219 | intended: a failed batch is appended to the live session's buffer; a success or a missing session changes nothing |
| Extension.CodeTracker.CompleteSyncAsWritten | vscode-extension/extension.js:213-219 | as written: a failure with a live session ends in a ReferenceError and nothing is requeued |
| Extension.CodeTracker.StopTracking | vscode-extension/extension.js:172-189 | the final sync leaves, then the session is dropped and tracking is off |
| Extension.CodeTracker.Tick | vscode-extension/extension.js:160-164 | the interval syncs only when a session has events |
| Extension.CodeTracker.OnDidChangeTextDocument | vscode-extension/extension.js:81-86 | while tracking with a session, an edit event is appended exactly when tracker.js accepts the document |
| Extension.CodeTracker.OnDidChangeActiveTextEditor | vscode-extension/extension.js:87-92 | the same for editor switches and focus events |
| Extension.CodeTracker.OnDidSaveTextDocument | vscode-extension/extension.js:93-96 | the same for saves |
| Extension.CodeTracker.OnDidChangeConfiguration | vscode-extension/extension.js:99-111 | tracking starts when the setting turns on, and nothing changes otherwise; when the setting turns off, the buffer of a live session, if non-empty and sendable, is returned as the final sync's batch, then the session is dropped and tracking is off |
| Extension.CodeTracker.Deactivate | vscode-extension/extension.js:73-77 | afterwards there is no session; a live session's non-empty buffer is returned as the final sync's batch when sending is configured (otherwise the buffer is kept and nothing is sent), and tracking is off |

## Left out

- Helpers.GetFileExtension: only ASCII letters are lowered. JavaScript's `toLowerCase` also lowers other letters, e.g. the Kelvin sign U+212A to `k`, so a name spelled with such a letter maps to "txt" here and may not in the source.
- Strings.Utf16Length: a character is a Unicode scalar value. Lone surrogates, which a JavaScript string can hold, are not modelled.
- Time zones: the server's local time is taken as UTC. `setHours(0,0,0,0)`, `setDate`, `setMonth`, `setFullYear`, the `$hour` and `$dayOfWeek` operators and `$dateToString` all work on UTC day numbers.
- Dates are integer milliseconds. The ISO strings the extension writes into `timestamp` and the `Date` objects the server parses are not modelled as text.
- Floating point: `Math.round(x / t * k)` is modelled exactly as rounding of the rational `x·k / t`. `toFixed(1)` is modelled as rounding to the nearest tenth, halves up. Binary rounding error is not modelled.
- Sizes: `changeSize` and `fileSize` are natural numbers. Negative or fractional sizes are not modelled.
- Database failures: a lost connection or a failed read or write is not modelled. The 500 replies that are modelled are the invalid batch on ingest and the negative `$limit` on the files route.
- `Store.ActivityStore.Record`: the update of the user's `lastActive` time, and the `createdAt`/`updatedAt` stamps the schema's `timestamps` option adds, are not modelled. They touch the user collection and database-set fields that no modelled route reads.
- Authentication middleware, user registration and login (`server/middleware/auth.js`, `server/services/auth.js`, `vscode-extension/services/auth.js`) are not part of this model. The set of registered usernames is a parameter.
- Network: `vscode-extension/services/api.js` is not part of this model. Whether a send succeeds is a parameter of the sync's completion.
- Concurrency: the `await` in `syncData` is split into `SyncData` and a completion method. Any interleaving can be expressed by calling listeners between the two, but is not explored automatically.
- Timers: the one-minute `setInterval` is the `Tick` method; the clock is a parameter.
- UI: status bar, message boxes, the dashboard webview and the login prompt of `startTracking` are not modelled. `StartTracking` models the case where a username is configured and the prompt's refusal path, which changes no tracker state.
- Paths: `Tracker.Basename` handles POSIX separators only. Windows paths are not modelled.
- The workspace-folder lookup (`vscode.workspace.getWorkspaceFolder`) is a parameter, the folder path the editor finds.
- `ActivityStore.Find`, `ActivityStore.Delete`: the `from` and `to` bounds are given as numbers of milliseconds. The `new Date(from)` / `new Date(to)` parsing of the query string or JSON body is not modelled, nor is an unparsable bound giving an Invalid Date. The source's `if (from)` / `if (to)` / `if (type)` ignore any falsy value: a numeric `0` bound in the DELETE body or an empty `type` adds no condition there. In the model, `Some(0)` is a bound at 0 and `Some("")` a type no record has, so such values correspond to `None` here.
- Ordering of database ties: records or groups with equal sort keys are given in a fixed order (grouping order for groups, collection order for records). The source leaves that order to MongoDB. The same holds for the order of the `$push`ed type counts within a day of the summary (server/routes/activity.js:135-139): `Pipelines.DaySummaryOf` lists them in grouping order, the order in which each type first occurs in that day's records.
- `Analytics.LanguageBreakdownAsWritten`: its `$sort` on a field the `$project` dropped leaves the group order to the database. The model uses grouping order.
- The sample-data generator, `getObjectId` and `formatDate` in `server/utils/helpers.js` are not part of the core. They are not modelled.
- Requeue order: the intended `CompleteSync` appends the failed batch after the newer events, because the code uses `push`. Prepending would put the batch in front.
- `Extension.CodeTracker.OnDidChangeConfiguration`: when tracking is switched on with no username, `trackingEnabled` becomes true with no session, as in the source. The contract states only that this case leaves no session.
- `Extension.CodeTracker.StartTracking`: a live session that is replaced loses its unsent buffer. The contract says a fresh session replaces it, but states no lemma about the lost events.

## Findings

| source | as written | input that shows it | evidently intended | confidence | as-written member | corrected member |
|---|---|---|---|---|---|---|
| vscode-extension/extension.js:208,216-218 | the `catch` block requeues `activitiesToSync`, a `const` declared inside the `try`, so the requeue throws a ReferenceError and the failed batch is lost | a live session and a send that fails (server down) | failed events go back into the buffer, behind the newer ones | not executed | Extension.CodeTracker.CompleteSyncAsWritten, Extension.RequeueLosesBatch | Extension.CodeTracker.CompleteSync, Extension.RequeueKeepsEvents |
| server/services/analytics.js:167-190 | `$project` drops `count`, so `reduce` sums `undefined` and every `timeSpent` and `percentage` is `NaN` | one TypeScript edit record in the period | each language gets `Math.round(count / total × 60)` minutes and `Math.round(count / total × 100)` percent, as in the project breakdown | not executed | Analytics.LanguageBreakdownAsWritten, Analytics.LanguageBreakdownLosesCounts, Analytics.LanguageBreakdownExample | Analytics.LanguageBreakdown, Analytics.LanguageBreakdownFacts, Analytics.LanguageBreakdownExampleIntended |
