# Reporting core, modelled in Dafny

This project models the reporting engine of a scheduling application and
the two performance helpers next to it:

- **Report utilities** (`report_utils.dfy`, module `ReportUtils`): the date range a
  report covers, the inclusive range test, the report summary, grouping rows by a
  property, sorting rows by a column, selecting columns, and building CSV text.
- **Report generation** (`report_generator.dfy`, module `ReportGenerator`): the five
  report generators (appointments, TIV requests, accelerations, team activity,
  capacity), their metrics calculators, and `generateReportData`, which dispatches
  on the report type, sorts, and builds the summary.
- **Report storage** (`report_service.dfy`, module `ReportStorage`): the `ReportService`
  class. Templates and executions are each held in a storage slot that may be
  absent, corrupt, or hold a list. The class lists, gets, saves, updates and deletes
  templates; it lists, saves (keeping at most 100 per user) and deletes executions;
  and it clears a user's data.
- **Performance monitor** (`perf_metrics.dfy`, module `PerformanceMetrics`): a log of at
  most 1000 timed operations, queries over it, the mean, the 95th percentile, the
  success rate, and the process-wide instance.
- **Slot cache** (`slot_cache.dfy`, module `SlotCaching`): the cache key of a slot query,
  the read-through lookup, and invalidation by date, product type and team.

Shared modules: `wrappers.dfy` (`Option`, `Result`), `seqs.dfy` (filters, counts,
distinct elements, sums, a stable insertion sort and its permutation and ordering
lemmas), `strings.dfy` (join, split, integer text, `toFixed` on exact rationals, a
`parseFloat` for decimal text), and `report_types.dfy` (the records, rows, templates,
executions and the store snapshot).

JavaScript semantics are written out where they matter:
- **Truthiness:** `||` on optional strings.
- **Invalid dates:** an `Invalid Date` compares false against everything, and formatting it fails.
- **Sort comparators:** a `NaN` comparator result counts as a tie.
- **Negative limits:** `slice(0, limit)` with a negative limit counts from the end.
- **Rounding:** `Math.ceil` is written out, and `ceil(n * 0.95)` becomes the exact integer `(19n + 19) / 20`.
- **Falsy filters:** an empty operation name filters nothing in `getMetrics`.

Calendar arithmetic, date parsing and formatting, and `localeCompare` are supplied by
the caller as an `Env` (two date parsers, since the range filters use `parseISO` and the row builders use `new Date`, plus format and collate functions) and a `Calendar` (the
named ranges around today). Ids and "now" are parameters.

Where the code and its design notes disagree, the model follows the code:
- **Malformed custom dates:** a custom range with a malformed date does not fall back to the current month. It yields an invalid date, and formatting the summary then fails, so `generateReportData` throws.
- **Update errors:** a failed `updateTemplate` always reports the generic "Failed to update template". The inner reason is only logged.
- **Template names:** name validation happens in the page component, not in the service, so the service accepts any name.
- **Corrupt storage:** a corrupt storage slot makes every write path fail, while the read paths treat it as empty.

## Model

| member | source | states |
|---|---|---|
| ReportUtils.GetDateRange | src/features/reports/utils.ts:4-44 | a named range is one of the calendar's ranges; a custom range falls back to this month's bound for each blank date |
| ReportUtils.NamedRangeIgnoresDates | src/features/reports/utils.ts:7-43 | a non-custom range does not depend on the given dates; an unknown kind means this month |
| ReportUtils.CustomRangeBounds | src/features/reports/utils.ts:33-37 | each custom bound is the parsed date when given, else this month's bound |
| ReportUtils.DateInRangeInclusive | src/features/reports/utils.ts:46-53 | both ends are included; any invalid date is outside; inside means start <= d <= end |
| ReportUtils.MalformedBoundSelectsNothing | src/features/reports/utils.ts:35-49 | a malformed custom start date makes every date fall outside the range |
| ReportUtils.CreateReportSummary | src/features/reports/utils.ts:59-73 | succeeds iff both bounds are valid dates; the count is the data length and the dates are the formatted bounds |
| ReportUtils.GroupKey | src/features/reports/utils.ts:80 | an undefined or null property groups under `unknown` |
| ReportUtils.GroupByProperty | src/features/reports/utils.ts:75-87 | the groups are exactly the keys that occur, and each group is the input filtered to its key, in input order |
| ReportUtils.GroupStep | src/features/reports/utils.ts:79-86 | adding one item keeps the grouping invariant: the keys are those seen so far and each group is the items seen so far filtered to its key |
| ReportUtils.GroupsPartition | src/features/reports/utils.ts:79-86 | each item lands in its own group with all its occurrences and in no other group |
| ReportUtils.SortDataPermutation | src/features/reports/utils.ts:94 | the sorted rows are a permutation of the input |
| ReportUtils.SortDataMissingLast | src/features/reports/utils.ts:98-99 | rows with an undefined or null key come after every row with a key |
| ReportUtils.SortDataNumeric | src/features/reports/utils.ts:105-107 | with numeric keys, the output is non-decreasing ascending and non-increasing descending |
| ReportUtils.NumericPreorder | src/features/reports/utils.ts:94-110 | on numeric keys the row comparator is a total preorder |
| ReportUtils.CollatedPreorder | src/features/reports/utils.ts:101-103 | on string keys with a consistent collation the row comparator is a total preorder |
| ReportUtils.SortDataCollated | src/features/reports/utils.ts:101-103 | with string keys, consecutive rows are ordered by the collation in the requested direction |
| ReportUtils.SortDataKeepsRows | src/features/reports/utils.ts:94 | every output row comes from the input |
| Seqs.SortStable | src/features/reports/utils.ts:94-110 | the sort is stable: with a comparator consistent on the input, the elements comparing equal to any element come out in input order |
| ReportUtils.SortDataStable | src/features/reports/utils.ts:94-110 | rows whose keys compare equal to a given row's keep their input order, wherever the comparator is consistent |
| ReportUtils.SortDataStableNumeric | src/features/reports/utils.ts:105-107 | with numeric keys, the rows holding any one key value come out in their input order |
| ReportUtils.ProjectSpec | src/features/reports/utils.ts:119-127 | a projected row holds exactly the requested keys present in the row, in request order, with the row's values |
| ReportUtils.ProjectRow | src/features/reports/utils.ts:119-126 | the loop builds the projection of one row |
| ReportUtils.SelectColumns | src/features/reports/utils.ts:113-128 | no columns returns the data itself; otherwise one projected row per input row |
| ReportUtils.CsvCell | src/features/reports/utils.ts:141-143 | a cell containing a comma is quoted; a missing value is empty |
| ReportUtils.CsvContent | src/features/reports/utils.ts:131-146 | there is no output exactly when the data is empty |
| ReportUtils.CsvOneLinePerRow | src/features/reports/utils.ts:136-146 | the text splits into the header line (first row's keys) and one line per row |
| ReportUtils.CsvExample | src/features/reports/utils.ts:136-146 | a worked example with a quoted cell |
| ReportUtils.CsvLineAmbiguous | src/features/reports/utils.ts:139-145 | quotes inside cells are not escaped, so two different rows can print the same line |
| Seqs.Find | src/features/reports/dataGenerator.ts:75-77 | `find` yields the first element that satisfies the predicate, and none exactly when no element does; the user, team and template lookups all use it |
| ReportGenerator.TeamName | src/features/reports/dataGenerator.ts:86 | a found name belongs to a team with the given id; there is none exactly when the id is absent or no team has it |
| ReportGenerator.MapAll | src/features/reports/dataGenerator.ts:76-90 | mapping succeeds iff every element succeeds, element by element |
| ReportGenerator.AppointmentsRowsSelected | src/features/reports/dataGenerator.ts:67-91 | the rows are exactly the in-range events of the team, in order; the report fails iff a selected start or end time is not a valid `new Date`; each row carries its event id and a non-empty status that defaults to `scheduled` |
| ReportGenerator.AppointmentsSucceed | src/features/reports/dataGenerator.ts:67-91 | the appointments report fails exactly when the start or end time of some selected event is not a valid `new Date` |
| ReportGenerator.AppointmentRowFacts | src/features/reports/dataGenerator.ts:76-89 | the row of an event is built iff both its times are valid under `new Date`; it then carries the event id, both times formatted, and a non-empty status that defaults to `scheduled` |
| ReportGenerator.TivRowsSelected | src/features/reports/dataGenerator.ts:93-115 | the selected requests are the team's requests whose `createdAt` is in range; if `new Date` cannot read one of their `createdAt` the report has no rows, else one row per request in order, with its id, status, formatted date and order type defaulting to `N/A`; a missing or corrupt store gives no rows |
| ReportGenerator.AccelerationRowsSelected | src/features/reports/dataGenerator.ts:117-139 | the selected accelerations are the team's ones whose `createdAt` is in range; if `new Date` cannot read one of their `createdAt` the report has no rows, else one row per acceleration in order, with its id, customer, formatted date and reason defaulting to `N/A`; a missing or corrupt store gives no rows |
| ReportGenerator.TeamActivityRows | src/features/reports/dataGenerator.ts:141-163 | one row per team with its member count and in-range appointment count; the average is `0` iff there are no members |
| ReportGenerator.CeilDiv | src/features/reports/dataGenerator.ts:177 | the rounded-up quotient |
| ReportGenerator.WorkDays | src/features/reports/dataGenerator.ts:177 | the number of days, rounded up, between valid bounds; not a number otherwise |
| ReportGenerator.CapacityRows | src/features/reports/dataGenerator.ts:165-192 | row i is team i with its id and name, its member count, its in-range appointment count and the work days; the rate is `0%` iff the potential capacity is not positive, so always when the team has no members |
| ReportGenerator.UtilizationTextZero | src/features/reports/dataGenerator.ts:179-181 | the printed utilisation is `0%` exactly when the potential capacity is not positive |
| ReportGenerator.TallyStep | src/features/reports/dataGenerator.ts:198-204 | one loop step adds one to the key's count and appends a new key to the key order |
| ReportGenerator.CalculateAppointmentMetrics | src/features/reports/dataGenerator.ts:194-211 | the loop computes the total, the status and product tallies and their breakdown text |
| ReportGenerator.AppointmentBreakdownTotal | src/features/reports/dataGenerator.ts:194-211 | the status counts add up to the number of rows; there are no more products than rows |
| ReportGenerator.OccurrencesSum | src/features/reports/dataGenerator.ts:198-204 | over the distinct keys, the occurrence counts sum to the length |
| ReportGenerator.TivMetricsOf | src/features/reports/dataGenerator.ts:213-225 | the approved, pending and rejected counts are the numbers of rows with those statuses, together at most the total; the rate is `0%` iff there are no rows |
| ReportGenerator.TivHalfApproved | src/features/reports/dataGenerator.ts:223 | two approved out of four prints `50.0%` |
| ReportGenerator.AccelerationMetricsOf | src/features/reports/dataGenerator.ts:227-232 | the unique customers are the distinct names, at most the total |
| ReportGenerator.TeamActivityMetricsOf | src/features/reports/dataGenerator.ts:234-243 | the totals are the team count, user count and summed appointments; the average is `0` iff there are no teams |
| ReportGenerator.CapacityMetricsOf | src/features/reports/dataGenerator.ts:245-257 | the team count is the number of rows |
| ReportGenerator.CapacityMetricsEmpty | src/features/reports/dataGenerator.ts:246-251 | no rows gives `0.00%` |
| ReportGenerator.RateReadsBack | src/features/reports/dataGenerator.ts:248-249 | parsing a printed rate gives back the rounded rate |
| ReportGenerator.CapacityMetricsOfReport | src/features/reports/dataGenerator.ts:245-257 | on the capacity report's rows, the average is the printed mean of the rounded rates |
| ReportGenerator.GenerateReportData | src/features/reports/dataGenerator.ts:13-65 | succeeds iff the generator succeeds and both bounds are valid; sorts only when the column exists in the first row; the summary counts the data |
| ReportGenerator.GenerateRows | src/features/reports/dataGenerator.ts:21-49 | the rows and metrics are those the configured report type's generator and metric function give, and a generator failure is passed on |
| ReportGenerator.UnknownTypeIsEmpty | src/features/reports/dataGenerator.ts:47-48 | an unknown report type gives no rows and empty metrics |
| ReportGenerator.ReportDataIsPermutation | src/features/reports/dataGenerator.ts:51-53 | the reported data is a permutation of the generated rows |
| ReportStorage.SliceTo | src/features/reports/services/reportService.ts:105 | a prefix; its length follows `slice(0, limit)` for positive and negative limits |
| ReportStorage.FindOwned | src/features/reports/services/reportService.ts:64 | the first index with that id and owner, or none when there is none |
| ReportStorage.Merge | src/features/reports/services/reportService.ts:70-74 | the merged template is stamped with the update time |
| ReportStorage.EmptyPatchTouchesOnlyStamp | src/features/reports/services/reportService.ts:70-74 | an empty patch changes only the update time |
| ReportStorage.ReportService.GetTemplates | src/features/reports/services/reportService.ts:8-19 | lists exactly the user's own and the public templates, with their multiplicity, in stored order: the i-th result is the stored template at the i-th visible position |
| ReportStorage.ReportService.GetTemplate | src/features/reports/services/reportService.ts:21-32 | the first template with the id in stored order, whoever owns it; none exactly when no template has the id |
| ReportStorage.ReportService.SaveTemplate | src/features/reports/services/reportService.ts:34-59 | appends a new private template whose creation and update stamps are the two clock readings; fails and changes nothing on corrupt storage |
| ReportStorage.SavedTemplateListed | src/features/reports/services/reportService.ts:8-19 | a saved template is listed for its owner and for no other user |
| ReportStorage.ReportService.UpdateTemplate | src/features/reports/services/reportService.ts:61-82 | fails iff storage is corrupt or the user owns no template with the id; otherwise replaces exactly that one |
| ReportStorage.UpdateTouchesOne | src/features/reports/services/reportService.ts:64-74 | an update leaves every other template, and every other user's template, unchanged |
| ReportStorage.ReportService.DeleteTemplate | src/features/reports/services/reportService.ts:84-94 | removes the user's templates with the id |
| ReportStorage.DeleteTemplateExact | src/features/reports/services/reportService.ts:87 | exactly the templates with that id and owner disappear; all others keep their count |
| ReportStorage.DeleteNeedsOwner | src/features/reports/services/reportService.ts:87 | another user's template is never deleted |
| ReportStorage.ReportService.GetExecutions | src/features/reports/services/reportService.ts:96-110 | only the user's executions; with n the user's count, `min(limit, n)` of them for a non-negative limit and `n + limit` (at least 0) for a negative one; every one of them, as often as stored, when the limit covers n; the limit defaults to 50 |
| ReportStorage.HistoryNewestFirst | src/features/reports/services/reportService.ts:102-105 | the history is ordered newest first |
| ReportStorage.HistoryKeepsNewest | src/features/reports/services/reportService.ts:102-105 | with valid times, no execution of the user left out of the history is newer than one in it |
| ReportStorage.ReportService.SaveExecution | src/features/reports/services/reportService.ts:112-144 | on readable storage returns the new execution stamped with the id and time and stores exactly the retention step as written applied to the old list; on corrupt storage fails and changes nothing |
| ReportStorage.SaveDuplicatesNewest | src/features/reports/services/reportService.ts:122-134 | as written, retention past 100 stores the new execution twice |
| ReportStorage.SaveKeepsOthers | src/features/reports/services/reportService.ts:122-137 | saving leaves every other user's executions as they were |
| ReportStorage.NewestIsKept | src/features/reports/services/reportService.ts:125-130 | the newest execution is among the ids kept |
| ReportStorage.RetainKeepsNewestOnce | src/features/reports/services/reportService.ts:122-137 | the corrected retention stores the new execution exactly once |
| ReportStorage.RetainKeepsOthers | src/features/reports/services/reportService.ts:122-137 | the corrected retention leaves other users' executions as they were |
| ReportStorage.RetainBound | src/features/reports/services/reportService.ts:122-137 | the corrected retention keeps at most 100 executions of the user |
| ReportStorage.RetainKeepsMax | src/features/reports/services/reportService.ts:122-137 | with distinct ids, the corrected retention leaves the user exactly 100 executions when they had more and all of them otherwise, still with distinct ids |
| ReportStorage.NewestIdsDominate | src/features/reports/services/reportService.ts:125-130 | with valid times and ids that identify records, no execution whose id is outside the 100 newest ids is newer than one whose id is inside |
| ReportStorage.RetainDropsOnlyOlder | src/features/reports/services/reportService.ts:122-137 | the corrected retention drops only executions of the user that are no newer than any it keeps |
| ReportStorage.SaveDropsOnlyOlder | src/features/reports/services/reportService.ts:122-137 | as written too, when the new execution is the user's newest, no dropped execution is newer than a stored one |
| ReportStorage.SaveKeepsAtMostMaxIds | src/features/reports/services/reportService.ts:122-137 | as written, when the new execution is the user's newest, the user is left with at most 100 different ids |
| ReportStorage.ReportService.DeleteExecution | src/features/reports/services/reportService.ts:146-156 | removes the user's executions with the id |
| ReportStorage.ReportService.ClearUserData | src/features/reports/services/reportService.ts:158-170 | removes all of the user's templates, then executions; a corrupt slot stops the clearing silently |
| ReportStorage.ClearedUserHasNothing | src/features/reports/services/reportService.ts:158-170 | after clearing, the user owns no execution and no template |
| PerformanceMetrics.WindowSlide | src/lib/optimization/metrics.ts:51-58 | trimming after each push keeps the last 1000 of everything pushed |
| PerformanceMetrics.PerformanceMonitor.RecordMetric | src/lib/optimization/metrics.ts:51-58 | the log is the last 1000 metrics ever recorded |
| PerformanceMetrics.PerformanceMonitor.GetMetrics | src/lib/optimization/metrics.ts:60-78 | a metric is returned, as often as it is logged, iff it has the operation and lies in the time range; the i-th result is the logged metric at the i-th selected position, so recording order is kept |
| PerformanceMetrics.QueryOrder | src/lib/optimization/metrics.ts:66-75 | the operation filter followed by the time filter selects what one filter by the whole query selects, in the same order |
| PerformanceMetrics.PerformanceMonitor.AverageResponseTime | src/lib/optimization/metrics.ts:80-86 | no matching metrics gives 0 |
| PerformanceMetrics.AverageBounds | src/lib/optimization/metrics.ts:80-86 | the mean lies between any bounds of the durations |
| PerformanceMetrics.TotalBounds | src/lib/optimization/metrics.ts:84 | the total lies between n times any bounds of the durations |
| PerformanceMetrics.P95Index | src/lib/optimization/metrics.ts:95 | the index is in range and is `ceil(0.95 n) - 1` |
| PerformanceMetrics.PerformanceMonitor.P95ResponseTime | src/lib/optimization/metrics.ts:88-97 | 0 when nothing matches; otherwise one of the recorded durations, with at least 95% of the samples at most it and the samples from index `ceil(0.95 n) - 1` on at least it |
| PerformanceMetrics.P95Rank | src/lib/optimization/metrics.ts:88-97 | at least 95% of the samples are at most the percentile, and the samples from its index on are at least it |
| PerformanceMetrics.SortedRank | src/lib/optimization/metrics.ts:95-96 | in an ascending list, at least index+1 samples are at most the sample at that index and the rest from it on are at least it |
| PerformanceMetrics.PerformanceMonitor.SuccessRate | src/lib/optimization/metrics.ts:99-105 | between 0 and 100; 100 iff every matching run succeeded; 0 iff none did |
| PerformanceMetrics.MonitorRegistry.GetInstance | src/lib/optimization/metrics.ts:18-23 | the first call creates an empty monitor; later calls return the same one |
| SlotCaching.KeySegments | src/lib/optimization/slotCache.ts:16-22 | a key splits into `slots`, the date, the product type and the team or `all` |
| SlotCaching.KeysDistinguishQueries | src/lib/optimization/slotCache.ts:16-22 | two queries share a key iff they agree on date, product type and team segment |
| SlotCaching.SlotCache.GetAvailableSlots | src/lib/optimization/slotCache.ts:25-45 | a hit returns the cached list and changes nothing; a miss stores and returns the fetched list |
| SlotCaching.SlotCache.InvalidateSlotCache | src/lib/optimization/slotCache.ts:48-70 | no parameters clears everything; otherwise exactly the matching keys go and every other entry keeps its value |
| SlotCaching.MatchesGenerated | src/lib/optimization/slotCache.ts:60-66 | a generated key is invalidated iff every given parameter equals the field it was built from |
| SlotCaching.ColonTeamSurvives | src/lib/optimization/slotCache.ts:61-65 | a team id containing `:` is not matched by invalidating that team |

## Left out

- **Browser and storage I/O:** local storage, JSON encoding and decoding, and the download of exported files are left out. Storage is a slot that is absent, corrupt or holds a list, and the CSV text is the result.
- **Storage quota:** writes that fail on a full store are not modelled. Only a corrupt slot makes a write fail.
- **Date library:** calendar arithmetic, date parsing and formatting are left out. They are the caller's `Env` and `Calendar`.
- **Floating point:** rates and durations are exact rationals. `toFixed` rounds half up on exact values, so a double that sits just below a half can print differently.
- **`parseFloat`:** it is modelled on plain decimal text only. Exponents, `Infinity` and leading junk are left out.
- **Object key order:** JavaScript lists integer-like keys first. Records here keep insertion order.
- **Inconsistent comparators:** the engine's sort is a stable insertion sort. Ordering and stability are proved only for comparators that are consistent on the data. The `sortData` comparator is not consistent on rows whose key is missing (two such rows each compare after the other), on mixed kinds of key, or on `NaN`; an engine may order those differently.
- **Prototype keys:** grouping and tallies use plain objects, so a key such as `constructor`, `toString` or `__proto__` finds an inherited property. `groupByProperty` then pushes onto an inherited function and throws, the tallies of `calculateAppointmentMetrics` print a function text, and `selectColumns` treats an inherited name as present (`col in item`). The model's `GroupByProperty`, `GroupKey`, `CalculateAppointmentMetrics`, `ProjectRow` and `SelectColumns` treat every key as an own key.
- SlotCaching.SlotCache.GetAvailableSlots: modelled as one atomic step. The source awaits the fetch between the cache miss and the store, so two concurrent misses both fetch, and a write or invalidation in between can be overwritten by stale slots; neither is modelled.
- **Retention with invalid times:** the retention and history order lemmas assume valid execution times and, for retention, that executions sharing an id are the same record. An invalid time compares as a tie, so which executions are dropped then depends on input order.
- **`measureAsync`:** timing and the clock are left out. The metric it records is the argument of `RecordMetric`.
- **Ids and time:** uuid generation and the current time are parameters.
- **Aliasing:** `getMetrics` returns the internal array when no filter applies, and a caller could mutate it. The model returns a value.
- **Template patches:** patch fields set explicitly to `undefined` are not distinguished from absent ones.
- **Unused configuration:** fields that no modelled operation reads are not modelled.
- **Types module:** `src/types` is not part of this model, so the slot cache is generic in its slot type.
- **Cache library:** the slot cache's library policy (500 entries, five-minute expiry, recency on read) is left out. The cache is a map.
- **Fetching slots:** `fetchSlotsFromStore` is a placeholder that returns no slots. The model takes the fetch as a parameter.
- ReportStorage.ReportService.GetExecutions: the contract states ownership, the count and completeness; the newest-first order of the same expression is stated by `HistoryNewestFirst` and `HistoryKeepsNewest`, which need valid times because an invalid time compares as a tie.
- PerformanceMetrics.PerformanceMonitor.AverageResponseTime: the contract states the empty case only; the bounds on the mean are stated by `AverageBounds`.
- ReportGenerator.CapacityMetricsOf: the contract states the team count only; the average rate is stated by `CapacityMetricsOfReport` for rows of the capacity report, whose rates are printed numbers.

## Findings

| source | as written | input that shows it | evidently intended | confidence | as-written member | corrected member |
|---|---|---|---|---|---|---|
| src/features/reports/services/reportService.ts:122-134 | when a user has more than 100 executions, the kept ids already include the new one, and the new execution is then appended again | a user with 100 stored executions saves one more, newest, execution | keep the 100 newest executions of the user, each stored once | not executed | ReportStorage.SaveDuplicatesNewest | ReportStorage.RetainKeepsNewestOnce, ReportStorage.RetainKeepsMax |
