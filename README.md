# Qualification tracker: timeline layout core

This project models, in Dafny, the scheduling logic of the qualification tracker's single React
component (`src/App.jsx`). The tracker shows software "qualifications" on a monthly timeline. A
qualification is a version under test for a team in one environment, over a date range.

- **Calendar** (`calendar.dfy`): the proleptic Gregorian calendar on day numbers (days since
  1970-01-01), the `getDay()` weekday, and `getWorkingDays`, the loop that lists the Monday–Friday
  days of the viewed month. These days are the timeline's columns.
- **Layout** (`layout.dfy`): the arithmetic of `renderQualificationBar`. It clips a record's range
  to the month, scans the working days once, and places the bar as the integer triple *(first
  column, number of columns, columns in the month)*. It yields no bar when the count is zero.
- **Records** (`records.dfy`): the qualification record, the fixed environment/colour table, and
  the copy-on-write add/edit/delete of the record list. Also modelled: the editor's submit check,
  and the choice between adding and editing.
- **Filtering** (`filtering.dfy`): `getQualificationsForEnvironment`, the environment, team and
  case-insensitive search filters, and the stable start-date sort that fixes the row order.
- **Sequences** (`sequences.dfy`): `Array.prototype.filter` and its properties, shared by the
  environment filter and delete. **Wrappers** (`wrappers.dfy`): `Option`.
- **Scenarios** (`scenarios.dfy`): September 2024, which starts on a Sunday and has 21 columns.

Dates are integers. Months are numbered 1–12, i.e. JavaScript's `getMonth()` plus one.
`DayNumber` follows `new Date(year, month, day)` for four-digit years, including its overflow of
`day` into neighbouring months. So `MonthEnd` is literally day 0 of the next month, as on lines 108
and 132.

A record from 2024-09-15 to 2024-09-25 covers 8 working days (16–20 and 23–25 September): see
`Scenarios.MidMonthBar`.

## Model

| member | source | states |
|---|---|---|
| `Calendar.DayNumber` | src/App.jsx:107-115 | `new Date(year, month, day)` as a day number; its calendar is fixed by `MonthsAreContiguous`, `YearLength` and `EpochIsThursday` |
| `Calendar.MonthStart` | src/App.jsx:107 | the first of the month; specified with the month's days in `MonthsAreContiguous` |
| `Calendar.MonthEnd` | src/App.jsx:108 | day 0 of the next month; `MonthsAreContiguous` shows it is day `DaysInMonth` of this month |
| `Calendar.WorkingDays` | src/App.jsx:111-123 | the month's working-day list; specified by `WorkingDaysOfMonth` |
| `Calendar.Weekday` | src/App.jsx:116 | `getDay()` lies in 0..6 (0 = Sunday), anchored at Thursday 1970-01-01 |
| `Calendar.DaysInMonth` | src/App.jsx:108-109 | a month has 28 to 31 days under the Gregorian leap-year rule |
| `Calendar.YearLength` | src/App.jsx:108 | a March-to-February year has 366 days exactly when its February is a leap February |
| `Calendar.MonthsAreContiguous` | src/App.jsx:107-109 | day 0 of the next month is day `DaysInMonth` of this month, so the month's days are the consecutive numbers `MonthStart..MonthEnd` |
| `Calendar.DayAbbreviation` | src/App.jsx:254-257 | the header label is neither "Dim" nor "Sam" exactly for working days; "Lun" exactly for Mondays |
| `Calendar.WeekdaysMembership` | src/App.jsx:114-123 | a day is listed iff it lies in the range and is Monday to Friday |
| `Calendar.WeekdaysAscending` | src/App.jsx:114-123 | the listed days are strictly increasing, in range and all Monday to Friday |
| `Calendar.WeekdaysSplit` | src/App.jsx:114-123 | listing two adjacent stretches one after the other gives the list of their union |
| `Calendar.WeekdayShift` | src/App.jsx:116 | the weekday `k` days later is the weekday plus `k`, wrapped past Saturday |
| `Calendar.WeekHasFiveWorkingDays` | src/App.jsx:119 | any seven consecutive days hold exactly five working days |
| `Calendar.WeekdaysAtMost` | src/App.jsx:114-123 | a stretch of `n` days has at most `n` working days |
| `Calendar.WorkingDaysPerMonth` | src/App.jsx:114-123 | a month has between 20 and `DaysInMonth - 8` working days |
| `Calendar.WorkingDaysOfMonth` | src/App.jsx:104-126 | the working-day list holds every Monday–Friday day of the month exactly once, in order, and nothing else; it has 20 to 23 entries |
| `Calendar.GetWorkingDays` | src/App.jsx:104-126 | the loop over days 1..daysInMonth returns the month's working-day list, twice (day numbers and day labels) |
| `Calendar.EpochIsThursday` | src/App.jsx:116 | the day numbering starts at Thursday 1970-01-01 |
| `Layout.VisibleStart` | src/App.jsx:135 | the record's start clipped to the first of the month; its effect on the bar is stated by `BarMeasures` |
| `Layout.VisibleEnd` | src/App.jsx:136 | the record's end clipped to the last of the month; its effect on the bar is stated by `BarMeasures` |
| `Layout.BarFor` | src/App.jsx:128-157 | the record's bar in the month; specified by `BarMeasures`, `BarForSpec` and `OffsetsSpanDuration` |
| `Layout.CountWithin` | src/App.jsx:139-149 | the count of days in the visible range is at most the number of days, and zero exactly when none is in range |
| `Layout.FirstWithin` | src/App.jsx:140-146 | the recorded start offset is the least index in range, or -1 when there is none |
| `Layout.LastWithin` | src/App.jsx:141-147 | the recorded end offset is the greatest index in range, or -1 when there is none |
| `Layout.ScanWorkingDays` | src/App.jsx:139-150 | the single scan returns the count, the first index and the last index of the working days in the visible range |
| `Layout.RenderQualificationBar` | src/App.jsx:128-157 | clip, scan, and place: the result is the record's bar for the month (none when the count is 0), with width > 0 and left + width ≤ total |
| `Layout.CountConcat` | src/App.jsx:143-149 | counting over two concatenated lists adds the counts |
| `Layout.CountAllWithin` | src/App.jsx:143-149 | when every day is in range the count is the length |
| `Layout.RangeSplit` | src/App.jsx:135-136 | the month's working days split into those before, inside and after a clipped range |
| `Layout.RangeColumns` | src/App.jsx:143-150 | the columns in a clipped range form one contiguous block, starting after the working days before it and as long as the working days inside it |
| `Layout.RangeLayout` | src/App.jsx:143-155 | the scan's bar is (working days before the range, working days in the range, working days of the month) |
| `Layout.BarMeasures` | src/App.jsx:131-157 | a record's bar starts after the month's working days before its clipped start, it spans the working days of its clipped range, and there is no bar when that span is empty |
| `Layout.OffsetsSpanDuration` | src/App.jsx:139-150 | when the count is non-zero, `endOffsetDays - startOffsetDays + 1 == durationDays` for the month's working days |
| `Layout.BarForSpec` | src/App.jsx:135-157 | the bar covers exactly the columns of the working days inside the record's range; it fits in the 20–23 columns; there is no bar iff no working day of the month lies in the record's range (outside the month or weekends only) |
| `Records.FindEnvironment` | src/App.jsx:228 | `find` returns the first table entry with that name, and none exactly when no entry has it |
| `Records.EnvironmentColor` | src/App.jsx:228 | the colour of the `find` result, or the grey `#6B7280`; specified by `EnvironmentColorSpec` |
| `Records.AddQualification` | src/App.jsx:224-233 | `handleAddQualification`; specified by `AddSpec` and `DeleteUndoesAdd` |
| `Records.EditQualification` | src/App.jsx:235-240 | `handleEditQualification`; specified by `EditSpec`, `EditUnknownId` and `EditIdempotent` |
| `Records.DeleteQualification` | src/App.jsx:242-243 | `handleDeleteQualification`; specified by `DeleteSpec`, `DeleteIdempotent` and `DeletePreserves` |
| `Records.PassesSubmitCheckAsWritten` | src/App.jsx:677 | the submit check as the handler evaluates it; `EmptyDatePassesAsWritten` shows it accepts an empty date |
| `Records.Submit` | src/App.jsx:677-703 | the submit button with the intended check; specified by `SubmitSpec` |
| `Records.EnvironmentColorSpec` | src/App.jsx:85-89 | a known environment gets its table colour; the grey `#6B7280` is given exactly to names absent from the table |
| `Records.Recolor` | src/App.jsx:237 | the re-coloured record has the colour derived from its environment and differs from the input in the colour only |
| `Records.AddSpec` | src/App.jsx:224-233 | add appends one record with the draft's fields, the given id and the derived colour, and keeps the old list as prefix; it keeps derived colours, ordered dates and, for a fresh id, unique ids |
| `Records.DeleteUndoesAdd` | src/App.jsx:224-243 | deleting a record just added with a fresh id restores the old list |
| `Records.EditSpec` | src/App.jsx:235-240 | edit keeps length, order and ids; records with the edited id become the edited record with its colour re-derived, all others are unchanged; the list invariants survive |
| `Records.EditUnknownId` | src/App.jsx:236-238 | an edit whose id no record carries changes nothing |
| `Records.EditIdempotent` | src/App.jsx:235-240 | applying the same edit twice equals applying it once |
| `Records.DeleteSpec` | src/App.jsx:242-243 | delete removes exactly the records with the id, keeps every other occurrence, and keeps their order |
| `Records.DeleteIdempotent` | src/App.jsx:243 | deleting twice by one id equals deleting once |
| `Records.DeletePreserves` | src/App.jsx:243 | delete keeps derived colours, ordered dates and unique ids |
| `Records.FilterKeepsUniqueIds` | src/App.jsx:243 | a filtered list of records with unique ids has unique ids |
| `Records.EmptyDatePassesAsWritten` | src/App.jsx:673-680 | a form with an empty start date passes the submit check as written but is not a valid submission |
| `Records.SubmitChecksAgreeOnDates` | src/App.jsx:677 | when both dates are present, the check as written and the intended check agree |
| `Records.SubmitSpec` | src/App.jsx:677-703 | a rejected submission (empty name or team, missing date, start after end) leaves the list unchanged; an accepted addition appends one record after the unchanged old list, an accepted edit keeps the length and every record's id, and both keep every list invariant |
| `Filtering.LowerChar` | src/App.jsx:188 | `toLowerCase` adds 32 to the code of `A`–`Z` and of the Latin-1 capitals `À`–`Þ` other than `×`, and leaves every other character unchanged |
| `Filtering.ToLower` | src/App.jsx:188-190 | lower-casing keeps the length and maps each character |
| `Filtering.ToLowerIdempotent` | src/App.jsx:188-190 | lower-casing twice equals lower-casing once |
| `Filtering.Includes` | src/App.jsx:188-190 | `includes` holds iff the needle occurs at some position of the text |
| `Filtering.MatchesSearch` | src/App.jsx:187-190 | the search condition; `SearchIgnoresCase` shows it ignores case |
| `Filtering.Matches` | src/App.jsx:184-190 | the four filter conditions; their use is stated by `QualificationsForEnvironmentSpec` |
| `Filtering.QualificationsForEnvironment` | src/App.jsx:182-192 | `getQualificationsForEnvironment`; specified by `QualificationsForEnvironmentSpec` |
| `Filtering.QualificationsForEnvironmentSpec` | src/App.jsx:182-192 | the environment's list is an order-preserving subsequence of the records, holding each matching record as often as the list does and nothing else |
| `Filtering.EnvironmentsDisjoint` | src/App.jsx:184 | no record is listed under two environments |
| `Filtering.NoFilterListsEnvironment` | src/App.jsx:182-192 | with filters "all", "all" and an empty search, an environment lists exactly its records |
| `Filtering.Insert` | src/App.jsx:405 | one insertion step of the stable sort; specified by `InsertMultiset`, `InsertSorted` and `InsertStable` |
| `Filtering.SortByStart` | src/App.jsx:405 | the start-date sort; specified by `SortByStartSpec` |
| `Filtering.Rows` | src/App.jsx:403-470 | the rows of one environment; specified by `RowsSpec` |
| `Filtering.InsertMultiset` | src/App.jsx:405 | inserting adds exactly the one record |
| `Filtering.InsertSorted` | src/App.jsx:405 | inserting into a start-ordered list keeps it ordered |
| `Filtering.InsertStable` | src/App.jsx:405 | inserting puts the record before later records with the same start |
| `Filtering.SortByStartSpec` | src/App.jsx:405 | the sort orders by the comparator, is a permutation, and keeps records with equal start dates in their original relative order |
| `Filtering.RowsSpec` | src/App.jsx:403-470 | an environment's rows, shared by the label and bar columns, are the matching records, in start order, stable for equal starts |
| `Sequences.Filter` | src/App.jsx:183 | filtering never lengthens the list |
| `Sequences.FilterConcat` | src/App.jsx:183 | filtering distributes over concatenation |
| `Sequences.FilterMembership` | src/App.jsx:183 | an element is kept iff it is in the list and satisfies the predicate |
| `Sequences.FilterMultiplicity` | src/App.jsx:243 | a kept value occurs as often as in the input; a rejected one not at all |
| `Sequences.FilterIsSubsequence` | src/App.jsx:243 | filtering keeps the relative order of the kept elements |
| `Sequences.FilterAll` | src/App.jsx:243 | a filter that keeps every element is the identity |
| `Sequences.FilterIdempotent` | src/App.jsx:243 | filtering twice equals filtering once |
| `Scenarios.September2024Bounds` | src/App.jsx:131-132 | September 2024 runs from day 19967, a Sunday, to day 19996 |
| `Scenarios.September2024Days` | src/App.jsx:104-126 | September 2024 has 21 working days |
| `Scenarios.FirstTwoWeeks` | src/App.jsx:114-123 | 1–14 September 2024 holds 10 working days |
| `Scenarios.ThirdWeekToWednesday` | src/App.jsx:114-123 | 15–25 September 2024 holds 8 working days |
| `Scenarios.MidMonthBar` | src/App.jsx:128-157 | 15–25 September 2024 gives the bar (10, 8, 21): left 10/21, width 8/21 |
| `Scenarios.WeekendOnlyHasNoBar` | src/App.jsx:152 | Saturday 14 to Sunday 15 September 2024 gives no bar |
| `Scenarios.ClippedToWholeMonth` | src/App.jsx:135-136 | 2024-08-20 to 2024-10-05 is clipped to the whole of September: bar (0, 21, 21) |
| `Scenarios.NextMonthHasNoBar` | src/App.jsx:152 | an October record has no bar in September |
| `Scenarios.SearchIgnoresCase` | src/App.jsx:187-190 | the search "ÉQUIPE b" matches team "Équipe B" |

## Left out

- Markup and styling: the JSX, the modals, the legend and the UI-only state flags (`showAddModal`, `editingQualification`, ...). They hold no layout logic.
- Browser storage: `localStorage` loading and saving, the JSON date revival, and the built-in default record set (lines 5-75, 94-101). Opaque I/O.
- CSV export (lines 204-222): it needs Blob, object URLs and DOM clicks, and has no parser to round-trip against.
- The team list `[...new Set(qualifications.map(q => q.team))]` (line 91): it only feeds a selector.
- Percentages (lines 156-157): floating point is not modelled. The model keeps the integer triple and proves `0 < width` and `left + width <= total`, i.e. left% + width% ≤ 100.
- Time of day and time zones: working days are built at local midnight (line 115), but form dates are parsed as UTC midnight (lines 673-674). So outside UTC, a record entered through the form loses one column at one edge: its first day east of UTC, its last day west of UTC. This happens when that day is a working day of the month and was not clipped at line 135/136. A record whose start equals its end gets no bar. Records built with `new Date(y, m, d)` (the built-in defaults) are at local midnight and lose nothing. A second effect: east of UTC, reopening a local-midnight record in the editor shows the previous day (lines 626 and 636 format it with `toISOString()`), so saving it unchanged moves both dates one day earlier. Every date here is a whole day number, which does not capture either effect.
- Two-digit years: `new Date(year, month, day)` maps years 0–99 to 1900–1999, and `DayNumber` does not; the model treats every year as written.
- `navigateMonth` (lines 198-202): its `setMonth` day overflow is not modelled. The month is a parameter.
- `toLocaleDateString` formatting, and the `Date.now()` ids: the id is a parameter. Id uniqueness is a hypothesis of the lemmas that need it.
- The "today" highlight (lines 386-392): it compares a midnight timestamp with the current instant, so it is practically never true. This is a known defect and is not modelled.
- `Filtering.LowerChar`: models `toLowerCase` for ASCII and the Latin-1 capitals only, not the full Unicode case mapping.
- JavaScript's `Array.prototype.sort` algorithm itself: it is modelled by a stable insertion sort with the source's comparator. ECMAScript 2019 requires stability, and stability is what fixes the row order.

## Findings

| source | as written | input that shows it | evidently intended | confidence | as-written member | corrected member |
|---|---|---|---|---|---|---|
| src/App.jsx:673-680 | `!startDate` and `startDate > endDate` cannot catch an empty date field: `new Date("")` is an Invalid Date object (truthy), and comparisons with it are false | name "v4.0.0", team "Équipe A", empty start date, any end date: the check passes and an undated record is stored | a missing or unparseable date rejects the submission | high (not executed) | `Records.EmptyDatePassesAsWritten` | `Records.SubmitSpec` |
