# Timecard attendance: a verified model of the bookkeeping core

This project models the parts of the timecard web application that do
attendance bookkeeping and time accounting. The covered logic is:

- **Time accounting.** Break minutes count only closed breaks. Worked
  minutes are clamped at zero. The wage is floor-rounded. There are two
  duration formats, `H時間M分` and `H:MM`.
- **Monthly roll-ups.** This is the per-employee accumulation loop shared
  by the admin dashboard table and the spreadsheet export. It also covers
  the wage and transport estimate on the admin overview and the month
  totals on the attendance dashboard.
- **Period arithmetic.** There are two windows:
  - the calendar month `[1st, 1st of next month)` used by the export;
  - the fiscal month "11th to 10th" of the admin attendance page, with
    its default cycle chosen from today's day of month.
- **Attendance lifecycle.** The employee actions are clock in, clock out,
  start break and end break. The admin actions are update, create and
  delete, including the update's break decision table. All of them act on
  a store holding the two tables (`attendance_records`, `break_records`)
  as maps. The model also covers:
  - the status derived on the home page and the buttons offered;
  - the redirect order of the home page.
- **Small encoders and validators.**
  - The hex-encoded auth e-mail.
  - The password-change validation and call sequence.
  - The transport form's row list and payload.

Timestamps are integer milliseconds. Dates are `(year, month, day)`
triples compared in lexicographic order. Three JavaScript operators are
written out explicitly:

- `differenceInMinutes` truncates toward zero (`Calculations.TruncDiv`).
- `%` keeps the sign of its left operand (`Calculations.JsRem`).
- `new Date(y, m, d)` normalises an out-of-range month into the year and
  maps years 0..99 to 1900..1999 (`Calendar.JsLocalDate`).

Number formatting (`String(n)`, `padStart(2, '0')`), the digit prefix
read by `parseInt(s, 10)` on the fiscal page, and the radix-less `parseInt(s)`
of the export route, which reads a `0x` prefix as hexadecimal, live in `Decimal`.
The per-day statistics come from
`calculateDailyStats`, which is not part of this model, so each day's
stats are an input of the roll-up.

Modules, one per core file:

| module | models |
|---|---|
| `Calculations` | `src/utils/calculations.ts` |
| `DashboardTable` | `src/components/admin/DashboardTable.tsx` (the accumulation loop, `formatTime`, the admin filter) |
| `ExportMonthlyReport` | `src/app/api/export-monthly-report/route.ts` |
| `AdminEstimate` | `src/features/admin/actions.ts` |
| `AttendanceDashboard` | `src/components/admin/AttendanceDashboard.tsx` |
| `FiscalMonth` | `src/app/admin/attendance/page.tsx` |
| `AttendanceStore` | the two tables and their `.single()` lookups |
| `AdminAttendanceActions` | `src/app/admin/attendance/actions.ts` |
| `AttendanceActions` | `src/features/attendance/actions.ts` |
| `HomePage` | `src/app/page.tsx` |
| `ActionButtons` | `src/components/attendance-actions.tsx` |
| `AuthHelpers` | `src/utils/auth-helpers.ts` |
| `ChangePassword` | `src/app/change-password/actions.ts` |
| `TransportForm` | `src/components/transport-input-form.tsx` |
| `Calendar`, `Decimal`, `Wrappers` | shared dates, decimal text, `Option` |

Design choices that shape the contracts:

- **Lookups.** The lookups written with `.single()` / `.maybeSingle()`
  yield a row only when exactly one row matches. The `Store` methods
  `SingleRecordOn` and `SingleBreakOf` model this. As a consequence, the
  duplicate guards of `clockIn` and `createAttendance` refuse only when
  exactly one record exists. The store invariant "at most one record per
  user and day" (`AttendanceStore.UniquePerDay`) is what makes the guards
  complete: every store action preserves it.
- **Loops.** `DashboardTable.UserMonthlyStats`,
  `AdminEstimate.EmployeeEstimateOf`, `AdminEstimate.GetAdminData` and
  `ExportMonthlyReport.FillRows` keep the source's loops and in-place
  accumulators. Each is proved equal to a recursive specification
  function (`StatsOf`, `EstimateOf`, `StatsMap`, `ReportRows`). The
  lemmas are stated about those functions.
- **Admin estimate precision.** The estimate keeps exact milliseconds.
  `AdminEstimate.ContributionAgreesWithCalculation` proves that it agrees
  with `calculateWorkDurationMinutes` on whole-minute timestamps.
  `AdminEstimate.SecondsCountInEstimate` shows that the two differ once
  seconds are present.

## Model

| member | source | states |
|---|---|---|
| `Calculations.TruncDiv` | src/utils/calculations.ts:20 | The quotient is truncated toward zero: below the exact quotient for a non-negative dividend, above it for a negative one, by less than one divisor. |
| `Calculations.JsRem` | src/utils/calculations.ts:51 | JavaScript `%`: equal to the Euclidean remainder for non-negative operands, and in `(-b, 0]` for a negative dividend. |
| `Calculations.DifferenceInMinutes` | src/utils/calculations.ts:20 | `differenceInMinutes`: the whole minutes between two instants, truncated toward zero in both directions. |
| `Calculations.BreakContribution` | src/utils/calculations.ts:19-22 | A break without an end time contributes 0 minutes. |
| `Calculations.CalculateBreakDurationMinutes` | src/utils/calculations.ts:17-24 | The `reduce` over the breaks. Its contract is carried by the lemmas: the sum over `ClosedBreaks` (`BreakDurationIsSumOfClosed`), additive (`BreakDurationAppend`), open breaks ignored, non-negative for well-ordered breaks. |
| `Calculations.ClosedBreaks` | src/utils/calculations.ts:19 | Exactly the breaks with both times present, all of which have an end; a single break is kept iff it is closed, and with `ClosedBreaksAppend` the order and multiplicity of the kept breaks are fixed. |
| `Calculations.ClosedBreaksAppend` | src/utils/calculations.ts:19 | The closed-break filter of `a + b` is that of `a` followed by that of `b`. |
| `Calculations.BreakDurationIsSumOfClosed` | src/utils/calculations.ts:17-24 | The break total equals the sum, over the closed breaks only, of their truncated minute differences. |
| `Calculations.BreakDurationAppend` | src/utils/calculations.ts:18-23 | The reduce is additive: the total of `a + b` is the total of `a` plus the total of `b`. |
| `Calculations.OpenBreakContributesNothing` | src/utils/calculations.ts:17-23 | Removing an open break from the list leaves the break total unchanged. |
| `Calculations.BreakDurationNonNegative` | src/utils/calculations.ts:17-24 | When every closed break ends no earlier than it starts, the break total is non-negative. |
| `Calculations.CalculateWorkDurationMinutes` | src/utils/calculations.ts:29-36 | Zero when either clock time is missing. Otherwise it is `max(0, span − breaks)`: never negative, and either 0 or exactly the difference. |
| `Calculations.MissingBreaksAreEmpty` | src/utils/calculations.ts:33 | A record without a break list is computed as if its list were empty. |
| `Calculations.WorkWithinSpan` | src/utils/calculations.ts:29-36 | With well-ordered closed breaks, worked minutes never exceed the clock-in to clock-out span (or 0 if the span is negative). |
| `Calculations.CalculateWage` | src/utils/calculations.ts:41-44 | The wage is `floor(minutes × hourlyWage / 60)`, characterised by `60w ≤ minutes·wage < 60(w+1)`. |
| `Calculations.WageExamples` | src/utils/calculations.ts:41-44 | 90 minutes at 1000 pay 1500; 89 minutes pay 1483. |
| `Calculations.FormatDuration` | src/utils/calculations.ts:49-53 | `formatDuration` over integers; its shape is `FormatDurationParts` and its inverse is `ParseDuration` (`FormatDurationRoundTrip`). |
| `Calculations.FormatDurationParts` | src/utils/calculations.ts:49-53 | For minutes ≥ 0 the text is `String(minutes / 60)` + `時間` + `String(minutes % 60)` + `分`: the JavaScript remainder is the Euclidean one and the minutes are not padded. |
| `Calculations.ParseMinutesPartOf` | src/utils/calculations.ts:52 | The `M分` tail reads back as the minute number it was written from. |
| `Calculations.FormatDurationRoundTrip` | src/utils/calculations.ts:49-53 | Reading back `formatDuration(minutes)` yields `minutes` for every minutes ≥ 0. |
| `DashboardTable.CountWhere` | src/components/admin/DashboardTable.tsx:100-117 | A counter incremented at most once per record never exceeds the number of records. |
| `DashboardTable.UserRecords` | src/components/admin/DashboardTable.tsx:85 | An employee's records are exactly the records whose `user_id` is that employee's id; a single record is kept iff it is theirs, and with `UserRecordsAppend` the database order is kept. |
| `DashboardTable.UserRecordsAppend` | src/components/admin/DashboardTable.tsx:85 | The per-user filter of `a + b` is that of `a` followed by that of `b`. |
| `DashboardTable.UserRecordsIgnoresOthers` | src/components/admin/DashboardTable.tsx:85 | Records of other users never change an employee's record list, hence never change the totals. |
| `DashboardTable.DayBucketsPartitionWorkDays` | src/components/admin/DashboardTable.tsx:102-106 | The Saturday, Sunday and weekday day counts add up to the count of days with positive worked minutes. |
| `DashboardTable.StatsOf` | src/components/admin/DashboardTable.tsx:100-117 | The counters after the loop over an employee's records; `StatsOfAppend` states what one more record adds to each counter, `CountWhere` bounds them, and `UserMonthlyStats` proves the loop computes it. |
| `DashboardTable.StatsOfAppend` | src/components/admin/DashboardTable.tsx:100-117 | One more record adds one worked day iff its minutes are positive. It adds one telework day iff it is telework, independently of minutes. It adds its minutes to the work and late-night sums. |
| `DashboardTable.UserMonthlyStats` | src/components/admin/DashboardTable.tsx:85-117 | The mutable-counter loop computes exactly the specification `StatsOf` over the employee's records. The three day buckets sum to `workDays`, and the telework count is bounded by the record count. |
| `DashboardTable.DisplayEmployees` | src/components/admin/DashboardTable.tsx:29 | Exactly the employees whose role is not `admin` are displayed; a single employee is kept iff not an admin, and with `DisplayEmployeesAppend` the listing order is kept. |
| `DashboardTable.DisplayEmployeesAppend` | src/components/admin/DashboardTable.tsx:29 | The admin filter of `a + b` is that of `a` followed by that of `b`. |
| `DashboardTable.DashboardRows` | src/components/admin/DashboardTable.tsx:84-117 | One row per displayed employee, in order, each holding that employee's own totals. |
| `DashboardTable.NoAdminInDashboard` | src/components/admin/DashboardTable.tsx:29 | Every dashboard row belongs to a listed employee who is not an admin. |
| `DashboardTable.FormatClock` | src/components/admin/DashboardTable.tsx:31-35 | `formatTime` over integers; its shape is `FormatClockShape` and its inverse is `ParseClock` (`FormatClockRoundTrip`). |
| `DashboardTable.FormatClockShape` | src/components/admin/DashboardTable.tsx:31-35 | For minutes ≥ 0 the text is `String(mins / 60)` + `:` + the two-digit zero-padded `String(mins % 60)`. |
| `DashboardTable.ParseMinutePartOfPadded` | src/components/admin/DashboardTable.tsx:34 | The padded `:MM` tail reads back as its minute number. |
| `DashboardTable.ParseClockOfSplit` | src/components/admin/DashboardTable.tsx:31-35 | Text made of the digits of `mins / 60` followed by a well-formed `:MM` tail holding `mins % 60` reads back as `mins`. |
| `DashboardTable.FormatClockRoundTrip` | src/components/admin/DashboardTable.tsx:31-35 | Reading back `formatTime(mins)` yields `mins` for every mins ≥ 0. The same function is the export's `fmt`. |
| `DashboardTable.RoleMap` | src/components/admin/DashboardTable.tsx:42-47 | The four role labels; any other role has none and the cell falls back to the raw role (the same table is `ExportMonthlyReport.RoleCell`'s lookup). |
| `ExportMonthlyReport.MonthWindow` | src/app/api/export-monthly-report/route.ts:53-59 | The window's end is exactly one month after its start, for every year. |
| `ExportMonthlyReport.MonthWindowBounds` | src/app/api/export-monthly-report/route.ts:53-59 | The window is [1st of the month, 1st of the next month); December's end rolls to January of the next year. |
| `ExportMonthlyReport.InMonthWindowIff` | src/app/api/export-monthly-report/route.ts:55-68 | A valid date lies in the half-open window iff it is in that calendar month. |
| `ExportMonthlyReport.MonthWindowTwoDigitYear` | src/app/api/export-monthly-report/route.ts:53-59 | A year from 0 to 99 selects the same window as 1900 + year: `year=25` exports a month of 1925. |
| `ExportMonthlyReport.RecordsInWindow` | src/app/api/export-monthly-report/route.ts:61-70 | Only records dated inside the window reach the roll-up, and every record dated inside it does; a single record passes iff it is in the window, and with `RecordsInWindowAppend` the database order is kept. |
| `ExportMonthlyReport.RecordsInWindowAppend` | src/app/api/export-monthly-report/route.ts:61-70 | The window query over `a + b` is the query over `a` followed by the query over `b`. |
| `ExportMonthlyReport.NonAdminEmployees` | src/app/api/export-monthly-report/route.ts:41-46 | Exactly the profiles with a role other than `admin` are exported; a null role is excluded by the `neq` filter. A single profile is kept iff it qualifies, and with `NonAdminEmployeesAppend` the order is kept. |
| `ExportMonthlyReport.NonAdminEmployeesAppend` | src/app/api/export-monthly-report/route.ts:41-46 | The `neq` filter of `a + b` is that of `a` followed by that of `b`. |
| `ExportMonthlyReport.RoleCell` | src/app/api/export-monthly-report/route.ts:144-158 | A known role shows its Japanese label, an unknown role passes through unchanged, and a null role shows `''`. |
| `ExportMonthlyReport.CellAt` | src/app/api/export-monthly-report/route.ts:153-197 | Cells 13–15 are always `0:00` and cells 16–22 are always 0. |
| `ExportMonthlyReport.EmployeeCells` | src/app/api/export-monthly-report/route.ts:151-197 | Each row holds exactly 23 cells, cell `n` being `CellAt(n)`. |
| `ExportMonthlyReport.ReportRows` | src/app/api/export-monthly-report/route.ts:110-206 | One row per employee, in order, each computed from that employee's records. |
| `ExportMonthlyReport.FillRows` | src/app/api/export-monthly-report/route.ts:94-206 | The `currentRow++` loop produces exactly `ReportRows`, employee `i` written at row `i + 2`. |
| `ExportMonthlyReport.LastTwo` | src/app/api/export-monthly-report/route.ts:209 | `slice(-2)`: the last two characters (the whole string if shorter), a suffix of the year text. |
| `ExportMonthlyReport.ExportMonthlyReport` | src/app/api/export-monthly-report/route.ts:17-222 | A missing parameter gives 400 before anything else, then 401 when signed out, then 403 for non-admins, then 404 with no employees, then 500 when year or month is not a number (the invalid `Date` throws). Both are read by the radix-less `ParseIntNoRadix`, so a `0x` prefix is hexadecimal. Otherwise a workbook holds exactly `ReportRows` over the calendar-month records and is named `30XXX_<yy>年<month>月.xlsx`. |
| `AdminEstimate.BreakMs` | src/features/admin/actions.ts:69-75 | A break with either time missing subtracts nothing. |
| `AdminEstimate.OpenBreakIgnored` | src/features/admin/actions.ts:69-75 | Inserting an open break anywhere in the list leaves the break total unchanged. |
| `AdminEstimate.DayContributionMs` | src/features/admin/actions.ts:63-78 | A day adds its duration only when both clock times exist and the duration is strictly positive; otherwise 0. The total is therefore never negative. |
| `AdminEstimate.TotalMs` | src/features/admin/actions.ts:62-78 | `totalMinutes` (in milliseconds) after the loop over the records; a natural number, unchanged by an incomplete record (`IncompleteRecordAddsOnlyTransport`). |
| `AdminEstimate.TotalTransport` | src/features/admin/actions.ts:79 | `totalTransport` after the loop; an incomplete record still adds its cost, a missing cost counts 0 (`IncompleteRecordAddsOnlyTransport`). |
| `AdminEstimate.IncompleteRecordAddsOnlyTransport` | src/features/admin/actions.ts:63-79 | A record lacking a clock time adds no time but still adds its transport cost (missing cost counts 0). |
| `AdminEstimate.HourlyWageOrDefault` | src/features/admin/actions.ts:82 | A null or zero hourly wage falls back to 1000 (the `\|\|` default); any other value is kept. |
| `AdminEstimate.WageFromMs` | src/features/admin/actions.ts:86 | estimatedWage = floor(totalMs × wage / 3 600 000), the exact form of floor(minutes / 60 × wage). |
| `AdminEstimate.EmployeeRecords` | src/features/admin/actions.ts:57 | An employee's records are exactly those with its id; a single record is kept iff it has that id, and with `EmployeeRecordsAppend` the order is kept. |
| `AdminEstimate.EmployeeRecordsAppend` | src/features/admin/actions.ts:57 | The per-employee filter of `a + b` is that of `a` followed by that of `b`. |
| `AdminEstimate.EstimateOf` | src/features/admin/actions.ts:57-92 | One employee's totals and estimated wage over its own records; `EmployeeEstimateOf` proves the nested loop computes it. |
| `AdminEstimate.StatsMap` | src/features/admin/actions.ts:56-93 | `attendanceStats` after visiting the employees in order; `StatsMapKeys` and `StatsMapEntry` state its keys and entries. |
| `AdminEstimate.WindowRecords` | src/features/admin/actions.ts:38-48 | The queried records are exactly those dated on or after the 1st of today's month; a single record is kept iff it is, and with `WindowRecordsAppend` the order is kept. |
| `AdminEstimate.WindowRecordsAppend` | src/features/admin/actions.ts:38-48 | The window query over `a + b` is the query over `a` followed by the query over `b`. |
| `AdminEstimate.WindowHasNoUpperBound` | src/features/admin/actions.ts:38-48 | Any record dated today or later, or in a later year, is in the window: there is no upper bound. |
| `AdminEstimate.StatsMapKeys` | src/features/admin/actions.ts:56-93 | The stats dictionary has an entry for every employee, with or without records, and for no one else. |
| `AdminEstimate.StatsMapEntry` | src/features/admin/actions.ts:56-93 | With distinct ids, employee `i`'s entry is its own estimate over the records. |
| `AdminEstimate.AsCalcBreaks` | src/features/admin/actions.ts:69-75 | The estimate's breaks map one to one onto the break records of the per-record calculation. |
| `AdminEstimate.DifferenceOfWholeMinutes` | src/features/admin/actions.ts:66 | Between whole-minute instants the truncated minute difference is exact. |
| `AdminEstimate.BreaksAgree` | src/features/admin/actions.ts:69-75 | On whole-minute timestamps the estimate's break total equals `calculateBreakDurationMinutes` in milliseconds. |
| `AdminEstimate.ContributionAgreesWithCalculation` | src/features/admin/actions.ts:63-78 | On whole-minute timestamps a day's contribution equals `calculateWorkDurationMinutes` in milliseconds. |
| `AdminEstimate.SecondsCountInEstimate` | src/features/admin/actions.ts:66 | 90 seconds of work count 90 000 ms in the estimate but one whole minute in the per-record calculation. |
| `AdminEstimate.RecordDurationMs` | src/features/admin/actions.ts:63-76 | The `duration -=` loop over the breaks computes the day's duration. |
| `AdminEstimate.EmployeeEstimateOf` | src/features/admin/actions.ts:57-91 | The nested accumulation loop computes exactly `EstimateOf`, with non-negative total time. |
| `AdminEstimate.GetAdminData` | src/features/admin/actions.ts:12-96 | Signed out redirects to login, then a non-admin redirects home. No employee list gives empty results. Otherwise the dictionary filled in place equals `StatsMap` over the windowed records. |
| `AttendanceDashboard.WageRate` | src/components/admin/AttendanceDashboard.tsx:73 | A null or zero hourly wage falls back to 1000; any other wage is used as it is. |
| `AttendanceDashboard.RecordWage` | src/components/admin/AttendanceDashboard.tsx:71-73 | An incomplete record earns nothing; otherwise the wage is `floor(minutes × rate / 60)` of the record's worked minutes at its rate. |
| `AttendanceDashboard.MonthTotals` | src/components/admin/AttendanceDashboard.tsx:69-79 | `monthTotals`: the fold from zero. `MonthTotalsOfOne` states what one record adds and `MonthTotalsAppend` that the totals are sums over the records. |
| `AttendanceDashboard.MonthTotalsAppend` | src/components/admin/AttendanceDashboard.tsx:69-79 | Wage and transport totals are sums: additive over concatenation. |
| `AttendanceDashboard.MonthTotalsOfOne` | src/components/admin/AttendanceDashboard.tsx:72-76 | One record contributes exactly its own `RecordWage` and its transport cost (missing counts 0); an incomplete record adds no wage. |
| `AttendanceDashboard.WageTotalNonNegative` | src/components/admin/AttendanceDashboard.tsx:69-79 | With non-negative rates the wage total is never negative. |
| `AttendanceDashboard.FilteredRecords` | src/components/admin/AttendanceDashboard.tsx:57-63 | With no selected date the records are unchanged; otherwise exactly the records on that date. The totals take no selected date, so selecting one never changes them. |
| `AttendanceDashboard.FilteredRecordsAppend` | src/components/admin/AttendanceDashboard.tsx:57-63 | The filter keeps the records' order. |
| `AttendanceDashboard.HandleMonthChange` | src/components/admin/AttendanceDashboard.tsx:82-84 | A positive offset moves exactly one month forward, any other offset exactly one back, staying a valid month. |
| `AttendanceDashboard.MonthChangeInverse` | src/components/admin/AttendanceDashboard.tsx:82-84 | Next then previous, and previous then next, return to the same month. |
| `AttendanceDashboard.MonthIndexInjective` | src/components/admin/AttendanceDashboard.tsx:82-84 | Valid months with the same index are the same month, so the month step's index statement pins the month. |
| `FiscalMonth.DefaultFiscalMonth` | src/app/admin/attendance/page.tsx:25-33 | From the 11th on, the default is the current month. Before the 11th it is exactly the previous month, which is always a valid month. |
| `FiscalMonth.JanuaryRollsBack` | src/app/admin/attendance/page.tsx:29-30 | Before the 11th of January the default is December of the previous year. |
| `FiscalMonth.CurrentMonth` | src/app/admin/attendance/page.tsx:23-33 | A non-empty string parameter is used verbatim; otherwise the default cycle's `YYYY-MM`. |
| `FiscalMonth.MonthString` | src/app/admin/attendance/page.tsx:32 | `${y}-${String(m + 1).padStart(2, '0')}` of a cycle month; `MonthStringRoundTrip` proves `ParseMonth` reads it back. |
| `FiscalMonth.ParseMonth` | src/app/admin/attendance/page.tsx:36-38 | `split('-')` then `parseInt(·, 10)` on the two fields; the inverse of `MonthString` on valid months (`MonthStringRoundTrip`). |
| `FiscalMonth.BeforeDash` | src/app/admin/attendance/page.tsx:36 | `split('-')[0]`: the prefix up to the first dash, containing no dash. |
| `FiscalMonth.BeforeDashOfDigitsThen` | src/app/admin/attendance/page.tsx:36 | Digits followed by a dash split into those digits and the rest. |
| `FiscalMonth.BeforeDashOfDigits` | src/app/admin/attendance/page.tsx:36 | A digit run has no dash and is its own first field. |
| `FiscalMonth.ParsePaddedMonth` | src/app/admin/attendance/page.tsx:32-38 | A month padded to two digits is all digits and parses back to itself. |
| `FiscalMonth.SplitMonthOfParts` | src/app/admin/attendance/page.tsx:36 | `y-mm` with digit fields splits into `y` and `mm`. |
| `FiscalMonth.ParseMonthOfFields` | src/app/admin/attendance/page.tsx:36-38 | Two fields with numeric prefixes parse to that year and month. |
| `FiscalMonth.MonthStringRoundTrip` | src/app/admin/attendance/page.tsx:32-38 | The `YYYY-MM` text of a valid month parses back to the same year and month. |
| `FiscalMonth.FiscalWindow` | src/app/admin/attendance/page.tsx:40-43 | The window runs from an 11th to a 10th exactly one month later, for every year. |
| `FiscalMonth.FiscalWindowBounds` | src/app/admin/attendance/page.tsx:40-43 | The window is from the 11th of the month to the 10th of the next month; December rolls into January. |
| `FiscalMonth.AdminAttendancePage` | src/app/admin/attendance/page.tsx:17-43 | Signed out redirects to login. An unparsable month yields an invalid date. A signed-in caller gets the listing exactly when the month parses, and it uses the chosen month and its 11th-to-10th window. |
| `FiscalMonth.DefaultWindowContainsToday` | src/app/admin/attendance/page.tsx:25-43 | The default cycle's window always contains today ("Jan 5 is Dec cycle"). |
| `FiscalMonth.CalendarAndFiscalMonthsDiffer` | src/app/admin/attendance/page.tsx:40-43 | The 5th of a month is in that month's export window but not in its fiscal window. |
| `AttendanceStore.RecordsOn` | src/features/attendance/actions.ts:53-58 | The ids of exactly the records of that user on that date. |
| `AttendanceStore.BreaksOf` | src/app/admin/attendance/actions.ts:43-47 | The ids of exactly the breaks attached to that record. |
| `AttendanceStore.InsertKeepsUniquePerDay` | src/features/attendance/actions.ts:53-68 | Inserting for a (user, day) pair with no record keeps pairs unique, and the pair then has exactly the new record. |
| `AttendanceStore.UpdateKeepsUniquePerDay` | src/features/attendance/actions.ts:82-87 | Changing fields other than user and date keeps pairs unique. |
| `AttendanceStore.UniqueRecordsOn` | src/features/attendance/actions.ts:53-62 | Under the invariant a (user, day) pair has at most one record, so the duplicate guard sees it. |
| `AttendanceStore.Store.SingleRecordOn` | src/features/attendance/actions.ts:53-58 | `.maybeSingle()`: a record exactly when one matches, and then that one. |
| `AttendanceStore.Store.SingleBreakOf` | src/app/admin/attendance/actions.ts:43-47 | `.single()`: a break exactly when one matches, and then that one. |
| `AttendanceStore.Store.InsertRecord` | src/features/attendance/actions.ts:64-68 | The row is added under an unused id; the breaks are untouched. |
| `AttendanceStore.Store.InsertBreak` | src/features/attendance/actions.ts:100-103 | The row is added under an unused id; the records are untouched. |
| `AttendanceActions.GetTodayAttendance` | src/features/attendance/actions.ts:6-40 | Nothing when signed out or with no record today. Otherwise the record of that user and day with the earliest creation time. |
| `AttendanceActions.ClockIn` | src/features/attendance/actions.ts:42-77 | Throws `Unauthorized` when signed out. Returns the duplicate error with an unchanged store when exactly one record is found (`.maybeSingle()`). With none, or with two or more (where `.maybeSingle()` yields no data), it succeeds and inserts exactly one record dated today, clocked in now with no clock-out; the telework flag is not stored. Preserves at most one record per user and day. |
| `AttendanceActions.ClockOut` | src/features/attendance/actions.ts:79-95 | Sets only that record's clock-out to now, overwriting any earlier one. A missing id changes nothing. The store stays well formed. |
| `AttendanceActions.StartBreak` | src/features/attendance/actions.ts:97-111 | Inserts exactly one open break starting now, without checking for an open one. |
| `AttendanceActions.EndBreak` | src/features/attendance/actions.ts:113-129 | Sets only that break's end time to now. The store stays well formed. |
| `AdminAttendanceActions.Authorize` | src/app/admin/attendance/actions.ts:17-29 | Signed out gives `Unauthorized`, a non-admin `Forbidden`; only an admin passes. |
| `AdminAttendanceActions.WithClockTimes` | src/app/admin/attendance/actions.ts:31-38 | The update sets both clock times of that record (a null included) and keeps its user, date and creation time; every other record and the set of ids are unchanged. |
| `AdminAttendanceActions.BreakDecision` | src/app/admin/attendance/actions.ts:49-79 | The decision table. An existing break with a start given is overwritten. One with neither time given is deleted, and one with only an end is kept. With no break, one is inserted iff a start is given. |
| `AdminAttendanceActions.ApplyBreakChange` | src/app/admin/attendance/actions.ts:49-79 | Keep leaves the breaks. Delete removes exactly that id. Insert adds exactly one id, holding the record id and the new start and end. Overwrite writes that row under its id. Nothing but a delete removes a break, and every break other than the written one keeps its contents. |
| `AdminAttendanceActions.SingleId` | src/app/admin/attendance/actions.ts:43-47 | The `.single()` outcome on a set of ids: an id exactly when there is one. |
| `AdminAttendanceActions.ClearedBreakIsDeleted` | src/app/admin/attendance/actions.ts:49-66 | With the record's one break, clearing both times leaves the record with no break. Giving a start rewrites that break in place. |
| `AdminAttendanceActions.UpdateAttendance` | src/app/admin/attendance/actions.ts:13-83 | Throws and changes nothing unless admin. Otherwise sets the record's clock times (nulls included) and applies the break decision to the looked-up break. |
| `AdminAttendanceActions.CreateAttendance` | src/app/admin/attendance/actions.ts:85-147 | Throws and changes nothing unless admin or when exactly one record exists for (user, date). Otherwise, with none or with two or more (`.single()` yields no data), it succeeds and inserts the record, and a break only when a start is given; a failed break insert still succeeds. |
| `AdminAttendanceActions.DeleteAttendance` | src/app/admin/attendance/actions.ts:149-179 | Unless it throws for lack of rights, removes exactly the record with that id and nothing else. |
| `HomePage.HomeRoute` | src/app/page.tsx:17-45 | Signed out goes to login. Exactly the signed-in users whose profile requires a password change go to change-password, which wins over the admin redirect. Only admins go to the admin area. Everyone else signed in, including a user with no profile, sees the home page. |
| `HomePage.IsClockedIn` | src/app/page.tsx:51 | `!!attendance?.clock_in`; used by `StatusOf` and `ClockInStartsWorking`. |
| `HomePage.IsClockedOut` | src/app/page.tsx:52 | `!!attendance?.clock_out`; used by `StatusOf` and `ClockOutEndsDay`. |
| `HomePage.FirstOpenBreak` | src/app/page.tsx:53 | `find`: nothing iff every break is closed; otherwise an open break preceded only by closed ones. |
| `HomePage.ActiveBreak` | src/app/page.tsx:53 | No record or no joined breaks means no active break; an active break has no end time, and is the first such (`FirstOpenBreak`). |
| `HomePage.IsOnBreak` | src/app/page.tsx:54 | `!!activeBreak`; `OnBreakIffOpenBreak` states it is some break without an end. |
| `HomePage.OnBreakIffOpenBreak` | src/app/page.tsx:53-54 | On break iff some joined break has no end time. |
| `HomePage.StatusOf` | src/app/page.tsx:57-68 | Exactly one status for each combination of flags: clocked out over on break over working over not clocked in. |
| `HomePage.StatusText` | src/app/page.tsx:57-68 | The label of each status; `StatusTextDistinct` proves the four labels differ. |
| `HomePage.StatusTextDistinct` | src/app/page.tsx:57-68 | Different statuses show different texts. |
| `HomePage.ClockInStartsWorking` | src/app/page.tsx:51-68 | A freshly clocked-in record without breaks reads as working. |
| `HomePage.StartBreakPutsOnBreak` | src/app/page.tsx:53-68 | After a break is started on a record not clocked out, the status is on break. |
| `HomePage.EndBreakResumesWork` | src/app/page.tsx:53-68 | Ending the only open break of a clocked-in record returns it to working. |
| `HomePage.ClockOutEndsDay` | src/app/page.tsx:59-61 | After clocking out the status is clocked out, whatever else holds. |
| `ActionButtons.ShowsClockIn` | src/components/attendance-actions.tsx:128 | The clock-in guard; `ButtonsMatchStatus` ties it to the not-clocked-in status. |
| `ActionButtons.ShowsClockOut` | src/components/attendance-actions.tsx:134 | The clock-out guard; `ButtonsMatchStatus` ties it to the working status. |
| `ActionButtons.ShowsDisabledMain` | src/components/attendance-actions.tsx:140 | The greyed-out main button; `ButtonsMatchStatus` ties it to the clocked-out or on-break status. |
| `ActionButtons.StartBreakEnabled` | src/components/attendance-actions.tsx:175 | The start-break guard; `ButtonsMatchStatus` ties it to the working status. |
| `ActionButtons.EndBreakEnabled` | src/components/attendance-actions.tsx:185 | The end-break guard; `EndBreakTargetsActiveBreak` shows it is on whenever a break is open. |
| `ActionButtons.NeverBothClockButtons` | src/components/attendance-actions.tsx:128-138 | Clock-in and clock-out are never offered together. |
| `ActionButtons.ButtonsMatchStatus` | src/components/attendance-actions.tsx:112-185 | Clock-out and start-break show exactly when the status is working. Clock-in shows (off break) exactly when not clocked in. The disabled button shows exactly when clocked out or on break. |
| `ActionButtons.ExactlyOneMainControl` | src/components/attendance-actions.tsx:128-144 | When a break implies a clock-in, exactly one of the three main controls is shown. |
| `ActionButtons.HandleEndBreak` | src/components/attendance-actions.tsx:161-167 | Without an active break id nothing is ended; otherwise that id. |
| `ActionButtons.EndBreakTargetsActiveBreak` | src/app/page.tsx:53-54 | On break, end-break is enabled, and its target is `FirstOpenBreak` of the joined breaks: the first break without an end. |
| `AuthHelpers.ToHex` | src/utils/auth-helpers.ts:10 | The hex text has two characters per byte, all lower-case hex digits. |
| `AuthHelpers.FromHexToHex` | src/utils/auth-helpers.ts:10 | Decoding the hex text gives back the bytes. |
| `AuthHelpers.GenerateAuthEmail` | src/utils/auth-helpers.ts:9-12 | The e-mail is the hex of the bytes, `@`, the department code, `.local`, and its length is accordingly. |
| `AuthHelpers.NoAtInHex` | src/utils/auth-helpers.ts:10 | The hex part contains no `@`. |
| `AuthHelpers.SplitAtFirstAtOf` | src/utils/auth-helpers.ts:11 | Splitting `h@t` at its first `@` gives `h` and `t` when `h` has no `@`. |
| `AuthHelpers.SplitAuthEmail` | src/utils/auth-helpers.ts:11 | Splitting the e-mail at its first `@` recovers the hex part and `deptCode + ".local"`. |
| `AuthHelpers.AuthEmailInjective` | src/utils/auth-helpers.ts:9-12 | For one department code, different byte strings give different e-mails. |
| `AuthHelpers.HexDigit` | src/utils/auth-helpers.ts:10 | Every nibble becomes a lower-case hex digit. |
| `AuthHelpers.HexValue` | src/utils/auth-helpers.ts:10 | Reading a hex digit inverts `HexDigit`. |
| `AuthHelpers.HexValueOfDigit` | src/utils/auth-helpers.ts:10 | Reading back the digit of a nibble gives that nibble. |
| `ChangePassword.ValidatePassword` | src/app/change-password/actions.ts:14-20 | Mismatch error iff the two differ, which takes precedence. Length error iff they match and are shorter than 6. Passes iff they match with length ≥ 6. |
| `ChangePassword.ChangePasswordFlow` | src/app/change-password/actions.ts:14-66 | A validation error replies with no call. Otherwise the user is fetched first. The reply is a redirect home iff user, auth update and profile update all succeed, and then the calls are exactly fetch, password update, flag reset. |
| `ChangePassword.OnlyValidPasswordsReachTheService` | src/app/change-password/actions.ts:14-35 | Any password update sent carries the validated password. |
| `TransportForm.WithRowAdded` | src/components/transport-input-form.tsx:36-45 | `addRow` appends exactly one row with the defaults (電車, 片道, empty amount) and keeps the rows before it. |
| `TransportForm.RowsWithoutId` | src/components/transport-input-form.tsx:49 | Exactly the rows with another id are kept, never more rows than before; a single row is kept iff its id differs, and with `RowsWithoutIdAppend` the order is kept. |
| `TransportForm.RowsWithoutIdAppend` | src/components/transport-input-form.tsx:49 | The id filter of `a + b` is that of `a` followed by that of `b`. |
| `TransportForm.WithRowRemoved` | src/components/transport-input-form.tsx:47-50 | A single row is never removed; otherwise the rows with that id go. |
| `TransportForm.RowsWithoutAbsentId` | src/components/transport-input-form.tsx:49 | Filtering by an id no row has changes nothing. |
| `TransportForm.RemoveUndoesAdd` | src/components/transport-input-form.tsx:36-50 | Removing a row just added under a new id restores the list. |
| `TransportForm.RowsWithoutIdLength` | src/components/transport-input-form.tsx:49 | With distinct ids a removal drops at most one row, and none if the id is absent. |
| `TransportForm.RemoveKeepsARow` | src/components/transport-input-form.tsx:47-49 | With distinct ids the list never becomes empty. |
| `TransportForm.SetField` | src/components/transport-input-form.tsx:53 | The spread update replaces the named field and keeps the id and all other fields. |
| `TransportForm.WithRowUpdated` | src/components/transport-input-form.tsx:52-54 | Only rows with that id change, and only in the named field. |
| `TransportForm.ValidRows` | src/components/transport-input-form.tsx:61 | Exactly the rows with non-empty origin, destination and amount are valid. |
| `TransportForm.ValidRowsAppend` | src/components/transport-input-form.tsx:61 | Validation keeps the rows' order. |
| `TransportForm.ToNumber` | src/components/transport-input-form.tsx:75 | A digit amount becomes its decimal value. |
| `TransportForm.DigitAmountIsItsNumber` | src/components/transport-input-form.tsx:75 | A whole amount typed in decimal reaches the payload as that number. |
| `TransportForm.BuildPayload` | src/components/transport-input-form.tsx:69-76 | One entry per valid row, in order, tagged with the attendance record and the numeric amount. |
| `TransportForm.TransportInputForm.constructor` | src/components/transport-input-form.tsx:29-34 | One blank row with id `1`, no error, not loading, closed. |
| `TransportForm.TransportInputForm.AddRow` | src/components/transport-input-form.tsx:36-45 | The rows become `WithRowAdded`; nothing else changes. |
| `TransportForm.TransportInputForm.RemoveRow` | src/components/transport-input-form.tsx:47-50 | The rows become `WithRowRemoved`; nothing else changes. |
| `TransportForm.TransportInputForm.UpdateRow` | src/components/transport-input-form.tsx:52-54 | The rows become `WithRowUpdated`; nothing else changes. |
| `TransportForm.TransportInputForm.HandleSubmit` | src/components/transport-input-form.tsx:56-89 | Ignored while loading. With no valid row it sets the error and sends nothing. Otherwise it sends the payload of the valid rows. An error reply is shown and keeps the rows; a success resets to one blank row and closes. |
| `Calendar.DaysInMonth` | src/app/admin/attendance/page.tsx:41-43 | Every month has 28 to 31 days. |
| `Calendar.JsLocalDate` | src/app/admin/attendance/page.tsx:41-43 | `new Date(y, m, d)` gives a valid date with that day whose month index is `12y + m`, with a year from 0 to 99 read as 1900 + year: month overflow carries into the year. |
| `Calendar.JsLocalDateInRange` | src/app/api/export-monthly-report/route.ts:55 | An in-range month index is the 0-based month. |
| `Calendar.JsLocalDateDecemberCarry` | src/app/api/export-monthly-report/route.ts:56 | Month index 12 is January of the next year. |
| `Decimal.NatToString` | src/utils/calculations.ts:52 | `String(n)`: a non-empty run of digits, one digit iff n < 10. |
| `Decimal.IntToString` | src/utils/calculations.ts:52 | `String(n)` for integers: digits when non-negative, a leading `-` otherwise. |
| `Decimal.DigitsValueOfNatToString` | src/utils/calculations.ts:52 | The decimal text of a number reads back as that number. |
| `Decimal.PadStart2` | src/components/admin/DashboardTable.tsx:34 | `padStart(2, '0')`: at least two characters, the original at the end, zeros before it. |
| `Decimal.SplitDigits` | src/app/admin/attendance/page.tsx:37 | Splits off the longest digit prefix: the parts rejoin to the input and the rest starts with a non-digit. |
| `Decimal.SplitDigitsOfDigitsThen` | src/app/admin/attendance/page.tsx:37 | A digit run followed by a non-digit splits exactly there. |
| `Decimal.ParseIntPrefix` | src/app/admin/attendance/page.tsx:37-38 | `parseInt(s, 10)` on digit text: NaN iff the text is empty or starts with a non-digit. |
| `Decimal.ParseIntPrefixOfNatToString` | src/app/admin/attendance/page.tsx:37-38 | A number's text followed by a non-digit parses back to the number. |
| `Decimal.ParseIntPrefixOfDigitsThen` | src/app/admin/attendance/page.tsx:37-38 | A digit run followed by a non-digit parses to the run's value. |
| `Decimal.SplitNatThen` | src/app/admin/attendance/page.tsx:37 | A number's text followed by a non-digit splits at its end and has the number's value. |
| `Decimal.DigitsValueOfLeadingZero` | src/app/admin/attendance/page.tsx:38 | A leading zero does not change a digit run's value. |
| `Decimal.DigitChar` | src/utils/calculations.ts:52 | A digit below 10 becomes its character. |
| `Decimal.DigitValue` | src/app/admin/attendance/page.tsx:37-38 | Reading a digit character inverts `DigitChar`. |
| `Decimal.HexDigitValue` | src/app/api/export-monthly-report/route.ts:53-54 | A hexadecimal digit of either case has a value below 16, below 10 exactly for `0`–`9`. |
| `Decimal.SplitHexDigits` | src/app/api/export-monthly-report/route.ts:53-54 | Splits off the longest hexadecimal prefix: the parts rejoin to the input and the rest starts with a non-hex character. |
| `Decimal.SplitHexDigitsOfHexThen` | src/app/api/export-monthly-report/route.ts:53-54 | A hexadecimal run followed by a non-hex character splits exactly there. |
| `Decimal.ParseIntNoRadix` | src/app/api/export-monthly-report/route.ts:53-54 | `parseInt(s)` without a radix: text without a `0x`/`0X` prefix reads exactly as `parseInt(s, 10)`; after the prefix the result is NaN iff no hexadecimal digit follows. |
| `Decimal.ParseIntNoRadixOfHexThen` | src/app/api/export-monthly-report/route.ts:53-54 | `0x` (or `0X`), a hexadecimal run and a non-hex tail read as the run's base-16 value. |
| `Decimal.HexPrefixDiffersFromDecimal` | src/app/api/export-monthly-report/route.ts:53-54 | `year=0x7E8` is read as 2024 by the route, where `parseInt(·, 10)` would read 0. |

## Left out

- Time zones: the source converts local midnight to UTC text with `toISOString` (export window, fiscal window, the admin estimate's `AdminEstimate.InEstimateWindow`, "today"). The model compares (year, month, day) triples directly, so a date shifted by the UTC conversion is not reproduced. East of UTC, for instance, the estimate's `gte` bound (src/features/admin/actions.ts:37-47) falls on the last day of the previous month.
- AttendanceDashboard.HandleMonthChange: `new Date(currentMonth + "-01")` (AttendanceDashboard.tsx:53) reads a date-only string as UTC midnight, while `addMonths`/`subMonths` and `format` (lines 82-84) work in local time. West of UTC that instant is the last day of the previous local month, so "next" stays on the same month and "previous" goes back two. The model steps from the month the string names, which is what happens at UTC and east of it.
- ExportMonthlyReport.ExportMonthlyReport: a year beyond the range of JavaScript dates (about 275760) makes `toISOString` throw, and the route answers 500. The model treats every parsed year as a date and returns a workbook. The same holds for the fiscal window of `FiscalMonth.AdminAttendancePage`.
- The fiscal window's end at 23:59:59 of the 10th is a date bound here: the query compares dates, so both ends are taken as inclusive dates.
- Floating point: `calculateWage` multiplies fractional hours. The model uses the exact rational floor, which agrees except where the float product rounds across an integer.
- AdminEstimate.GetAdminData: `totalHours` (`toFixed(1)`) is not returned; the estimate keeps exact milliseconds, and the fractional-minute wage becomes an exact floor over milliseconds.
- `calculateDailyStats`, `calculateLateNightWorkMinutes` and `isHoliday` are not part of this model: each day's stats are given with the record.
- Database, auth and session calls are inputs (`caller`, `user`, the store, `now`, today's date). Their errors are not modelled, except the break-insert failure that `createAttendance` swallows (`breakInsertOk`) and the auth and profile outcomes of `changePassword`.
- Database errors of `getTodayAttendance` (which returns null) and of the other actions (which return `error.message` or throw) are not modelled.
- `redirect` and `revalidatePath` side effects are not modelled; redirects are outcome values.
- Spreadsheet I/O: template loading, its 500 responses when the template or sheet is missing, cell styling and buffer writing are left out.
- Ordering by `username` or `created_at` is done by the database: the employee list is taken in the order given.
- Random row ids (`Math.random`) and database ids are parameters (`newId`, the store's `nextId`).
- Foreign keys, row-level security and cascade deletes are not visible: `DeleteAttendance` leaves break rows as they are.
- `parseInt` whitespace and sign handling: `ParseIntPrefix` and `ParseIntNoRadix` read only unsigned text from its first character, so leading spaces, `+` and `-` (including `-0x…`) give NaN here.
- `Number()` on an amount that is not a plain digit string (spaces, signs, decimals, exponents) is read as NaN here.
- Password length is counted in characters, not UTF-16 code units.
- UTF-8 encoding is not modelled: the username's bytes are the input, so injectivity of `GenerateAuthEmail` is stated over bytes.
- `roleMap` lookups of prototype keys such as `constructor` are not modelled.
- `updateRow` with the `id` field, which would rename a row, is not modelled: `Field` lists the editable fields only.
- React rendering, modals, `isPending`, the telework toggle's own state and `onSuccess` callbacks are left out.
- Concurrency between requests is not modelled; every action runs alone on the store.
- Setup (company-code generation), management scripts, transport statistics and the transport export are outside this model.
