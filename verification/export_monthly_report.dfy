/**
 * The monthly payroll-support export: request checks, the calendar-month
 * record window, and the 23 cells written per employee, one row each from
 * row 2 down. Workbook loading, styling and serialisation are not modelled;
 * the result is the matrix of cells handed to the spreadsheet.
 */
module ExportMonthlyReport {
  import opened Wrappers
  import opened Decimal
  import opened Calendar
  import opened DashboardTable

  datatype Caller = Caller(userId: Option<string>, role: Option<string>)

  datatype EmployeeProfile = EmployeeProfile(
    id: string,
    username: Option<string>,
    fullName: Option<string>,
    role: Option<string>)

  /** A stored attendance record: its date and what the roll-up reads from it. */
  datatype ReportRecord = ReportRecord(date: Date, day: DayRecord)

  datatype Cell = Text(text: string) | Number(n: int)

  datatype SheetRow = SheetRow(rowNumber: int, cells: seq<Cell>)

  datatype Response =
    | ErrorResponse(status: int, message: string)
    | Workbook(filename: string, rows: seq<SheetRow>)

  /** A query parameter that is absent or empty is falsy. */
  predicate Missing(p: Option<string>)
  {
    p.None? || p.value == ""
  }

  /** `[new Date(y, m - 1, 1), new Date(y, m, 1))`: the first of the month up to the first of the next. */
  function MonthWindow(year: int, month: int): (w: (Date, Date))
    ensures MonthIndex(YearMonth(w.1.year, w.1.month)) == MonthIndex(YearMonth(w.0.year, w.0.month)) + 1
  {
    (JsLocalDate(year, month - 1, 1), JsLocalDate(year, month, 1))
  }

  predicate InWindow(d: Date, w: (Date, Date))
  {
    AtOrBefore(w.0, d) && Before(d, w.1)
  }

  lemma MonthWindowBounds(year: int, month: int)
    requires year >= 100 && 1 <= month <= 12
    ensures MonthWindow(year, month).0 == Date(year, month, 1)
    ensures MonthWindow(year, month).1 == if month == 12 then Date(year + 1, 1, 1) else Date(year, month + 1, 1)
  {
  }

  /** `new Date` reads a year from 0 to 99 as 1900 + year, so `year=25` selects a month of 1925. */
  lemma MonthWindowTwoDigitYear(year: int, month: int)
    requires 0 <= year <= 99 && 1 <= month <= 12
    ensures MonthWindow(year, month) == MonthWindow(1900 + year, month)
    ensures MonthWindow(year, month).0 == Date(1900 + year, month, 1)
  {
    MonthWindowBounds(1900 + year, month);
  }

  /** The window holds exactly the dates of the requested calendar month. */
  lemma InMonthWindowIff(year: int, month: int, d: Date)
    requires year >= 100 && 1 <= month <= 12 && ValidDate(d)
    ensures InWindow(d, MonthWindow(year, month)) <==> d.year == year && d.month == month
  {
    MonthWindowBounds(year, month);
  }

  /** `.gte('date', start).lt('date', end)`, keeping the database's order. */
  function RecordsInWindow(records: seq<ReportRecord>, w: (Date, Date)): (r: seq<DayRecord>)
    ensures |r| <= |records|
    ensures forall x :: x in r ==> exists rr :: rr in records && rr.day == x && InWindow(rr.date, w)
    ensures forall i :: 0 <= i < |records| && InWindow(records[i].date, w) ==> records[i].day in r
    ensures |records| == 1 ==> r == (if InWindow(records[0].date, w) then [records[0].day] else [])
  {
    if records == [] then []
    else
      var rest := RecordsInWindow(records[1..], w);
      assert forall x :: x in records[1..] ==> x in records;
      assert forall i :: 1 <= i < |records| ==> records[i] == records[1..][i - 1];
      if InWindow(records[0].date, w) then [records[0].day] + rest else rest
  }

  /** The window query over a concatenation is the query over each part, in order. */
  lemma {:induction false} RecordsInWindowAppend(a: seq<ReportRecord>, b: seq<ReportRecord>, w: (Date, Date))
    ensures RecordsInWindow(a + b, w) == RecordsInWindow(a, w) + RecordsInWindow(b, w)
    decreases |a|
  {
    if a == [] {
      assert a + b == b;
    } else {
      assert (a + b)[1..] == a[1..] + b;
      RecordsInWindowAppend(a[1..], b, w);
    }
  }

  /** `.neq('role', 'admin')`: SQL inequality also drops rows whose role is null. */
  function NonAdminEmployees(profiles: seq<EmployeeProfile>): (e: seq<EmployeeProfile>)
    ensures forall p :: p in e <==> p in profiles && p.role.Some? && p.role.value != "admin"
    ensures |profiles| == 1 ==>
      e == (if profiles[0].role.Some? && profiles[0].role.value != "admin" then profiles else [])
  {
    if profiles == [] then []
    else
      var rest := NonAdminEmployees(profiles[1..]);
      assert profiles == [profiles[0]] + profiles[1..];
      if profiles[0].role.Some? && profiles[0].role.value != "admin" then [profiles[0]] + rest else rest
  }

  /** Filtering a concatenation filters each part and keeps them in order. */
  lemma {:induction false} NonAdminEmployeesAppend(a: seq<EmployeeProfile>, b: seq<EmployeeProfile>)
    ensures NonAdminEmployees(a + b) == NonAdminEmployees(a) + NonAdminEmployees(b)
    decreases |a|
  {
    if a == [] {
      assert a + b == b;
    } else {
      assert (a + b)[1..] == a[1..] + b;
      NonAdminEmployeesAppend(a[1..], b);
    }
  }

  /** Cell 3: `roleMap[emp.role || ''] || emp.role || ''`. */
  function RoleCell(role: Option<string>): (shown: string)
    ensures role.None? ==> shown == ""
    ensures role.Some? && RoleMap(role.value).Some? ==> shown == RoleMap(role.value).value
    ensures role.Some? && RoleMap(role.value).None? ==> shown == role.value
  {
    var key := role.GetOr("");
    match RoleMap(key)
    case Some(l) => l
    case None => key
  }

  /** Cells 4 to 7: the work, weekday, Saturday and Sunday day counts. */
  function DayCount(stats: MonthlyStats, n: int): int
    requires 4 <= n <= 7
  {
    if n == 4 then stats.workDays
    else if n == 5 then stats.weekdayDays
    else if n == 6 then stats.satDays
    else stats.sunDays
  }

  /** Cells 8 to 12: the minute totals that `fmt` writes as `h:mm`. */
  function MinutesOfCell(stats: MonthlyStats, n: int): int
    requires 8 <= n <= 12
  {
    if n == 8 then stats.workMinutes
    else if n == 9 then stats.weekdayMinutes
    else if n == 10 then stats.satMinutes
    else if n == 11 then stats.sunMinutes
    else stats.lateNightMinutes
  }

  /** `row.getCell(n).value` for cell n of an employee's row. */
  function CellAt(emp: EmployeeProfile, stats: MonthlyStats, n: int): (c: Cell)
    requires 1 <= n <= 23
    ensures 13 <= n <= 15 ==> c == Text("0:00")
    ensures 16 <= n <= 22 ==> c == Number(0)
  {
    if n == 1 then Text(emp.username.GetOr(""))
    else if n == 2 then Text(emp.fullName.GetOr(""))
    else if n == 3 then Text(RoleCell(emp.role))
    else if n <= 7 then Number(DayCount(stats, n))
    else if n <= 12 then Text(FormatClock(MinutesOfCell(stats, n)))
    else if n <= 15 then Text("0:00")
    else if n <= 22 then Number(0)
    else Number(stats.teleworkCount)
  }

  /** The 23 cells of one employee's row; element k holds cell k + 1. */
  function EmployeeCells(emp: EmployeeProfile, stats: MonthlyStats): (cells: seq<Cell>)
    ensures |cells| == 23
    ensures forall k :: 0 <= k < 23 ==> cells[k] == CellAt(emp, stats, k + 1)
  {
    var cells := seq(23, k requires 0 <= k < 23 => CellAt(emp, stats, k + 1));
    assert forall k :: 0 <= k < 23 ==> cells[k] == CellAt(emp, stats, k + 1);
    cells
  }

  /** Sheet row `i + 2` for employee `i`. */
  function EmployeeRow(i: nat, emp: EmployeeProfile, records: seq<DayRecord>): SheetRow
  {
    SheetRow(i + 2, EmployeeCells(emp, StatsOf(UserRecords(records, emp.id))))
  }

  /** The rows the export writes: employee i on sheet row i + 2. */
  function ReportRows(employees: seq<EmployeeProfile>, records: seq<DayRecord>): (rows: seq<SheetRow>)
    ensures |rows| == |employees|
    ensures forall i :: 0 <= i < |employees| ==> rows[i] == EmployeeRow(i, employees[i], records)
  {
    seq(|employees|, i requires 0 <= i < |employees| => EmployeeRow(i, employees[i], records))
  }

  /** The employee loop with its `currentRow` counter. */
  method FillRows(employees: seq<EmployeeProfile>, records: seq<DayRecord>) returns (rows: seq<SheetRow>)
    ensures rows == ReportRows(employees, records)
    ensures forall i :: 0 <= i < |rows| ==> rows[i].rowNumber == i + 2
  {
    var currentRow := 2;
    rows := [];
    for k := 0 to |employees|
      invariant currentRow == k + 2 && |rows| == k
      invariant forall i :: 0 <= i < k ==> rows[i] == EmployeeRow(i, employees[i], records)
    {
      var emp := employees[k];
      var stats := UserMonthlyStats(records, emp.id);
      rows := rows + [SheetRow(currentRow, EmployeeCells(emp, stats))];
      currentRow := currentRow + 1;
    }
  }

  /** `year.slice(-2)`: the last two characters, or the whole text when shorter. */
  function LastTwo(s: string): (t: string)
    ensures |t| == if |s| < 2 then |s| else 2
    ensures s == s[..|s| - |t|] + t
  {
    if |s| < 2 then s else s[|s| - 2..]
  }

  /** `GET /api/export-monthly-report?year=…&month=…`. */
  method ExportMonthlyReport(
    year: Option<string>, month: Option<string>, caller: Caller,
    profiles: seq<EmployeeProfile>, allRecords: seq<ReportRecord>)
    returns (res: Response)
    ensures Missing(year) || Missing(month) ==> res == ErrorResponse(400, "Missing parameters")
    ensures !Missing(year) && !Missing(month) && caller.userId.None? ==> res == ErrorResponse(401, "Unauthorized")
    ensures !Missing(year) && !Missing(month) && caller.userId.Some? && caller.role != Some("admin")
      ==> res == ErrorResponse(403, "Forbidden")
    ensures res.Workbook? ==> (
      !Missing(year) && !Missing(month) && caller.userId.Some? && caller.role == Some("admin")
      && NonAdminEmployees(profiles) != []
      && ParseIntNoRadix(year.value).Some? && ParseIntNoRadix(month.value).Some?
      && res.rows == ReportRows(NonAdminEmployees(profiles),
           RecordsInWindow(allRecords, MonthWindow(ParseIntNoRadix(year.value).value, ParseIntNoRadix(month.value).value)))
      && res.filename == "30XXX_" + LastTwo(year.value) + "年" + month.value + "月.xlsx")
    ensures (caller.role == Some("admin") && caller.userId.Some? && !Missing(year) && !Missing(month)
      && NonAdminEmployees(profiles) == []) ==> res == ErrorResponse(404, "No employees found")
    ensures (caller.role == Some("admin") && caller.userId.Some? && !Missing(year) && !Missing(month)
      && NonAdminEmployees(profiles) != []) ==>
      if ParseIntNoRadix(year.value).Some? && ParseIntNoRadix(month.value).Some? then res.Workbook?
      else res == ErrorResponse(500, "Invalid time value")
  {
    if Missing(year) || Missing(month) {
      return ErrorResponse(400, "Missing parameters");
    }
    if caller.userId.None? {
      return ErrorResponse(401, "Unauthorized");
    }
    if caller.role != Some("admin") {
      return ErrorResponse(403, "Forbidden");
    }
    var employees := NonAdminEmployees(profiles);
    if employees == [] {
      return ErrorResponse(404, "No employees found");
    }
    var targetYear := ParseIntNoRadix(year.value);
    var targetMonth := ParseIntNoRadix(month.value);
    if targetYear.None? || targetMonth.None? {
      // `new Date(NaN, …).toISOString()` throws: the request fails with a server error.
      return ErrorResponse(500, "Invalid time value");
    }
    var window := MonthWindow(targetYear.value, targetMonth.value);
    var records := RecordsInWindow(allRecords, window);
    var rows := FillRows(employees, records);
    res := Workbook("30XXX_" + LastTwo(year.value) + "年" + month.value + "月.xlsx", rows);
  }
}
