/**
 * The admin attendance screen: month totals of wages and transport costs,
 * the optional single-day filter of the record list, and the month stepper.
 */
module AttendanceDashboard {
  import opened Wrappers
  import opened Calendar
  import Calculations

  /** A fetched record with its owner's hourly wage (missing when the profile is not joined). */
  datatype DashboardRecord = DashboardRecord(
    date: Date,
    record: Calculations.AttendanceRecord,
    transportCost: Option<int>,
    hourlyWage: Option<int>)

  datatype Totals = Totals(wage: int, transport: int)

  /** `profiles?.hourly_wage || 1000`. */
  function WageRate(r: DashboardRecord): (rate: int)
    ensures r.hourlyWage.None? || r.hourlyWage.value == 0 ==> rate == 1000
    ensures r.hourlyWage.Some? && r.hourlyWage.value != 0 ==> rate == r.hourlyWage.value
  {
    if r.hourlyWage.Some? && r.hourlyWage.value != 0 then r.hourlyWage.value else 1000
  }

  /** The wage one record adds to the month total. */
  function RecordWage(r: DashboardRecord): (w: int)
    ensures r.record.clockIn.None? || r.record.clockOut.None? ==> w == 0
    ensures w * 60 <= Calculations.CalculateWorkDurationMinutes(r.record) * WageRate(r) < (w + 1) * 60
  {
    Calculations.CalculateWage(Calculations.CalculateWorkDurationMinutes(r.record), WageRate(r))
  }

  /** `monthTotals`: a left fold over all records of the month, from zero. */
  function MonthTotals(records: seq<DashboardRecord>): Totals
  {
    if records == [] then Totals(0, 0)
    else
      var acc := MonthTotals(records[..|records| - 1]);
      var last := records[|records| - 1];
      Totals(acc.wage + RecordWage(last), acc.transport + last.transportCost.GetOr(0))
  }

  /** The totals of a concatenation are the sums of the totals of the parts. */
  lemma {:induction false} MonthTotalsAppend(a: seq<DashboardRecord>, b: seq<DashboardRecord>)
    ensures MonthTotals(a + b).wage == MonthTotals(a).wage + MonthTotals(b).wage
    ensures MonthTotals(a + b).transport == MonthTotals(a).transport + MonthTotals(b).transport
    decreases |b|
  {
    if b == [] {
      assert a + b == a;
    } else {
      var b' := b[..|b| - 1];
      assert (a + b)[..|a + b| - 1] == a + b';
      MonthTotalsAppend(a, b');
    }
  }

  /** One record adds its own wage and its cost (none counts 0); one missing a clock time adds no wage. */
  lemma MonthTotalsOfOne(r: DashboardRecord)
    ensures MonthTotals([r]).wage == RecordWage(r)
    ensures MonthTotals([r]).transport == r.transportCost.GetOr(0)
    ensures r.record.clockIn.None? || r.record.clockOut.None? ==> MonthTotals([r]).wage == 0
  {
    assert [r][..0] == [];
  }

  /** With non-negative wages every total is non-negative. */
  lemma {:induction false} WageTotalNonNegative(records: seq<DashboardRecord>)
    requires forall i :: 0 <= i < |records| ==> WageRate(records[i]) >= 0
    ensures MonthTotals(records).wage >= 0
    decreases |records|
  {
    if records != [] {
      WageTotalNonNegative(records[..|records| - 1]);
    }
  }

  /** `filteredRecords`: all records, or those on the selected day, in their original order. */
  function FilteredRecords(records: seq<DashboardRecord>, selected: Option<Date>): (f: seq<DashboardRecord>)
    ensures selected.None? ==> f == records
    ensures selected.Some? ==> forall r :: r in f <==> r in records && r.date == selected.value
    ensures |f| <= |records|
  {
    if selected.None? || records == [] then records
    else
      var rest := FilteredRecords(records[..|records| - 1], selected);
      var last := records[|records| - 1];
      assert records == records[..|records| - 1] + [last];
      if last.date == selected.value then rest + [last] else rest
  }

  /** Filtering keeps relative order: it distributes over concatenation. */
  lemma {:induction false} FilteredRecordsAppend(a: seq<DashboardRecord>, b: seq<DashboardRecord>, selected: Option<Date>)
    ensures FilteredRecords(a + b, selected) == FilteredRecords(a, selected) + FilteredRecords(b, selected)
    decreases |b|
  {
    if selected.Some? {
      if b == [] {
        assert a + b == a;
      } else {
        var b' := b[..|b| - 1];
        assert (a + b)[..|a + b| - 1] == a + b';
        FilteredRecordsAppend(a, b', selected);
      }
    }
  }

  /** `handleMonthChange`: a positive offset steps to the next month, any other to the previous one. */
  function HandleMonthChange(ym: YearMonth, offset: int): (next: YearMonth)
    requires ValidYearMonth(ym)
    ensures ValidYearMonth(next)
    ensures MonthIndex(next) == MonthIndex(ym) + (if offset > 0 then 1 else -1)
  {
    if offset > 0 then
      (if ym.month == 12 then YearMonth(ym.year + 1, 1) else YearMonth(ym.year, ym.month + 1))
    else
      (if ym.month == 1 then YearMonth(ym.year - 1, 12) else YearMonth(ym.year, ym.month - 1))
  }

  /** Stepping forward and then back returns to the same month, and vice versa. */
  lemma MonthChangeInverse(ym: YearMonth)
    requires ValidYearMonth(ym)
    ensures HandleMonthChange(HandleMonthChange(ym, 1), -1) == ym
    ensures HandleMonthChange(HandleMonthChange(ym, -1), 1) == ym
  {
    MonthIndexInjective(HandleMonthChange(HandleMonthChange(ym, 1), -1), ym);
    MonthIndexInjective(HandleMonthChange(HandleMonthChange(ym, -1), 1), ym);
  }

  lemma MonthIndexInjective(a: YearMonth, b: YearMonth)
    requires ValidYearMonth(a) && ValidYearMonth(b) && MonthIndex(a) == MonthIndex(b)
    ensures a == b
  {
  }
}
