/**
 * The admin overview's per-employee estimate: worked time, transport cost
 * and an estimated wage for the records dated from the first of the current
 * month on. Unlike the per-record calculation, this one works on exact
 * millisecond differences (fractional minutes), which the model keeps as an
 * integer number of milliseconds.
 */
module AdminEstimate {
  import opened Wrappers
  import opened Calendar
  import Calculations

  const MsPerHour := 3600000

  /** A break row; a missing start or end leaves the break out of the estimate. */
  datatype EstimateBreak = EstimateBreak(startTime: Option<int>, endTime: Option<int>)

  datatype EstimateRecord = EstimateRecord(
    userId: string,
    date: Date,
    clockIn: Option<int>,
    clockOut: Option<int>,
    breakRecords: seq<EstimateBreak>,
    transportCost: Option<int>)

  datatype Employee = Employee(id: string, hourlyWage: Option<int>)

  /** One entry of `attendanceStats`; worked time is kept in milliseconds. */
  datatype EmployeeEstimate = EmployeeEstimate(totalMs: int, totalTransport: int, estimatedWage: int)

  datatype Caller = Caller(userId: string, role: Option<string>)

  datatype AdminData =
    | RedirectToLogin
    | RedirectToHome
    | Overview(employees: seq<Employee>, stats: map<string, EmployeeEstimate>)

  // ---- Reference definitions ----

  /** Milliseconds one break takes off the day: only breaks with both ends count. */
  function BreakMs(b: EstimateBreak): (ms: int)
    ensures b.startTime.None? || b.endTime.None? ==> ms == 0
  {
    if b.startTime.Some? && b.endTime.Some? then b.endTime.value - b.startTime.value else 0
  }

  function BreaksMs(breaks: seq<EstimateBreak>): int
  {
    if breaks == [] then 0 else BreaksMs(breaks[..|breaks| - 1]) + BreakMs(breaks[|breaks| - 1])
  }

  /** Clock-out minus clock-in minus the complete breaks, when both clock times exist. */
  function DayDurationMs(r: EstimateRecord): int
    requires r.clockIn.Some? && r.clockOut.Some?
  {
    r.clockOut.value - r.clockIn.value - BreaksMs(r.breakRecords)
  }

  /** What a record adds to the worked total: its duration if positive, otherwise nothing. */
  function DayContributionMs(r: EstimateRecord): (ms: nat)
    ensures r.clockIn.None? || r.clockOut.None? ==> ms == 0
    ensures r.clockIn.Some? && r.clockOut.Some? ==>
      (DayDurationMs(r) > 0 ==> ms == DayDurationMs(r)) && (DayDurationMs(r) <= 0 ==> ms == 0)
  {
    if r.clockIn.Some? && r.clockOut.Some? && DayDurationMs(r) > 0 then DayDurationMs(r) else 0
  }

  function TotalMs(recs: seq<EstimateRecord>): (ms: nat)
  {
    if recs == [] then 0 else TotalMs(recs[..|recs| - 1]) + DayContributionMs(recs[|recs| - 1])
  }

  /** `transport_cost || 0`. */
  function TransportOf(r: EstimateRecord): int
  {
    r.transportCost.GetOr(0)
  }

  function TotalTransport(recs: seq<EstimateRecord>): int
  {
    if recs == [] then 0 else TotalTransport(recs[..|recs| - 1]) + TransportOf(recs[|recs| - 1])
  }

  /** `hourly_wage || 1000`: a missing or zero wage falls back to 1000. */
  function HourlyWageOrDefault(w: Option<int>): (rate: int)
    ensures w.None? || w.value == 0 ==> rate == 1000
    ensures w.Some? && w.value != 0 ==> rate == w.value
  {
    if w.Some? && w.value != 0 then w.value else 1000
  }

  /** `Math.floor(totalMinutes / 60 * hourlyWage)` with the minutes given in milliseconds. */
  function WageFromMs(totalMs: int, hourlyWage: int): (w: int)
    ensures w * MsPerHour <= totalMs * hourlyWage < (w + 1) * MsPerHour
  {
    (totalMs * hourlyWage) / MsPerHour
  }

  /** `attendanceRecords.filter(r => r.user_id === emp.id)`. */
  function EmployeeRecords(recs: seq<EstimateRecord>, id: string): (e: seq<EstimateRecord>)
    ensures forall r :: r in e <==> r in recs && r.userId == id
    ensures |recs| == 1 ==> e == (if recs[0].userId == id then recs else [])
  {
    if recs == [] then []
    else
      var rest := EmployeeRecords(recs[..|recs| - 1], id);
      var last := recs[|recs| - 1];
      assert recs == recs[..|recs| - 1] + [last];
      if last.userId == id then rest + [last] else rest
  }

  /** Filtering a concatenation filters each part and keeps them in order. */
  lemma {:induction false} EmployeeRecordsAppend(a: seq<EstimateRecord>, b: seq<EstimateRecord>, id: string)
    ensures EmployeeRecords(a + b, id) == EmployeeRecords(a, id) + EmployeeRecords(b, id)
    decreases |b|
  {
    if b == [] {
      assert a + b == a;
    } else {
      var b' := b[..|b| - 1];
      assert (a + b)[..|a + b| - 1] == a + b';
      EmployeeRecordsAppend(a, b', id);
    }
  }

  /** The estimate of one employee over the fetched records. */
  function EstimateOf(emp: Employee, recs: seq<EstimateRecord>): EmployeeEstimate
  {
    var mine := EmployeeRecords(recs, emp.id);
    EmployeeEstimate(TotalMs(mine), TotalTransport(mine),
      WageFromMs(TotalMs(mine), HourlyWageOrDefault(emp.hourlyWage)))
  }

  /** `attendanceStats` after the employees have been visited in order. */
  function StatsMap(emps: seq<Employee>, recs: seq<EstimateRecord>): map<string, EmployeeEstimate>
  {
    if emps == [] then map[]
    else
      var last := emps[|emps| - 1];
      StatsMap(emps[..|emps| - 1], recs)[last.id := EstimateOf(last, recs)]
  }

  /** The query window: every record dated on or after the first of today's month. */
  predicate InEstimateWindow(today: Date, r: EstimateRecord)
  {
    AtOrBefore(Date(today.year, today.month, 1), r.date)
  }

  function WindowRecords(today: Date, recs: seq<EstimateRecord>): (w: seq<EstimateRecord>)
    ensures forall r :: r in w <==> r in recs && InEstimateWindow(today, r)
    ensures |recs| == 1 ==> w == (if InEstimateWindow(today, recs[0]) then recs else [])
  {
    if recs == [] then []
    else
      var rest := WindowRecords(today, recs[..|recs| - 1]);
      var last := recs[|recs| - 1];
      assert recs == recs[..|recs| - 1] + [last];
      if InEstimateWindow(today, last) then rest + [last] else rest
  }

  /** Filtering a concatenation filters each part and keeps them in order. */
  lemma {:induction false} WindowRecordsAppend(a: seq<EstimateRecord>, b: seq<EstimateRecord>, today: Date)
    ensures WindowRecords(today, a + b) == WindowRecords(today, a) + WindowRecords(today, b)
    decreases |b|
  {
    if b == [] {
      assert a + b == a;
    } else {
      var b' := b[..|b| - 1];
      assert (a + b)[..|a + b| - 1] == a + b';
      WindowRecordsAppend(a, b', today);
    }
  }

  // ---- Properties of the reference definitions ----

  /** A record without both clock times adds no time but still adds its transport cost. */
  lemma IncompleteRecordAddsOnlyTransport(recs: seq<EstimateRecord>, r: EstimateRecord)
    requires r.clockIn.None? || r.clockOut.None?
    ensures TotalMs(recs + [r]) == TotalMs(recs)
    ensures TotalTransport(recs + [r]) == TotalTransport(recs) + r.transportCost.GetOr(0)
  {
    assert (recs + [r])[..|recs|] == recs;
  }

  /** A break without an end time does not change the break total. */
  lemma {:induction false} OpenBreakIgnored(breaks: seq<EstimateBreak>, b: EstimateBreak, more: seq<EstimateBreak>)
    requires b.endTime.None?
    ensures BreaksMs(breaks + [b] + more) == BreaksMs(breaks + more)
    decreases |more|
  {
    if more == [] {
      assert (breaks + [b] + more)[..|breaks|] == breaks;
      assert breaks + more == breaks;
    } else {
      var m' := more[..|more| - 1];
      assert (breaks + [b] + more)[..|breaks| + 1 + |m'|] == breaks + [b] + m';
      assert (breaks + more)[..|breaks| + |m'|] == breaks + m';
      OpenBreakIgnored(breaks, b, m');
    }
  }

  /** Every employee visited gets an entry, and no other key appears. */
  lemma {:induction false} StatsMapKeys(emps: seq<Employee>, recs: seq<EstimateRecord>)
    ensures forall id :: id in StatsMap(emps, recs) <==> exists e :: e in emps && e.id == id
    decreases |emps|
  {
    if emps != [] {
      var init := emps[..|emps| - 1];
      StatsMapKeys(init, recs);
      assert emps == init + [emps[|emps| - 1]];
    }
  }

  /** With distinct ids, each employee's entry is that employee's own estimate. */
  lemma {:induction false} StatsMapEntry(emps: seq<Employee>, recs: seq<EstimateRecord>, i: nat)
    requires i < |emps|
    requires forall j, k :: 0 <= j < k < |emps| ==> emps[j].id != emps[k].id
    ensures emps[i].id in StatsMap(emps, recs)
    ensures StatsMap(emps, recs)[emps[i].id] == EstimateOf(emps[i], recs)
    decreases |emps|
  {
    if i < |emps| - 1 {
      StatsMapEntry(emps[..|emps| - 1], recs, i);
    }
  }

  /** The window has no upper end: every later date is fetched too. */
  lemma WindowHasNoUpperBound(today: Date, r: EstimateRecord)
    requires AtOrBefore(today, r.date) || r.date.year > today.year
    requires 1 <= today.day
    ensures InEstimateWindow(today, r)
  {
  }

  // ---- Agreement with the per-record calculation ----

  function AsCalcBreak(b: EstimateBreak): Calculations.BreakRecord
    requires b.startTime.Some?
  {
    Calculations.BreakRecord(b.startTime.value, b.endTime)
  }

  function AsCalcBreaks(breaks: seq<EstimateBreak>): (c: seq<Calculations.BreakRecord>)
    requires forall i :: 0 <= i < |breaks| ==> breaks[i].startTime.Some?
    ensures |c| == |breaks|
  {
    if breaks == [] then []
    else AsCalcBreaks(breaks[..|breaks| - 1]) + [AsCalcBreak(breaks[|breaks| - 1])]
  }

  predicate WholeMinute(t: int)
  {
    t % Calculations.MsPerMinute == 0
  }

  predicate WholeMinuteBreaks(breaks: seq<EstimateBreak>)
  {
    forall i :: 0 <= i < |breaks| ==>
      breaks[i].startTime.Some? && WholeMinute(breaks[i].startTime.value)
      && (breaks[i].endTime.Some? ==> WholeMinute(breaks[i].endTime.value))
  }

  lemma DifferenceOfWholeMinutes(later: int, earlier: int)
    requires WholeMinute(later) && WholeMinute(earlier)
    ensures Calculations.DifferenceInMinutes(later, earlier) * Calculations.MsPerMinute == later - earlier
  {
    var a, b := later / Calculations.MsPerMinute, earlier / Calculations.MsPerMinute;
    assert later == a * Calculations.MsPerMinute && earlier == b * Calculations.MsPerMinute;
    assert later - earlier == (a - b) * Calculations.MsPerMinute;
  }

  /** On whole-minute timestamps the exact break total is the minute total in milliseconds. */
  lemma {:induction false} BreaksAgree(breaks: seq<EstimateBreak>)
    requires WholeMinuteBreaks(breaks)
    ensures BreaksMs(breaks)
         == Calculations.CalculateBreakDurationMinutes(AsCalcBreaks(breaks)) * Calculations.MsPerMinute
    decreases |breaks|
  {
    if breaks != [] {
      var init, last := breaks[..|breaks| - 1], breaks[|breaks| - 1];
      assert WholeMinuteBreaks(init);
      BreaksAgree(init);
      var c := AsCalcBreaks(breaks);
      assert c[..|c| - 1] == AsCalcBreaks(init);
      if last.endTime.Some? {
        DifferenceOfWholeMinutes(last.endTime.value, last.startTime.value);
      }
    }
  }

  /**
   * When every timestamp of a record is a whole minute, the estimate's
   * contribution equals `calculateWorkDurationMinutes` in milliseconds.
   */
  lemma ContributionAgreesWithCalculation(r: EstimateRecord)
    requires WholeMinuteBreaks(r.breakRecords)
    requires r.clockIn.Some? ==> WholeMinute(r.clockIn.value)
    requires r.clockOut.Some? ==> WholeMinute(r.clockOut.value)
    ensures DayContributionMs(r) == Calculations.MsPerMinute * Calculations.CalculateWorkDurationMinutes(
      Calculations.AttendanceRecord(r.clockIn, r.clockOut, Some(AsCalcBreaks(r.breakRecords))))
  {
    BreaksAgree(r.breakRecords);
    if r.clockIn.Some? && r.clockOut.Some? {
      DifferenceOfWholeMinutes(r.clockOut.value, r.clockIn.value);
    }
  }

  /** Seconds count here but not in the per-record calculation: 90 seconds of work. */
  lemma SecondsCountInEstimate()
    ensures DayContributionMs(EstimateRecord("u", Date(2025, 1, 6), Some(0), Some(90000), [], None)) == 90000
    ensures Calculations.CalculateWorkDurationMinutes(
      Calculations.AttendanceRecord(Some(0), Some(90000), None)) * Calculations.MsPerMinute == 60000
  {
    assert BreaksMs([]) == 0;
  }

  // ---- The computation as written ----

  /** Lines 64-77: the day's duration, breaks subtracted one by one. */
  method RecordDurationMs(r: EstimateRecord) returns (duration: int)
    requires r.clockIn.Some? && r.clockOut.Some?
    ensures duration == DayDurationMs(r)
  {
    duration := r.clockOut.value - r.clockIn.value;
    var breaks := r.breakRecords;
    for j := 0 to |breaks|
      invariant duration == r.clockOut.value - r.clockIn.value - BreaksMs(breaks[..j])
    {
      var br := breaks[j];
      assert breaks[..j + 1][..j] == breaks[..j];
      if br.startTime.Some? && br.endTime.Some? {
        duration := duration - (br.endTime.value - br.startTime.value);
      }
    }
    assert breaks[..|breaks|] == breaks;
  }

  /** Lines 57-86: one employee's totals and estimated wage. */
  method EmployeeEstimateOf(emp: Employee, recs: seq<EstimateRecord>) returns (e: EmployeeEstimate)
    ensures e == EstimateOf(emp, recs)
    ensures e.totalMs >= 0
  {
    var empRecords := EmployeeRecords(recs, emp.id);
    var totalMs, totalTransport := 0, 0;
    for i := 0 to |empRecords|
      invariant totalMs == TotalMs(empRecords[..i])
      invariant totalTransport == TotalTransport(empRecords[..i])
    {
      var record := empRecords[i];
      assert empRecords[..i + 1][..i] == empRecords[..i];
      if record.clockIn.Some? && record.clockOut.Some? {
        var duration := RecordDurationMs(record);
        if duration > 0 {
          totalMs := totalMs + duration;
        }
      }
      totalTransport := totalTransport + record.transportCost.GetOr(0);
    }
    assert empRecords[..|empRecords|] == empRecords;
    var hourlyWage := HourlyWageOrDefault(emp.hourlyWage);
    e := EmployeeEstimate(totalMs, totalTransport, (totalMs * hourlyWage) / MsPerHour);
  }

  /**
   * `getAdminData`: only an administrator gets the overview; the stats map is
   * filled employee by employee from the records on or after the first of
   * today's month. A failed employee query yields an empty overview.
   */
  method GetAdminData(caller: Option<Caller>, employees: Option<seq<Employee>>,
                      allRecords: seq<EstimateRecord>, today: Date) returns (data: AdminData)
    ensures caller.None? ==> data == RedirectToLogin
    ensures caller.Some? && caller.value.role != Some("admin") ==> data == RedirectToHome
    ensures caller.Some? && caller.value.role == Some("admin") && employees.None? ==> data == Overview([], map[])
    ensures caller.Some? && caller.value.role == Some("admin") && employees.Some? ==>
      data == Overview(employees.value, StatsMap(employees.value, WindowRecords(today, allRecords)))
  {
    if caller.None? {
      return RedirectToLogin;
    }
    if caller.value.role != Some("admin") {
      return RedirectToHome;
    }
    if employees.None? {
      return Overview([], map[]);
    }
    var emps := employees.value;
    var recs := WindowRecords(today, allRecords);
    var stats: map<string, EmployeeEstimate> := map[];
    for i := 0 to |emps|
      invariant stats == StatsMap(emps[..i], recs)
    {
      assert emps[..i + 1][..i] == emps[..i];
      var e := EmployeeEstimateOf(emps[i], recs);
      stats := stats[emps[i].id := e];
    }
    assert emps[..|emps|] == emps;
    data := Overview(emps, stats);
  }
}
