/**
 * The admin monthly table: per employee, the day counts and minute sums
 * accumulated from that employee's attendance records, and the `h:MM` text
 * used for every minute column. The per-day statistics are produced by a
 * routine that is not part of this model and arrive here as data.
 */
module DashboardTable {
  import opened Wrappers
  import opened Decimal
  import Calculations

  /** One day's statistics, as the daily-statistics routine reports them. */
  datatype DailyStats = DailyStats(
    workMinutes: int,
    weekdayMinutes: int,
    saturdayMinutes: int,
    sundayMinutes: int,
    lateNightMinutes: int)

  /** An attendance record as the roll-up sees it (null `is_telework` reads as false). */
  datatype DayRecord = DayRecord(userId: string, isTelework: bool, daily: DailyStats)

  datatype MonthlyStats = MonthlyStats(
    workDays: int,
    weekdayDays: int,
    satDays: int,
    sunDays: int,
    workMinutes: int,
    weekdayMinutes: int,
    satMinutes: int,
    sunMinutes: int,
    lateNightMinutes: int,
    teleworkCount: int)

  datatype Profile = Profile(
    id: string,
    fullName: Option<string>,
    role: string,
    hourlyWage: Option<int>,
    username: Option<string>)

  // ---- Reference definitions of the monthly figures ----

  predicate Worked(r: DayRecord) { r.daily.workMinutes > 0 }
  predicate SaturdayDay(r: DayRecord) { Worked(r) && r.daily.saturdayMinutes > 0 }
  predicate SundayDay(r: DayRecord) { Worked(r) && r.daily.saturdayMinutes <= 0 && r.daily.sundayMinutes > 0 }
  predicate WeekdayDay(r: DayRecord) { Worked(r) && r.daily.saturdayMinutes <= 0 && r.daily.sundayMinutes <= 0 }
  predicate Telework(r: DayRecord) { r.isTelework }

  function WorkMinutesOf(r: DayRecord): int { r.daily.workMinutes }
  function WeekdayMinutesOf(r: DayRecord): int { r.daily.weekdayMinutes }
  function SaturdayMinutesOf(r: DayRecord): int { r.daily.saturdayMinutes }
  function SundayMinutesOf(r: DayRecord): int { r.daily.sundayMinutes }
  function LateNightMinutesOf(r: DayRecord): int { r.daily.lateNightMinutes }

  /** Number of records satisfying `p`. */
  function CountWhere(recs: seq<DayRecord>, p: DayRecord -> bool): (n: nat)
    ensures n <= |recs|
  {
    if recs == [] then 0
    else CountWhere(recs[..|recs| - 1], p) + (if p(recs[|recs| - 1]) then 1 else 0)
  }

  /** Sum of `f` over the records. */
  function SumOf(recs: seq<DayRecord>, f: DayRecord -> int): int
  {
    if recs == [] then 0 else SumOf(recs[..|recs| - 1], f) + f(recs[|recs| - 1])
  }

  /** The monthly figures of a list of records, field by field. */
  function StatsOf(recs: seq<DayRecord>): MonthlyStats
  {
    MonthlyStats(
      CountWhere(recs, Worked),
      CountWhere(recs, WeekdayDay),
      CountWhere(recs, SaturdayDay),
      CountWhere(recs, SundayDay),
      SumOf(recs, WorkMinutesOf),
      SumOf(recs, WeekdayMinutesOf),
      SumOf(recs, SaturdayMinutesOf),
      SumOf(recs, SundayMinutesOf),
      SumOf(recs, LateNightMinutesOf),
      CountWhere(recs, Telework))
  }

  /** `attendanceRecords.filter(r => r.user_id === emp.id)`. */
  function UserRecords(records: seq<DayRecord>, userId: string): (u: seq<DayRecord>)
    ensures forall r :: r in u <==> r in records && r.userId == userId
    ensures |u| <= |records|
    ensures |records| == 1 ==> u == (if records[0].userId == userId then records else [])
  {
    if records == [] then []
    else
      var rest := UserRecords(records[..|records| - 1], userId);
      var last := records[|records| - 1];
      assert records == records[..|records| - 1] + [last];
      if last.userId == userId then rest + [last] else rest
  }

  /** Filtering a concatenation filters each part and keeps them in order. */
  lemma {:induction false} UserRecordsAppend(a: seq<DayRecord>, b: seq<DayRecord>, userId: string)
    ensures UserRecords(a + b, userId) == UserRecords(a, userId) + UserRecords(b, userId)
    decreases |b|
  {
    if b == [] {
      assert a + b == a;
    } else {
      var b' := b[..|b| - 1];
      assert (a + b)[..|a + b| - 1] == a + b';
      UserRecordsAppend(a, b', userId);
    }
  }

  /** Records of other users do not change a user's record list. */
  lemma {:induction false} UserRecordsIgnoresOthers(records: seq<DayRecord>, others: seq<DayRecord>, userId: string)
    requires forall r :: r in others ==> r.userId != userId
    ensures UserRecords(records + others, userId) == UserRecords(records, userId)
    decreases |others|
  {
    if others == [] {
      assert records + others == records;
    } else {
      var o' := others[..|others| - 1];
      assert (records + others)[..|records + others| - 1] == records + o';
      assert others[|others| - 1] in others;
      UserRecordsIgnoresOthers(records, o', userId);
    }
  }

  /** Every worked day lands in exactly one of the Saturday, Sunday and weekday buckets. */
  lemma {:induction false} DayBucketsPartitionWorkDays(recs: seq<DayRecord>)
    ensures CountWhere(recs, SaturdayDay) + CountWhere(recs, SundayDay) + CountWhere(recs, WeekdayDay)
         == CountWhere(recs, Worked)
    decreases |recs|
  {
    if recs != [] {
      DayBucketsPartitionWorkDays(recs[..|recs| - 1]);
    }
  }

  /**
   * The effect of one more record: `workDays` grows only for positive worked
   * minutes, while `teleworkCount` grows for every telework record, worked or not.
   */
  lemma StatsOfAppend(recs: seq<DayRecord>, r: DayRecord)
    ensures StatsOf(recs + [r]).workDays == StatsOf(recs).workDays + (if r.daily.workMinutes > 0 then 1 else 0)
    ensures StatsOf(recs + [r]).teleworkCount == StatsOf(recs).teleworkCount + (if r.isTelework then 1 else 0)
    ensures StatsOf(recs + [r]).workMinutes == StatsOf(recs).workMinutes + r.daily.workMinutes
    ensures StatsOf(recs + [r]).lateNightMinutes == StatsOf(recs).lateNightMinutes + r.daily.lateNightMinutes
  {
    assert (recs + [r])[..|recs|] == recs;
  }

  /**
   * The per-employee accumulation loop: filter the employee's records, then
   * update the ten counters record by record.
   */
  method UserMonthlyStats(records: seq<DayRecord>, userId: string) returns (stats: MonthlyStats)
    ensures stats == StatsOf(UserRecords(records, userId))
    ensures stats.satDays + stats.sunDays + stats.weekdayDays == stats.workDays
    ensures 0 <= stats.teleworkCount <= |UserRecords(records, userId)|
  {
    var userRecords := UserRecords(records, userId);
    var workDays, weekdayDays, satDays, sunDays := 0, 0, 0, 0;
    var workMinutes, weekdayMinutes, satMinutes, sunMinutes, lateNightMinutes := 0, 0, 0, 0, 0;
    var teleworkCount := 0;
    for i := 0 to |userRecords|
      invariant StatsOf(userRecords[..i]) == MonthlyStats(workDays, weekdayDays, satDays, sunDays,
        workMinutes, weekdayMinutes, satMinutes, sunMinutes, lateNightMinutes, teleworkCount)
    {
      var rec := userRecords[i];
      var daily := rec.daily;
      assert userRecords[..i + 1][..i] == userRecords[..i];
      if daily.workMinutes > 0 {
        workDays := workDays + 1;
        if daily.saturdayMinutes > 0 {
          satDays := satDays + 1;
        } else if daily.sundayMinutes > 0 {
          sunDays := sunDays + 1;
        } else {
          weekdayDays := weekdayDays + 1;
        }
      }
      workMinutes := workMinutes + daily.workMinutes;
      weekdayMinutes := weekdayMinutes + daily.weekdayMinutes;
      satMinutes := satMinutes + daily.saturdayMinutes;
      sunMinutes := sunMinutes + daily.sundayMinutes;
      lateNightMinutes := lateNightMinutes + daily.lateNightMinutes;
      if rec.isTelework {
        teleworkCount := teleworkCount + 1;
      }
    }
    assert userRecords[..|userRecords|] == userRecords;
    stats := MonthlyStats(workDays, weekdayDays, satDays, sunDays,
      workMinutes, weekdayMinutes, satMinutes, sunMinutes, lateNightMinutes, teleworkCount);
    DayBucketsPartitionWorkDays(userRecords);
  }

  /** `employees.filter(e => e.role !== 'admin')`. */
  function DisplayEmployees(employees: seq<Profile>): (d: seq<Profile>)
    ensures forall e :: e in d <==> e in employees && e.role != "admin"
    ensures |employees| == 1 ==> d == (if employees[0].role != "admin" then employees else [])
  {
    if employees == [] then []
    else
      var rest := DisplayEmployees(employees[1..]);
      assert employees == [employees[0]] + employees[1..];
      if employees[0].role != "admin" then [employees[0]] + rest else rest
  }

  /** Filtering a concatenation filters each part and keeps them in order. */
  lemma {:induction false} DisplayEmployeesAppend(a: seq<Profile>, b: seq<Profile>)
    ensures DisplayEmployees(a + b) == DisplayEmployees(a) + DisplayEmployees(b)
    decreases |a|
  {
    if a == [] {
      assert a + b == b;
    } else {
      assert (a + b)[1..] == a[1..] + b;
      DisplayEmployeesAppend(a[1..], b);
    }
  }

  /** `formatTime` / `fmt`: `${Math.floor(m / 60)}:${String(m % 60).padStart(2, '0')}`. */
  function FormatClock(mins: int): string
  {
    IntToString(mins / 60) + (":" + PadStart2(IntToString(Calculations.JsRem(mins, 60))))
  }

  /** Reads ":MM" (exactly two digits) as MM. */
  function ParseMinutePart(r: string): Option<nat>
  {
    if |r| == 3 && r[0] == ':' && IsDigit(r[1]) && IsDigit(r[2]) then Some(DigitsValue(r[1..])) else None
  }

  /** Reads "h:MM" back as 60·h + MM; None for any other text. */
  function ParseClock(s: string): Option<int>
  {
    var split := SplitDigits(s);
    if split.0 == [] then None
    else match ParseMinutePart(split.1)
      case None => None
      case Some(m) => Some(60 * DigitsValue(split.0) + m)
  }

  /** For non-negative minutes: the hours, a colon, and the minutes padded to two digits. */
  lemma FormatClockShape(mins: nat)
    ensures FormatClock(mins) == NatToString(mins / 60) + (":" + PadStart2(NatToString(mins % 60)))
  {
  }

  lemma ParseMinutePartOfPadded(m: nat)
    requires m < 60
    ensures ParseMinutePart(":" + PadStart2(NatToString(m))) == Some(m)
  {
    var t := NatToString(m);
    var r := ":" + PadStart2(t);
    DigitsValueOfNatToString(m);
    if m < 10 {
      assert r[1..] == "0" + t;
      DigitsValueOfLeadingZero(t);
    } else {
      assert r[1..] == t;
    }
  }

  /** Text split into the hours' digits and a well-formed minute tail reads back as the minute count. */
  lemma ParseClockOfSplit(s: string, d: string, t: string, mins: nat)
    requires s == d + t && d != [] && SplitDigits(s) == (d, t)
    requires DigitsValue(d) == mins / 60 && ParseMinutePart(t) == Some(mins % 60)
    ensures ParseClock(s) == Some(mins)
  {
  }

  lemma FormatClockRoundTrip(mins: nat)
    ensures ParseClock(FormatClock(mins)) == Some(mins)
  {
    var d, t := NatToString(mins / 60), ":" + PadStart2(NatToString(mins % 60));
    FormatClockShape(mins);
    SplitNatThen(mins / 60, t);
    ParseMinutePartOfPadded(mins % 60);
    ParseClockOfSplit(FormatClock(mins), d, t, mins);
  }

  function RoleMap(role: string): Option<string>
  {
    if role == "admin" then Some("管理者")
    else if role == "member" then Some("社員")
    else if role == "arbeit" then Some("アルバイト")
    else if role == "intern" then Some("インターン")
    else None
  }

  datatype DashboardRow = DashboardRow(
    userId: string,
    username: Option<string>,
    name: string,
    roleLabel: string,
    stats: MonthlyStats)

  /** One table row per non-admin employee, in list order. */
  function DashboardRows(employees: seq<Profile>, records: seq<DayRecord>): (rows: seq<DashboardRow>)
    ensures |rows| == |DisplayEmployees(employees)|
    ensures forall i :: 0 <= i < |rows| ==>
      rows[i].userId == DisplayEmployees(employees)[i].id
      && rows[i].stats == StatsOf(UserRecords(records, rows[i].userId))
  {
    var shown := DisplayEmployees(employees);
    seq(|shown|, i requires 0 <= i < |shown| =>
      var e := shown[i];
      DashboardRow(
        e.id,
        e.username,
        if e.fullName.Some? && e.fullName.value != "" then e.fullName.value else "名称未設定",
        RoleMap(e.role).GetOr(e.role),
        StatsOf(UserRecords(records, e.id))))
  }

  /** No administrator ever appears in the table. */
  lemma NoAdminInDashboard(employees: seq<Profile>, records: seq<DayRecord>, i: nat)
    requires i < |DashboardRows(employees, records)|
    ensures exists e :: e in employees && e.id == DashboardRows(employees, records)[i].userId && e.role != "admin"
  {
    var shown := DisplayEmployees(employees);
    assert shown[i] in shown;
  }
}
