/**
 * The employee home page: where a visitor is sent, the three flags derived
 * from today's record, and the status shown from them.
 */
module HomePage {
  import opened Wrappers
  import opened AttendanceStore

  datatype TodayBreak = TodayBreak(id: nat, endTime: Option<int>)

  /** Today's record as `getTodayAttendance` returns it, breaks joined in. */
  datatype TodayAttendance = TodayAttendance(
    id: nat,
    clockIn: Option<int>,
    clockOut: Option<int>,
    breakRecords: Option<seq<TodayBreak>>)

  datatype ProfileView = ProfileView(role: Option<string>, passwordResetRequired: bool)

  datatype Route = ToLogin | ToChangePassword | ToAdmin | ShowHome

  datatype Status = NotClockedIn | Working | OnBreak | ClockedOut

  /** Redirect order: sign-in first, then a required password change, then the admin area. */
  function HomeRoute(signedIn: bool, profile: Option<ProfileView>): (r: Route)
    ensures !signedIn <==> r == ToLogin
    ensures r == ToChangePassword <==> signedIn && profile.Some? && profile.value.passwordResetRequired
    ensures r == ToAdmin <==>
      signedIn && profile.Some? && !profile.value.passwordResetRequired && profile.value.role == Some("admin")
    ensures r == ShowHome <==> signedIn && (profile.None? || (!profile.value.passwordResetRequired && profile.value.role != Some("admin")))
  {
    if !signedIn then ToLogin
    else if profile.Some? && profile.value.passwordResetRequired then ToChangePassword
    else if profile.Some? && profile.value.role == Some("admin") then ToAdmin
    else ShowHome
  }

  predicate IsClockedIn(a: Option<TodayAttendance>)
  {
    a.Some? && a.value.clockIn.Some?
  }

  predicate IsClockedOut(a: Option<TodayAttendance>)
  {
    a.Some? && a.value.clockOut.Some?
  }

  /** `break_records.find(b => !b.end_time)`: the first break without an end. */
  function FirstOpenBreak(breaks: seq<TodayBreak>): (r: Option<TodayBreak>)
    ensures r.None? <==> forall i :: 0 <= i < |breaks| ==> breaks[i].endTime.Some?
    ensures r.Some? ==> r.value.endTime.None? && exists i :: (0 <= i < |breaks| && breaks[i] == r.value
                          && forall j :: 0 <= j < i ==> breaks[j].endTime.Some?)
  {
    if breaks == [] then None
    else if breaks[0].endTime.None? then Some(breaks[0])
    else
      var rest := FirstOpenBreak(breaks[1..]);
      assert forall i :: 1 <= i < |breaks| ==> breaks[i] == breaks[1..][i - 1];
      rest
  }

  function ActiveBreak(a: Option<TodayAttendance>): (r: Option<TodayBreak>)
    ensures a.None? || a.value.breakRecords.None? ==> r.None?
    ensures r.Some? ==> r.value.endTime.None?
  {
    if a.None? || a.value.breakRecords.None? then None else FirstOpenBreak(a.value.breakRecords.value)
  }

  predicate IsOnBreak(a: Option<TodayAttendance>)
  {
    ActiveBreak(a).Some?
  }

  /** On break exactly when some joined break has no end time. */
  lemma OnBreakIffOpenBreak(a: TodayAttendance)
    ensures IsOnBreak(Some(a)) <==>
      a.breakRecords.Some? && exists i :: 0 <= i < |a.breakRecords.value| && a.breakRecords.value[i].endTime.None?
  {
  }

  /** The priority chain: clocked out, then on break, then working, else not clocked in. */
  function StatusOf(clockedIn: bool, clockedOut: bool, onBreak: bool): (s: Status)
    ensures s == ClockedOut <==> clockedOut
    ensures s == OnBreak <==> !clockedOut && onBreak
    ensures s == Working <==> !clockedOut && !onBreak && clockedIn
    ensures s == NotClockedIn <==> !clockedOut && !onBreak && !clockedIn
  {
    if clockedOut then ClockedOut
    else if onBreak then OnBreak
    else if clockedIn then Working
    else NotClockedIn
  }

  function StatusText(s: Status): string
  {
    match s
    case NotClockedIn => "未出勤"
    case ClockedOut => "退勤済み"
    case OnBreak => "休憩中"
    case Working => "勤務中"
  }

  function HomeStatus(a: Option<TodayAttendance>): Status
  {
    StatusOf(IsClockedIn(a), IsClockedOut(a), IsOnBreak(a))
  }

  /** Each status has its own text. */
  lemma StatusTextDistinct(s: Status, t: Status)
    requires s != t
    ensures StatusText(s) != StatusText(t)
  {
  }

  // ---- The flags read off the store ----

  /** Some break of the record is still open. */
  ghost predicate OpenBreakInStore(breaks: map<nat, BreakRow>, recordId: nat)
  {
    exists b :: b in breaks && breaks[b].recordId == recordId && breaks[b].endTime.None?
  }

  ghost function StoreStatus(records: map<nat, AttendanceRow>, breaks: map<nat, BreakRow>, recordId: nat): Status
    requires recordId in records
  {
    StatusOf(records[recordId].clockIn.Some?, records[recordId].clockOut.Some?, OpenBreakInStore(breaks, recordId))
  }

  /** A record just created by clocking in, with no breaks, reads as working. */
  lemma ClockInStartsWorking(records: map<nat, AttendanceRow>, breaks: map<nat, BreakRow>, id: nat, row: AttendanceRow)
    requires row.clockIn.Some? && row.clockOut.None?
    requires BreaksOf(breaks, id) == {}
    ensures StoreStatus(records[id := row], breaks, id) == Working
  {
  }

  /** Starting a break on a record that is not clocked out puts it on break. */
  lemma StartBreakPutsOnBreak(records: map<nat, AttendanceRow>, breaks: map<nat, BreakRow>, id: nat, newId: nat, now: int)
    requires id in records && records[id].clockOut.None?
    ensures StoreStatus(records, breaks[newId := BreakRow(id, now, None)], id) == OnBreak
  {
    assert newId in breaks[newId := BreakRow(id, now, None)];
  }

  /** Ending the only open break of a clocked-in record returns it to working. */
  lemma EndBreakResumesWork(records: map<nat, AttendanceRow>, breaks: map<nat, BreakRow>, id: nat, b: nat, now: int)
    requires id in records && records[id].clockIn.Some? && records[id].clockOut.None?
    requires b in breaks && breaks[b].recordId == id
    requires forall c :: c in breaks && c != b && breaks[c].recordId == id ==> breaks[c].endTime.Some?
    ensures StoreStatus(records, breaks[b := breaks[b].(endTime := Some(now))], id) == Working
  {
  }

  /** Clocking out wins over everything else. */
  lemma ClockOutEndsDay(records: map<nat, AttendanceRow>, breaks: map<nat, BreakRow>, id: nat, now: int)
    requires id in records
    ensures StoreStatus(records[id := records[id].(clockOut := Some(now))], breaks, id) == ClockedOut
  {
  }
}
