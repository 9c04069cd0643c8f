/**
 * The employee's own attendance actions: clocking in and out, starting and
 * ending a break, and reading today's record. The signed-in user, today's
 * date and the current time are parameters.
 */
module AttendanceActions {
  import opened Wrappers
  import opened Calendar
  import opened AttendanceStore

  const AlreadyClockedIn := "既に本日の出勤記録が存在します"

  /**
   * `getTodayAttendance`: the user's record for today created first, or
   * nothing when signed out or when there is none.
   */
  method GetTodayAttendance(store: Store, user: Option<string>, today: Date) returns (found: Option<nat>)
    ensures user.None? ==> found.None?
    ensures user.Some? ==> (found.None? <==> RecordsOn(store.records, user.value, today) == {})
    ensures found.Some? ==>
      found.value in RecordsOn(store.records, user.value, today)
      && forall j :: j in RecordsOn(store.records, user.value, today) ==>
           store.records[found.value].createdAt <= store.records[j].createdAt
  {
    if user.None? {
      return None;
    }
    var candidates := RecordsOn(store.records, user.value, today);
    var remaining := candidates;
    found := None;
    while remaining != {}
      invariant remaining <= candidates
      invariant found.None? <==> remaining == candidates
      invariant found.Some? ==>
        found.value in candidates
        && forall j :: j in candidates - remaining ==>
             store.records[found.value].createdAt <= store.records[j].createdAt
      decreases |remaining|
    {
      var id :| id in remaining;
      if found.None? || store.records[id].createdAt < store.records[found.value].createdAt {
        found := Some(id);
      }
      remaining := remaining - {id};
    }
  }

  /**
   * `clockIn`: throws when signed out; refuses when a record for today is
   * already found; otherwise inserts one open record stamped `now`.
   */
  method ClockIn(store: Store, user: Option<string>, today: Date, now: int) returns (out: Outcome)
    requires store.Valid()
    modifies store
    ensures store.Valid()
    ensures user.None? ==> out == Thrown("Unauthorized")
    ensures out != Success ==> unchanged(store)
    ensures user.Some? && |RecordsOn(old(store.records), user.value, today)| == 1 ==> out == ErrorResult(AlreadyClockedIn)
    ensures user.Some? && |RecordsOn(old(store.records), user.value, today)| != 1 ==> out == Success
    ensures out == Success ==>
      user.Some? && store.breaks == old(store.breaks)
      && store.records == old(store.records)[old(store.nextId) := AttendanceRow(user.value, today, Some(now), None, now)]
    ensures UniquePerDay(old(store.records)) ==> UniquePerDay(store.records)
  {
    if user.None? {
      return Thrown("Unauthorized");
    }
    var existing := store.SingleRecordOn(user.value, today);
    if existing.Some? {
      return ErrorResult(AlreadyClockedIn);
    }
    if UniquePerDay(store.records) {
      UniqueRecordsOn(store.records, user.value, today);
      InsertKeepsUniquePerDay(store.records, store.nextId, AttendanceRow(user.value, today, Some(now), None, now));
    }
    var _ := store.InsertRecord(AttendanceRow(user.value, today, Some(now), None, now));
    out := Success;
  }

  /** `clockOut`: stamps `now` as the clock-out of that record, whatever it held; no match changes nothing. */
  method ClockOut(store: Store, attendanceId: nat, now: int) returns (out: Outcome)
    requires store.Valid()
    modifies store
    ensures store.Valid()
    ensures out == Success
    ensures attendanceId in old(store.records) ==>
      store.records == old(store.records)[attendanceId := old(store.records)[attendanceId].(clockOut := Some(now))]
    ensures attendanceId !in old(store.records) ==> store.records == old(store.records)
    ensures store.breaks == old(store.breaks) && store.nextId == old(store.nextId)
    ensures UniquePerDay(old(store.records)) ==> UniquePerDay(store.records)
  {
    if attendanceId in store.records {
      var row := store.records[attendanceId].(clockOut := Some(now));
      if UniquePerDay(store.records) {
        UpdateKeepsUniquePerDay(store.records, attendanceId, row);
      }
      store.records := store.records[attendanceId := row];
    }
    out := Success;
  }

  /** `startBreak`: inserts an open break starting `now`, even if one is already open. */
  method StartBreak(store: Store, attendanceId: nat, now: int) returns (out: Outcome)
    requires store.Valid()
    modifies store
    ensures store.Valid() && out == Success
    ensures store.breaks == old(store.breaks)[old(store.nextId) := BreakRow(attendanceId, now, None)]
    ensures store.records == old(store.records)
  {
    var _ := store.InsertBreak(BreakRow(attendanceId, now, None));
    out := Success;
  }

  /** `endBreak`: stamps `now` as the end of that break; no match changes nothing. */
  method EndBreak(store: Store, breakId: nat, now: int) returns (out: Outcome)
    requires store.Valid()
    modifies store
    ensures store.Valid()
    ensures out == Success
    ensures breakId in old(store.breaks) ==>
      store.breaks == old(store.breaks)[breakId := old(store.breaks)[breakId].(endTime := Some(now))]
    ensures breakId !in old(store.breaks) ==> store.breaks == old(store.breaks)
    ensures store.records == old(store.records) && store.nextId == old(store.nextId)
  {
    if breakId in store.breaks {
      store.breaks := store.breaks[breakId := store.breaks[breakId].(endTime := Some(now))];
    }
    out := Success;
  }
}
