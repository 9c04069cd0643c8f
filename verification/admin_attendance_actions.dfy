/**
 * The administrator's edits to attendance: correcting a record and its
 * break, creating a record for a user and day, and deleting a record.
 * Every action first checks that the caller is a signed-in administrator.
 */
module AdminAttendanceActions {
  import opened Wrappers
  import opened Calendar
  import opened AttendanceStore

  datatype Caller = Caller(userId: string, role: Option<string>)

  /** The form values; a present break start or end is a non-empty timestamp. */
  datatype UpdateData = UpdateData(
    clockIn: Option<int>,
    clockOut: Option<int>,
    breakStart: Option<int>,
    breakEnd: Option<int>)

  const DuplicateRecord := "This user already has a record for this date."

  /** The admin guard: the error thrown, if any. */
  function Authorize(caller: Option<Caller>): (err: Option<string>)
    ensures caller.None? ==> err == Some("Unauthorized")
    ensures caller.Some? && caller.value.role != Some("admin") ==> err == Some("Forbidden")
    ensures err.None? <==> caller.Some? && caller.value.role == Some("admin")
  {
    if caller.None? then Some("Unauthorized")
    else if caller.value.role != Some("admin") then Some("Forbidden")
    else None
  }

  /** What happens to the break table in `updateAttendance`. */
  datatype BreakChange = OverwriteBreak(id: nat) | DeleteBreak(id: nat) | InsertBreak | KeepBreaks

  /**
   * The decision table: with a single existing break, a given start overwrites
   * it, no start and no end delete it, and an end alone leaves it; without one,
   * a given start inserts a break.
   */
  function BreakDecision(existing: Option<nat>, data: UpdateData): (c: BreakChange)
    ensures existing.Some? && data.breakStart.Some? ==> c == OverwriteBreak(existing.value)
    ensures existing.Some? && data.breakStart.None? && data.breakEnd.None? ==> c == DeleteBreak(existing.value)
    ensures existing.Some? && data.breakStart.None? && data.breakEnd.Some? ==> c == KeepBreaks
    ensures existing.None? ==> (c == InsertBreak <==> data.breakStart.Some?)
    ensures existing.None? && data.breakStart.None? ==> c == KeepBreaks
  {
    if existing.Some? then
      if data.breakStart.Some? then OverwriteBreak(existing.value)
      else if data.breakEnd.None? then DeleteBreak(existing.value)
      else KeepBreaks
    else if data.breakStart.Some? then InsertBreak
    else KeepBreaks
  }

  /** The break table after a decision has been carried out; an inserted break gets `freshId`. */
  function ApplyBreakChange(breaks: map<nat, BreakRow>, c: BreakChange, recordId: nat,
                            data: UpdateData, freshId: nat): (after: map<nat, BreakRow>)
    requires c.OverwriteBreak? || c.InsertBreak? ==> data.breakStart.Some?
    ensures c.KeepBreaks? ==> after == breaks
    ensures c.DeleteBreak? ==> after.Keys == breaks.Keys - {c.id}
    ensures c.InsertBreak? ==> after.Keys == breaks.Keys + {freshId}
    ensures !c.DeleteBreak? ==> breaks.Keys <= after.Keys
    ensures c.OverwriteBreak? ==>
      after.Keys == breaks.Keys + {c.id} && after[c.id] == BreakRow(recordId, data.breakStart.value, data.breakEnd)
    ensures c.InsertBreak? ==> after[freshId] == BreakRow(recordId, data.breakStart.value, data.breakEnd)
    ensures forall k :: (k in after && k in breaks && !(c.OverwriteBreak? && k == c.id)
      && !(c.InsertBreak? && k == freshId)) ==> after[k] == breaks[k]
  {
    match c
    case OverwriteBreak(id) => breaks[id := BreakRow(recordId, data.breakStart.value, data.breakEnd)]
    case DeleteBreak(id) => breaks - {id}
    case InsertBreak => breaks[freshId := BreakRow(recordId, data.breakStart.value, data.breakEnd)]
    case KeepBreaks => breaks
  }

  /** The one element of a singleton set, as `.single()` returns it. */
  ghost function SingleId(ids: set<nat>): (r: Option<nat>)
    ensures r.Some? <==> |ids| == 1
    ensures r.Some? ==> ids == {r.value}
  {
    if |ids| == 1 then
      var x :| x in ids;
      assert |ids - {x}| == 0;
      Some(x)
    else None
  }

  /** The record with new clock times, when it exists. */
  function WithClockTimes(records: map<nat, AttendanceRow>, recordId: nat, data: UpdateData): (after: map<nat, AttendanceRow>)
    ensures after.Keys == records.Keys
    ensures forall k :: k in records && k != recordId ==> after[k] == records[k]
    ensures recordId in records ==>
      after[recordId].clockIn == data.clockIn && after[recordId].clockOut == data.clockOut
      && after[recordId].userId == records[recordId].userId && after[recordId].date == records[recordId].date
      && after[recordId].createdAt == records[recordId].createdAt
  {
    if recordId in records then
      records[recordId := records[recordId].(clockIn := data.clockIn, clockOut := data.clockOut)]
    else records
  }

  /**
   * `updateAttendance`: the guard, then the record's clock times (null included),
   * then the break decided by the table above.
   */
  method UpdateAttendance(store: Store, caller: Option<Caller>, recordId: nat, data: UpdateData) returns (out: Outcome)
    requires store.Valid()
    modifies store
    ensures store.Valid()
    ensures Authorize(caller).Some? ==> out == Thrown(Authorize(caller).value) && unchanged(store)
    ensures Authorize(caller).None? ==>
      out == Success
      && store.records == WithClockTimes(old(store.records), recordId, data)
      && store.breaks == ApplyBreakChange(old(store.breaks),
           BreakDecision(SingleId(BreaksOf(old(store.breaks), recordId)), data), recordId, data, old(store.nextId))
    ensures UniquePerDay(old(store.records)) ==> UniquePerDay(store.records)
  {
    var err := Authorize(caller);
    if err.Some? {
      return Thrown(err.value);
    }
    if recordId in store.records {
      var row := store.records[recordId].(clockIn := data.clockIn, clockOut := data.clockOut);
      if UniquePerDay(store.records) {
        UpdateKeepsUniquePerDay(store.records, recordId, row);
      }
      store.records := store.records[recordId := row];
    }
    var breakRecord := store.SingleBreakOf(recordId);
    ghost var decision := BreakDecision(breakRecord, data);
    assert breakRecord == SingleId(BreaksOf(store.breaks, recordId));
    if breakRecord.Some? {
      if data.breakStart.Some? {
        store.breaks := store.breaks[breakRecord.value := BreakRow(recordId, data.breakStart.value, data.breakEnd)];
      } else {
        if data.breakStart.None? && data.breakEnd.None? {
          store.breaks := store.breaks - {breakRecord.value};
        }
      }
    } else {
      if data.breakStart.Some? {
        var _ := store.InsertBreak(BreakRow(recordId, data.breakStart.value, data.breakEnd));
      }
    }
    out := Success;
  }

  /**
   * `createAttendance`: the guard, the duplicate check, the new record, and a
   * break when a start is given; a failed break insert (`breakInsertOk`
   * false) is only logged, and the call still succeeds.
   */
  method CreateAttendance(store: Store, caller: Option<Caller>, userId: string, date: Date,
                          data: UpdateData, now: int, breakInsertOk: bool) returns (out: Outcome)
    requires store.Valid()
    modifies store
    ensures store.Valid()
    ensures Authorize(caller).Some? ==> out == Thrown(Authorize(caller).value) && unchanged(store)
    ensures Authorize(caller).None? && |RecordsOn(old(store.records), userId, date)| == 1 ==>
      out == Thrown(DuplicateRecord) && unchanged(store)
    ensures out == Success ==>
      store.records == old(store.records)[old(store.nextId) := AttendanceRow(userId, date, data.clockIn, data.clockOut, now)]
      && store.breaks == (if data.breakStart.Some? && breakInsertOk
                          then old(store.breaks)[old(store.nextId) + 1 := BreakRow(old(store.nextId), data.breakStart.value, data.breakEnd)]
                          else old(store.breaks))
    ensures Authorize(caller).None? && |RecordsOn(old(store.records), userId, date)| != 1 ==> out == Success
    ensures UniquePerDay(old(store.records)) ==> UniquePerDay(store.records)
  {
    var err := Authorize(caller);
    if err.Some? {
      return Thrown(err.value);
    }
    var existing := store.SingleRecordOn(userId, date);
    if existing.Some? {
      return Thrown(DuplicateRecord);
    }
    var row := AttendanceRow(userId, date, data.clockIn, data.clockOut, now);
    if UniquePerDay(store.records) {
      UniqueRecordsOn(store.records, userId, date);
      InsertKeepsUniquePerDay(store.records, store.nextId, row);
    }
    var newId := store.InsertRecord(row);
    if data.breakStart.Some? && breakInsertOk {
      var _ := store.InsertBreak(BreakRow(newId, data.breakStart.value, data.breakEnd));
    }
    out := Success;
  }

  /** `deleteAttendance`: the guard, then the record with that id is removed and nothing else. */
  method DeleteAttendance(store: Store, caller: Option<Caller>, recordId: nat) returns (out: Outcome)
    requires store.Valid()
    modifies store
    ensures store.Valid()
    ensures Authorize(caller).Some? ==> out == Thrown(Authorize(caller).value) && unchanged(store)
    ensures Authorize(caller).None? ==>
      out == Success && store.records == old(store.records) - {recordId}
      && store.breaks == old(store.breaks) && store.nextId == old(store.nextId)
    ensures UniquePerDay(old(store.records)) ==> UniquePerDay(store.records)
  {
    var err := Authorize(caller);
    if err.Some? {
      return Thrown(err.value);
    }
    store.records := store.records - {recordId};
    out := Success;
  }

  /**
   * With a single break already attached, an edit that clears both break
   * fields removes it, and one that gives a start rewrites it in place.
   */
  lemma ClearedBreakIsDeleted(breaks: map<nat, BreakRow>, recordId: nat, data: UpdateData, freshId: nat, id: nat)
    requires BreaksOf(breaks, recordId) == {id}
    ensures data.breakStart.None? && data.breakEnd.None? ==>
      BreaksOf(ApplyBreakChange(breaks, BreakDecision(SingleId(BreaksOf(breaks, recordId)), data), recordId, data, freshId), recordId) == {}
    ensures data.breakStart.Some? ==>
      var after := ApplyBreakChange(breaks, BreakDecision(SingleId(BreaksOf(breaks, recordId)), data), recordId, data, freshId);
      BreaksOf(after, recordId) == {id} && after[id] == BreakRow(recordId, data.breakStart.value, data.breakEnd)
  {
  }
}
