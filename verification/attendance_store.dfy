/**
 * The two attendance tables as maps from row id to row, held by a store
 * object that the server actions update in place, together with the
 * lookups those actions run against them.
 */
module AttendanceStore {
  import opened Wrappers
  import opened Calendar

  /** A row of `attendance_records`; timestamps are milliseconds. */
  datatype AttendanceRow = AttendanceRow(
    userId: string,
    date: Date,
    clockIn: Option<int>,
    clockOut: Option<int>,
    createdAt: int)

  /** A row of `break_records`; every insert supplies a start time. */
  datatype BreakRow = BreakRow(recordId: nat, startTime: int, endTime: Option<int>)

  /** What a server action does: returns success, returns an error object, or throws. */
  datatype Outcome = Success | ErrorResult(message: string) | Thrown(message: string)

  /** Ids of the records of `userId` dated `date`. */
  function RecordsOn(records: map<nat, AttendanceRow>, userId: string, date: Date): (ids: set<nat>)
    ensures forall id :: id in ids <==> id in records && records[id].userId == userId && records[id].date == date
  {
    set id | id in records && records[id].userId == userId && records[id].date == date
  }

  /** Ids of the breaks attached to record `recordId`. */
  function BreaksOf(breaks: map<nat, BreakRow>, recordId: nat): (ids: set<nat>)
    ensures forall id :: id in ids <==> id in breaks && breaks[id].recordId == recordId
  {
    set id | id in breaks && breaks[id].recordId == recordId
  }

  /** At most one record per user and day. */
  ghost predicate UniquePerDay(records: map<nat, AttendanceRow>)
  {
    forall i, j :: (i in records && j in records && records[i].userId == records[j].userId
      && records[i].date == records[j].date) ==> i == j
  }

  /** Adding a record for a (user, day) pair that has none keeps the pairs unique. */
  lemma InsertKeepsUniquePerDay(records: map<nat, AttendanceRow>, id: nat, row: AttendanceRow)
    requires UniquePerDay(records) && id !in records
    requires RecordsOn(records, row.userId, row.date) == {}
    ensures UniquePerDay(records[id := row])
    ensures RecordsOn(records[id := row], row.userId, row.date) == {id}
  {
    var after := records[id := row];
    forall i, j | i in after && j in after && after[i].userId == after[j].userId && after[i].date == after[j].date
      ensures i == j
    {
    }
  }

  /** Changing fields other than user and date keeps the pairs unique. */
  lemma UpdateKeepsUniquePerDay(records: map<nat, AttendanceRow>, id: nat, row: AttendanceRow)
    requires UniquePerDay(records) && id in records
    requires row.userId == records[id].userId && row.date == records[id].date
    ensures UniquePerDay(records[id := row])
  {
    var after := records[id := row];
    forall i, j | i in after && j in after && after[i].userId == after[j].userId && after[i].date == after[j].date
      ensures i == j
    {
      assert records[i].userId == records[j].userId && records[i].date == records[j].date;
    }
  }

  /** With unique pairs, a (user, day) pair has at most one record. */
  lemma UniqueRecordsOn(records: map<nat, AttendanceRow>, userId: string, date: Date)
    requires UniquePerDay(records)
    ensures |RecordsOn(records, userId, date)| <= 1
  {
    var ids := RecordsOn(records, userId, date);
    if ids != {} {
      var id :| id in ids;
      assert ids == {id};
    }
  }

  class Store {
    var records: map<nat, AttendanceRow>
    var breaks: map<nat, BreakRow>
    /** The id the next inserted row receives. */
    var nextId: nat

    ghost predicate Valid()
      reads this
    {
      (forall id :: id in records ==> id < nextId)
      && (forall id :: id in breaks ==> id < nextId)
    }

    constructor ()
      ensures Valid() && records == map[] && breaks == map[]
    {
      records := map[];
      breaks := map[];
      nextId := 0;
    }

    /**
     * `.single()` / `.maybeSingle()` on the records of a user and day: a row
     * only when exactly one matches (several matches are an error, no data).
     */
    method SingleRecordOn(userId: string, date: Date) returns (found: Option<nat>)
      ensures found.Some? <==> |RecordsOn(records, userId, date)| == 1
      ensures found.Some? ==> RecordsOn(records, userId, date) == {found.value}
    {
      var ids := RecordsOn(records, userId, date);
      if |ids| == 1 {
        var id :| id in ids;
        assert ids - {id} == {} by {
          assert |ids - {id}| == 0;
        }
        found := Some(id);
      } else {
        found := None;
      }
    }

    /** `.single()` on the breaks of a record. */
    method SingleBreakOf(recordId: nat) returns (found: Option<nat>)
      ensures found.Some? <==> |BreaksOf(breaks, recordId)| == 1
      ensures found.Some? ==> BreaksOf(breaks, recordId) == {found.value}
    {
      var ids := BreaksOf(breaks, recordId);
      if |ids| == 1 {
        var id :| id in ids;
        assert ids - {id} == {} by {
          assert |ids - {id}| == 0;
        }
        found := Some(id);
      } else {
        found := None;
      }
    }

    method InsertRecord(row: AttendanceRow) returns (id: nat)
      requires Valid()
      modifies this
      ensures Valid()
      ensures id == old(nextId) && id !in old(records) && nextId == id + 1
      ensures records == old(records)[id := row] && breaks == old(breaks)
    {
      id := nextId;
      records := records[id := row];
      nextId := nextId + 1;
    }

    method InsertBreak(row: BreakRow) returns (id: nat)
      requires Valid()
      modifies this
      ensures Valid()
      ensures id == old(nextId) && id !in old(breaks) && nextId == id + 1
      ensures breaks == old(breaks)[id := row] && records == old(records)
    {
      id := nextId;
      breaks := breaks[id := row];
      nextId := nextId + 1;
    }
  }
}
