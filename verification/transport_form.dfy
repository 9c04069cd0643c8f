/**
 * The daily transport-cost form: a list of editable route rows, their
 * validation, and the payload sent when the form is submitted. Every field
 * holds the text of its input, the amount included.
 */
module TransportForm {
  import opened Wrappers
  import opened Decimal

  datatype FormRow = FormRow(
    id: string,
    origin: string,
    destination: string,
    transportMethod: string,
    routeType: string,
    amount: string)

  /** The fields the inputs edit. */
  datatype Field = Origin | Destination | TransportMethod | RouteType | Amount

  /** `Number(text)` for the texts the model reads: digits give their value, anything else NaN. */
  datatype Number = Num(value: nat) | NaN

  datatype PayloadItem = PayloadItem(
    attendanceRecordId: string,
    origin: string,
    destination: string,
    transportMethod: string,
    routeType: string,
    amount: Number)

  const NoValidRowError := "少なくとも1つの有効な経路を入力してください"

  /** A fresh row: train, one way, no amount. */
  function BlankRow(id: string): FormRow
  {
    FormRow(id, "", "", "電車", "片道", "")
  }

  function GetField(r: FormRow, f: Field): string
  {
    match f
    case Origin => r.origin
    case Destination => r.destination
    case TransportMethod => r.transportMethod
    case RouteType => r.routeType
    case Amount => r.amount
  }

  /** `{ ...r, [field]: value }`: that field replaced, the id and the other fields kept. */
  function SetField(r: FormRow, f: Field, value: string): (s: FormRow)
    ensures GetField(s, f) == value && s.id == r.id
    ensures forall g :: g != f ==> GetField(s, g) == GetField(r, g)
  {
    match f
    case Origin => r.(origin := value)
    case Destination => r.(destination := value)
    case TransportMethod => r.(transportMethod := value)
    case RouteType => r.(routeType := value)
    case Amount => r.(amount := value)
  }

  /** `addRow`: one blank row appended. */
  function WithRowAdded(rows: seq<FormRow>, newId: string): (after: seq<FormRow>)
    ensures |after| == |rows| + 1 && after[..|rows|] == rows && after[|rows|] == BlankRow(newId)
  {
    rows + [BlankRow(newId)]
  }

  /** The rows whose id is not `id`, in order. */
  function RowsWithoutId(rows: seq<FormRow>, id: string): (kept: seq<FormRow>)
    ensures forall r :: r in kept <==> r in rows && r.id != id
    ensures |kept| <= |rows|
    ensures |rows| == 1 ==> kept == (if rows[0].id != id then rows else [])
  {
    if rows == [] then []
    else
      var rest := RowsWithoutId(rows[..|rows| - 1], id);
      var last := rows[|rows| - 1];
      assert rows == rows[..|rows| - 1] + [last];
      if last.id != id then rest + [last] else rest
  }

  /** Filtering a concatenation filters each part and keeps them in order. */
  lemma {:induction false} RowsWithoutIdAppend(a: seq<FormRow>, b: seq<FormRow>, id: string)
    ensures RowsWithoutId(a + b, id) == RowsWithoutId(a, id) + RowsWithoutId(b, id)
    decreases |b|
  {
    if b == [] {
      assert a + b == a;
    } else {
      var b' := b[..|b| - 1];
      assert (a + b)[..|a + b| - 1] == a + b';
      RowsWithoutIdAppend(a, b', id);
    }
  }

  /** `removeRow`: nothing happens to a single row; otherwise the rows with that id go. */
  function WithRowRemoved(rows: seq<FormRow>, id: string): (after: seq<FormRow>)
    ensures |rows| == 1 ==> after == rows
    ensures |rows| != 1 ==> after == RowsWithoutId(rows, id)
  {
    if |rows| == 1 then rows else RowsWithoutId(rows, id)
  }

  /** `updateRow`: the named field of the rows with that id is set; every other row and field stays. */
  function WithRowUpdated(rows: seq<FormRow>, id: string, f: Field, value: string): (after: seq<FormRow>)
    ensures |after| == |rows|
    ensures forall i :: 0 <= i < |rows| && rows[i].id == id ==> after[i] == SetField(rows[i], f, value)
    ensures forall i :: 0 <= i < |rows| && rows[i].id != id ==> after[i] == rows[i]
  {
    seq(|rows|, i requires 0 <= i < |rows| => if rows[i].id == id then SetField(rows[i], f, value) else rows[i])
  }

  predicate IsValidRow(r: FormRow)
  {
    r.origin != "" && r.destination != "" && r.amount != ""
  }

  /** `rows.filter(r => r.origin && r.destination && r.amount !== '')`. */
  function ValidRows(rows: seq<FormRow>): (v: seq<FormRow>)
    ensures forall r :: r in v <==> r in rows && IsValidRow(r)
    ensures |v| <= |rows|
  {
    if rows == [] then []
    else
      var rest := ValidRows(rows[..|rows| - 1]);
      var last := rows[|rows| - 1];
      assert rows == rows[..|rows| - 1] + [last];
      if IsValidRow(last) then rest + [last] else rest
  }

  function ToNumber(text: string): (n: Number)
    ensures AllDigits(text) && text != [] ==> n == Num(DigitsValue(text))
  {
    if text != [] && AllDigits(text) then Num(DigitsValue(text)) else NaN
  }

  /** One payload entry per valid row, in order, tagged with the attendance record. */
  function BuildPayload(attendanceId: string, valid: seq<FormRow>): (payload: seq<PayloadItem>)
    ensures |payload| == |valid|
    ensures forall i :: 0 <= i < |valid| ==>
      payload[i] == PayloadItem(attendanceId, valid[i].origin, valid[i].destination,
                                valid[i].transportMethod, valid[i].routeType, ToNumber(valid[i].amount))
  {
    seq(|valid|, i requires 0 <= i < |valid| =>
      PayloadItem(attendanceId, valid[i].origin, valid[i].destination,
                  valid[i].transportMethod, valid[i].routeType, ToNumber(valid[i].amount)))
  }

  // ---- Properties ----

  lemma {:induction false} RowsWithoutAbsentId(rows: seq<FormRow>, id: string)
    requires forall i :: 0 <= i < |rows| ==> rows[i].id != id
    ensures RowsWithoutId(rows, id) == rows
    decreases |rows|
  {
    if rows != [] {
      var init, last := rows[..|rows| - 1], rows[|rows| - 1];
      RowsWithoutAbsentId(init, id);
      assert RowsWithoutId(rows, id) == RowsWithoutId(init, id) + [last];
      assert rows == init + [last];
    }
  }

  /** Removing a row just added with a new id gives back the rows before. */
  lemma RemoveUndoesAdd(rows: seq<FormRow>, newId: string)
    requires |rows| >= 1
    requires forall i :: 0 <= i < |rows| ==> rows[i].id != newId
    ensures WithRowRemoved(WithRowAdded(rows, newId), newId) == rows
  {
    var added := rows + [BlankRow(newId)];
    assert added[..|added| - 1] == rows;
    RowsWithoutAbsentId(rows, newId);
  }

  lemma {:induction false} RowsWithoutIdLength(rows: seq<FormRow>, id: string)
    requires forall i, j :: 0 <= i < j < |rows| ==> rows[i].id != rows[j].id
    ensures |RowsWithoutId(rows, id)| >= |rows| - 1
    ensures (forall i :: 0 <= i < |rows| ==> rows[i].id != id) ==> |RowsWithoutId(rows, id)| == |rows|
    decreases |rows|
  {
    if rows != [] {
      var init := rows[..|rows| - 1];
      RowsWithoutIdLength(init, id);
      if rows[|rows| - 1].id == id {
        RowsWithoutAbsentId(init, id);
      }
    }
  }

  /** With distinct ids the list never becomes empty. */
  lemma RemoveKeepsARow(rows: seq<FormRow>, id: string)
    requires |rows| >= 1
    requires forall i, j :: 0 <= i < j < |rows| ==> rows[i].id != rows[j].id
    ensures |WithRowRemoved(rows, id)| >= 1
  {
    RowsWithoutIdLength(rows, id);
  }

  /** Validation keeps the order of the rows: it distributes over concatenation. */
  lemma {:induction false} ValidRowsAppend(a: seq<FormRow>, b: seq<FormRow>)
    ensures ValidRows(a + b) == ValidRows(a) + ValidRows(b)
    decreases |b|
  {
    if b == [] {
      assert a + b == a;
    } else {
      var b' := b[..|b| - 1];
      assert (a + b)[..|a + b| - 1] == a + b';
      ValidRowsAppend(a, b');
    }
  }

  /** A typed whole amount reaches the payload as its number. */
  lemma DigitAmountIsItsNumber(n: nat)
    ensures ToNumber(NatToString(n)) == Num(n)
  {
    DigitsValueOfNatToString(n);
  }

  /** The form's state, replaced by its handlers. */
  class TransportInputForm {
    var rows: seq<FormRow>
    var error: Option<string>
    var loading: bool
    var isOpen: bool

    constructor ()
      ensures rows == [BlankRow("1")] && error.None? && !loading && !isOpen
    {
      rows := [BlankRow("1")];
      error := None;
      loading := false;
      isOpen := false;
    }

    method AddRow(newId: string)
      modifies this
      ensures rows == WithRowAdded(old(rows), newId)
      ensures error == old(error) && loading == old(loading) && isOpen == old(isOpen)
    {
      rows := rows + [BlankRow(newId)];
    }

    method RemoveRow(id: string)
      modifies this
      ensures rows == WithRowRemoved(old(rows), id)
      ensures error == old(error) && loading == old(loading) && isOpen == old(isOpen)
    {
      if |rows| == 1 {
        return;
      }
      rows := RowsWithoutId(rows, id);
    }

    method UpdateRow(id: string, f: Field, value: string)
      modifies this
      ensures rows == WithRowUpdated(old(rows), id, f, value)
      ensures error == old(error) && loading == old(loading) && isOpen == old(isOpen)
    {
      rows := WithRowUpdated(rows, id, f, value);
    }

    /**
     * `handleSubmit`: ignored while loading; with no valid row, an error and
     * nothing sent; otherwise the payload is sent, and the reply either sets
     * the error or resets the form to one blank row and closes it.
     */
    method HandleSubmit(attendanceId: string, submitError: Option<string>, newId: string)
      returns (sent: Option<seq<PayloadItem>>)
      modifies this
      ensures old(loading) ==> sent.None? && unchanged(this)
      ensures !old(loading) && ValidRows(old(rows)) == [] ==>
        sent.None? && error == Some(NoValidRowError) && rows == old(rows) && !loading && isOpen == old(isOpen)
      ensures !old(loading) && ValidRows(old(rows)) != [] ==>
        sent == Some(BuildPayload(attendanceId, ValidRows(old(rows)))) && !loading
      ensures !old(loading) && ValidRows(old(rows)) != [] && submitError.Some? && submitError.value != "" ==>
        error == submitError && rows == old(rows) && isOpen == old(isOpen)
      ensures !old(loading) && ValidRows(old(rows)) != [] && !(submitError.Some? && submitError.value != "") ==>
        error.None? && rows == [BlankRow(newId)] && !isOpen
    {
      if loading {
        return None;
      }
      error := None;
      var validRows := ValidRows(rows);
      if |validRows| == 0 {
        error := Some(NoValidRowError);
        return None;
      }
      loading := true;
      var payload := BuildPayload(attendanceId, validRows);
      sent := Some(payload);
      loading := false;
      if submitError.Some? && submitError.value != "" {
        error := submitError;
      } else {
        rows := [BlankRow(newId)];
        isOpen := false;
      }
    }
  }
}
