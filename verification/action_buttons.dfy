/**
 * Which attendance buttons the home page offers for the three flags, and
 * what the end-break handler does without an active break.
 */
module ActionButtons {
  import opened Wrappers
  import opened HomePage

  /** The telework toggle and the clock-in button share this guard. */
  predicate ShowsClockIn(clockedIn: bool, clockedOut: bool)
  {
    !clockedIn && !clockedOut
  }

  predicate ShowsClockOut(clockedIn: bool, clockedOut: bool, onBreak: bool)
  {
    clockedIn && !clockedOut && !onBreak
  }

  /** The greyed-out button labelled with the reason nothing can be done. */
  predicate ShowsDisabledMain(clockedOut: bool, onBreak: bool)
  {
    clockedOut || onBreak
  }

  predicate StartBreakEnabled(clockedIn: bool, clockedOut: bool, onBreak: bool)
  {
    clockedIn && !clockedOut && !onBreak
  }

  predicate EndBreakEnabled(onBreak: bool)
  {
    onBreak
  }

  /** `handleEndBreak`: the break to end, or nothing when there is no active break id. */
  function HandleEndBreak(activeBreakId: Option<nat>): (target: Option<nat>)
    ensures activeBreakId.None? ==> target.None?
    ensures activeBreakId.Some? ==> target == activeBreakId
  {
    if activeBreakId.None? then None else Some(activeBreakId.value)
  }

  /** Clock-in and clock-out are never offered together. */
  lemma NeverBothClockButtons(clockedIn: bool, clockedOut: bool, onBreak: bool)
    ensures !(ShowsClockIn(clockedIn, clockedOut) && ShowsClockOut(clockedIn, clockedOut, onBreak))
  {
  }

  /** The buttons agree with the status line. */
  lemma ButtonsMatchStatus(clockedIn: bool, clockedOut: bool, onBreak: bool)
    ensures ShowsClockOut(clockedIn, clockedOut, onBreak) <==> StatusOf(clockedIn, clockedOut, onBreak) == Working
    ensures StartBreakEnabled(clockedIn, clockedOut, onBreak) <==> StatusOf(clockedIn, clockedOut, onBreak) == Working
    ensures ShowsClockIn(clockedIn, clockedOut) && !onBreak <==> StatusOf(clockedIn, clockedOut, onBreak) == NotClockedIn
    ensures ShowsDisabledMain(clockedOut, onBreak) <==>
      StatusOf(clockedIn, clockedOut, onBreak) in {ClockedOut, OnBreak}
  {
  }

  /**
   * When a break can only be open on a clocked-in record, exactly one of the
   * three main controls is shown.
   */
  lemma ExactlyOneMainControl(clockedIn: bool, clockedOut: bool, onBreak: bool)
    requires onBreak ==> clockedIn
    ensures (if ShowsClockIn(clockedIn, clockedOut) then 1 else 0)
          + (if ShowsClockOut(clockedIn, clockedOut, onBreak) then 1 else 0)
          + (if ShowsDisabledMain(clockedOut, onBreak) then 1 else 0) == 1
  {
  }

  /** The page's own flags: on break, the end-break handler targets the first open break. */
  lemma EndBreakTargetsActiveBreak(a: TodayAttendance)
    requires IsOnBreak(Some(a))
    ensures EndBreakEnabled(IsOnBreak(Some(a)))
    ensures HandleEndBreak(Some(ActiveBreak(Some(a)).value.id)).Some?
    ensures ActiveBreak(Some(a)).value.endTime.None?
    ensures a.breakRecords.Some? && ActiveBreak(Some(a)) == FirstOpenBreak(a.breakRecords.value)
  {
  }
}
