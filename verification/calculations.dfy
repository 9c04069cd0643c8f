/**
 * Time accounting for one attendance record: break minutes, worked minutes,
 * the floor-rounded wage and the "H時間M分" duration text.
 * Timestamps are integer milliseconds since the epoch.
 */
module Calculations {
  import opened Wrappers
  import opened Decimal

  const MsPerMinute := 60000

  /** Division rounding toward zero, as `Math.trunc(a / b)`. */
  function TruncDiv(a: int, b: int): (q: int)
    requires b > 0
    ensures a >= 0 ==> 0 <= a - q * b < b
    ensures a < 0 ==> 0 <= q * b - a < b
  {
    if a >= 0 then a / b else -((-a) / b)
  }

  /** JavaScript's `a % b`: the remainder takes the sign of `a`. */
  function JsRem(a: int, b: int): (r: int)
    requires b > 0
    ensures a >= 0 ==> 0 <= r < b && r == a % b
    ensures a < 0 ==> -b < r <= 0
  {
    a - b * TruncDiv(a, b)
  }

  /** date-fns `differenceInMinutes(later, earlier)`: whole minutes, truncated toward zero. */
  function DifferenceInMinutes(later: int, earlier: int): (m: int)
    ensures later >= earlier ==> 0 <= m && m * MsPerMinute <= later - earlier < (m + 1) * MsPerMinute
    ensures later < earlier ==> m <= 0 && (m - 1) * MsPerMinute < later - earlier <= m * MsPerMinute
  {
    TruncDiv(later - earlier, MsPerMinute)
  }

  datatype BreakRecord = BreakRecord(startTime: int, endTime: Option<int>)

  datatype AttendanceRecord = AttendanceRecord(
    clockIn: Option<int>,
    clockOut: Option<int>,
    breakRecords: Option<seq<BreakRecord>>)

  predicate IsClosed(b: BreakRecord)
  {
    b.endTime.Some?
  }

  /** What one break adds to the running total of `calculateBreakDurationMinutes`. */
  function BreakContribution(b: BreakRecord): (m: int)
    ensures !IsClosed(b) ==> m == 0
  {
    if b.endTime.Some? then DifferenceInMinutes(b.endTime.value, b.startTime) else 0
  }

  /** `calculateBreakDurationMinutes`: a left fold over the breaks, starting at 0. */
  function CalculateBreakDurationMinutes(breaks: seq<BreakRecord>): int
  {
    if breaks == [] then 0
    else CalculateBreakDurationMinutes(breaks[..|breaks| - 1]) + BreakContribution(breaks[|breaks| - 1])
  }

  /** The closed breaks, in their original order. */
  function ClosedBreaks(breaks: seq<BreakRecord>): (c: seq<BreakRecord>)
    ensures forall b :: b in c <==> b in breaks && IsClosed(b)
    ensures forall i :: 0 <= i < |c| ==> c[i].endTime.Some?
    ensures |breaks| == 1 ==> c == (if IsClosed(breaks[0]) then breaks else [])
  {
    if breaks == [] then []
    else if IsClosed(breaks[0]) then [breaks[0]] + ClosedBreaks(breaks[1..])
    else ClosedBreaks(breaks[1..])
  }

  /** Filtering a concatenation filters each part and keeps them in order. */
  lemma {:induction false} ClosedBreaksAppend(a: seq<BreakRecord>, b: seq<BreakRecord>)
    ensures ClosedBreaks(a + b) == ClosedBreaks(a) + ClosedBreaks(b)
    decreases |a|
  {
    if a == [] {
      assert a + b == b;
    } else {
      assert (a + b)[1..] == a[1..] + b;
      ClosedBreaksAppend(a[1..], b);
    }
  }

  /** Sum of the truncated minute lengths of breaks that all have an end. */
  function SumClosedMinutes(closed: seq<BreakRecord>): int
    requires forall i :: 0 <= i < |closed| ==> closed[i].endTime.Some?
  {
    if closed == [] then 0
    else
      DifferenceInMinutes(closed[0].endTime.value, closed[0].startTime) + SumClosedMinutes(closed[1..])
  }

  lemma {:induction false} BreakDurationAppend(a: seq<BreakRecord>, b: seq<BreakRecord>)
    ensures CalculateBreakDurationMinutes(a + b)
         == CalculateBreakDurationMinutes(a) + CalculateBreakDurationMinutes(b)
    decreases |b|
  {
    if b == [] {
      assert a + b == a;
    } else {
      var b' := b[..|b| - 1];
      assert (a + b)[..|a + b| - 1] == a + b';
      BreakDurationAppend(a, b');
    }
  }

  /** The break total is the sum over the closed breaks of their truncated minute lengths. */
  lemma {:induction false} BreakDurationIsSumOfClosed(breaks: seq<BreakRecord>)
    ensures CalculateBreakDurationMinutes(breaks) == SumClosedMinutes(ClosedBreaks(breaks))
    decreases |breaks|
  {
    if breaks != [] {
      BreakDurationIsSumOfClosed(breaks[1..]);
      assert breaks == [breaks[0]] + breaks[1..];
      BreakDurationAppend([breaks[0]], breaks[1..]);
      assert [breaks[0]][..0] == [];
    }
  }

  /** Removing a break that has no end time leaves the break total unchanged. */
  lemma OpenBreakContributesNothing(breaks: seq<BreakRecord>, i: nat)
    requires i < |breaks| && !IsClosed(breaks[i])
    ensures CalculateBreakDurationMinutes(breaks[..i] + breaks[i + 1..])
         == CalculateBreakDurationMinutes(breaks)
  {
    assert breaks == breaks[..i] + [breaks[i]] + breaks[i + 1..];
    BreakDurationAppend(breaks[..i] + [breaks[i]], breaks[i + 1..]);
    BreakDurationAppend(breaks[..i], [breaks[i]]);
    BreakDurationAppend(breaks[..i], breaks[i + 1..]);
    assert [breaks[i]][..0] == [];
  }

  /** Breaks whose end is not before their start add a non-negative total. */
  lemma {:induction false} BreakDurationNonNegative(breaks: seq<BreakRecord>)
    requires forall b :: b in breaks && IsClosed(b) ==> b.endTime.value >= b.startTime
    ensures CalculateBreakDurationMinutes(breaks) >= 0
    decreases |breaks|
  {
    if breaks != [] {
      var last := breaks[|breaks| - 1];
      assert last in breaks;
      BreakDurationNonNegative(breaks[..|breaks| - 1]);
    }
  }

  /** The breaks a record contributes: a missing list counts as empty (`|| []`). */
  function BreaksOrEmpty(r: AttendanceRecord): seq<BreakRecord>
  {
    r.breakRecords.GetOr([])
  }

  /** Minutes between clock-in and clock-out, when both are present. */
  function SpanMinutes(r: AttendanceRecord): int
    requires r.clockIn.Some? && r.clockOut.Some?
  {
    DifferenceInMinutes(r.clockOut.value, r.clockIn.value)
  }

  /** `calculateWorkDurationMinutes`. */
  function CalculateWorkDurationMinutes(r: AttendanceRecord): (m: nat)
    ensures r.clockIn.None? || r.clockOut.None? ==> m == 0
    ensures r.clockIn.Some? && r.clockOut.Some? ==>
      m >= SpanMinutes(r) - CalculateBreakDurationMinutes(BreaksOrEmpty(r))
      && (m == 0 || m == SpanMinutes(r) - CalculateBreakDurationMinutes(BreaksOrEmpty(r)))
  {
    if r.clockIn.None? || r.clockOut.None? then 0
    else
      var total := DifferenceInMinutes(r.clockOut.value, r.clockIn.value);
      var breakMinutes := CalculateBreakDurationMinutes(BreaksOrEmpty(r));
      if total - breakMinutes > 0 then total - breakMinutes else 0
  }

  /** A record whose break list is missing is treated like one with no breaks. */
  lemma MissingBreaksAreEmpty(r: AttendanceRecord)
    requires r.breakRecords.None?
    ensures CalculateWorkDurationMinutes(r)
         == CalculateWorkDurationMinutes(r.(breakRecords := Some([])))
  {
  }

  /**
   * With well-formed closed breaks, worked minutes never exceed the
   * clock-in-to-clock-out span (nor zero, when clock-out precedes clock-in).
   */
  lemma WorkWithinSpan(r: AttendanceRecord)
    requires r.clockIn.Some? && r.clockOut.Some?
    requires forall b :: b in BreaksOrEmpty(r) && IsClosed(b) ==> b.endTime.value >= b.startTime
    ensures CalculateWorkDurationMinutes(r) <= if SpanMinutes(r) > 0 then SpanMinutes(r) else 0
  {
    BreakDurationNonNegative(BreaksOrEmpty(r));
  }

  /** `calculateWage`: the wage for `minutes` at `hourlyWage` per hour, rounded down. */
  function CalculateWage(minutes: int, hourlyWage: int): (w: int)
    ensures w * 60 <= minutes * hourlyWage < (w + 1) * 60
  {
    (minutes * hourlyWage) / 60
  }

  lemma WageExamples()
    ensures CalculateWage(90, 1000) == 1500
    ensures CalculateWage(89, 1000) == 1483
  {
  }

  /** `formatDuration`: `${Math.floor(minutes / 60)}時間${minutes % 60}分`, minutes not padded. */
  function FormatDuration(minutes: int): string
  {
    IntToString(minutes / 60) + ("時間" + (IntToString(JsRem(minutes, 60)) + "分"))
  }

  /** Reads "M分" as M. */
  function ParseMinutesPart(r: string): Option<nat>
  {
    var split := SplitDigits(r);
    if split.0 == [] || split.1 != "分" then None else Some(DigitsValue(split.0))
  }

  /** Reads "H時間M分" back as 60·H + M; None for any other text. */
  function ParseDuration(s: string): Option<int>
  {
    var split := SplitDigits(s);
    if split.0 == [] || |split.1| < 2 || split.1[..2] != "時間" then None
    else match ParseMinutesPart(split.1[2..])
      case None => None
      case Some(m) => Some(60 * DigitsValue(split.0) + m)
  }

  /** For non-negative minutes the hour and minute parts are quotient and remainder by 60. */
  lemma FormatDurationParts(minutes: nat)
    ensures FormatDuration(minutes)
         == NatToString(minutes / 60) + ("時間" + (NatToString(minutes % 60) + "分"))
  {
  }

  lemma ParseMinutesPartOf(m: nat)
    ensures ParseMinutesPart(NatToString(m) + "分") == Some(m)
  {
    SplitNatThen(m, "分");
  }

  lemma FormatDurationRoundTrip(minutes: nat)
    ensures ParseDuration(FormatDuration(minutes)) == Some(minutes)
  {
    FormatDurationParts(minutes);
    var rest := "時間" + (NatToString(minutes % 60) + "分");
    SplitNatThen(minutes / 60, rest);
    assert rest[..2] == "時間" && rest[2..] == NatToString(minutes % 60) + "分";
    ParseMinutesPartOf(minutes % 60);
    assert 60 * (minutes / 60) + minutes % 60 == minutes;
  }
}
