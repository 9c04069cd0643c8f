/**
 * The attendance history page's month: the `YYYY-MM` value taken from the
 * query string or, when absent, chosen from today's date with the 11th as
 * cutoff, and the query window from the 11th of that month to the 10th of
 * the next one.
 */
module FiscalMonth {
  import opened Wrappers
  import opened Decimal
  import opened Calendar
  import ExportMonthlyReport

  /** A query-string value: absent, given once, or repeated. */
  datatype QueryParam = Absent | Single(value: string) | Repeated(values: seq<string>)

  datatype PageOutcome =
    | RedirectToLogin
    /** `toISOString` of an invalid date throws a range error. */
    | InvalidDate
    | Listing(currentMonth: string, startDate: Date, endDate: Date)

  /** Default cycle: before the 11th, today still belongs to the previous month's cycle. */
  function DefaultFiscalMonth(today: Date): (ym: YearMonth)
    requires ValidDate(today)
    ensures ValidYearMonth(ym)
    ensures today.day >= 11 ==> ym == YearMonth(today.year, today.month)
    ensures today.day < 11 ==> MonthIndex(ym) == MonthIndex(YearMonth(today.year, today.month)) - 1
  {
    var monthIndex := today.month - 1;
    var y := if today.day < 11 then (if monthIndex == 0 then today.year - 1 else today.year) else today.year;
    var m := if today.day < 11 then (if monthIndex == 0 then 11 else monthIndex - 1) else monthIndex;
    YearMonth(y, m + 1)
  }

  /** `${y}-${String(m + 1).padStart(2, '0')}`. */
  function MonthString(ym: YearMonth): string
  {
    IntToString(ym.year) + ("-" + PadStart2(IntToString(ym.month)))
  }

  /** Text before the first '-', or all of it. */
  function BeforeDash(s: string): (p: string)
    ensures |p| <= |s| && p == s[..|p|]
    ensures '-' !in p
  {
    if s == [] || s[0] == '-' then [] else [s[0]] + BeforeDash(s[1..])
  }

  /** Text after the first '-', if there is one. */
  function AfterDash(s: string): Option<string>
  {
    if s == [] then None else if s[0] == '-' then Some(s[1..]) else AfterDash(s[1..])
  }

  /** The first two fields of `s.split('-')`; a missing second field is undefined. */
  function SplitMonth(s: string): (string, Option<string>)
  {
    var rest := AfterDash(s);
    (BeforeDash(s), if rest.None? then None else Some(BeforeDash(rest.value)))
  }

  /** `parseInt` of the two fields; NaN (None) when either has no leading digit or is missing. */
  function ParseMonth(s: string): Option<YearMonth>
  {
    var fields := SplitMonth(s);
    var year := ParseIntPrefix(fields.0);
    var month := if fields.1.None? then None else ParseIntPrefix(fields.1.value);
    if year.None? || month.None? then None else Some(YearMonth(year.value, month.value))
  }

  /** The month value used by the page: a single non-empty parameter verbatim, else the default. */
  function CurrentMonth(param: QueryParam, today: Date): (month: string)
    requires ValidDate(today)
    ensures param.Single? && param.value != "" ==> month == param.value
    ensures !(param.Single? && param.value != "") ==> month == MonthString(DefaultFiscalMonth(today))
  {
    if param.Single? && param.value != "" then param.value else MonthString(DefaultFiscalMonth(today))
  }

  /** From the 11th of the month to the 10th of the next month, both as `new Date` builds them. */
  function FiscalWindow(year: int, month: int): (w: (Date, Date))
    ensures w.0.day == 11 && w.1.day == 10
    ensures MonthIndex(YearMonth(w.1.year, w.1.month)) == MonthIndex(YearMonth(w.0.year, w.0.month)) + 1
  {
    (JsLocalDate(year, month - 1, 11), JsLocalDate(year, month, 10))
  }

  /** `.gte('date', startDate).lte('date', endDate)` on dates: both ends included. */
  predicate InFiscalWindow(d: Date, w: (Date, Date))
  {
    AtOrBefore(w.0, d) && AtOrBefore(d, w.1)
  }

  /** The whole page: sign-in check, month selection, parsing and the window. */
  function AdminAttendancePage(signedIn: bool, param: QueryParam, today: Date): (out: PageOutcome)
    requires ValidDate(today)
    ensures !signedIn ==> out == RedirectToLogin
    ensures signedIn && ParseMonth(CurrentMonth(param, today)).None? ==> out == InvalidDate
    ensures out.Listing? <==> signedIn && ParseMonth(CurrentMonth(param, today)).Some?
    ensures out.Listing? ==>
      var ym := ParseMonth(CurrentMonth(param, today)).value;
      out.currentMonth == CurrentMonth(param, today)
      && (out.startDate, out.endDate) == FiscalWindow(ym.year, ym.month)
  {
    if !signedIn then RedirectToLogin
    else
      var currentMonth := CurrentMonth(param, today);
      match ParseMonth(currentMonth)
      case None => InvalidDate
      case Some(ym) =>
        var w := FiscalWindow(ym.year, ym.month);
        Listing(currentMonth, w.0, w.1)
  }

  // ---- Properties ----

  /** In January before the 11th the default is December of the previous year. */
  lemma JanuaryRollsBack(today: Date)
    requires ValidDate(today) && today.month == 1 && today.day < 11
    ensures DefaultFiscalMonth(today) == YearMonth(today.year - 1, 12)
  {
  }

  lemma BeforeDashOfDigitsThen(d: string, t: string)
    requires AllDigits(d) && t != [] && t[0] == '-'
    ensures BeforeDash(d + t) == d
    ensures AfterDash(d + t) == Some(t[1..])
    decreases |d|
  {
    if d != [] {
      assert (d + t)[1..] == d[1..] + t;
      BeforeDashOfDigitsThen(d[1..], t);
    }
  }

  lemma {:induction false} BeforeDashOfDigits(d: string)
    requires AllDigits(d)
    ensures BeforeDash(d) == d
    decreases |d|
  {
    if d != [] {
      BeforeDashOfDigits(d[1..]);
    }
  }

  lemma ParsePaddedMonth(m: int)
    requires 1 <= m <= 12
    ensures AllDigits(PadStart2(IntToString(m)))
    ensures ParseIntPrefix(PadStart2(IntToString(m))) == Some(m)
  {
    var t := NatToString(m);
    var mm := PadStart2(t);
    DigitsValueOfNatToString(m);
    if m < 10 {
      assert mm == "0" + t;
      DigitsValueOfLeadingZero(t);
    } else {
      assert mm == t;
    }
    ParseIntPrefixOfDigitsThen(mm, "");
    assert mm + "" == mm;
  }

  lemma SplitMonthOfParts(y: string, mm: string)
    requires AllDigits(y) && AllDigits(mm)
    ensures SplitMonth(y + ("-" + mm)) == (y, Some(mm))
  {
    var t := "-" + mm;
    BeforeDashOfDigitsThen(y, t);
    assert t[1..] == mm;
    BeforeDashOfDigits(mm);
  }

  lemma ParseMonthOfFields(s: string, a: string, b: string, y: nat, m: nat)
    requires SplitMonth(s) == (a, Some(b))
    requires ParseIntPrefix(a) == Some(y) && ParseIntPrefix(b) == Some(m)
    ensures ParseMonth(s) == Some(YearMonth(y, m))
  {
  }

  /** The default month text reads back as the month it was built from. */
  lemma MonthStringRoundTrip(ym: YearMonth)
    requires ValidYearMonth(ym) && ym.year >= 0
    ensures ParseMonth(MonthString(ym)) == Some(ym)
  {
    var y, mm := NatToString(ym.year), PadStart2(IntToString(ym.month));
    ParsePaddedMonth(ym.month);
    SplitMonthOfParts(y, mm);
    ParseIntPrefixOfNatToString(ym.year, "");
    assert y + "" == y;
    ParseMonthOfFields(MonthString(ym), y, mm, ym.year, ym.month);
  }

  /** The window of a month in range is the 11th of that month to the 10th of the next. */
  lemma FiscalWindowBounds(year: int, month: int)
    requires year >= 100 && 1 <= month <= 12
    ensures FiscalWindow(year, month).0 == Date(year, month, 11)
    ensures FiscalWindow(year, month).1 == if month == 12 then Date(year + 1, 1, 10) else Date(year, month + 1, 10)
  {
  }

  /** The default cycle's window contains today ("Jan 5 is in the December cycle"). */
  lemma DefaultWindowContainsToday(today: Date)
    requires ValidDate(today) && today.year >= 101
    ensures AdminAttendancePage(true, Absent, today).Listing?
    ensures InFiscalWindow(today, (AdminAttendancePage(true, Absent, today).startDate,
                                   AdminAttendancePage(true, Absent, today).endDate))
  {
    var ym := DefaultFiscalMonth(today);
    MonthStringRoundTrip(ym);
    FiscalWindowBounds(ym.year, ym.month);
  }

  /**
   * The same month name covers different days on the two screens: the 5th
   * of a month is in that month's calendar window but not in its fiscal one.
   */
  lemma CalendarAndFiscalMonthsDiffer(year: int, month: int)
    requires year >= 100 && 1 <= month <= 12
    ensures ExportMonthlyReport.InWindow(Date(year, month, 5), ExportMonthlyReport.MonthWindow(year, month))
    ensures !InFiscalWindow(Date(year, month, 5), FiscalWindow(year, month))
  {
    ExportMonthlyReport.InMonthWindowIff(year, month, Date(year, month, 5));
    FiscalWindowBounds(year, month);
  }
}
