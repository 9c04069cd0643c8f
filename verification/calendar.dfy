/**
 * Calendar dates as (year, month, day) triples, ordered as the database
 * orders `YYYY-MM-DD` date columns, plus the month arithmetic that
 * JavaScript's `new Date(year, monthIndex, day)` performs.
 */
module Calendar {

  datatype Date = Date(year: int, month: int, day: int)

  datatype YearMonth = YearMonth(year: int, month: int)

  predicate IsLeapYear(y: int)
  {
    y % 4 == 0 && (y % 100 != 0 || y % 400 == 0)
  }

  function DaysInMonth(y: int, m: int): (n: int)
    requires 1 <= m <= 12
    ensures 28 <= n <= 31
  {
    if m == 2 then (if IsLeapYear(y) then 29 else 28)
    else if m == 4 || m == 6 || m == 9 || m == 11 then 30
    else 31
  }

  predicate ValidDate(d: Date)
  {
    1 <= d.month <= 12 && 1 <= d.day <= DaysInMonth(d.year, d.month)
  }

  predicate ValidYearMonth(ym: YearMonth)
  {
    1 <= ym.month <= 12
  }

  /** Strict chronological order of dates (lexicographic on the triple). */
  predicate Before(a: Date, b: Date)
  {
    a.year < b.year
    || (a.year == b.year && a.month < b.month)
    || (a.year == b.year && a.month == b.month && a.day < b.day)
  }

  predicate AtOrBefore(a: Date, b: Date)
  {
    a == b || Before(a, b)
  }

  /** Months counted from year 0, so that consecutive months differ by one. */
  function MonthIndex(ym: YearMonth): int
  {
    ym.year * 12 + (ym.month - 1)
  }

  /**
   * `new Date(year, monthIndex, day)` for a day of month that never overflows
   * (every caller passes 1, 10 or 11): a two-digit year 0..99 means 1900 + year,
   * and a month index outside 0..11 carries into the year.
   */
  function JsLocalDate(year: int, monthIndex: int, day: int): (d: Date)
    requires 1 <= day <= 28
    ensures ValidDate(d) && d.day == day
    ensures MonthIndex(YearMonth(d.year, d.month))
         == (if 0 <= year <= 99 then 1900 + year else year) * 12 + monthIndex
  {
    var y := if 0 <= year <= 99 then 1900 + year else year;
    Date(y + monthIndex / 12, monthIndex % 12 + 1, day)
  }

  lemma JsLocalDateInRange(year: int, monthIndex: int, day: int)
    requires year >= 100 && 0 <= monthIndex <= 11 && 1 <= day <= 28
    ensures JsLocalDate(year, monthIndex, day) == Date(year, monthIndex + 1, day)
  {
  }

  lemma JsLocalDateDecemberCarry(year: int, day: int)
    requires year >= 100 && 1 <= day <= 28
    ensures JsLocalDate(year, 12, day) == Date(year + 1, 1, day)
  {
  }
}
