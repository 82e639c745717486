/** Calendar dates as chrono's `NaiveDate` accepts them: the proleptic
    Gregorian calendar, within chrono's supported range of years. */
module Calendar {
  import opened Wrappers
  import opened MachineInt
  import opened RustStr

  /** The first and last years `NaiveDate` can represent, `(i32::MIN >> 13) + 1`
      and `(i32::MAX >> 13) - 1` (January 1, 262144 BCE and December 31, 262142 CE). */
  const MIN_YEAR: int := -262143
  const MAX_YEAR: int := 262142

  /** A year-month-day triple; not necessarily a real date. */
  datatype Date = Date(year: int, month: int, day: int)

  /** Gregorian leap years: every fourth year, except centuries not
      divisible by 400. Divisibility is the same under Euclidean and
      truncating remainder, so negative years are handled correctly. */
  predicate IsLeapYear(y: int) {
    y % 4 == 0 && (y % 100 != 0 || y % 400 == 0)
  }

  function DaysInMonth(year: int, month: int): (n: int)
    requires 1 <= month <= 12
    ensures 28 <= n <= 31
    ensures month == 2 ==> (n == 29 <==> IsLeapYear(year))
  {
    if month == 2 then (if IsLeapYear(year) then 29 else 28)
    else if month == 4 || month == 6 || month == 9 || month == 11 then 30
    else 31
  }

  predicate IsValid(d: Date) {
    && MIN_YEAR <= d.year <= MAX_YEAR
    && 1 <= d.month <= 12
    && 1 <= d.day <= DaysInMonth(d.year, d.month)
  }

  /** The number of days in the first `months` months of `year`. */
  function DaysBefore(year: int, months: nat): nat
    requires months <= 12
  {
    if months == 0 then 0 else DaysBefore(year, months - 1) + DaysInMonth(year, months)
  }

  /** The month table is consistent with the length of the Gregorian year:
      366 days in a leap year and 365 otherwise. */
  lemma YearLength(year: int)
    ensures DaysBefore(year, 12) == if IsLeapYear(year) then 366 else 365
  {
    var feb := DaysInMonth(year, 2);
    assert DaysBefore(year, 1) == 31;
    assert DaysBefore(year, 2) == 31 + feb;
    assert DaysBefore(year, 3) == 62 + feb;
    assert DaysBefore(year, 4) == 92 + feb;
    assert DaysBefore(year, 5) == 123 + feb;
    assert DaysBefore(year, 6) == 153 + feb;
    assert DaysBefore(year, 7) == 184 + feb;
    assert DaysBefore(year, 8) == 215 + feb;
    assert DaysBefore(year, 9) == 245 + feb;
    assert DaysBefore(year, 10) == 276 + feb;
    assert DaysBefore(year, 11) == 306 + feb;
  }

  /** `NaiveDate::from_ymd_opt(year, month, day)`. */
  function FromYmdOpt(year: I32, month: U32, day: U32): (r: Option<Date>)
    ensures r.Some? ==> IsValid(r.value)
    ensures r.Some? <==> IsValid(Date(year, month, day))
    ensures r.Some? ==> r.value == Date(year, month, day)
  {
    var d := Date(year, month, day);
    if IsValid(d) then Some(d) else None
  }

  /** The ISO 8601 calendar-date layout `YYYY-MM-DD` of a date with a
      four-digit year, as an HTML date input and Postgres's
      `to_char(due_date, 'YYYY-MM-DD')` produce it. */
  function FormatIso(d: Date): string
    requires 0 <= d.year <= 9999 && 0 <= d.month <= 99 && 0 <= d.day <= 99
  {
    PadDecimal(d.year, 4) + "-" + PadDecimal(d.month, 2) + "-" + PadDecimal(d.day, 2)
  }
}
