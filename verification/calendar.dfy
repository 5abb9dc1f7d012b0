/**
 Proleptic Gregorian dates as Python's `datetime.date` knows them, and the
 day number (`date.toordinal()`) that turns "today minus N days" into
 integer arithmetic.
 */
module Calendar {
  import opened Common

  datatype Date = Date(year: int, month: int, day: int)

  const MinYear: int := 1
  const MaxYear: int := 9999
  /** Day number of 9999-12-31, the last date Python can represent. */
  const MaxOrdinal: int := 3652059

  predicate IsLeap(y: int) {
    y % 4 == 0 && (y % 100 != 0 || y % 400 == 0)
  }

  function DaysInMonth(y: int, m: int): int {
    if m == 2 then (if IsLeap(y) then 29 else 28)
    else if m == 4 || m == 6 || m == 9 || m == 11 then 30
    else 31
  }

  function YearLength(y: int): int {
    if IsLeap(y) then 366 else 365
  }

  /** A date `datetime.date` accepts. */
  predicate Valid(d: Date) {
    && MinYear <= d.year <= MaxYear
    && 1 <= d.month <= 12
    && 1 <= d.day <= DaysInMonth(d.year, d.month)
  }

  /** Python's date ordering: lexicographic on (year, month, day). */
  predicate Before(a: Date, b: Date) {
    || a.year < b.year
    || (a.year == b.year && a.month < b.month)
    || (a.year == b.year && a.month == b.month && a.day < b.day)
  }

  /** Days in the years before year `y`. */
  function DaysBeforeYear(y: int): int
    requires y >= 1
  {
    var k := y - 1;
    365 * k + k / 4 - k / 100 + k / 400
  }

  /** Days in the months of year `y` before month `m`. */
  function DaysBeforeMonth(y: int, m: int): int
    requires 1 <= m <= 12
  {
    var common :=
      if m == 1 then 0 else if m == 2 then 31 else if m == 3 then 59
      else if m == 4 then 90 else if m == 5 then 120 else if m == 6 then 151
      else if m == 7 then 181 else if m == 8 then 212 else if m == 9 then 243
      else if m == 10 then 273 else if m == 11 then 304 else 334;
    common + (if m > 2 && IsLeap(y) then 1 else 0)
  }

  /** `date.toordinal()`: 0001-01-01 is day 1. */
  function DayNumber(d: Date): int
    requires Valid(d)
  {
    DaysBeforeYear(d.year) + DaysBeforeMonth(d.year, d.month) + d.day
  }

  /** The calendar's next day, defined without day numbers. */
  function Succ(d: Date): (r: Date)
    requires Valid(d) && d != Date(MaxYear, 12, 31)
    ensures Valid(r) && Before(d, r)
  {
    if d.day < DaysInMonth(d.year, d.month) then Date(d.year, d.month, d.day + 1)
    else if d.month < 12 then Date(d.year, d.month + 1, 1)
    else Date(d.year + 1, 1, 1)
  }

  /** The date `n` days after `d`, by stepping through the calendar. */
  function AddDays(d: Date, n: nat): (r: Date)
    requires Valid(d) && DayNumber(d) + n <= MaxOrdinal
    ensures Valid(r) && DayNumber(r) == DayNumber(d) + n
    decreases n
  {
    if n == 0 then d
    else
      LastDate(d);
      SuccStep(d);
      AddDays(Succ(d), n - 1)
  }

  /**
   The first day number of the retention window, `today - timedelta(days=days)`.
   Python computes it from the ordinal and raises OverflowError when the
   result falls outside 0001-01-01 .. 9999-12-31; that error is `None`.
   */
  function Cutoff(today: Date, days: int): (r: Option<int>)
    requires Valid(today)
  {
    var c := DayNumber(today) - days;
    if 1 <= c <= MaxOrdinal then Some(c) else None
  }

  /** The retention test `msg_date >= filter_start_date`, on day numbers. */
  predicate InWindow(msg: Date, cutoff: int)
    requires Valid(msg)
  {
    DayNumber(msg) >= cutoff
  }

  // ---------------------------------------------------------------------
  // Lemmas

  lemma YearStep(y: int)
    requires y >= 1
    ensures DaysBeforeYear(y + 1) == DaysBeforeYear(y) + YearLength(y)
  {
    var k := y - 1;
    assert (k + 1) / 4 - k / 4 == (if y % 4 == 0 then 1 else 0);
    assert (k + 1) / 100 - k / 100 == (if y % 100 == 0 then 1 else 0);
    assert (k + 1) / 400 - k / 400 == (if y % 400 == 0 then 1 else 0);
  }

  lemma MonthStep(y: int, m: int)
    requires 1 <= m < 12
    ensures DaysBeforeMonth(y, m + 1) == DaysBeforeMonth(y, m) + DaysInMonth(y, m)
  {
  }

  lemma LastMonth(y: int)
    ensures DaysBeforeMonth(y, 12) + 31 == YearLength(y)
  {
  }

  /** Stepping to the next calendar day adds exactly one to the day number. */
  lemma SuccStep(d: Date)
    requires Valid(d) && d != Date(MaxYear, 12, 31)
    ensures DayNumber(Succ(d)) == DayNumber(d) + 1
  {
    if d.day < DaysInMonth(d.year, d.month) {
    } else if d.month < 12 {
      MonthStep(d.year, d.month);
    } else {
      YearStep(d.year);
      LastMonth(d.year);
    }
  }

  /** A valid date's day number lies inside the year it belongs to. */
  lemma DayNumberInYear(d: Date)
    requires Valid(d)
    ensures DaysBeforeYear(d.year) < DayNumber(d) <= DaysBeforeYear(d.year) + YearLength(d.year)
  {
    DaysBeforeMonthBound(d.year, d.month);
  }

  lemma DaysBeforeMonthBound(y: int, m: int)
    requires 1 <= m <= 12
    ensures DaysBeforeMonth(y, m) + DaysInMonth(y, m) <= YearLength(y)
  {
  }

  lemma {:induction false} DaysBeforeYearMono(y1: int, y2: int)
    requires 1 <= y1 < y2
    ensures DaysBeforeYear(y1) + YearLength(y1) <= DaysBeforeYear(y2)
    decreases y2 - y1
  {
    YearStep(y1);
    if y1 + 1 < y2 {
      DaysBeforeYearMono(y1 + 1, y2);
    }
  }

  lemma DaysBeforeMonthMono(y: int, m1: int, m2: int)
    requires 1 <= m1 < m2 <= 12
    ensures DaysBeforeMonth(y, m1) + DaysInMonth(y, m1) <= DaysBeforeMonth(y, m2)
  {
  }

  /** Day numbers order dates exactly as Python's date comparison does. */
  lemma BeforeIsSmaller(a: Date, b: Date)
    requires Valid(a) && Valid(b)
    ensures Before(a, b) <==> DayNumber(a) < DayNumber(b)
    ensures a == b <==> DayNumber(a) == DayNumber(b)
  {
    if Before(a, b) {
      BeforeImpliesSmaller(a, b);
    } else if Before(b, a) {
      BeforeImpliesSmaller(b, a);
    }
  }

  lemma BeforeImpliesSmaller(a: Date, b: Date)
    requires Valid(a) && Valid(b) && Before(a, b)
    ensures DayNumber(a) < DayNumber(b)
  {
    if a.year < b.year {
      DayNumberInYear(a);
      DayNumberInYear(b);
      DaysBeforeYearMono(a.year, b.year);
    } else if a.month < b.month {
      DaysBeforeMonthMono(a.year, a.month, b.month);
    }
  }

  /** Every valid date has a day number in 1 .. MaxOrdinal. */
  lemma DayNumberRange(d: Date)
    requires Valid(d)
    ensures 1 <= DayNumber(d) <= MaxOrdinal
  {
    var last := Date(MaxYear, 12, 31);
    assert DayNumber(last) == MaxOrdinal;
    if d != last {
      BeforeImpliesSmaller(d, last);
    }
  }

  lemma LastDate(d: Date)
    requires Valid(d) && DayNumber(d) < MaxOrdinal
    ensures d != Date(MaxYear, 12, 31)
  {
  }

  /**
   The window test in calendar terms: a message dated `msg` is inside a
   window of `days` days ending `today` exactly when counting `days` days
   forward from `msg` reaches `today` or later.
   */
  lemma WindowByCounting(msg: Date, today: Date, days: nat)
    requires Valid(msg) && Valid(today)
    requires DayNumber(msg) + days <= MaxOrdinal
    ensures InWindow(msg, DayNumber(today) - days) <==> !Before(AddDays(msg, days), today)
  {
    var later := AddDays(msg, days);
    BeforeIsSmaller(later, today);
  }

  /** The boundary is inclusive: with today 2025-04-29 and a 7-day window,
      22 April 2025 is kept and 21 April 2025 is not. */
  lemma SevenDayBoundary()
    ensures Cutoff(Date(2025, 4, 29), 7).Some?
    ensures InWindow(Date(2025, 4, 22), Cutoff(Date(2025, 4, 29), 7).value)
    ensures !InWindow(Date(2025, 4, 21), Cutoff(Date(2025, 4, 29), 7).value)
  {
  }
}
