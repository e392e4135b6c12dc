/** The length of a month as the source computes it: the distance in days between the first of
    the month and the first of the next one. */
module MonthLengths {
  import opened BillingCalendar

  function DaysBeforeYear(year: int): int {
    var y := year - 1;
    y * 365 + y / 4 - y / 100 + y / 400
  }

  /** Days of a common year before the first of each month. */
  const DAYS_BEFORE_MONTH: seq<int> := [0, 31, 59, 90, 120, 151, 181, 212, 243, 273, 304, 334]

  /** Proleptic Gregorian ordinal of the first of a month, 1 January of year 1 being day 1. */
  function FirstOfMonth(year: int, month: int): int
    requires 1 <= month <= 12
  {
    DaysBeforeYear(year) + DAYS_BEFORE_MONTH[month - 1] + (if month > 2 && IsLeap(year) then 1 else 0) + 1
  }

  function DaysInMonth(year: int, month: int): (days: int)
    requires 1 <= month <= 12
    ensures days == MonthLength(year, month)
  {
    YearLength(year);
    (if month == 12 then FirstOfMonth(year + 1, 1) else FirstOfMonth(year, month + 1)) - FirstOfMonth(year, month)
  }

  lemma YearLength(year: int)
    ensures DaysBeforeYear(year + 1) - DaysBeforeYear(year) == if IsLeap(year) then 366 else 365
  {
    QuotientStep(year, 4);
    QuotientStep(year, 100);
    QuotientStep(year, 400);
  }

  lemma QuotientStep(y: int, d: int)
    requires d == 4 || d == 100 || d == 400
    ensures y / d - (y - 1) / d == if y % d == 0 then 1 else 0
  {
  }
}
