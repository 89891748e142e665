// Where the Islamic calendar begins, and how long its months and years are.
module IslamicCalendar {
  import opened Weekdays
  import opened Islamic

  // The eleven leap years of a cycle of thirty.
  predicate LongYear(year: int) {
    (year - 1) % 30 + 1 in {2, 5, 7, 10, 13, 16, 18, 21, 24, 26, 29}
  }

  lemma LeapYears(year: int)
    ensures IsLeap(year) <==> LongYear(year)
  {
  }

  // Months of 30 and 29 days in turn, and one day more at the end of a long year.
  lemma MonthLengths(year: int, month: int)
    requires 1 <= month <= 12
    ensures LastDay(year, month) == if month in {1, 3, 5, 7, 9, 11} || (month == 12 && LongYear(year)) then 30 else 29
  {
    LeapYears(year);
    hide LongYear, IsLeap;
  }

  // The calendar begins on a Friday, 492148 days before January 1 of 1970, a Thursday.
  lemma BeginsOnFriday()
    ensures ToDays(Date(1, 1, 1)) == -492148 && WeekdayFromDays(-492148) == 5 && WeekdayFromDays(0) == 4
  {
    WeekdayCycles(-492148);
  }

  // A year is 354 days long, and a long one 355.
  lemma YearLengths(year: int)
    requires -32768 <= year < 32767
    ensures ToDays(Date(year + 1, 1, 1)) - ToDays(Date(year, 1, 1)) == if LongYear(year) then 355 else 354
  {
    LeapYears(year);
    LeapAgrees(year);
    ToDaysCounts(Date(year, 1, 1));
    ToDaysCounts(Date(year + 1, 1, 1));
    hide LongYear, IsLeap, ToDays, YearStart;
  }

  // The month after one, also across the end of a year, and the same month of the next year. With the composition of
  // steps these say what adding any number of months is.
  lemma NextMonth(year: int, month: int)
    requires -32768 <= year < 32767 && 1 <= month <= 12
    ensures AddMonths(year, month, 1) == if month == 12 then (year + 1, 1) else (year, month + 1)
    ensures AddMonths(year, month, 12) == (year + 1, month)
  {
    AddMonthsCounts(year, month, 1);
    AddMonthsCounts(year, month, 12);
  }
}
