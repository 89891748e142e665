// ISO week dates (sections 3.2.2 and 4.1.4 of ISO 8601:2004) on top of Gregorian day counts.
module IsoWeek {
  import opened Weekdays

  // ---------------------------------------------------------------- the Gregorian calendar below

  predicate GregorianLeap(y: int) {
    y % 4 == 0 && (y % 100 != 0 || y % 400 == 0)
  }

  // Days from 1970-01-01 to January 1 of year y.
  function Jan1(y: int): int {
    365 * y + (y - 1) / 4 - (y - 1) / 100 + (y - 1) / 400 - 719527
  }

  lemma StepsOnce(y: int, n: int)
    requires n == 4 || n == 100 || n == 400
    ensures Steps(y, n) == if y % n == 0 then 1 else 0
  {
  }

  lemma Rem4(q: int)
    ensures (4 * q) % 4 == 0
  {
  }

  lemma Rem100(q: int)
    ensures (100 * q) % 100 == 0
  {
  }

  lemma Centuries(y: int)
    ensures y % 100 == 0 ==> y % 4 == 0
    ensures y % 400 == 0 ==> y % 100 == 0
  {
    Rem4(25 * (y / 100));
    Rem100(4 * (y / 400));
  }

  function Steps(y: int, n: int): int
    requires n > 0
  {
    y / n - (y - 1) / n
  }

  // The closed form counts 366 days for leap years and 365 for the others.
  lemma Jan1Steps(y: int)
    ensures Jan1(y + 1) - Jan1(y) == if GregorianLeap(y) then 366 else 365
  {
    assert Jan1(y + 1) - Jan1(y) == 365 + Steps(y, 4) - Steps(y, 100) + Steps(y, 400);
    hide Jan1, Steps;
    StepsOnce(y, 4);
    StepsOnce(y, 100);
    StepsOnce(y, 400);
    Centuries(y);
  }

  // The Gregorian year of a day, searched for from year y.
  function YearFrom(n: int, y: int): (r: int)
    ensures Jan1(r) <= n < Jan1(r + 1)
    decreases if n < Jan1(y) then Jan1(y) - n else if n >= Jan1(y + 1) then n - Jan1(y) else 0
  {
    Jan1Steps(y);
    Jan1Steps(y - 1);
    if n < Jan1(y) then YearFrom(n, y - 1) else if n >= Jan1(y + 1) then YearFrom(n, y + 1) else y
  }

  // date::year_month_day{day}.year(), stored in a short.
  function DateYear(n: int): int {
    ToShort(YearFrom(n, 1970))
  }

  // year/dec/thu[last].
  function LastThursday(y: int): int {
    var n := Jan1(y + 1) - 1;
    n - WeekdayMinus(WeekdayFromDays(n), 4)
  }

  // ---------------------------------------------------------------- ISO weeks as the code computes them

  // Weekdays run from 1, Monday, to 7, Sunday; the week number is an unsigned char, the year a short.
  datatype WeekDate = WeekDate(year: int, week: int, weekday: int)

  predicate Stored(t: WeekDate) {
    -32768 <= t.year < 32768 && 0 <= t.week < 256 && 0 <= t.weekday < 256
  }

  function IsoWeekday(n: int): int {
    if WeekdayFromDays(n) != 0 then WeekdayFromDays(n) else 7
  }

  // The first day of week 1: mon - thu counts forward, from the last Thursday of the year before.
  function FirstMonday(y: int): int {
    LastThursday(ToShort(y - 1)) + WeekdayMinus(1, 4)
  }

  function ToDays(t: WeekDate): int {
    FirstMonday(t.year) + 7 * ToUnsigned(t.week - 1) + WeekdayMinus(t.weekday, 1)
  }

  function FromDays(n: int): WeekDate {
    var y := DateYear(n + 3);
    var y := if n < FirstMonday(y) then ToShort(y - 1) else y;
    WeekDate(y, ToByte(ToUnsigned(TruncDiv(n - FirstMonday(y), 7) + 1)), IsoWeekday(n))
  }

  // year::is_leap: whether the last Thursdays of the two Decembers are not 52 weeks apart.
  predicate IsLeapWeekYear(y: int) {
    LastThursday(y) - LastThursday(ToShort(y - 1)) != 7 * 52
  }

  predicate Ok(t: WeekDate) {
    Stored(t) && 1 <= t.weekday <= 7 && 1 <= t.week <= if IsLeapWeekYear(t.year) then 53 else 52
  }

  // ---------------------------------------------------------------- ISO weeks as the standard defines them

  // Week 1 begins on the Monday of the week that holds the year's first Thursday, of any year.
  function WeekStart(y: int): int {
    LastThursday(y - 1) + 4
  }

  // The day a week date denotes.
  function Denoted(t: WeekDate): int {
    WeekStart(t.year) + 7 * (t.week - 1) + t.weekday - 1
  }

  // A Monday within three days of January 1, on either side.
  lemma WeekStartIsMonday(y: int)
    ensures (WeekStart(y) + 3) % 7 == 0
    ensures Jan1(y) - 3 <= WeekStart(y) <= Jan1(y) + 3
  {
    hide WeekdayMinus, WeekdayFromDays, Jan1;
    var n := Jan1(y) - 1;
    LastWeekday(n, 4);
    WeekdayCycles(LastThursday(y - 1));
  }

  lemma MultiplesOfSeven(a: int, b: int, lo: int, hi: int)
    requires (a + 3) % 7 == 0 && (b + 3) % 7 == 0 && lo <= b - a <= hi
    requires lo > 51 * 7 && hi < 54 * 7
    ensures b - a == 364 || b - a == 371
  {
    var q, r := (a + 3) / 7, (b + 3) / 7;
    assert b - a == 7 * (r - q);
  }

  lemma WeekYearLength(y: int)
    ensures WeekStart(y + 1) - WeekStart(y) == 364 || WeekStart(y + 1) - WeekStart(y) == 371
  {
    hide WeekStart, Jan1, GregorianLeap;
    WeekStartIsMonday(y);
    WeekStartIsMonday(y + 1);
    Jan1Steps(y);
    MultiplesOfSeven(WeekStart(y), WeekStart(y + 1), 359, 372);
  }

  lemma {:induction false} WeekStartIncreases(y: int, y': int)
    requires y <= y'
    ensures WeekStart(y) + 364 * (y' - y) <= WeekStart(y')
    decreases y' - y
  {
    if y < y' {
      WeekYearLength(y' - 1);
      WeekStartIncreases(y, y' - 1);
    }
  }

  // Every day lies in exactly one week year.
  lemma WeekYearExists(n: int) returns (y: int)
    ensures WeekStart(y) <= n < WeekStart(y + 1)
  {
    hide WeekStart, Jan1;
    y := YearFrom(n, 1970);
    WeekStartIsMonday(y);
    WeekStartIsMonday(y + 1);
    if n < WeekStart(y) {
      y := y - 1;
      WeekStartIsMonday(y);
      Jan1Steps(y);
    } else if n >= WeekStart(y + 1) {
      y := y + 1;
      WeekStartIsMonday(y + 1);
      Jan1Steps(y);
    }
  }

  lemma WeekYearUnique(n: int, y: int, y': int)
    requires WeekStart(y) <= n < WeekStart(y + 1) && WeekStart(y') <= n < WeekStart(y' + 1)
    ensures y == y'
  {
    hide WeekStart;
    if y < y' { WeekStartIncreases(y + 1, y'); }
    if y' < y { WeekStartIncreases(y' + 1, y); }
  }

  // The week date of a day of week year y.
  function TrueDate(n: int, y: int): WeekDate {
    WeekDate(y, (n - WeekStart(y)) / 7 + 1, (n + 3) % 7 + 1)
  }

  lemma TrueDateDenotes(n: int, y: int)
    requires WeekStart(y) <= n < WeekStart(y + 1)
    ensures Denoted(TrueDate(n, y)) == n && 1 <= TrueDate(n, y).weekday <= 7
    ensures 1 <= TrueDate(n, y).week <= if WeekStart(y + 1) - WeekStart(y) == 371 then 53 else 52
  {
    hide WeekStart;
    WeekStartIsMonday(y);
    WeekYearLength(y);
    SinceMonday(n, WeekStart(y));
  }

  lemma SinceMonday(n: int, start: int)
    requires (start + 3) % 7 == 0
    ensures (n - start) / 7 * 7 + (n + 3) % 7 == n - start
  {
    var q := (start + 3) / 7;
    assert n + 3 == 7 * (q + (n - start) / 7) + (n - start) % 7;
    Mod7(n + 3, q + (n - start) / 7, (n - start) % 7);
  }

  // ---------------------------------------------------------------- where the code meets the standard

  lemma IsoWeekdayCycles(n: int)
    ensures IsoWeekday(n) == (n + 3) % 7 + 1
  {
    hide WeekdayFromDays;
    WeekdayCycles(n);
  }

  lemma FirstMondayIs(y: int)
    requires -32768 <= y < 32768
    ensures FirstMonday(y) == if y > -32768 then WeekStart(y) else WeekStart(32768)
  {
    hide LastThursday;
    assert WeekdayMinus(1, 4) == 4;
  }

  // The week starts at and around the ends of the range of a short.
  lemma EndsOfRange()
    ensures WeekStart(-32768) == -12687797 && WeekStart(-32767) == -12687426 && WeekStart(32768) == 11248738
    ensures Jan1(-32768) == -12687794 && Jan1(-32767) == -12687428
  {
    assert Jan1(-32768) == -12687794 && Jan1(-32767) == -12687428 && Jan1(32768) == 11248738;
    WeekdayCycles(-12687795);
    WeekdayCycles(-12687429);
    WeekdayCycles(11248737);
  }

  // A year has 53 weeks exactly when is_leap says so - for every year a short can hold, although for the least
  // one the year before wraps around to the greatest.
  lemma LeapMeans53Weeks(y: int)
    requires -32768 <= y < 32768
    ensures IsLeapWeekYear(y) <==> WeekStart(y + 1) - WeekStart(y) == 371
    ensures !IsLeapWeekYear(y) <==> WeekStart(y + 1) - WeekStart(y) == 364
  {
    hide LastThursday;
    WeekYearLength(y);
    if y == -32768 { EndsOfRange(); }
  }

  // The conversion to a day number is the standard's, exactly for the years above the least short.
  lemma ToDaysExactly(t: WeekDate)
    requires Stored(t) && 1 <= t.week && 1 <= t.weekday <= 7
    ensures ToDays(t) == Denoted(t) <==> t.year > -32768
  {
    hide WeekStart;
    FirstMondayIs(t.year);
    WeekdayMinusIso(t.weekday);
    EndsOfRange();
  }

  lemma WeekdayMinusIso(wd: int)
    requires 1 <= wd <= 7
    ensures WeekdayMinus(wd, 1) == wd - 1
  {
  }

  const FIRST_DAY := -12687426
  const LAST_DAY := 11248737

  lemma YearFits(n: int, y: int)
    requires WeekStart(y) <= n < WeekStart(y + 1)
    ensures FIRST_DAY <= n <= LAST_DAY <==> -32767 <= y <= 32767
  {
    hide WeekStart;
    EndsOfRange();
    if y < -32767 { WeekStartIncreases(y + 1, -32767); }
    else if y > 32767 { WeekStartIncreases(32768, y); }
    else {
      WeekStartIncreases(-32767, y);
      WeekStartIncreases(y + 1, 32768);
    }
  }

  // The Gregorian year three days later is the week year or the one after it.
  lemma YearThreeDaysLater(n: int, y: int)
    requires WeekStart(y) <= n < WeekStart(y + 1)
    ensures YearFrom(n + 3, 1970) == y || (YearFrom(n + 3, 1970) == y + 1 && n < WeekStart(y + 1))
  {
    hide WeekStart, Jan1;
    WeekStartIsMonday(y);
    WeekStartIsMonday(y + 1);
    Jan1Steps(y + 1);
    var g := YearFrom(n + 3, 1970);
    if g < y { Jan1Increases(g + 1, y); }
    if g > y + 1 { Jan1Increases(y + 2, g); }
  }

  lemma {:induction false} Jan1Increases(y: int, y': int)
    requires y <= y'
    ensures Jan1(y) <= Jan1(y')
    decreases y' - y
  {
    if y < y' {
      Jan1Steps(y' - 1);
      Jan1Increases(y, y' - 1);
    }
  }

  lemma ChosenYear(n: int, y: int)
    requires WeekStart(y) <= n < WeekStart(y + 1) && -32767 <= y <= 32767
    ensures var g := DateYear(n + 3); y == if n < FirstMonday(g) then ToShort(g - 1) else g
  {
    hide WeekStart, FirstMonday, Jan1, YearFrom;
    YearThreeDaysLater(n, y);
    FirstMondayIs(y);
    if y < 32767 { FirstMondayIs(y + 1); } else { LastYearStaysInRange(n); }
  }

  lemma WeekNumber(k: int)
    requires 0 <= k < 371
    ensures ToByte(ToUnsigned(TruncDiv(k, 7) + 1)) == k / 7 + 1
  {
  }

  lemma FromDaysInRange(n: int, y: int)
    requires WeekStart(y) <= n < WeekStart(y + 1) && -32767 <= y <= 32767
    ensures FromDays(n) == TrueDate(n, y)
  {
    hide WeekStart, FirstMonday, DateYear, IsoWeekday, ToByte, ToUnsigned, TruncDiv, ToShort;
    ChosenYear(n, y);
    IsoWeekdayCycles(n);
    WeekYearLength(y);
    FirstMondayIs(y);
    WeekNumber(n - WeekStart(y));
  }

  // In the last week year of the range the Gregorian year three days later never wraps around unnoticed.
  lemma LastYearStaysInRange(n: int)
    requires WeekStart(32767) <= n < WeekStart(32768)
    ensures YearFrom(n + 3, 1970) == 32767 || n < FirstMonday(-32768)
  {
    FirstMondayIs(-32768);
  }

  // Taking a day apart gives the standard's week date exactly when its week year is a short above the least one.
  lemma FromDaysExactly(n: int, y: int)
    requires WeekStart(y) <= n < WeekStart(y + 1)
    ensures FromDays(n) == TrueDate(n, y) <==> -32767 <= y <= 32767
  {
    hide WeekStart, FirstMonday;
    if -32767 <= y <= 32767 {
      FromDaysInRange(n, y);
    } else if y == -32768 {
      LeastYearFails(n);
    }
  }

  // In the least year the start of the year, or the year itself, wraps around to the greatest one.
  lemma LeastYearFails(n: int)
    requires WeekStart(-32768) <= n < WeekStart(-32767)
    ensures FromDays(n) != TrueDate(n, -32768)
  {
    hide WeekStart, FirstMonday, Jan1, YearFrom;
    EndsOfRange();
    YearThreeDaysLater(n, -32768);
    FirstMondayIs(-32768);
    FirstMondayIs(-32767);
    if YearFrom(n + 3, 1970) == -32767 {
      assert -12687431 <= n < -12687426;
      assert TruncDiv(n - 11248738, 7) == -3419452;
      assert FromDays(n).week == 197 && TrueDate(n, -32768).week == 53;
    }
  }

  // Every day whose week year is in range maps to a valid week date that converts back to the same day.
  lemma DayInRange(n: int)
    requires FIRST_DAY <= n <= LAST_DAY
    ensures Ok(FromDays(n)) && ToDays(FromDays(n)) == n
  {
    hide WeekStart, FromDays, ToDays, IsLeapWeekYear;
    var y := WeekYearExists(n);
    YearFits(n, y);
    FromDaysInRange(n, y);
    TrueDateDenotes(n, y);
    LeapMeans53Weeks(y);
    WeekYearLength(y);
    ToDaysExactly(FromDays(n));
  }

  // The last day that comes back, although its week year, 32768, is stored as the least short: reading it as the
  // year after 32767 both ways makes up for it, up to the days whose Gregorian year three days later wraps around too.
  const LAST_WRAPPED_DAY := 11249100

  lemma GregorianYearIs(n: int, y: int)
    requires Jan1(y) <= n < Jan1(y + 1)
    ensures YearFrom(n, 1970) == y
  {
    hide Jan1;
    var g := YearFrom(n, 1970);
    if g < y { Jan1Increases(g + 1, y); }
    if g > y { Jan1Increases(y + 1, g); }
  }

  // How the days around the end of the range are taken apart.
  lemma WrappedYear(n: int)
    requires LAST_DAY < n <= LAST_DAY + 371
    ensures FirstMonday(-32768) == LAST_DAY + 1 && IsLeapWeekYear(-32768)
    ensures if n <= LAST_WRAPPED_DAY then FromDays(n) == WeekDate(-32768, (n - LAST_DAY - 1) / 7 + 1, IsoWeekday(n))
            else FromDays(n).year == -32767
  {
    hide WeekStart, FirstMonday, LastThursday, YearFrom, IsoWeekday;
    EndsOfRange();
    FirstMondayIs(-32768);
    FirstMondayIs(-32767);
    LeapMeans53Weeks(-32768);
    assert Jan1(32768) == 11248738 && Jan1(32769) == 11249104 && Jan1(32770) == 11249469;
    hide Jan1;
    GregorianYearIs(n + 3, if n <= LAST_WRAPPED_DAY then 32768 else 32769);
    WeekNumber(n - LAST_DAY - 1);
  }

  lemma WrappedDayReturns(n: int)
    requires LAST_DAY < n <= LAST_WRAPPED_DAY
    ensures Ok(FromDays(n)) && ToDays(FromDays(n)) == n
  {
    hide FromDays, FirstMonday, IsoWeekday, IsLeapWeekYear;
    WrappedYear(n);
    IsoWeekdayCycles(n);
    var k := n - LAST_DAY - 1;
    assert (n + 3) % 7 == k % 7 by { assert n + 3 == 7 * 1606963 + k; Mod7(n + 3, 1606963 + k / 7, k % 7); }
    WeekdayMinusIso(IsoWeekday(n));
  }

  // A day number survives the conversion to a week date and back, the week date being valid, exactly in this range.
  lemma DayRoundTrip(n: int)
    ensures Ok(FromDays(n)) && ToDays(FromDays(n)) == n <==> FIRST_DAY <= n <= LAST_WRAPPED_DAY
  {
    hide WeekStart, FromDays, ToDays, IsLeapWeekYear, FirstMonday;
    if FIRST_DAY <= n <= LAST_DAY {
      DayInRange(n);
    } else if LAST_DAY < n <= LAST_WRAPPED_DAY {
      WrappedDayReturns(n);
    } else if Ok(FromDays(n)) && ToDays(FromDays(n)) == n {
      NoOtherDayReturns(n);
    }
  }

  lemma NoOtherDayReturns(n: int)
    requires Ok(FromDays(n)) && ToDays(FromDays(n)) == n
    ensures FIRST_DAY <= n <= LAST_WRAPPED_DAY
  {
    hide WeekStart, FromDays, IsLeapWeekYear, FirstMonday;
    var t := FromDays(n);
    ToDaysExactly(t);
    LeapMeans53Weeks(t.year);
    WeekYearLength(t.year);
    if t.year > -32768 {
      YearFits(n, t.year);
    } else {
      WrappedYear(LAST_DAY + 1);
      WeekdayMinusIso(t.weekday);
      if n > LAST_WRAPPED_DAY { WrappedYear(n); }
    }
  }

  // A valid week date survives the way to its day and back exactly if its year is above the least one or its day is
  // not among the last eight of that year.
  lemma WeekDateRoundTrip(t: WeekDate)
    requires Ok(t)
    ensures FromDays(ToDays(t)) == t <==> t.year > -32768 || 7 * (t.week - 1) + t.weekday <= 363
  {
    hide WeekStart, FromDays, ToDays, IsLeapWeekYear, FirstMonday, IsoWeekday;
    if t.year > -32768 {
      WeekDateInRange(t);
    } else {
      var k := 7 * (t.week - 1) + t.weekday - 1;
      LeastYearDay(t);
      WrappedYear(LAST_DAY + 1 + k);
      IsoWeekdayCycles(LAST_DAY + 1 + k);
      assert k / 7 == t.week - 1 && k % 7 == t.weekday - 1;
      assert LAST_DAY + 1 + k + 3 == 7 * (1606963 + t.week - 1) + (t.weekday - 1);
      Mod7(LAST_DAY + 1 + k + 3, 1606963 + t.week - 1, t.weekday - 1);
    }
  }

  // The least year's dates are given the days of week year 32768.
  lemma LeastYearDay(t: WeekDate)
    requires Ok(t) && t.year == -32768
    ensures ToDays(t) == LAST_DAY + 7 * (t.week - 1) + t.weekday && t.week <= 53
  {
    hide WeekStart, FirstMonday, LastThursday;
    WrappedYear(LAST_DAY + 1);
    WeekdayMinusIso(t.weekday);
  }

  lemma WeekDateInRange(t: WeekDate)
    requires Ok(t) && t.year > -32768
    ensures FromDays(ToDays(t)) == t
  {
    hide WeekStart, FromDays, ToDays, IsLeapWeekYear;
    ToDaysExactly(t);
    LeapMeans53Weeks(t.year);
    WeekYearLength(t.year);
    var n := Denoted(t);
    assert WeekStart(t.year) <= n < WeekStart(t.year + 1);
    FromDaysInRange(n, t.year);
    WeekStartIsMonday(t.year);
    SinceMonday(n, WeekStart(t.year));
  }
}
