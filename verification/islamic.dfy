// The tabular Islamic calendar: closed-form conversions between dates and day numbers.
module Islamic {
  import opened Weekdays

  // ---------------------------------------------------------------- dates

  // A year is stored in a short, month and day in unsigned chars.
  datatype Date = Date(year: int, month: int, day: int)

  predicate Stored(d: Date) {
    -32768 <= d.year < 32768 && 0 <= d.month < 256 && 0 <= d.day < 256
  }

  // The switch over the eleven leap positions of a 30-year cycle.
  predicate IsLeap(year: int) {
    var y := year - 1;
    var era := TruncDiv(if y >= 0 then y else y - 29, 30);
    var yoe := y - era * 30;
    || yoe == 1 || yoe == 4 || yoe == 6 || yoe == 9 || yoe == 12 || yoe == 15
    || yoe == 17 || yoe == 20 || yoe == 23 || yoe == 25 || yoe == 28
  }

  // year_month_day_last::day(), for a month in range.
  function LastDay(year: int, month: int): int
    requires 1 <= month <= 12
  {
    if month != 12 || !IsLeap(year) then (if month % 2 == 1 then 30 else 29) else 30
  }

  predicate Ok(d: Date) {
    Stored(d) && 1 <= d.month <= 12 && 1 <= d.day <= LastDay(d.year, d.month)
  }

  function ToDays(d: Date): int {
    var y := d.year - 1;
    var era := TruncDiv(if y >= 0 then y else y - 29, 30);
    var yoe := ToUnsigned(y - era * 30);
    var doy := ToUnsigned(29 * (d.month - 1) + d.month / 2 + d.day - 1);
    var doe := ToUnsigned(yoe * 354 + (11 * (yoe + 1) + 3) / 30 + doy);
    era * 10631 + ToInt(doe) - 492148
  }

  function FromDays(n: int): Date {
    var z := n + 492148;
    var era := TruncDiv(if z >= 0 then z else z - 10630, 10631);
    FromCycleDay(era, ToUnsigned(z - era * 10631))
  }

  // The rest of from_days: a day of a 30-year cycle to its year, month and day.
  function FromCycleDay(era: int, doe: int): Date {
    var yoe := (30 * doe + 10646) / 10631 - 1;
    var y := yoe + era * 30 + 1;
    var doy := doe - (yoe * 354 + (11 * (yoe + 1) + 3) / 30);
    var m := (11 * doy + 330) / 325;
    var d := doy - (29 * (m - 1) + m / 2) + 1;
    Date(ToShort(y), ToByte(m), ToByte(d))
  }

  // ---------------------------------------------------------------- the calendar as counted days

  // Days before year k of a cycle, before month m of a year, and before year y of all years.
  function CycleStart(k: int): int {
    k * 354 + (11 * (k + 1) + 3) / 30
  }

  function MonthStart(m: int): int {
    29 * (m - 1) + m / 2
  }

  function YearStart(y: int): int {
    (y - 1) / 30 * 10631 + CycleStart((y - 1) % 30) - 492148
  }

  function YearLength(y: int): int {
    if IsLeap(y) then 355 else 354
  }

  // The era computations round toward negative infinity.
  lemma EraFloors(y: int)
    ensures TruncDiv(if y >= 0 then y else y - 29, 30) == y / 30
    ensures TruncDiv(if y >= 0 then y else y - 10630, 10631) == y / 10631
  {
  }

  predicate LeapPosition(k: int) {
    || k == 1 || k == 4 || k == 6 || k == 9 || k == 12 || k == 15
    || k == 17 || k == 20 || k == 23 || k == 25 || k == 28
  }

  lemma CycleLeaps(k: int)
    requires 0 <= k < 30
    ensures CycleStart(k + 1) - CycleStart(k) == if LeapPosition(k) then 355 else 354
  {
  }

  // The eleven-entry switch is the closed-form leap count: a year is leap exactly when it has 355 days.
  lemma LeapAgrees(y: int)
    ensures YearStart(y + 1) - YearStart(y) == YearLength(y)
  {
    EraFloors(y - 1);
    CycleLeaps((y - 1) % 30);
    if (y - 1) % 30 == 29 { assert y / 30 == (y - 1) / 30 + 1 && y % 30 == 0; }
    else { assert y / 30 == (y - 1) / 30 && y % 30 == (y - 1) % 30 + 1; }
  }

  // ---------------------------------------------------------------- day number to date

  // The year formula inverts the cycle's year starts.
  lemma YearOfCycle(doe: int, k: int)
    requires 0 <= k < 30 && CycleStart(k) <= doe < CycleStart(k + 1)
    ensures (30 * doe + 10646) / 10631 - 1 == k
  {
    assert 10631 * k - 15 <= 30 * CycleStart(k);
    assert 30 * CycleStart(k + 1) <= 10631 * (k + 1) + 14;
  }

  // The month formula inverts the month starts; the twelfth month may have a thirtieth day.
  lemma MonthOfYear(doy: int, m: int)
    requires 1 <= m <= 12 && MonthStart(m) <= doy && (if m < 12 then doy < MonthStart(m + 1) else doy <= 354)
    ensures (11 * doy + 330) / 325 == m
  {
  }

  lemma CycleBounds(k: int)
    requires 0 <= k <= 30
    ensures 0 <= CycleStart(k) <= 10631 && (k == 0 ==> CycleStart(k) == 0) && (k == 30 ==> CycleStart(k) == 10631)
    ensures k < 30 ==> CycleStart(k) + 354 <= CycleStart(k + 1)
  {
  }

  // Every day of a cycle lies in exactly one of its years.
  lemma YearExists(doe: int) returns (k: int)
    requires 0 <= doe < 10631
    ensures 0 <= k < 30 && CycleStart(k) <= doe < CycleStart(k + 1)
  {
    k := 0;
    while k < 29 && CycleStart(k + 1) <= doe
      invariant 0 <= k < 30 && CycleStart(k) <= doe
    {
      k := k + 1;
    }
    CycleBounds(30);
  }

  lemma MonthExists(doy: int) returns (m: int)
    requires 0 <= doy <= 354
    ensures 1 <= m <= 12 && MonthStart(m) <= doy && (if m < 12 then doy < MonthStart(m + 1) else true)
  {
    m := 1;
    while m < 12 && MonthStart(m + 1) <= doy
      invariant 1 <= m <= 12 && MonthStart(m) <= doy
    {
      m := m + 1;
    }
  }

  // to_days counts the days of the years and months before the date.
  lemma ToDaysCounts(d: Date)
    requires Stored(d) && 1 <= d.month <= 12 && 1 <= d.day <= 30
    ensures ToDays(d) == YearStart(d.year) + MonthStart(d.month) + d.day - 1
    ensures FitsInt(ToDays(d))
  {
    EraFloors(d.year - 1);
    CycleBounds((d.year - 1) % 30);
  }

  // Where a date lies within its year.
  lemma DayOfYear(y: int, m: int, day: int)
    requires 1 <= m <= 12 && 1 <= day <= LastDay(y, m)
    ensures 0 <= MonthStart(m) + day - 1 < YearLength(y)
    ensures m < 12 ==> MonthStart(m) + day - 1 < MonthStart(m + 1)
    ensures day == LastDay(y, m) ==> MonthStart(m) + day == if m < 12 then MonthStart(m + 1) else YearLength(y)
  {
    hide IsLeap;
  }

  // Where the year begins within its cycle.
  lemma YearOfEra(y: int, doy: int)
    requires 0 <= doy < YearLength(y)
    ensures var k := (y - 1) % 30;
            CycleStart(k) <= CycleStart(k) + doy < CycleStart(k + 1) && 0 <= CycleStart(k) + doy < 10631
  {
    LeapAgrees(y);
    EraFloors(y - 1);
    CycleLeaps((y - 1) % 30);
    CycleBounds((y - 1) % 30);
    CycleBounds((y - 1) % 30 + 1);
  }

  lemma CycleDayFinds(era: int, k: int, m: int, day: int)
    requires 0 <= k < 30 && 1 <= m <= 12 && 1 <= day <= 30
    requires 0 <= MonthStart(m) + day - 1 <= 354
    requires CycleStart(k) <= CycleStart(k) + (MonthStart(m) + day - 1) < CycleStart(k + 1)
    requires m < 12 ==> MonthStart(m) + day - 1 < MonthStart(m + 1)
    ensures FromCycleDay(era, CycleStart(k) + (MonthStart(m) + day - 1)) == Date(ToShort(era * 30 + k + 1), m, day)
  {
    YearOfCycle(CycleStart(k) + (MonthStart(m) + day - 1), k);
    MonthOfYear(MonthStart(m) + day - 1, m);
  }

  // from_days finds the year, month and day that a day number counts to; the year is then stored in a short.
  lemma FromDaysFinds(n: int, y: int, m: int, day: int)
    requires 1 <= m <= 12 && 1 <= day <= LastDay(y, m) && n == YearStart(y) + MonthStart(m) + day - 1
    ensures FromDays(n) == Date(ToShort(y), m, day)
  {
    hide IsLeap, LastDay, FromDays, FromCycleDay, CycleStart, MonthStart;
    var era, k, doy := (y - 1) / 30, (y - 1) % 30, MonthStart(m) + day - 1;
    DayOfYear(y, m, day);
    DayIsSmall(y, m, day);
    YearOfEra(y, doy);
    EraOf(n, era, CycleStart(k) + doy);
    CycleDayFinds(era, k, m, day);
  }

  lemma EraOf(n: int, era: int, doe: int)
    requires n + 492148 == era * 10631 + doe && 0 <= doe < 10631
    ensures FromDays(n) == FromCycleDay(era, doe)
  {
    hide FromCycleDay;
    EraFloors(n + 492148);
    assert (n + 492148) / 10631 == era;
  }

  lemma DayIsSmall(y: int, m: int, day: int)
    requires 1 <= m <= 12 && 1 <= day <= LastDay(y, m)
    ensures 1 <= day <= 30 && 0 <= MonthStart(m) + day - 1 <= 354
  {
    hide IsLeap;
  }

  // Every day number is the number of a calendar date, the year being any integer.
  lemma DateExists(n: int) returns (y: int, m: int, day: int)
    ensures 1 <= m <= 12 && 1 <= day <= LastDay(y, m) && n == YearStart(y) + MonthStart(m) + day - 1
  {
    var z := n + 492148;
    var era, doe := z / 10631, z % 10631;
    var k := YearExists(doe);
    y := era * 30 + k + 1;
    assert (y - 1) / 30 == era && (y - 1) % 30 == k;
    LeapAgrees(y);
    EraFloors(y - 1);
    CycleLeaps(k);
    var doy := doe - CycleStart(k);
    m := MonthExists(doy);
    day := doy - MonthStart(m) + 1;
  }

  // Every valid date survives the conversion to a day number and back.
  lemma DateRoundTrip(d: Date)
    requires Ok(d)
    ensures FromDays(ToDays(d)) == d
  {
    ToDaysCounts(d);
    FromDaysFinds(ToDays(d), d.year, d.month, d.day);
  }

  lemma {:induction false} YearStartIncreases(y: int, y': int)
    requires y <= y'
    ensures YearStart(y) + 354 * (y' - y) <= YearStart(y')
    decreases y' - y
  {
    if y < y' {
      LeapAgrees(y' - 1);
      YearStartIncreases(y, y' - 1);
    }
  }

  // The day numbers of the years a short can hold.
  const FIRST_DAY := -12104389
  const LAST_DAY := 11119384

  lemma YearFits(n: int, y: int, m: int, day: int)
    requires 1 <= m <= 12 && 1 <= day <= LastDay(y, m) && n == YearStart(y) + MonthStart(m) + day - 1
    ensures FIRST_DAY <= n <= LAST_DAY <==> -32768 <= y < 32768
  {
    LeapAgrees(y);
    EraFloors(y - 1);
    assert YearStart(y) <= n < YearStart(y + 1);
    assert YearStart(-32768) == FIRST_DAY && YearStart(32768) == LAST_DAY + 1;
    if y < -32768 {
      YearStartIncreases(y + 1, -32768);
    } else if y >= 32768 {
      YearStartIncreases(32768, y);
    } else {
      YearStartIncreases(-32768, y);
      YearStartIncreases(y + 1, 32768);
    }
  }

  // A day number survives the conversion to a date and back, the date being valid, exactly when its year fits
  // the short it is stored in; outside that range the year wraps around and the way back misses the day.
  lemma DayRoundTrip(n: int)
    ensures ToDays(FromDays(n)) == n && Ok(FromDays(n)) <==> FIRST_DAY <= n <= LAST_DAY
  {
    var y, m, day := DateExists(n);
    FromDaysFinds(n, y, m, day);
    YearFits(n, y, m, day);
    var d := FromDays(n);
    ToDaysCounts(d);
    if d.year < y {
      YearStartIncreases(d.year, y);
    } else if d.year > y {
      YearStartIncreases(y, d.year);
    }
  }

  // ---------------------------------------------------------------- order

  predicate Before(a: Date, b: Date) {
    a.year < b.year || (a.year == b.year && (a.month < b.month || (a.month == b.month && a.day < b.day)))
  }

  lemma MonthStartIncreases(m: int, m': int)
    requires 1 <= m < m' <= 12
    ensures MonthStart(m) + LastDay(0, m) <= MonthStart(m')
  {
  }

  // Day numbers are in date order.
  lemma ToDaysIncreases(a: Date, b: Date)
    requires Ok(a) && Ok(b)
    ensures ToDays(a) < ToDays(b) <==> Before(a, b)
  {
    ToDaysCounts(a);
    ToDaysCounts(b);
    if a.year < b.year {
      InYear(a, b);
    } else if b.year < a.year {
      InYear(b, a);
    } else if a.month != b.month {
      var (x, z) := if a.month < b.month then (a, b) else (b, a);
      assert x.day <= LastDay(0, x.month);
      MonthStartIncreases(x.month, z.month);
    }
  }

  lemma InYear(a: Date, b: Date)
    requires Ok(a) && Ok(b) && a.year < b.year
    ensures YearStart(a.year) + MonthStart(a.month) + a.day - 1 < YearStart(b.year)
  {
    LeapAgrees(a.year);
    YearStartIncreases(a.year + 1, b.year);
  }

  // The next calendar day.
  function NextDay(d: Date): Date
    requires Ok(d)
  {
    if d.day < LastDay(d.year, d.month) then d.(day := d.day + 1)
    else if d.month < 12 then Date(d.year, d.month + 1, 1)
    else Date(d.year + 1, 1, 1)
  }

  // Day numbers advance by one per calendar day, across months, leap years and cycles.
  lemma ToDaysSteps(d: Date)
    requires Ok(d) && Stored(NextDay(d))
    ensures Ok(NextDay(d)) && ToDays(NextDay(d)) == ToDays(d) + 1
  {
    hide IsLeap, ToDays;
    LeapAgrees(d.year);
    DayIsSmall(d.year, d.month, d.day);
    DayOfYear(d.year, d.month, d.day);
    ToDaysCounts(d);
    ToDaysCounts(NextDay(d));
  }

  // Only the last day of the greatest year has no next day.
  lemma NextDayFits(d: Date)
    requires Ok(d) && ToDays(d) < LAST_DAY
    ensures Stored(NextDay(d))
  {
    ToDaysCounts(d);
    LeapAgrees(d.year);
    DayOfYear(d.year, d.month, d.day);
    assert YearStart(32768) == LAST_DAY + 1;
  }

  // The date k days later, turning the pages of the calendar one by one.
  function Walk(d: Date, k: nat): Date {
    if k == 0 then d
    else
      var before := Walk(d, k - 1);
      if Ok(before) then NextDay(before) else before
  }

  // The closed forms agree with the walk: k days on from any date both name the same date.
  lemma {:induction false} WalkAgrees(d: Date, k: nat)
    requires Ok(d) && ToDays(d) + k <= LAST_DAY
    ensures Ok(Walk(d, k)) && ToDays(Walk(d, k)) == ToDays(d) + k && FromDays(ToDays(d) + k) == Walk(d, k)
  {
    hide Ok, ToDays, FromDays;
    if k > 0 {
      WalkAgrees(d, k - 1);
      NextDayFits(Walk(d, k - 1));
      ToDaysSteps(Walk(d, k - 1));
    }
    DateRoundTrip(Walk(d, k));
  }

  // year_month_weekday: the index-th such weekday of a month (weekday and index are four bits wide).
  datatype MonthWeekday = MonthWeekday(year: int, month: int, weekday: int, index: int)

  predicate StoredWeekday(d: MonthWeekday) {
    -32768 <= d.year < 32768 && 0 <= d.month < 256 && 0 <= d.weekday < 16 && 0 <= d.index < 16
  }

  function WeekdayToDays(d: MonthWeekday): int {
    var first := ToDays(Date(d.year, d.month, 1));
    first + WeekdayMinus(d.weekday, WeekdayFromDays(first)) + ToInt(ToUnsigned(ToUnsigned(d.index - 1) * 7))
  }

  function WeekdayFromDayNumber(n: int): MonthWeekday {
    var ymd := FromDays(n);
    MonthWeekday(ymd.year, ymd.month, WeekdayFromDays(n), ((ymd.day - 1) / 7 + 1) % 16)
  }

  predicate WeekdayOk(d: MonthWeekday) {
    && StoredWeekday(d) && 1 <= d.month <= 12 && d.weekday <= 6 && d.index >= 1
    && (d.index <= 4 ||
        WeekdayMinus(d.weekday, WeekdayFromDays(ToDays(Date(d.year, d.month, 1)))) + (d.index - 1) * 7 + 1 <= LastDay(d.year, d.month))
  }

  lemma FirstOfMonth(y: int, m: int)
    requires -32768 <= y < 32768 && 1 <= m <= 12
    ensures ToDays(Date(y, m, 1)) == YearStart(y) + MonthStart(m)
    ensures 29 <= LastDay(y, m) <= 30 && Ok(Date(y, m, 1))
  {
    hide IsLeap, ToDays;
    ToDaysCounts(Date(y, m, 1));
  }

  // The k-th day after the first of a month is in that month exactly when the month is that long.
  lemma InMonth(y: int, m: int, k: int)
    requires -32768 <= y < 32768 && 1 <= m <= 12 && -7 <= k < 120
    ensures var d := FromDays(ToDays(Date(y, m, 1)) + k);
            d.year == y && d.month == m <==> 0 <= k < LastDay(y, m)
  {
    hide IsLeap, ToDays, FromDays, LastDay;
    FirstOfMonth(y, m);
    var n := YearStart(y) + MonthStart(m) + k;
    if 0 <= k < LastDay(y, m) {
      FromDaysFinds(n, y, m, k + 1);
    } else {
      var y', m', day' := DateExists(n);
      FromDaysFinds(n, y', m', day');
      NotSameMonth(y, m, k, y', m', day');
    }
  }

  lemma NotSameMonth(y: int, m: int, k: int, y': int, m': int, day': int)
    requires -32768 <= y < 32768 && 1 <= m <= 12 && -7 <= k < 120 && !(0 <= k < LastDay(y, m))
    requires 1 <= m' <= 12 && 1 <= day' <= LastDay(y', m')
    requires YearStart(y) + MonthStart(m) + k == YearStart(y') + MonthStart(m') + day' - 1
    ensures !(ToShort(y') == y && m' == m)
  {
    hide IsLeap, YearStart, LastDay, MonthStart;
    DayIsSmall(y', m', day');
    if y' < y { YearStartIncreases(y', y); }
    if y' > y { YearStartIncreases(y, y'); }
    MonthBounds(m);
    MonthBounds(m');
    assert -2 <= y' - y <= 2;
  }

  lemma MonthBounds(m: int)
    requires 1 <= m <= 12
    ensures 0 <= MonthStart(m) <= 325
  {
  }

  // The weekday of a later day of the month gives back how many days after the first week's one it is.
  lemma WeekOfMonth(first: int, j: int)
    requires 0 <= j
    ensures WeekdayMinus(WeekdayFromDays(first + j), WeekdayFromDays(first)) + j / 7 * 7 == j
    ensures 0 <= WeekdayFromDays(first + j) <= 6
  {
    hide WeekdayMinus, WeekdayFromDays;
    WeekdayCycles(first);
    WeekdayCycles(first + j);
    var w, q := (first + 4) % 7, (first + 4) / 7;
    var w' := (first + j + 4) % 7;
    WeekdayMinusCycles(w', w);
    if w + j % 7 < 7 { Mod7(first + j + 4, q + j / 7, w + j % 7); }
    else { Mod7(first + j + 4, q + j / 7 + 1, w + j % 7 - 7); }
  }

  // The weeks before the index-th one, in unsigned arithmetic; index 0 comes out as the week before the first.
  lemma WeeksBefore(index: int)
    requires 0 <= index < 16
    ensures ToInt(ToUnsigned(ToUnsigned(index - 1) * 7)) == (index - 1) * 7
  {
  }

  lemma IndexOfDay(day: int)
    requires 1 <= day <= 30
    ensures var index := ((day - 1) / 7 + 1) % 16;
            1 <= index <= 5 && (index - 1) * 7 == (day - 1) / 7 * 7 && (index == 5 ==> day >= 29)
  {
  }

  lemma WeekdayToDaysIs(d: MonthWeekday)
    requires 0 <= d.index < 16
    ensures var first := ToDays(Date(d.year, d.month, 1));
            WeekdayToDays(d) == first + WeekdayMinus(d.weekday, WeekdayFromDays(first)) + (d.index - 1) * 7
  {
    hide ToDays, WeekdayMinus, WeekdayFromDays, ToInt, ToUnsigned;
    WeeksBefore(d.index);
  }

  // A day converted to its month, weekday and index is a valid triple and converts back to the same day.
  lemma WeekdayRoundTrip(n: int)
    requires FIRST_DAY <= n <= LAST_DAY
    ensures WeekdayOk(WeekdayFromDayNumber(n)) && WeekdayToDays(WeekdayFromDayNumber(n)) == n
  {
    hide IsLeap, ToDays, FromDays, LastDay, WeekdayFromDays, WeekdayMinus, WeekdayToDays, MonthStart, YearStart, ToInt,
      ToUnsigned;
    DayRoundTrip(n);
    var d := FromDays(n);
    var first := ToDays(Date(d.year, d.month, 1));
    DayOfMonth(d);
    WeekOfMonth(first, d.day - 1);
    IndexOfDay(d.day);
    WeekdayToDaysIs(WeekdayFromDayNumber(n));
  }

  lemma DayOfMonth(d: Date)
    requires Ok(d)
    ensures ToDays(d) == ToDays(Date(d.year, d.month, 1)) + d.day - 1 && 1 <= d.day <= 30
  {
    hide IsLeap, ToDays;
    ToDaysCounts(d);
    FirstOfMonth(d.year, d.month);
  }

  // A month, weekday and index, whatever the index, are ok exactly when the day they denote lies in that month.
  lemma WeekdayOkExactly(d: MonthWeekday)
    requires StoredWeekday(d) && 1 <= d.month <= 12 && d.weekday <= 6
    ensures var ymd := FromDays(WeekdayToDays(d));
            WeekdayOk(d) <==> ymd.year == d.year && ymd.month == d.month
  {
    hide IsLeap, ToDays, FromDays, LastDay, WeekdayFromDays, WeekdayMinus, WeekdayToDays, MonthStart, YearStart, ToInt,
      ToUnsigned;
    var first := ToDays(Date(d.year, d.month, 1));
    FirstOfMonth(d.year, d.month);
    NextWeekday(first, d.weekday);
    WeekdayToDaysIs(d);
    InMonth(d.year, d.month, WeekdayMinus(d.weekday, WeekdayFromDays(first)) + (d.index - 1) * 7);
  }

  // year_month_weekday_last::to_days.
  function LastWeekdayToDays(y: int, m: int, wd: int): int
    requires 1 <= m <= 12
  {
    var n := ToDays(Date(y, m, LastDay(y, m)));
    n - WeekdayMinus(WeekdayFromDays(n), wd)
  }

  // The last such weekday of a month: in the month, of that weekday, and no later day is both.
  lemma LastWeekdayIsLatest(y: int, m: int, wd: int)
    requires -32768 <= y < 32768 && 1 <= m <= 12 && 0 <= wd <= 6
    ensures var n := LastWeekdayToDays(y, m, wd);
            && FromDays(n).year == y && FromDays(n).month == m && WeekdayFromDays(n) == wd
            && (forall d: Date | Ok(d) && d.year == y && d.month == m && WeekdayFromDays(ToDays(d)) == wd :: ToDays(d) <= n)
  {
    hide IsLeap, ToDays, FromDays, LastDay, WeekdayMinus, WeekdayFromDays;
    var last := Date(y, m, LastDay(y, m));
    FirstOfMonth(y, m);
    ToDaysCounts(last);
    var n := LastWeekdayToDays(y, m, wd);
    LastWeekday(ToDays(last), wd);
    InMonth(y, m, n - ToDays(Date(y, m, 1)));
    forall d: Date | Ok(d) && d.year == y && d.month == m && WeekdayFromDays(ToDays(d)) == wd ensures ToDays(d) <= n {
      DayIsSmall(y, m, d.day);
      ToDaysCounts(d);
      if n < ToDays(d) { SameWeekday(n, ToDays(d)); }
    }
  }

  // ---------------------------------------------------------------- adding months

  // year_month + months.
  function AddMonths(y: int, m: int, dm: int): (int, int) {
    var dmi := m - 1 + dm;
    var dy := TruncDiv(if dmi >= 0 then dmi else dmi - 11, 12);
    (ToShort(y + dy), ToByte(dmi - dy * 12 + 1))
  }

  lemma AddMonthsCounts(y: int, m: int, dm: int)
    ensures AddMonths(y, m, dm) == (ToShort(y + (m - 1 + dm) / 12), (m - 1 + dm) % 12 + 1)
  {
  }

  lemma ShortsAgree(x: int, y: int)
    requires (x - y) % 65536 == 0
    ensures ToShort(x) == ToShort(y)
  {
  }

  lemma Twelfths(x: int, r: int, q: int)
    requires x == 12 * q + r
    ensures x / 12 == q + r / 12 && x % 12 == r % 12
  {
  }

  // Adding months in two steps is adding them at once, forwards and backwards, even where years wrap around.
  lemma AddMonthsComposes(y: int, m: int, a: int, b: int)
    requires -32768 <= y < 32768 && 1 <= m <= 12
    ensures var (y', m') := AddMonths(y, m, a); AddMonths(y', m', b) == AddMonths(y, m, a + b)
    ensures AddMonths(y, m, 0) == (y, m)
  {
    hide AddMonths, ToShort;
    AddMonthsCounts(y, m, 0);
    AddMonthsCounts(y, m, a);
    AddMonthsCounts(y, m, a + b);
    var (y', m') := AddMonths(y, m, a);
    AddMonthsCounts(y', m', b);
    var q := (m - 1 + a) / 12;
    assert m - 1 + a == 12 * q + (m' - 1);
    Twelfths(m - 1 + a + b, m' - 1 + b, q);
    ShortsAgree(y' + (m' - 1 + b) / 12, y + q + (m' - 1 + b) / 12);
  }
}
