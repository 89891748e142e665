// The machine's integers, and the weekday of a day number, which both calendars share.
module Weekdays {
  // ---------------------------------------------------------------- the machine's integers

  // C++ division, which truncates toward zero; Dafny's own operator floors for positive divisors.
  function TruncDiv(a: int, b: int): int
    requires b > 0
  {
    if a >= 0 then a / b else -((-a) / b)
  }

  // Storing into a short, an unsigned char, and an unsigned.
  function ToShort(x: int): (r: int)
    ensures -32768 <= r < 32768 && (x - r) % 65536 == 0
    ensures -32768 <= x < 32768 ==> r == x
  {
    (x + 32768) % 65536 - 32768
  }

  function ToByte(x: int): (r: int)
    ensures 0 <= r < 256 && (0 <= x < 256 ==> r == x)
  {
    x % 256
  }

  function ToUnsigned(x: int): (r: int)
    ensures 0 <= r < 0x1_0000_0000 && (0 <= x < 0x1_0000_0000 ==> r == x)
  {
    x % 0x1_0000_0000
  }

  function ToInt(x: int): (r: int)
    ensures -0x8000_0000 <= x < 0x8000_0000 ==> r == x
  {
    (x + 0x8000_0000) % 0x1_0000_0000 - 0x8000_0000
  }

  predicate FitsInt(x: int) {
    -0x8000_0000 <= x < 0x8000_0000
  }

  // ---------------------------------------------------------------- weekdays

  // 0 is Sunday, the first day of the week.
  function WeekdayFromDays(z: int): int {
    ToByte(ToUnsigned(if z >= -4 then z + 4 - TruncDiv(z + 4, 7) * 7 else z + 5 - TruncDiv(z + 5, 7) * 7 + 6))
  }

  // The difference of weekdays counts forward from the second one.
  function WeekdayMinus(x: int, y: int): int {
    var diff := ToUnsigned(x - y);
    if diff <= 6 then diff else ToUnsigned(diff + 7)
  }

  lemma WeekdayCycles(z: int)
    ensures WeekdayFromDays(z) == (z + 4) % 7
  {
    if z < -4 { assert z + 5 - TruncDiv(z + 5, 7) * 7 + 6 == (z + 4) % 7; }
  }

  lemma WeekdayMinusCycles(x: int, y: int)
    requires 0 <= x <= 6 && 0 <= y <= 6
    ensures WeekdayMinus(x, y) == (x - y) % 7
  {
  }

  lemma Mod7(x: int, q: int, r: int)
    requires x == 7 * q + r && 0 <= r < 7
    ensures x % 7 == r
  {
  }

  // Going on from a day by the difference to a weekday reaches the next day with that weekday; going back, the last.
  lemma NextWeekday(z: int, wd: int)
    requires 0 <= wd <= 6
    ensures var k := WeekdayMinus(wd, WeekdayFromDays(z)); 0 <= k <= 6 && WeekdayFromDays(z + k) == wd
  {
    hide WeekdayMinus, WeekdayFromDays;
    WeekdayCycles(z);
    var w, q := (z + 4) % 7, (z + 4) / 7;
    WeekdayMinusCycles(wd, w);
    var k := WeekdayMinus(wd, w);
    WeekdayCycles(z + k);
    Mod7(z + k + 4, if wd >= w then q else q + 1, wd);
  }

  lemma LastWeekday(z: int, wd: int)
    requires 0 <= wd <= 6
    ensures var k := WeekdayMinus(WeekdayFromDays(z), wd); 0 <= k <= 6 && WeekdayFromDays(z - k) == wd
  {
    hide WeekdayMinus, WeekdayFromDays;
    WeekdayCycles(z);
    var w, q := (z + 4) % 7, (z + 4) / 7;
    WeekdayMinusCycles(w, wd);
    var k := WeekdayMinus(w, wd);
    WeekdayCycles(z - k);
    Mod7(z - k + 4, if w >= wd then q else q - 1, wd);
  }

  // Days of one weekday are whole weeks apart.
  lemma SameWeekday(z: int, z': int)
    requires WeekdayFromDays(z) == WeekdayFromDays(z') && z < z'
    ensures z + 7 <= z'
  {
    hide WeekdayFromDays;
    WeekdayCycles(z);
    WeekdayCycles(z');
  }
}
