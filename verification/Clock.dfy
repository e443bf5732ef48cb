/** Instants, the China clock and calendar dates. */
module Clock {

  /** Microseconds since the start of 1970, UTC. */
  type Time = int

  const SECOND: Time := 1_000_000
  const DAY: Time := 86400 * SECOND
  const CHINA_OFFSET: Time := 8 * 3600 * SECOND

  /** Local clock of an instant, in whole seconds of the China day; microseconds are not looked at. */
  function LocalSecond(t: Time): int { ((t + CHINA_OFFSET) % DAY) / SECOND }

  /** The China day of an instant, counted from the first day of 1970. */
  function LocalDate(t: Time): int { (t + CHINA_OFFSET) / DAY }

  /** A date as the number yyyymmdd. */
  type Date = int

  function YearMonth(d: Date): int { d / 100 }

  predicate Leap(year: int) { year % 4 == 0 && (year % 100 != 0 || year % 400 == 0) }

  function MonthLength(year: int, month: int): int {
    if month == 2 then (if Leap(year) then 29 else 28)
    else if month == 4 || month == 6 || month == 9 || month == 11 then 30
    else 31
  }

  function Tomorrow(d: Date): Date {
    var year, month, day := d / 10000, d / 100 % 100, d % 100;
    if day < MonthLength(year, month) then d + 1
    else if month < 12 then year * 10000 + (month + 1) * 100 + 1
    else (year + 1) * 10000 + 101
  }

  function Yesterday(d: Date): Date {
    var year, month, day := d / 10000, d / 100 % 100, d % 100;
    if day > 1 then d - 1
    else if month > 1 then year * 10000 + (month - 1) * 100 + MonthLength(year, month - 1)
    else (year - 1) * 10000 + 1231
  }

  /** The Gregorian date of a day counted from the first day of 1970. */
  function CivilDate(day: int): Date
    decreases if day < 0 then -day else day
  {
    if day == 0 then 19700101
    else if day > 0 then Tomorrow(CivilDate(day - 1))
    else Yesterday(CivilDate(day + 1))
  }

  /** A month from one to twelve and a day that month has. */
  predicate IsDate(d: Date) {
    var year, month, day := d / 10000, d / 100 % 100, d % 100;
    1 <= month <= 12 && 1 <= day <= MonthLength(year, month)
  }

  lemma Parts(year: int, month: int, day: int)
    requires 0 <= month <= 99 && 0 <= day <= 99
    ensures var d := year * 10000 + month * 100 + day;
      d / 10000 == year && d / 100 % 100 == month && d % 100 == day
  {
    var d := year * 10000 + month * 100 + day;
    assert d / 100 == year * 100 + month;
  }

  /** The day after a date is a later date, and the day before that is the date itself. */
  lemma TomorrowAndBack(d: Date)
    requires IsDate(d)
    ensures IsDate(Tomorrow(d)) && Tomorrow(d) > d && Yesterday(Tomorrow(d)) == d
  {
    var year, month, day := d / 10000, d / 100 % 100, d % 100;
    assert d == year * 10000 + month * 100 + day;
    if day < MonthLength(year, month) {
      Parts(year, month, day + 1);
    } else if month < 12 {
      Parts(year, month + 1, 1);
    } else {
      Parts(year + 1, 1, 1);
    }
  }

  /** February has a twenty-ninth in the years divisible by four, of the centuries only in those divisible by 400. */
  lemma LeapDay(year: int)
    ensures Tomorrow(year * 10000 + 228) == year * 10000 + 229 <==> year % 400 == 0 || (year % 4 == 0 && year % 100 != 0)
    ensures Tomorrow(year * 10000 + 228) == year * 10000 + 229 || Tomorrow(year * 10000 + 228) == year * 10000 + 301
  {
    Parts(year, 2, 28);
  }

  /** Later days have later dates, so a date belongs to one day. */
  lemma {:induction false} CivilIncreases(a: int, b: int)
    requires a < b
    ensures CivilDate(a) < CivilDate(b)
    decreases b - a
  {
    if a < b - 1 {
      CivilIncreases(a, b - 1);
    }
    OneDayLater(b - 1);
  }

  lemma OneDayLater(day: int)
    ensures CivilDate(day) < CivilDate(day + 1)
  {
    hide Tomorrow, Yesterday;
    if day >= 0 {
      TomorrowIsLater(CivilDate(day));
    } else {
      YesterdayIsEarlier(CivilDate(day + 1));
    }
  }

  lemma TomorrowIsLater(d: Date)
    ensures Tomorrow(d) > d
  {
    var year, month, day := d / 10000, d / 100 % 100, d % 100;
    assert d == year * 10000 + month * 100 + day && 0 <= day <= 99;
  }

  lemma YesterdayIsEarlier(d: Date)
    ensures Yesterday(d) < d
  {
    var year, month, day := d / 10000, d / 100 % 100, d % 100;
    assert d == year * 10000 + month * 100 + day && 0 <= day <= 99;
    MonthLengths(year, month - 1);
  }

  lemma MonthLengths(year: int, month: int)
    ensures 28 <= MonthLength(year, month) <= 31
  {}
}
