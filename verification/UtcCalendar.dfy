/** The proleptic Gregorian calendar behind `Date` (section 21.4.1 of ECMA-262), counted in days from 1970-01-01. */
module UtcCalendar {

  const MS_PER_DAY := 86_400_000

  predicate IsLeap(y: int) {
    y % 4 == 0 && (y % 100 != 0 || y % 400 == 0)
  }

  function DaysInYear(y: int): int {
    if IsLeap(y) then 366 else 365
  }

  /** Day number of the first day of year `y`. */
  function DayFromYear(y: int): int {
    365 * (y - 1970) + (y - 1969) / 4 - (y - 1901) / 100 + (y - 1601) / 400
  }

  /** Days of a year before month `m`, counting months from 0. */
  function DaysBefore(m: int, leap: bool): int
    requires 0 <= m <= 12
  {
    var extra := if leap && m >= 2 then 1 else 0;
    extra + if m == 0 then 0 else if m == 1 then 31 else if m == 2 then 59 else if m == 3 then 90
    else if m == 4 then 120 else if m == 5 then 151 else if m == 6 then 181 else if m == 7 then 212
    else if m == 8 then 243 else if m == 9 then 273 else if m == 10 then 304 else if m == 11 then 334 else 365
  }

  function DaysInMonth(y: int, m: int): int
    requires 0 <= m < 12
  {
    DaysBefore(m + 1, IsLeap(y)) - DaysBefore(m, IsLeap(y))
  }

  /** A calendar day; `month` counts from 0, `day` from 1. */
  datatype Civil = Civil(year: int, month: int, day: int)

  predicate IsReal(c: Civil) {
    0 <= c.month < 12 && 1 <= c.day <= DaysInMonth(c.year, c.month)
  }

  /** `MakeDay`; a day beyond the month runs over into the next one. */
  function MakeDay(c: Civil): int
    requires 0 <= c.month < 12
  {
    DayFromYear(c.year) + DaysBefore(c.month, IsLeap(c.year)) + c.day - 1
  }

  // ---------------------------------------------------------------- years

  lemma FourthYears(y: int)
    ensures (y - 1968) / 4 - (y - 1969) / 4 == if y % 4 == 0 then 1 else 0
  {
  }

  lemma Centuries(y: int)
    ensures (y - 1900) / 100 - (y - 1901) / 100 == if y % 100 == 0 then 1 else 0
  {
  }

  lemma FourthCenturies(y: int)
    ensures (y - 1600) / 400 - (y - 1601) / 400 == if y % 400 == 0 then 1 else 0
  {
  }

  lemma FourHundredth(y: int)
    requires y % 400 == 0
    ensures y % 100 == 0
  {
    assert y == 100 * (4 * (y / 400));
  }

  lemma Hundredth(y: int)
    requires y % 100 == 0
    ensures y % 4 == 0
  {
    assert y == 4 * (25 * (y / 100));
  }

  lemma YearLength(y: int)
    ensures DayFromYear(y + 1) - DayFromYear(y) == DaysInYear(y)
  {
    FourthYears(y);
    Centuries(y);
    FourthCenturies(y);
    if y % 100 == 0 {
      Hundredth(y);
    }
    if y % 400 == 0 {
      FourHundredth(y);
    }
  }

  lemma {:induction false} YearsGrow(y: int, z: int)
    requires y <= z
    ensures DayFromYear(y) + 365 * (z - y) <= DayFromYear(z)
    decreases z - y
  {
    if y < z {
      YearLength(y);
      YearsGrow(y + 1, z);
    }
  }

  lemma {:induction false} YearAbove(t: int, y: int) returns (z: int)
    requires DayFromYear(y) <= t
    ensures DayFromYear(z) <= t < DayFromYear(z + 1)
    decreases t - DayFromYear(y)
  {
    YearLength(y);
    if t < DayFromYear(y + 1) {
      z := y;
    } else {
      z := YearAbove(t, y + 1);
    }
  }

  lemma {:induction false} YearContaining(t: int, y: int) returns (z: int)
    ensures DayFromYear(z) <= t < DayFromYear(z + 1)
    decreases DayFromYear(y) - t
  {
    if DayFromYear(y) <= t {
      z := YearAbove(t, y);
    } else {
      YearLength(y - 1);
      z := YearContaining(t, y - 1);
    }
  }

  lemma YearIsUnique(t: int, y: int, z: int)
    requires DayFromYear(y) <= t < DayFromYear(y + 1) && DayFromYear(z) <= t < DayFromYear(z + 1)
    ensures y == z
  {
  }

  lemma YearExists(t: int)
    ensures exists y :: DayFromYear(y) <= t < DayFromYear(y + 1)
  {
    var y := YearContaining(t, 1970);
  }

  /** `YearFromTime`: the largest year that has begun. */
  ghost function YearOf(t: int): (y: int)
    ensures DayFromYear(y) <= t < DayFromYear(y + 1)
  {
    YearExists(t);
    var y :| DayFromYear(y) <= t < DayFromYear(y + 1);
    y
  }

  /** `MonthFromTime`, for day `d` of a year (from 0). */
  function MonthOf(d: int, leap: bool): (m: int)
    requires 0 <= d < (if leap then 366 else 365)
    ensures 0 <= m < 12 && DaysBefore(m, leap) <= d < DaysBefore(m + 1, leap)
  {
    if d < 31 then 0
    else if d < DaysBefore(2, leap) then 1 else if d < DaysBefore(3, leap) then 2
    else if d < DaysBefore(4, leap) then 3 else if d < DaysBefore(5, leap) then 4
    else if d < DaysBefore(6, leap) then 5 else if d < DaysBefore(7, leap) then 6
    else if d < DaysBefore(8, leap) then 7 else if d < DaysBefore(9, leap) then 8
    else if d < DaysBefore(10, leap) then 9 else if d < DaysBefore(11, leap) then 10 else 11
  }

  /** The calendar day the UTC getters report for day number `t`. */
  ghost function CivilOf(t: int): (c: Civil)
    ensures 0 <= c.month < 12
  {
    var y := YearOf(t);
    YearLength(y);
    var d := t - DayFromYear(y);
    var m := MonthOf(d, IsLeap(y));
    Civil(y, m, d - DaysBefore(m, IsLeap(y)) + 1)
  }

  // ---------------------------------------------------------------- the calendar is a bijection

  lemma CivilIsReal(t: int)
    ensures IsReal(CivilOf(t)) && MakeDay(CivilOf(t)) == t
  {
  }

  lemma MonthIsUnique(d: int, leap: bool, m: int)
    requires 0 <= m < 12 && DaysBefore(m, leap) <= d < DaysBefore(m + 1, leap)
    ensures 0 <= d < (if leap then 366 else 365) && MonthOf(d, leap) == m
  {
  }

  lemma RealDayReadsBack(c: Civil)
    requires IsReal(c)
    ensures CivilOf(MakeDay(c)) == c
  {
    var t := MakeDay(c);
    var leap := IsLeap(c.year);
    YearLength(c.year);
    MonthIsUnique(DaysBefore(c.month, leap) + c.day - 1, leap, c.month);
    assert DayFromYear(c.year) <= t < DayFromYear(c.year + 1);
    YearIsUnique(t, c.year, YearOf(t));
  }

  // ---------------------------------------------------------------- Date.UTC

  /** `Date.UTC`, in days: years 0 to 99 mean 1900 to 1999. */
  function UtcDay(c: Civil): int
    requires 0 <= c.month < 12
  {
    MakeDay(if 0 <= c.year <= 99 then c.(year := c.year + 1900) else c)
  }

  lemma DaysBeforeGrows(m: int, leap: bool)
    requires 0 <= m <= 12
    ensures 0 <= DaysBefore(m, leap)
  {
  }

  /** The getters give back what `Date.UTC` was given exactly for real days outside the years 0 to 99. */
  lemma UtcReadsBack(c: Civil)
    requires 0 <= c.month < 12 && 1 <= c.day
    ensures CivilOf(UtcDay(c)) == c <==> IsReal(c) && !(0 <= c.year <= 99)
  {
    if 0 <= c.year <= 99 {
      var t := UtcDay(c);
      DaysBeforeGrows(c.month, IsLeap(c.year + 1900));
      YearsGrow(1900, c.year + 1900);
      if YearOf(t) <= 99 {
        YearsGrow(YearOf(t) + 1, 1900);
      }
    } else {
      CivilIsReal(UtcDay(c));
      if IsReal(c) {
        RealDayReadsBack(c);
      }
    }
  }

  /** `startOfUtcDay` of a time in milliseconds. */
  ghost function StartOfUtcDay(time: int): int {
    UtcDay(CivilOf(time / MS_PER_DAY)) * MS_PER_DAY
  }

  /** It is the start of that day, except in the first hundred years of the calendar. */
  lemma StartOfUtcDayIsMidnight(time: int)
    ensures StartOfUtcDay(time) == time / MS_PER_DAY * MS_PER_DAY <==> !(0 <= YearOf(time / MS_PER_DAY) <= 99)
  {
  }

  /** `Math.round` of a non-negative quotient. */
  function RoundDiv(a: int, b: int): int
    requires a >= 0 && b > 0
  {
    (2 * a + b) / (2 * b)
  }

  function Abs(x: int): int {
    if x < 0 then -x else x
  }

  ghost function UtcCalendarDayDistance(left: int, right: int): int {
    RoundDiv(Abs(StartOfUtcDay(left) - StartOfUtcDay(right)), MS_PER_DAY)
  }

  lemma RoundExact(n: int)
    requires n >= 0
    ensures RoundDiv(n * MS_PER_DAY, MS_PER_DAY) == n
  {
  }

  /** By how many days `Date.UTC` moves a date: those of the years 0 to 99 land 1900 years later. */
  function Shift(c: Civil): int {
    if !(0 <= c.year <= 99) then 0 else if c.year == 0 && c.month < 2 then 693_961 else 693_960
  }

  lemma LaterDays(y: int)
    requires 0 <= y <= 99
    ensures (y - 69) / 4 == (y - 1969) / 4 + 475 && (y - 1) / 100 == (y - 1901) / 100 + 19
    ensures (y + 299) / 400 == (y - 1601) / 400 + if y == 0 then 5 else 4
  {
  }

  lemma LaterLeaps(y: int)
    requires 0 <= y <= 99
    ensures IsLeap(y + 1900) <==> IsLeap(y) && y != 0
  {
  }

  lemma LaterCentury(y: int)
    requires 0 <= y <= 99
    ensures DayFromYear(y + 1900) == DayFromYear(y) + if y == 0 then 693_961 else 693_960
    ensures IsLeap(y + 1900) <==> IsLeap(y) && y != 0
  {
    LaterDays(y);
    LaterLeaps(y);
  }

  lemma UtcDayShifts(c: Civil)
    requires 0 <= c.month < 12
    ensures UtcDay(c) == MakeDay(c) + Shift(c)
  {
    if 0 <= c.year <= 99 {
      LaterCentury(c.year);
    }
  }

  /** `startOfUtcDay` of any time: the midnight before it, moved if its year is one of 0 to 99. */
  lemma StartOfUtcDayShifts(time: int)
    ensures var t := time / MS_PER_DAY; StartOfUtcDay(time) == (t + Shift(CivilOf(t))) * MS_PER_DAY
  {
    CivilIsReal(time / MS_PER_DAY);
    UtcDayShifts(CivilOf(time / MS_PER_DAY));
  }

  lemma DistanceOfStarts(left: int, right: int, a: int, b: int)
    requires StartOfUtcDay(left) == a * MS_PER_DAY && StartOfUtcDay(right) == b * MS_PER_DAY
    ensures UtcCalendarDayDistance(left, right) == Abs(a - b)
  {
    var apart := StartOfUtcDay(left) - StartOfUtcDay(right);
    assert apart == (a - b) * MS_PER_DAY;
    RoundExact(Abs(a - b));
  }

  /** Two moved days are as far apart as before exactly when they moved alike or swapped sides. */
  lemma MovedDays(l: int, r: int, s: int, t: int)
    ensures Abs((l + s) - (r + t)) == Abs(l - r) <==> s == t || t - s == 2 * (l - r)
  {
  }

  lemma DistanceInDays(left: int, right: int)
    ensures var l, r := left / MS_PER_DAY, right / MS_PER_DAY;
            UtcCalendarDayDistance(left, right) == Abs((l + Shift(CivilOf(l))) - (r + Shift(CivilOf(r))))
  {
    StartOfUtcDayShifts(left);
    StartOfUtcDayShifts(right);
    var l, r := left / MS_PER_DAY, right / MS_PER_DAY;
    DistanceOfStarts(left, right, l + Shift(CivilOf(l)), r + Shift(CivilOf(r)));
  }

  /**
   * The distance is the number of calendar days between the two dates exactly when both dates are
   * moved alike (not at all, say), or the one that is moved further lands just as far on the other side.
   */
  lemma DistanceCountsDays(left: int, right: int)
    ensures var l, r := left / MS_PER_DAY, right / MS_PER_DAY;
            var s, t := Shift(CivilOf(l)), Shift(CivilOf(r));
            && UtcCalendarDayDistance(left, right) == Abs((l + s) - (r + t))
            && (UtcCalendarDayDistance(left, right) == Abs(l - r) <==> s == t || t - s == 2 * (l - r))
  {
    var l, r := left / MS_PER_DAY, right / MS_PER_DAY;
    DistanceInDays(left, right);
    MovedDays(l, r, Shift(CivilOf(l)), Shift(CivilOf(r)));
  }

  lemma SameDate(s: int, t: int)
    ensures CivilOf(s) == CivilOf(t) <==> s == t
  {
    CivilIsReal(s);
    CivilIsReal(t);
  }

  /** Outside the years 0 to 99, the distance is zero exactly for times of the same date. */
  lemma ZeroDistance(left: int, right: int)
    requires !(0 <= YearOf(left / MS_PER_DAY) <= 99) && !(0 <= YearOf(right / MS_PER_DAY) <= 99)
    ensures UtcCalendarDayDistance(left, right) == Abs(left / MS_PER_DAY - right / MS_PER_DAY)
    ensures UtcCalendarDayDistance(left, right) == 0 <==> CivilOf(left / MS_PER_DAY) == CivilOf(right / MS_PER_DAY)
  {
    DistanceInDays(left, right);
    SameDate(left / MS_PER_DAY, right / MS_PER_DAY);
  }

  // ---------------------------------------------------------------- the calendar, told in numbers

  /** Day `d` of month `m`, counted from 1, is in the Gregorian calendar of year `y`. */
  predicate IsGregorianDay(y: int, m: int, d: int) {
    1 <= m <= 12 && 1 <= d <=
    if m == 4 || m == 6 || m == 9 || m == 11 then 30
    else if m != 2 then 31
    else if (y % 4 == 0 && y % 100 != 0) || y % 400 == 0 then 29
    else 28
  }

  lemma RealIsGregorian(y: int, m: int, d: int)
    ensures IsReal(Civil(y, m - 1, d)) <==> IsGregorianDay(y, m, d)
  {
  }

  /** April, June, September and November have 30 days in every year, February 28 or 29, all others 31. */
  lemma LengthsOfMonths(y: int)
    ensures DaysInMonth(y, 3) == 30 && DaysInMonth(y, 5) == 30 && DaysInMonth(y, 8) == 30 && DaysInMonth(y, 10) == 30
    ensures DaysInMonth(y, 1) == if (y % 4 == 0 && y % 100 != 0) || y % 400 == 0 then 29 else 28
    ensures forall m | m in {0, 2, 4, 6, 7, 9, 11} :: DaysInMonth(y, m) == 31
  {
  }

  /** Days are counted from the first of January 1970. */
  lemma Epoch()
    ensures MakeDay(Civil(1970, 0, 1)) == 0 && MakeDay(Civil(2000, 1, 29)) == 11_016
    ensures UtcDay(Civil(70, 0, 1)) == 0 && UtcDay(Civil(1970, 0, 1)) == 0 && UtcDay(Civil(100, 0, 1)) == -683_003
  {
  }

  /** Days follow each other within a month, over its end and over the end of the year. */
  lemma NextDay(y: int, m: int, d: int)
    requires IsGregorianDay(y, m, d)
    ensures MakeDay(Civil(y, m - 1, d)) + 1 ==
            if IsGregorianDay(y, m, d + 1) then MakeDay(Civil(y, m - 1, d + 1))
            else if m < 12 then MakeDay(Civil(y, m, 1)) else MakeDay(Civil(y + 1, 0, 1))
  {
    YearLength(y);
    LengthsOfMonths(y);
  }

  /** A time of day is up to 86400000 milliseconds long and does not matter. */
  lemma TimeOfDayIsDropped(day: int, time: int)
    requires 0 <= time < 86_400_000 && !(0 <= YearOf(day) <= 99)
    ensures StartOfUtcDay(day * 86_400_000 + time) == day * 86_400_000
  {
    assert (day * 86_400_000 + time) / 86_400_000 == day;
    StartOfUtcDayIsMidnight(day * 86_400_000 + time);
  }

  /** The rounded quotient is the nearest number, and a half is rounded up. */
  lemma NearestQuotient(a: nat, b: nat)
    requires b > 0
    ensures var n := RoundDiv(a, b); 2 * b * n - b <= 2 * a < 2 * b * n + b
  {
  }
}
