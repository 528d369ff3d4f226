/**
 * The proleptic Gregorian calendar. `Day`, `YearOf` and the rest follow the definitions the
 * JavaScript `Date` is given in the ECMAScript language specification; `Next` is the calendar rule.
 */
module Gregorian {
  datatype Date = Date(year: int, month: int, day: int)

  predicate Leap(y: int) {
    y % 4 == 0 && (y % 100 != 0 || y % 400 == 0)
  }

  function DaysInMonth(y: int, m: int): nat {
    if m == 2 then (if Leap(y) then 29 else 28) else if m in {4, 6, 9, 11} then 30 else 31
  }

  predicate Valid(d: Date) {
    1 <= d.month <= 12 && 1 <= d.day <= DaysInMonth(d.year, d.month)
  }

  /** The day after, by the calendar. */
  function Next(d: Date): (n: Date)
    requires Valid(d)
    ensures Valid(n)
  {
    if d.day < DaysInMonth(d.year, d.month) then Date(d.year, d.month, d.day + 1)
    else if d.month < 12 then Date(d.year, d.month + 1, 1)
    else Date(d.year + 1, 1, 1)
  }

  // ----- Day numbers, day 0 being 1 January 1970 ------------------------------------------------

  function YearDays(y: int): nat {
    if Leap(y) then 366 else 365
  }

  /** Day number of the first of January. */
  function DayFromYear(y: int): int
    decreases if y >= 1970 then y - 1970 else 1970 - y
  {
    if y == 1970 then 0
    else if y > 1970 then DayFromYear(y - 1) + YearDays(y - 1)
    else DayFromYear(y + 1) - YearDays(y)
  }

  /** Days of the year before month `m`, counted from 0. */
  function MonthStart(m: int, leap: bool): nat
    requires 0 <= m < 12
  {
    var plain :=
      if m == 0 then 0 else if m == 1 then 31 else if m == 2 then 59 else if m == 3 then 90 else if m == 4 then 120
      else if m == 5 then 151 else if m == 6 then 181 else if m == 7 then 212 else if m == 8 then 243
      else if m == 9 then 273 else if m == 10 then 304 else 334;
    plain + (if leap && m >= 2 then 1 else 0)
  }

  /** Year, month from 0, and date, any of them out of range: the months and days carry over. */
  function MakeDay(year: int, month: int, date: int): int {
    var y, m := year + month / 12, month % 12;
    DayFromYear(y) + MonthStart(m, Leap(y)) + date - 1
  }

  /** The day number of `Date.UTC(year, month, date)`, which takes the years 0 to 99 for 1900 to 1999. */
  function DateUTC(year: int, month: int, date: int): int {
    MakeDay(if 0 <= year <= 99 then 1900 + year else year, month, date)
  }

  function DayNumber(d: Date): int
    requires Valid(d)
  {
    MakeDay(d.year, d.month - 1, d.day)
  }

  // ----- And back ---------------------------------------------------------------------------------

  lemma YearLength(y: int)
    ensures DayFromYear(y + 1) == DayFromYear(y) + YearDays(y)
  {
  }

  lemma YearsAscend(a: int, b: int)
    requires a <= b
    ensures DayFromYear(a) + 365 * (b - a) <= DayFromYear(b)
    decreases b - a
  {
    if a < b {
      YearsAscend(a, b - 1);
      YearLength(b - 1);
    }
  }

  /** Leap days before the year, counted from 1970. */
  function LeapDays(y: int): int {
    (y - 1969) / 4 - (y - 1901) / 100 + (y - 1601) / 400
  }

  /** The closed form the ECMAScript specification gives for the first day of a year. */
  lemma {:induction false} ClosedForm(y: int)
    ensures DayFromYear(y) == 365 * (y - 1970) + LeapDays(y)
    decreases if y >= 1970 then y - 1970 else 1970 - y
  {
    if y == 1970 {
    } else {
      hide LeapDays, Leap;
      if y > 1970 {
        ClosedForm(y - 1);
        LeapDaysStep(y - 1);
      } else {
        ClosedForm(y + 1);
        LeapDaysStep(y);
      }
    }
  }

  lemma LeapDaysStep(y: int)
    ensures LeapDays(y + 1) == LeapDays(y) + if Leap(y) then 1 else 0
  {
    LeapStep(y);
  }

  /** The quotient is where the multiples of the divisor enclose the number. */
  lemma Quotient(x: int, n: int, q: int)
    requires n > 0 && q * n <= x < q * n + n
    ensures x / n == q
  {
    var k := x / n;
    assert x == k * n + x % n;
    assert (k - q) * n == k * n - q * n;
    assert (k - q) * n < n && (k - q) * n > -n;
    var d := k - q;
    assert (d - 1) * n == d * n - n && (d + 1) * n == d * n + n;
    assert d >= 1 ==> (d - 1) * n >= 0;
    assert d <= -1 ==> (d + 1) * n <= 0;
  }

  /** Dividing gains one exactly at the multiples, also when counted from a multiple `from`. */
  lemma QuotientStep(y: int, n: int, years: int)
    requires n > 0
    ensures (y - years * n) / n - (y - 1 - years * n) / n == if y % n == 0 then 1 else 0
  {
    var q, r := y / n, y % n;
    assert y == q * n + r;
    assert (q - years) * n == q * n - years * n;
    assert (q - years - 1) * n == q * n - years * n - n;
    Quotient(y - years * n, n, q - years);
    Quotient(y - 1 - years * n, n, if r == 0 then q - years - 1 else q - years);
  }

  lemma MultiplesNest(y: int)
    ensures y % 400 == 0 ==> y % 100 == 0
    ensures y % 100 == 0 ==> y % 4 == 0
  {
  }

  lemma LeapStep(y: int)
    ensures (y - 1968) / 4 - (y - 1969) / 4 == (if y % 4 == 0 then 1 else 0)
    ensures (y - 1900) / 100 - (y - 1901) / 100 == (if y % 100 == 0 then 1 else 0)
    ensures (y - 1600) / 400 - (y - 1601) / 400 == (if y % 400 == 0 then 1 else 0)
    ensures y % 400 == 0 ==> y % 100 == 0
    ensures y % 100 == 0 ==> y % 4 == 0
  {
    MultiplesNest(y);
    QuotientStep(y, 4, 492);
    QuotientStep(y, 100, 19);
    QuotientStep(y, 400, 4);
  }

  /** A year not after the one the day lies in. */
  function EarlyYear(day: int): (y: int)
    ensures DayFromYear(y) <= day
  {
    if day >= 0 then 1970 else YearsAscend(1970 + day, 1970); 1970 + day
  }

  function YearFrom(day: int, y: int): (r: int)
    requires DayFromYear(y) <= day
    ensures DayFromYear(r) <= day < DayFromYear(r + 1)
    decreases day - DayFromYear(y)
  {
    YearLength(y);
    if DayFromYear(y + 1) <= day then YearFrom(day, y + 1) else y
  }

  /** The latest month starting on or before the given day of the year. */
  function MonthFrom(within: int, leap: bool, m: int): (r: int)
    requires 0 <= m < 12 && 0 <= within
    ensures 0 <= r <= m && MonthStart(r, leap) <= within
    ensures r < m ==> within < MonthStart(r + 1, leap)
  {
    if m == 0 || MonthStart(m, leap) <= within then m else MonthFrom(within, leap, m - 1)
  }

  /** The UTC calendar date of a day number, as the `getUTC…` readers give it. */
  function Civil(day: int): (d: Date)
    ensures Valid(d) && DayNumber(d) == day
  {
    var y := YearFrom(day, EarlyYear(day));
    YearLength(y);
    var within := day - DayFromYear(y);
    var m := MonthFrom(within, Leap(y), 11);
    Date(y, m + 1, within - MonthStart(m, Leap(y)) + 1)
  }

  lemma DayNumberInYear(d: Date)
    requires Valid(d)
    ensures DayFromYear(d.year) <= DayNumber(d) < DayFromYear(d.year + 1)
    ensures DayNumber(d) == DayFromYear(d.year) + MonthStart(d.month - 1, Leap(d.year)) + d.day - 1
    ensures d.month < 12 ==> MonthStart(d.month - 1, Leap(d.year)) + d.day <= MonthStart(d.month, Leap(d.year))
  {
    YearLength(d.year);
  }

  /** Dates and day numbers correspond one to one. */
  lemma DayNumberInjective(a: Date, b: Date)
    requires Valid(a) && Valid(b) && DayNumber(a) == DayNumber(b)
    ensures a == b
  {
    hide DayFromYear, MonthStart, MakeDay, Leap;
    DayNumberInYear(a);
    DayNumberInYear(b);
    if a.year < b.year { YearsAscend(a.year + 1, b.year); }
    if b.year < a.year { YearsAscend(b.year + 1, a.year); }
    if a.month < b.month { MonthsAscend(a.month, b.month - 1, Leap(a.year)); }
    if b.month < a.month { MonthsAscend(b.month, a.month - 1, Leap(a.year)); }
  }

  lemma MonthsAscend(a: int, b: int, leap: bool)
    requires 0 <= a <= b < 12
    ensures MonthStart(a, leap) <= MonthStart(b, leap)
  {
  }

  lemma NextDayNumber(d: Date)
    requires Valid(d)
    ensures DayNumber(Next(d)) == DayNumber(d) + 1
  {
    DayNumberInYear(d);
    DayNumberInYear(Next(d));
    YearLength(d.year);
  }

  /** The date of the day number after a date's own is the calendar's next day. */
  lemma CivilAfter(d: Date, day: int)
    requires Valid(d) && day == DayNumber(d) + 1
    ensures Civil(day) == Next(d)
  {
    NextDayNumber(d);
    DayNumberInjective(Civil(day), Next(d));
  }

  lemma NextDate(year: int, month: int, date: int)
    ensures MakeDay(year, month, date + 1) == MakeDay(year, month, date) + 1
  {
  }

  lemma CivilYearWithin(day: int, low: int, high: int)
    requires low < high && DayFromYear(low) <= day < DayFromYear(high)
    ensures low <= Civil(day).year < high
  {
    var r := Civil(day);
    DayNumberInYear(r);
    if r.year < low { YearsAscend(r.year + 1, low); }
    if r.year >= high { YearsAscend(high, r.year); }
  }

  /** A valid date's day, or the one after, taken in another year lands in that year or the next. */
  lemma MovedYear(d: Date, year: int)
    requires Valid(d)
    ensures year <= Civil(MakeDay(year, d.month - 1, d.day + 1)).year <= year + 1
  {
    hide Civil;
    var day := MakeDay(year, d.month - 1, d.day + 1);
    assert DayFromYear(year) <= day <= DayFromYear(year) + 334 + 1 + 31;
    YearsAscend(year, year + 2);
    CivilYearWithin(day, year, year + 2);
  }
}
