/**
 * The proleptic Gregorian calendar of ECMAScript dates (section 21.4.1 of ECMA-262), which
 * packages/contracts/src/common/cairo-date.ts computes with.
 */
module Calendar {

  /** A calendar date. Whether it exists is `Real`. */
  datatype Civil = Civil(year: int, month: int, day: int)

  predicate IsLeap(y: int) {
    (y % 4 == 0 && y % 100 != 0) || y % 400 == 0
  }

  function LeapDay(y: int): int {
    if IsLeap(y) then 1 else 0
  }

  function DaysInMonth(y: int, m: int): int
    requires 1 <= m <= 12
  {
    if m == 2 then 28 + LeapDay(y)
    else if m == 4 || m == 6 || m == 9 || m == 11 then 30
    else 31
  }

  predicate Real(c: Civil) {
    1 <= c.month <= 12 && 1 <= c.day <= DaysInMonth(c.year, c.month)
  }

  /** DayFromYear: the number of the first day of a year, day 0 being 1970-01-01. */
  function DayFromYear(y: int): int {
    365 * (y - 1970) + (y - 1969) / 4 - (y - 1901) / 100 + (y - 1601) / 400
  }

  /** Days of a year before its month `m`. */
  function DaysBefore(y: int, m: int): int
    requires 1 <= m <= 13
  {
    if m == 1 then 0 else DaysBefore(y, m - 1) + DaysInMonth(y, m - 1)
  }

  /** MakeDay, with a zero-based month that may overflow into other years. */
  function MakeDay(year: int, month0: int, date: int): int {
    var y := year + month0 / 12;
    DayFromYear(y) + DaysBefore(y, month0 % 12 + 1) + date - 1
  }

  lemma {:induction false} FourthYears(y: int)
    ensures (y + 1 - 1969) / 4 == (y - 1969) / 4 + if y % 4 == 0 then 1 else 0
  {
  }

  lemma {:induction false} Centuries(y: int)
    ensures (y + 1 - 1901) / 100 == (y - 1901) / 100 + if y % 100 == 0 then 1 else 0
  {
  }

  lemma {:induction false} FourthCenturies(y: int)
    ensures (y + 1 - 1601) / 400 == (y - 1601) / 400 + if y % 400 == 0 then 1 else 0
  {
  }

  /** A year is 365 days, or 366 in a leap year. */
  lemma {:induction false} YearLength(y: int)
    ensures DayFromYear(y + 1) == DayFromYear(y) + 365 + LeapDay(y)
  {
    FourthYears(y);
    Centuries(y);
    FourthCenturies(y);
    assert y % 400 == 0 ==> y % 100 == 0;
    assert y % 100 == 0 ==> y % 4 == 0;
  }

  lemma {:induction false} MonthsOfYear(y: int)
    ensures DaysBefore(y, 2) == 31
    ensures DaysBefore(y, 3) == 59 + LeapDay(y)
    ensures DaysBefore(y, 4) == 90 + LeapDay(y)
    ensures DaysBefore(y, 5) == 120 + LeapDay(y)
    ensures DaysBefore(y, 6) == 151 + LeapDay(y)
    ensures DaysBefore(y, 7) == 181 + LeapDay(y)
    ensures DaysBefore(y, 8) == 212 + LeapDay(y)
    ensures DaysBefore(y, 9) == 243 + LeapDay(y)
    ensures DaysBefore(y, 10) == 273 + LeapDay(y)
    ensures DaysBefore(y, 11) == 304 + LeapDay(y)
    ensures DaysBefore(y, 12) == 334 + LeapDay(y)
    ensures DaysBefore(y, 13) == 365 + LeapDay(y)
  {
    assert DaysBefore(y, 2) == 31;
    assert DaysBefore(y, 4) == 90 + LeapDay(y);
    assert DaysBefore(y, 6) == 151 + LeapDay(y);
    assert DaysBefore(y, 8) == 212 + LeapDay(y);
    assert DaysBefore(y, 10) == 273 + LeapDay(y);
    assert DaysBefore(y, 12) == 334 + LeapDay(y);
  }

  // ---------------------------------------------------------------- reading a day number back

  /** YearFromTime: the year whose first day is the last one not after `d`, found from `y`. */
  function SearchYear(d: int, y: int): (r: int)
    ensures DayFromYear(r) <= d < DayFromYear(r + 1)
    decreases DayFromYear(y) > d, if DayFromYear(y) > d then DayFromYear(y) - d else d - DayFromYear(y)
  {
    YearLength(y);
    YearLength(y - 1);
    if DayFromYear(y) > d then SearchYear(d, y - 1)
    else if DayFromYear(y + 1) <= d then SearchYear(d, y + 1)
    else y
  }

  function YearOf(d: int): (r: int)
    ensures DayFromYear(r) <= d < DayFromYear(r + 1)
  {
    SearchYear(d, 1970)
  }

  /** MonthFromTime: the month that holds the `n`-th day of a year, counted from 0. */
  function SearchMonth(y: int, n: int, m: int): (r: int)
    requires 1 <= m <= 12 && DaysBefore(y, m) <= n < DaysBefore(y, 13)
    ensures m <= r <= 12 && DaysBefore(y, r) <= n < DaysBefore(y, r + 1)
    decreases 12 - m
  {
    if n < DaysBefore(y, m + 1) then m else SearchMonth(y, n, m + 1)
  }

  /** The calendar date of a day number. */
  function CivilOf(d: int): (c: Civil)
    ensures Real(c)
  {
    var y := YearOf(d);
    YearLength(y);
    MonthsOfYear(y);
    var n := d - DayFromYear(y);
    var m := SearchMonth(y, n, 1);
    assert DaysBefore(y, m + 1) == DaysBefore(y, m) + DaysInMonth(y, m);
    Civil(y, m, n - DaysBefore(y, m) + 1)
  }

  /** The number of a real calendar date. */
  function DayNumber(c: Civil): int
    requires Real(c)
  {
    DayFromYear(c.year) + DaysBefore(c.year, c.month) + c.day - 1
  }

  // ---------------------------------------------------------------- the calendar is a line of days

  lemma {:induction false} YearsAscend(a: int, b: int)
    requires a <= b
    ensures DayFromYear(a) + 365 * (b - a) <= DayFromYear(b)
    decreases b - a
  {
    if a < b {
      YearsAscend(a, b - 1);
      YearLength(b - 1);
    }
  }

  lemma {:induction false} MonthsAscend(y: int, a: int, b: int)
    requires 1 <= a <= b <= 13
    ensures DaysBefore(y, a) <= DaysBefore(y, b)
    ensures a < b ==> DaysBefore(y, a) + DaysInMonth(y, a) <= DaysBefore(y, b)
    decreases b - a
  {
    if a < b {
      MonthsAscend(y, a, b - 1);
    }
  }

  predicate Earlier(a: Civil, b: Civil) {
    a.year < b.year || (a.year == b.year && (a.month < b.month || (a.month == b.month && a.day < b.day)))
  }

  /** Day numbers ascend exactly as calendar dates do. */
  lemma {:induction false} EarlierIff(a: Civil, b: Civil)
    requires Real(a) && Real(b)
    ensures Earlier(a, b) <==> DayNumber(a) < DayNumber(b)
    ensures DayNumber(a) == DayNumber(b) <==> a == b
  {
    if Earlier(a, b) {
      EarlierAscends(a, b);
    } else if a != b {
      EarlierAscends(b, a);
    }
  }

  lemma {:induction false} EarlierAscends(a: Civil, b: Civil)
    requires Real(a) && Real(b) && Earlier(a, b)
    ensures DayNumber(a) < DayNumber(b)
  {
    WithinYear(a);
    WithinYear(b);
    if a.year < b.year {
      YearsAscend(a.year + 1, b.year);
    } else if a.month < b.month {
      MonthsAscend(a.year, a.month, b.month);
    }
  }

  lemma {:induction false} WithinYear(c: Civil)
    requires Real(c)
    ensures DayFromYear(c.year) <= DayNumber(c) < DayFromYear(c.year + 1)
  {
    MonthsAscend(c.year, 1, c.month);
    MonthsAscend(c.year, c.month, 13);
    MonthsOfYear(c.year);
    YearLength(c.year);
  }

  /** Every day number is the number of exactly one real date, and the two readings are inverse. */
  lemma {:induction false} CivilInverse(d: int)
    ensures DayNumber(CivilOf(d)) == d
  {
  }

  lemma {:induction false} NumberInverse(c: Civil)
    requires Real(c)
    ensures CivilOf(DayNumber(c)) == c
  {
    CivilInverse(DayNumber(c));
    EarlierIff(CivilOf(DayNumber(c)), c);
  }

  /** MakeDay is the day number of a real date, and counts on from it when the date overflows. */
  lemma {:induction false} MakeDayOfReal(c: Civil)
    requires Real(c)
    ensures MakeDay(c.year, c.month - 1, c.day) == DayNumber(c)
  {
  }
}
