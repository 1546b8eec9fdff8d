/** ISO 8601 ordinal dates as base.c keeps them: a year and a day of the year, 16 bits each. */
module Dates {
  import opened Ints

  const UINT16_MAX: nat := 65535
  const TIME_DAY: nat := 24 * 60 * 60

  datatype Date = Date(year: uint16, day: uint16)

  predicate IsBefore(a: Date, b: Date) { a.year < b.year || (a.year == b.year && a.day < b.day) }

  predicate IsAfter(a: Date, b: Date) { a.year > b.year || (a.year == b.year && a.day > b.day) }

  predicate IsEqual(a: Date, b: Date) { a.year == b.year && a.day == b.day }

  predicate IsLeapYear(year: int) { year % 400 == 0 || (year % 4 == 0 && year % 100 != 0) }

  function DaysInYear(year: int): nat { if IsLeapYear(year) then 366 else 365 }

  /** date_incr, with the increment of a 16-bit year. */
  function Next(d: Date): Date {
    if d.day >= DaysInYear(d.year) then Date((d.year + 1) % (UINT16_MAX + 1), 1) else Date(d.year, d.day + 1)
  }

  /** A `struct date` that date_incr updates through a pointer. */
  class DateCell {
    var year: uint16
    var day: uint16

    function Get(): Date
      reads this
    {
      Date(year, day)
    }

    constructor (d: Date)
      ensures Get() == d
    {
      year, day := d.year, d.day;
    }

    method Incr()
      modifies this
      ensures Get() == Next(old(Get()))
    {
      var dayInYear := if IsLeapYear(year) then 366 else 365;
      if day >= dayInYear {
        day := 1;
        year := (year + 1) % (UINT16_MAX + 1);
      } else {
        day := day + 1;
      }
    }
  }

  /** The day exists. */
  predicate IsOrdinal(d: Date) { 1 <= d.day <= DaysInYear(d.year) }

  /** Days before January 1st of a year of the proleptic Gregorian calendar, in closed form. */
  function DaysBefore(year: int): int {
    365 * year + (year + 3) / 4 - (year + 99) / 100 + (year + 399) / 400
  }

  function DayNumber(d: Date): int { DaysBefore(d.year) + d.day }

  lemma {:induction false} MultiplesOf4(y: int)
    ensures (y + 4) / 4 - (y + 3) / 4 == if y % 4 == 0 then 1 else 0
  {
  }

  lemma {:induction false} MultiplesOf100(y: int)
    ensures (y + 100) / 100 - (y + 99) / 100 == if y % 100 == 0 then 1 else 0
  {
  }

  lemma {:induction false} MultiplesOf400(y: int)
    ensures (y + 400) / 400 - (y + 399) / 400 == if y % 400 == 0 then 1 else 0
  {
  }

  lemma {:induction false} Multiple100(q: int)
    ensures 100 * q % 100 == 0
  {
  }

  lemma {:induction false} Multiple4(q: int)
    ensures 4 * q % 4 == 0
  {
  }

  lemma {:induction false} Quotient(y: int, d: nat) returns (q: int)
    requires d > 0 && y % d == 0
    ensures y == d * q
  {
    q := y / d;
  }

  lemma {:induction false} DivisibleBy400(y: int)
    ensures y % 400 == 0 ==> y % 100 == 0
    ensures y % 100 == 0 ==> y % 4 == 0
  {
    if y % 400 == 0 {
      var q := Quotient(y, 400);
      Multiple100(4 * q);
    }
    if y % 100 == 0 {
      var q := Quotient(y, 100);
      Multiple4(25 * q);
    }
  }

  lemma {:induction false} DaysBeforeNext(year: int)
    ensures DaysBefore(year + 1) == DaysBefore(year) + DaysInYear(year)
  {
    MultiplesOf4(year);
    MultiplesOf100(year);
    MultiplesOf400(year);
    DivisibleBy400(year);
  }

  lemma {:induction false} DaysBeforeMonotone(a: int, b: int)
    requires a < b
    ensures DaysBefore(a) + DaysInYear(a) <= DaysBefore(b)
    decreases b - a
  {
    if a + 1 < b {
      DaysBeforeMonotone(a, b - 1);
      DaysBeforeNext(b - 1);
    } else {
      DaysBeforeNext(a);
    }
  }

  lemma {:induction false} NextInYear(d: Date)
    requires d.day < DaysInYear(d.year)
    ensures DayNumber(Next(d)) == DayNumber(d) + 1
  {
  }

  lemma {:induction false} NextAtYearEnd(d: Date)
    requires d.day >= DaysInYear(d.year) && d.year < UINT16_MAX
    ensures Next(d) == Date(d.year + 1, 1)
    ensures DayNumber(Next(d)) == DayNumber(d) + 1 <==> d.day == DaysInYear(d.year)
  {
    assert (d.year + 1) % (UINT16_MAX + 1) == d.year + 1;
    DaysBeforeNext(d.year);
  }

  lemma {:induction false} NextAtWrap(d: Date)
    requires d.day >= DaysInYear(d.year) && d.year == UINT16_MAX
    ensures Next(d) == Date(0, 1) && DayNumber(Next(d)) < DayNumber(d)
  {
    assert (UINT16_MAX + 1) % (UINT16_MAX + 1) == 0;
    DaysBeforeMonotone(0, UINT16_MAX);
  }

  /** date_incr moves on by exactly one day, unless the day is past the end of its year or the
      16-bit year wraps. */
  lemma {:induction false} NextIsNextDay(d: Date)
    ensures DayNumber(Next(d)) == DayNumber(d) + 1 <==>
            d.day < DaysInYear(d.year) || (d.day == DaysInYear(d.year) && d.year < UINT16_MAX)
    ensures IsOrdinal(d) ==> IsOrdinal(Next(d))
  {
    if d.day < DaysInYear(d.year) {
      NextInYear(d);
    } else if d.year < UINT16_MAX {
      NextAtYearEnd(d);
    } else {
      NextAtWrap(d);
    }
  }

  /** On ordinal dates the comparisons of base.c are the order of the day numbers. */
  lemma {:induction false} ComparisonsOrderDays(a: Date, b: Date)
    requires IsOrdinal(a) && IsOrdinal(b)
    ensures IsBefore(a, b) <==> DayNumber(a) < DayNumber(b)
    ensures IsAfter(a, b) <==> DayNumber(a) > DayNumber(b)
    ensures IsEqual(a, b) <==> DayNumber(a) == DayNumber(b)
  {
    if a.year < b.year {
      DaysBeforeMonotone(a.year, b.year);
    } else if b.year < a.year {
      DaysBeforeMonotone(b.year, a.year);
    }
  }

  /** gmtime_r by walking from a year: the year and zero-based day that lie `days` after its start. */
  function Walk(year: int, days: int): (r: (int, nat))
    ensures r.1 < DaysInYear(r.0)
    decreases days < 0, if days < 0 then -days else days
  {
    if days < 0 then Walk(year - 1, days + DaysInYear(year - 1))
    else if days < DaysInYear(year) then (year, days)
    else Walk(year + 1, days - DaysInYear(year))
  }

  /** date_utc of a time in seconds since 1970, with the truncation of the year to 16 bits. */
  function DateUtc(time: int): Date {
    var (year, yday) := Walk(1970, time / TIME_DAY);
    Date(year % (UINT16_MAX + 1), yday + 1)
  }

  lemma {:induction false} WalkKeepsDay(year: int, days: int)
    ensures var (y, d) := Walk(year, days); DaysBefore(y) + d == DaysBefore(year) + days
    decreases days < 0, if days < 0 then -days else days
  {
    if days < 0 {
      DaysBeforeNext(year - 1);
      WalkKeepsDay(year - 1, days + DaysInYear(year - 1));
    } else if days >= DaysInYear(year) {
      DaysBeforeNext(year);
      WalkKeepsDay(year + 1, days - DaysInYear(year));
    }
  }

  lemma {:induction false} DayIsUnique(y: int, d: nat, y': int, d': nat)
    requires d < DaysInYear(y) && d' < DaysInYear(y')
    requires DaysBefore(y) + d == DaysBefore(y') + d'
    ensures y == y' && d == d'
  {
    if y < y' {
      DaysBeforeMonotone(y, y');
    } else if y' < y {
      DaysBeforeMonotone(y', y);
    }
  }

  /** Days since the Epoch by the formula of the POSIX base definitions, with tm_year = y - 1900. */
  function PosixDays(y: int, yday: int): int {
    var tmYear := y - 1900;
    yday + (tmYear - 70) * 365 + (tmYear - 69) / 4 - (tmYear - 1) / 100 + (tmYear + 299) / 400
  }

  /** gmtime_r inverts the POSIX formula, and nothing else does. */
  lemma {:induction false} UtcInvertsPosix(time: int, y: int, yday: nat)
    requires yday < DaysInYear(y)
    ensures Walk(1970, time / TIME_DAY) == (y, yday) <==> PosixDays(y, yday) == time / TIME_DAY
  {
    var (y0, d0) := Walk(1970, time / TIME_DAY);
    WalkKeepsDay(1970, time / TIME_DAY);
    PosixIsDayNumber(y, yday);
    if PosixDays(y, yday) == time / TIME_DAY {
      DayIsUnique(y0, d0, y, yday);
    }
  }

  lemma {:induction false} PosixIsDayNumber(y: int, yday: int)
    ensures PosixDays(y, yday) == DaysBefore(y) + yday - DaysBefore(1970)
  {
    assert (y + 3) / 4 - 493 == (y - 1969) / 4;
    assert (y + 99) / 100 - 20 == (y - 1901) / 100;
    assert (y + 399) / 400 - 5 == (y - 1601) / 400;
  }

  /** Any second of a day, counted from the Epoch by that formula, is of that one-based day, and of that
      year in 16 bits. */
  lemma {:induction false} UtcOfDay(y: int, yday: nat, seconds: nat)
    requires yday < DaysInYear(y) && seconds < 86400
    ensures DateUtc(86400 * PosixDays(y, yday) + seconds) == Date(y % 65536, yday + 1)
  {
    hide PosixDays, Walk;
    SecondsOfDay(PosixDays(y, yday), seconds);
    UtcInvertsPosix(86400 * PosixDays(y, yday) + seconds, y, yday);
  }

  lemma {:induction false} SecondsOfDay(days: int, seconds: nat)
    requires seconds < 86400
    ensures (86400 * days + seconds) / TIME_DAY == days
  {
  }

  lemma {:induction false} WalkTomorrow(days: int)
    ensures var (y, d) := Walk(1970, days);
            Walk(1970, days + 1) == if d + 1 < DaysInYear(y) then (y, d + 1) else (y + 1, 0)
  {
    hide Walk, DaysBefore;
    var (y, d) := Walk(1970, days);
    var (y', d') := Walk(1970, days + 1);
    WalkKeepsDay(1970, days);
    WalkKeepsDay(1970, days + 1);
    if d + 1 < DaysInYear(y) {
      DayIsUnique(y, d + 1, y', d');
    } else {
      DaysBeforeNext(y);
      DayIsUnique(y + 1, 0, y', d');
    }
  }

  lemma {:induction false} DayLater(time: int)
    ensures (time + TIME_DAY) / TIME_DAY == time / TIME_DAY + 1
  {
  }

  lemma {:induction false} Truncated(year: nat)
    requires year <= UINT16_MAX
    ensures year % (UINT16_MAX + 1) == year
  {
  }

  /** One day later the clock shows what date_incr makes of today, as long as the year fits. */
  lemma {:induction false} UtcTomorrow(time: int)
    requires 0 <= Walk(1970, time / TIME_DAY).0 <= UINT16_MAX
    ensures IsOrdinal(DateUtc(time))
    ensures DateUtc(time + TIME_DAY) == Next(DateUtc(time))
  {
    DayLater(time);
    WalkKeepsDay(1970, time / TIME_DAY);
    WalkTomorrow(time / TIME_DAY);
    Truncated(Walk(1970, time / TIME_DAY).0);
  }
}
