/** UTC days as day numbers, with the year and the day of the year that index
    the activity bits, and event times in microseconds since day 0. */
module Calendar {
  type Day = nat
  type Year = nat
  type Micros = nat

  const DAY_MICROS := 86_400_000_000
  const DAY_MILLISECONDS := 86_400_000

  predicate Leap(year: Year) {
    year % 4 == 0 && (year % 100 != 0 || year % 400 == 0)
  }

  function Length(year: Year): nat {
    if Leap(year) then 366 else 365
  }

  /** The day number of January 1. */
  function Start(year: Year): Day {
    if year == 0 then 0 else Start(year - 1) + Length(year - 1)
  }

  function YearFrom(day: Day, year: Year): (found: Year)
    requires Start(year) <= day
    ensures Start(found) <= day < Start(found + 1)
    decreases day - Start(year)
  {
    if day < Start(year + 1) then year else YearFrom(day, year + 1)
  }

  function YearOf(day: Day): Year {
    YearFrom(day, 0)
  }

  /** Days after January 1: Ruby's `yday - 1`. */
  function DayOfYear(day: Day): (index: nat)
    ensures index < Length(YearOf(day)) <= 366
    ensures Start(YearOf(day)) + index == day
  {
    day - Start(YearOf(day))
  }

  lemma {:induction false} StartGrows(earlier: Year, later: Year)
    requires earlier <= later
    ensures Start(earlier) + 365 * (later - earlier) <= Start(later)
  {
    if earlier < later {
      StartGrows(earlier, later - 1);
    }
  }

  /** The Gregorian calendar from January 1 of year 0: 365 days a year, and one for each year before that is divisible
      by four, but for those divisible by a hundred, but with those divisible by four hundred. */
  lemma {:induction false} StartIsGregorian(year: Year)
    ensures Start(year) == 365 * year + (year + 3) / 4 - (year + 99) / 100 + (year + 399) / 400
  {
    hide Length;
    if year > 0 {
      var before := year - 1;
      StartIsGregorian(before);
      LengthOf(before);
      OneYearMore(before);
    }
  }

  lemma OneYearMore(year: Year)
    ensures (year + 4) / 4 == (year + 3) / 4 + if year % 4 == 0 then 1 else 0
    ensures (year + 100) / 100 == (year + 99) / 100 + if year % 100 == 0 then 1 else 0
    ensures (year + 400) / 400 == (year + 399) / 400 + if year % 400 == 0 then 1 else 0
  {
    FourYears(year, year / 4, year % 4);
    HundredYears(year, year / 100, year % 100);
    FourHundredYears(year, year / 400, year % 400);
  }

  lemma FourYears(year: Year, whole: nat, rest: nat)
    requires year == 4 * whole + rest && rest < 4
    ensures (year + 4) / 4 == (year + 3) / 4 + if rest == 0 then 1 else 0
  {
  }

  lemma HundredYears(year: Year, whole: nat, rest: nat)
    requires year == 100 * whole + rest && rest < 100
    ensures (year + 100) / 100 == (year + 99) / 100 + if rest == 0 then 1 else 0
  {
  }

  lemma FourHundredYears(year: Year, whole: nat, rest: nat)
    requires year == 400 * whole + rest && rest < 400
    ensures (year + 400) / 400 == (year + 399) / 400 + if rest == 0 then 1 else 0
  {
  }

  lemma LengthOf(year: Year)
    ensures Length(year) == 365 + (if year % 4 == 0 then 1 else 0) - (if year % 100 == 0 then 1 else 0)
      + if year % 400 == 0 then 1 else 0
  {
    FoursAndHundreds(year);
  }

  lemma FoursAndHundreds(year: Year)
    ensures (year % 400 == 0 ==> year % 100 == 0) && (year % 100 == 0 ==> year % 4 == 0)
  {
    assert year % 400 == 0 ==> year == 100 * (4 * (year / 400));
    assert year % 100 == 0 ==> year == 4 * (25 * (year / 100));
  }

  lemma YearIsUnique(day: Day, year: Year)
    ensures Start(year) <= day < Start(year + 1) <==> YearOf(day) == year
  {
    if YearOf(day) < year {
      StartGrows(YearOf(day) + 1, year);
    } else if year < YearOf(day) {
      StartGrows(year + 1, YearOf(day));
    }
  }

  lemma YearsAreOrdered(one: Day, other: Day)
    requires one <= other
    ensures YearOf(one) <= YearOf(other)
  {
    if YearOf(other) < YearOf(one) {
      StartGrows(YearOf(other) + 1, YearOf(one));
    }
  }

  function DayOf(time: Micros): Day {
    time / DAY_MICROS
  }

  /** Whole milliseconds since the start of `day`. */
  function MillisecondOf(time: Micros, day: Day): int {
    time / 1000 - day * DAY_MILLISECONDS
  }

  /** A row's day and millisecond give back the event time, cut to milliseconds. */
  lemma TimeIsKept(time: Micros)
    ensures 0 <= MillisecondOf(time, DayOf(time)) < DAY_MILLISECONDS
    ensures DayOf(time) * DAY_MILLISECONDS + MillisecondOf(time, DayOf(time)) == time / 1000
  {
  }
}
