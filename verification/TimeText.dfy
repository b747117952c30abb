/** Times as text in SQLite, compared as text.  Times are microseconds since the
    start of year 0 in UTC; the text keeps no smaller part. */
module TimeText {
  import opened Calendar
  import opened Digits

  const LAST_YEAR := 9999

  // --- Months ---------------------------------------------------------------------

  type Month = month: nat | 1 <= month <= 12 witness 1

  function MonthLength(leap: bool, month: Month): nat {
    if month == 2 then (if leap then 29 else 28)
    else if month in {4, 6, 9, 11} then 30
    else 31
  }

  /** Days of the year before a month. */
  function MonthStart(leap: bool, month: Month): nat {
    if month == 1 then 0 else MonthStart(leap, month - 1) + MonthLength(leap, month - 1)
  }

  function MonthFrom(leap: bool, index: nat, month: Month): (found: Month)
    requires MonthStart(leap, month) <= index
    ensures MonthStart(leap, found) <= index
    ensures found < 12 ==> index < MonthStart(leap, found + 1)
    decreases 12 - month
  {
    if month == 12 || index < MonthStart(leap, month + 1) then month else MonthFrom(leap, index, month + 1)
  }

  function MonthOf(leap: bool, index: nat): Month {
    MonthFrom(leap, index, 1)
  }

  /** From 1. */
  function DayOfMonth(leap: bool, index: nat): nat {
    index - MonthStart(leap, MonthOf(leap, index)) + 1
  }

  lemma {:induction false} MonthStartGrows(leap: bool, earlier: Month, later: Month)
    requires earlier <= later
    ensures MonthStart(leap, earlier) <= MonthStart(leap, later)
  {
    if earlier < later {
      MonthStartGrows(leap, earlier, later - 1);
    }
  }

  lemma YearEnds(leap: bool)
    ensures MonthStart(leap, 12) + 31 == if leap then 366 else 365
  {
    var extra := if leap then 1 else 0;
    assert MonthStart(leap, 2) == 31;
    assert MonthStart(leap, 4) == 90 + extra;
    assert MonthStart(leap, 6) == 151 + extra;
    assert MonthStart(leap, 8) == 212 + extra;
    assert MonthStart(leap, 10) == 273 + extra;
  }

  lemma MonthStarts(leap: bool)
    ensures
      var more := if leap then 1 else 0;
      && MonthStart(leap, 1) == 0 && MonthStart(leap, 2) == 31 && MonthStart(leap, 3) == 59 + more
      && MonthStart(leap, 4) == 90 + more && MonthStart(leap, 5) == 120 + more && MonthStart(leap, 6) == 151 + more
      && MonthStart(leap, 7) == 181 + more && MonthStart(leap, 8) == 212 + more && MonthStart(leap, 9) == 243 + more
      && MonthStart(leap, 10) == 273 + more && MonthStart(leap, 11) == 304 + more && MonthStart(leap, 12) == 334 + more
  {
    assert MonthStart(leap, 2) == 31 && MonthStart(leap, 1) == 0;
    assert MonthStart(leap, 3) == 59 + if leap then 1 else 0;
    assert MonthStart(leap, 5) == 120 + if leap then 1 else 0;
    assert MonthStart(leap, 7) == 181 + if leap then 1 else 0;
    assert MonthStart(leap, 9) == 243 + if leap then 1 else 0;
    assert MonthStart(leap, 11) == 304 + if leap then 1 else 0;
  }

  /** A day of the year is a day of its month. */
  lemma DayOfMonthFits(leap: bool, index: nat)
    requires index < if leap then 366 else 365
    ensures 1 <= DayOfMonth(leap, index) <= MonthLength(leap, MonthOf(leap, index)) <= 31
  {
    YearEnds(leap);
    var month := MonthOf(leap, index);
    if month < 12 {
      assert MonthStart(leap, month + 1) == MonthStart(leap, month) + MonthLength(leap, month);
    }
  }

  lemma MonthBounds(leap: bool, index: nat)
    ensures
      var month := MonthOf(leap, index);
      MonthStart(leap, month) <= index && (month < 12 ==> index < MonthStart(leap, month + 1))
  {
    hide MonthStart;
  }

  lemma MonthsAreOrdered(leap: bool, one: nat, other: nat)
    ensures
      var month, its := MonthOf(leap, one), MonthOf(leap, other);
      one < other <==> month < its || (month == its && DayOfMonth(leap, one) < DayOfMonth(leap, other))
  {
    hide MonthStart, MonthOf;
    MonthBounds(leap, one);
    MonthBounds(leap, other);
    var month, its := MonthOf(leap, one), MonthOf(leap, other);
    if month < its {
      MonthStartGrows(leap, month + 1, its);
    } else if its < month {
      MonthStartGrows(leap, its + 1, month);
    }
  }

  // --- Order of texts -----------------------------------------------------------------

  /** Character by character, a proper prefix first. */
  predicate Less(one: string, other: string) {
    other != "" && (one == "" || one[0] < other[0] || (one[0] == other[0] && Less(one[1..], other[1..])))
  }

  lemma {:induction false} LessIsStrict(text: string)
    ensures !Less(text, text)
  {
    if text != "" {
      LessIsStrict(text[1..]);
    }
  }

  lemma {:induction false} LessAfterPrefix(one: string, other: string, rest: string, its: string)
    requires |one| == |other|
    ensures Less(one + rest, other + its) <==> Less(one, other) || (one == other && Less(rest, its))
  {
    if one == "" {
      assert one + rest == rest && other + its == its;
    } else {
      assert (one + rest)[1..] == one[1..] + rest && (other + its)[1..] == other[1..] + its;
      LessAfterPrefix(one[1..], other[1..], rest, its);
      assert one == other <==> one[0] == other[0] && one[1..] == other[1..] by {
        assert one == [one[0]] + one[1..] && other == [other[0]] + other[1..];
      }
    }
  }

  function Power(width: nat): nat {
    if width == 0 then 1 else 10 * Power(width - 1)
  }

  function LastDigit(n: nat): char {
    '0' + ((n % 10) as char)
  }

  /** A number with leading zeros. */
  function Padded(n: nat, width: nat): (text: string)
    requires n < Power(width)
    ensures |text| == width
  {
    if width == 0 then "" else Padded(n / 10, width - 1) + [LastDigit(n)]
  }

  /** Numbers of one width compare as text like numbers. */
  lemma DigitsAreOrdered(one: nat, other: nat)
    ensures Less([LastDigit(one)], [LastDigit(other)]) <==> one % 10 < other % 10
    ensures LastDigit(one) == LastDigit(other) <==> one % 10 == other % 10
  {
  }

  lemma TensAreOrdered(one: nat, other: nat)
    ensures one < other <==> one / 10 < other / 10 || (one / 10 == other / 10 && one % 10 < other % 10)
    ensures one == other <==> one / 10 == other / 10 && one % 10 == other % 10
  {
  }

  lemma SnocIsInjective(one: string, other: string, last: char, its: char)
    ensures one + [last] == other + [its] <==> one == other && last == its
  {
    if one + [last] == other + [its] {
      assert |one| == |other| && (one + [last])[..|one|] == one && (other + [its])[..|one|] == other;
      assert (one + [last])[|one|] == last && (other + [its])[|one|] == its;
    }
  }

  lemma {:induction false} PaddedIsOrdered(one: nat, other: nat, width: nat)
    requires one < Power(width) && other < Power(width)
    ensures Less(Padded(one, width), Padded(other, width)) <==> one < other
    ensures Padded(one, width) == Padded(other, width) <==> one == other
  {
    hide Less, LastDigit;
    if width > 0 {
      var most, more := Padded(one / 10, width - 1), Padded(other / 10, width - 1);
      PaddedIsOrdered(one / 10, other / 10, width - 1);
      DigitsAreOrdered(one, other);
      TensAreOrdered(one, other);
      LessAfterPrefix(most, more, [LastDigit(one)], [LastDigit(other)]);
      SnocIsInjective(most, more, LastDigit(one), LastDigit(other));
    } else {
      LessIsStrict("");
    }
  }

  /** A padded number before the rest of a text. */
  function Part(n: nat, width: nat, separator: string, rest: string): string
    requires n < Power(width)
  {
    Padded(n, width) + separator + rest
  }

  /** A padded number decides before what follows it. */
  lemma PartDecides(one: nat, other: nat, width: nat, separator: string, rest: string, its: string)
    requires one < Power(width) && other < Power(width)
    ensures Less(Part(one, width, separator, rest), Part(other, width, separator, its))
      <==> one < other || (one == other && Less(rest, its))
  {
    PaddedIsOrdered(one, other, width);
    LessAfterPrefix(Padded(one, width) + separator, Padded(other, width) + separator, rest, its);
    LessAfterPrefix(Padded(one, width), Padded(other, width), separator, separator);
    LessIsStrict(separator);
    if Padded(one, width) + separator == Padded(other, width) + separator {
      assert (Padded(one, width) + separator)[..width] == Padded(one, width);
      assert (Padded(other, width) + separator)[..width] == Padded(other, width);
    }
  }

  // --- Printing ---------------------------------------------------------------------------

  /** The parts of a time, as the printer reads them. */
  datatype Parts = Parts(year: nat, month: nat, day: nat, hour: nat, minute: nat, second: nat, micros: nat)

  function PartsOf(time: Micros): Parts {
    var seconds := time / 1_000_000;
    var minutes := seconds / 60;
    var hours := minutes / 60;
    var day := hours / 24;
    var leap := Leap(YearOf(day));
    Parts(YearOf(day), MonthOf(leap, DayOfYear(day)), DayOfMonth(leap, DayOfYear(day)), hours % 24, minutes % 60,
          seconds % 60,
          time % 1_000_000)
  }

  predicate Fits(parts: Parts) {
    && parts.year <= LAST_YEAR && parts.month < 100 && parts.day < 100
    && parts.hour < 100 && parts.minute < 100 && parts.second < 100 && parts.micros < 1_000_000
  }

  lemma Powers()
    ensures Power(2) == 100 && Power(4) == 10_000 && Power(6) == 1_000_000
  {
    assert Power(1) == 10 && Power(3) == 1_000 && Power(5) == 100_000;
  }

  function Fraction(micros: nat): string
    requires micros < 1_000_000
  {
    Powers();
    if micros == 0 then "" else "." + Padded(micros, 6)
  }

  /** `YYYY-MM-DD hh:mm:ss`, with `.ffffff` only when there are microseconds. */
  function Printed(parts: Parts): string
    requires Fits(parts)
  {
    Powers();
    Part(parts.year, 4, "-", Part(parts.month, 2, "-", Part(parts.day, 2, " ", Clock(parts))))
  }

  function Clock(parts: Parts): string
    requires Fits(parts)
  {
    Powers();
    Part(parts.hour, 2, ":", Part(parts.minute, 2, ":", Part(parts.second, 2, "", Fraction(parts.micros))))
  }

  lemma FractionsAreOrdered(one: nat, other: nat)
    requires one < 1_000_000 && other < 1_000_000
    ensures Less(Fraction(one), Fraction(other)) <==> one < other
  {
    Powers();
    if one != 0 && other != 0 {
      PaddedIsOrdered(one, other, 6);
      LessAfterPrefix(".", ".", Padded(one, 6), Padded(other, 6));
    }
  }

  /** Earlier in the day, by hour, minute, second and microsecond. */
  predicate ClockBefore(one: Parts, other: Parts) {
    || one.hour < other.hour
    || (one.hour == other.hour
        && (one.minute < other.minute
            || (one.minute == other.minute
                && (one.second < other.second || (one.second == other.second && one.micros < other.micros)))))
  }

  predicate DateBefore(one: Parts, other: Parts) {
    || one.year < other.year
    || (one.year == other.year && (one.month < other.month || (one.month == other.month && one.day < other.day)))
  }

  predicate SameDate(one: Parts, other: Parts) {
    one.year == other.year && one.month == other.month && one.day == other.day
  }

  predicate Before(one: Parts, other: Parts) {
    DateBefore(one, other) || (SameDate(one, other) && ClockBefore(one, other))
  }

  lemma ClocksAreOrdered(one: Parts, other: Parts)
    requires Fits(one) && Fits(other)
    ensures Less(Clock(one), Clock(other)) <==> ClockBefore(one, other)
  {
    Powers();
    hide Part, Power, Less, Fraction;
    FractionsAreOrdered(one.micros, other.micros);
    var second, its := Part(one.second, 2, "", Fraction(one.micros)), Part(other.second, 2, "", Fraction(other.micros));
    PartDecides(one.second, other.second, 2, "", Fraction(one.micros), Fraction(other.micros));
    PartDecides(one.minute, other.minute, 2, ":", second, its);
    PartDecides(one.hour, other.hour, 2, ":", Part(one.minute, 2, ":", second), Part(other.minute, 2, ":", its));
  }

  lemma PrintedIsOrdered(one: Parts, other: Parts)
    requires Fits(one) && Fits(other)
    ensures Less(Printed(one), Printed(other)) <==> Before(one, other)
  {
    Powers();
    hide Part, Power, Less, Clock;
    ClocksAreOrdered(one, other);
    hide ClockBefore;
    var day, its := Part(one.day, 2, " ", Clock(one)), Part(other.day, 2, " ", Clock(other));
    PartDecides(one.day, other.day, 2, " ", Clock(one), Clock(other));
    PartDecides(one.month, other.month, 2, "-", day, its);
    PartDecides(one.year, other.year, 4, "-", Part(one.month, 2, "-", day), Part(other.month, 2, "-", its));
  }

  // --- Order of times -------------------------------------------------------------------------

  lemma SmallerQuotient(one: nat, rest: nat, other: nat, its: nat, unit: nat)
    requires one < other && rest < unit
    ensures one * unit + rest < other * unit + its
  {
    var gap := other - one - 1;
    assert other == one + (1 + gap);
    Distributes(one, 1 + gap, unit);
    Distributes(1, gap, unit);
    ProductIsNat(gap, unit);
  }

  lemma Distributes(one: nat, other: nat, unit: nat)
    ensures (one + other) * unit == one * unit + other * unit
  {
  }

  lemma ProductIsNat(one: nat, unit: nat)
    ensures one * unit >= 0
  {
  }

  lemma PartsDecide(one: nat, rest: nat, other: nat, its: nat, unit: nat)
    requires rest < unit && its < unit
    ensures one * unit + rest < other * unit + its <==> one < other || (one == other && rest < its)
  {
    if one < other {
      SmallerQuotient(one, rest, other, its, unit);
    } else if other < one {
      SmallerQuotient(other, its, one, rest, unit);
    }
  }

  lemma DaysAreOrdered(one: Day, other: Day)
    ensures
      var year, its := YearOf(one), YearOf(other);
      one < other <==> year < its || (year == its && DayOfYear(one) < DayOfYear(other))
  {
    if one < other {
      YearsAreOrdered(one, other);
    } else {
      YearsAreOrdered(other, one);
    }
  }

  /** The day of a time, the way the parts reach it. */
  function DayIn(time: Micros): Day {
    time / 1_000_000 / 60 / 60 / 24
  }

  lemma DayIsItsOwn(time: Micros)
    ensures DayIn(time) == DayOf(time)
  {
  }

  lemma DatesAreOrdered(one: Micros, other: Micros)
    ensures DateBefore(PartsOf(one), PartsOf(other)) <==> DayIn(one) < DayIn(other)
    ensures SameDate(PartsOf(one), PartsOf(other)) <==> DayIn(one) == DayIn(other)
  {
    var day, its := DayIn(one), DayIn(other);
    DaysAreOrdered(day, its);
    DaysAreOrdered(its, day);
    if YearOf(day) == YearOf(its) {
      MonthsAreOrdered(Leap(YearOf(day)), DayOfYear(day), DayOfYear(its));
      MonthsAreOrdered(Leap(YearOf(day)), DayOfYear(its), DayOfYear(day));
    }
  }

  lemma PartsAreOrdered(one: Micros, other: Micros)
    ensures Before(PartsOf(one), PartsOf(other)) <==> one < other
  {
    DatesAreOrdered(one, other);
    hide DateBefore, SameDate, YearOf, DayOfYear, MonthOf, DayOfMonth, Leap;
    var second, its := one / 1_000_000, other / 1_000_000;
    PartsDecide(second, one % 1_000_000, its, other % 1_000_000, 1_000_000);
    var minute, at := second / 60, its / 60;
    PartsDecide(minute, second % 60, at, its % 60, 60);
    var hour, itsHour := minute / 60, at / 60;
    PartsDecide(hour, minute % 60, itsHour, at % 60, 60);
    PartsDecide(hour / 24, hour % 24, itsHour / 24, itsHour % 24, 24);
  }

  lemma PartsFit(time: Micros)
    requires YearOf(DayOf(time)) <= LAST_YEAR
    ensures Fits(PartsOf(time))
  {
    DayIsItsOwn(time);
    var day := DayOf(time);
    DayOfMonthFits(Leap(YearOf(day)), DayOfYear(day));
  }

  /** The days before the first of each month, in a common year and in a leap year. */
  function DaysBefore(leap: bool, month: nat): nat {
    var days := [0, 31, 59, 90, 120, 151, 181, 212, 243, 273, 304, 334];
    if 1 <= month <= 12 then days[month - 1] + (if leap && month > 2 then 1 else 0) else 0
  }

  lemma DaysBeforeIsStart(leap: bool, month: Month)
    ensures DaysBefore(leap, month) == MonthStart(leap, month)
  {
    MonthStarts(leap);
  }

  /** The parts are a day of the Gregorian calendar and a time of that day, and add up to the time. */
  lemma PartsAreTheTime(time: Micros)
    ensures
      var parts := PartsOf(time);
      var year := parts.year;
      var leap := year % 4 == 0 && (year % 100 != 0 || year % 400 == 0);
      var years := 365 * year + (year + 3) / 4 - (year + 99) / 100 + (year + 399) / 400;
      var days := years + DaysBefore(leap, parts.month) + parts.day - 1;
      && 1 <= parts.month <= 12 && 1 <= parts.day <= 31
      && (parts.month < 12 ==> DaysBefore(leap, parts.month) + parts.day <= DaysBefore(leap, parts.month + 1))
      && parts.hour < 24 && parts.minute < 60 && parts.second < 60 && parts.micros < 1_000_000
      && (((days * 24 + parts.hour) * 60 + parts.minute) * 60 + parts.second) * 1_000_000 + parts.micros == time
  {
    hide MonthStart, MonthLength, MonthFrom, Start, YearOf, Length, DaysBefore;
    var day := DayIn(time);
    var year, index := YearOf(day), DayOfYear(day);
    var month := MonthOf(Leap(year), index);
    DayIsInItsYear(day);
    DayOfMonthFits(Leap(year), index);
    MonthBounds(Leap(year), index);
    StartIsGregorian(year);
    DaysBeforeIsStart(Leap(year), month);
    if month < 12 {
      DaysBeforeIsStart(Leap(year), month + 1);
    }
    ClockAddsUp(time);
  }

  lemma DayIsInItsYear(day: Day)
    ensures Start(YearOf(day)) + DayOfYear(day) == day && DayOfYear(day) < if Leap(YearOf(day)) then 366 else 365
  {
    hide Start, YearOf;
  }

  lemma ClockAddsUp(time: Micros)
    ensures
      var parts := PartsOf(time);
      && (((DayIn(time) * 24 + parts.hour) * 60 + parts.minute) * 60 + parts.second) * 1_000_000 + parts.micros == time
      && parts.hour < 24 && parts.minute < 60 && parts.second < 60 && parts.micros < 1_000_000
  {
    hide YearOf, MonthOf, DayOfYear, DayOfMonth, Leap;
  }

  /** A padded number reads back as the number. */
  lemma {:induction false} PaddedReadsBack(n: nat, width: nat)
    requires n < Power(width)
    ensures AllDigits(Padded(n, width)) && Decimal(Padded(n, width)) == n
  {
    if width > 0 {
      var most := Padded(n / 10, width - 1);
      PaddedReadsBack(n / 10, width - 1);
      assert Padded(n, width)[..width - 1] == most;
      assert ValueOf(LastDigit(n)) == n % 10;
    }
  }

  /** A number of this width is at this place of the text. */
  predicate Reads(text: string, from: nat, width: nat, n: nat) {
    && from + width <= |text| && AllDigits(text[from..from + width]) && Decimal(text[from..from + width]) == n
  }

  /** Where a part begins its number is read, behind that its separator, and behind that the rest. */
  lemma PartReads(text: string, from: nat, n: nat, width: nat, separator: string, rest: string)
    requires n < Power(width) && from <= |text| && text[from..] == Part(n, width, separator, rest)
    ensures |text| == from + width + |separator| + |rest|
    ensures Reads(text, from, width, n)
    ensures separator != "" ==> text[from + width] == separator[0]
    ensures text[from + width + |separator|..] == rest
  {
    hide Padded, AllDigits, Decimal, Power;
    PaddedReadsBack(n, width);
    var part := Part(n, width, separator, rest);
    assert part[..width] == Padded(n, width) && text[from..from + width] == part[..width];
    assert separator != "" ==> part[width] == separator[0];
    assert part[width + |separator|..] == rest && text[from + width + |separator|..] == part[width + |separator|..];
  }

  lemma FractionReads(text: string, from: nat, micros: nat)
    requires 0 < micros < 1_000_000 && from <= |text| && text[from..] == Fraction(micros)
    ensures |text| == from + 7 && text[from] == '.' && Reads(text, from + 1, 6, micros)
  {
    hide Padded, AllDigits, Decimal;
    Powers();
    hide Power;
    PaddedReadsBack(micros, 6);
    assert text[from..][1..] == Padded(micros, 6) && text[from + 1..] == text[from..][1..];
    assert text[from + 1..from + 7] == text[from + 1..];
  }

  /** The text is `YYYY-MM-DD hh:mm:ss`, and `.ffffff` behind it when there are microseconds. */
  lemma PrintedReads(parts: Parts)
    requires Fits(parts)
    ensures
      var text := Printed(parts);
      && |text| == (if parts.micros == 0 then 19 else 26)
      && Reads(text, 0, 4, parts.year) && text[4] == '-' && Reads(text, 5, 2, parts.month) && text[7] == '-'
      && Reads(text, 8, 2, parts.day) && text[10] == ' ' && Reads(text, 11, 2, parts.hour) && text[13] == ':'
      && Reads(text, 14, 2, parts.minute) && text[16] == ':' && Reads(text, 17, 2, parts.second)
      && (parts.micros > 0 ==> text[19] == '.' && Reads(text, 20, 6, parts.micros))
  {
    hide Padded, Part, Reads;
    Powers();
    hide Power;
    var fraction := Fraction(parts.micros);
    var second := Part(parts.second, 2, "", fraction);
    var minute := Part(parts.minute, 2, ":", second);
    var hour := Part(parts.hour, 2, ":", minute);
    var day := Part(parts.day, 2, " ", hour);
    var month := Part(parts.month, 2, "-", day);
    var text := Printed(parts);
    assert text[0..] == text;
    PartReads(text, 0, parts.year, 4, "-", month);
    PartReads(text, 5, parts.month, 2, "-", day);
    PartReads(text, 8, parts.day, 2, " ", hour);
    PartReads(text, 11, parts.hour, 2, ":", minute);
    PartReads(text, 14, parts.minute, 2, ":", second);
    PartReads(text, 17, parts.second, 2, "", fraction);
    if parts.micros > 0 {
      FractionReads(text, 19, parts.micros);
    }
  }

  /** For years 0 to 9999, comparing the texts is comparing the times, also when only one carries the fraction. */
  lemma TextOrderIsTimeOrder(one: Micros, other: Micros)
    requires YearOf(DayOf(one)) <= LAST_YEAR && YearOf(DayOf(other)) <= LAST_YEAR
    ensures Fits(PartsOf(one)) && Fits(PartsOf(other))
    ensures Less(Printed(PartsOf(one)), Printed(PartsOf(other))) <==> one < other
    ensures Printed(PartsOf(one)) == Printed(PartsOf(other)) <==> one == other
  {
    PartsFit(one);
    PartsFit(other);
    PrintedIsOrdered(PartsOf(one), PartsOf(other));
    PrintedIsOrdered(PartsOf(other), PartsOf(one));
    PartsAreOrdered(one, other);
    PartsAreOrdered(other, one);
    LessIsStrict(Printed(PartsOf(one)));
  }
}
