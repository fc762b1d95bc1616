/** Calendar arithmetic that the engine takes from JavaScript's Date and the
    date-fns library: month lengths, the day number of `new Date(year, month,
    day)`, `getDay()`. Days are counted from 1 January 1970 in the proleptic
    Gregorian calendar; time of day and time zones are not modelled. */
module Calendar {
  import opened RosterTypes

  /** The Gregorian leap-year rule. */
  predicate IsLeapYear(y: int)
  {
    (y % 4 == 0 && y % 100 != 0) || y % 400 == 0
  }

  /** Length of month `m` (0 = January) of year `y`. */
  function MonthLength(y: int, m: int): (n: int)
    requires 0 <= m < 12
    ensures 28 <= n <= 31
    ensures n == 29 <==> m == 1 && IsLeapYear(y)
    ensures n == 28 <==> m == 1 && !IsLeapYear(y)
    ensures n == 30 <==> m in {3, 5, 8, 10}
  {
    if m == 1 then (if IsLeapYear(y) then 29 else 28)
    else if m == 3 || m == 5 || m == 8 || m == 10 then 30
    else 31
  }

  /** The year of `new Date(year, month)`: a month outside 0..11 carries into the year. */
  function NormalYear(year: int, month: int): int
  {
    year + month / 12
  }

  /** The zero-based month of `new Date(year, month)`. */
  function NormalMonth(month: int): int
  {
    month % 12
  }

  /** Normalising keeps the absolute month count and lands in 0..11. */
  lemma NormalizationKeepsMonthCount(year: int, month: int)
    ensures 0 <= NormalMonth(month) < 12
    ensures NormalYear(year, month) * 12 + NormalMonth(month) == year * 12 + month
    ensures ValidMonth(month) ==> NormalYear(year, month) == year && NormalMonth(month) == month
  {
  }

  /** `getDaysInMonth(new Date(year, month))`. */
  function DaysInMonth(year: int, month: int): (n: int)
    ensures 28 <= n <= 31
  {
    MonthLength(NormalYear(year, month), NormalMonth(month))
  }

  /** Days from 1 January of year 0 to 1 January of year `y`: 365 per year plus
      one per leap year in [0, y) (negative counts for negative `y`). */
  function DaysBeforeYear(y: int): int
  {
    365 * y + (y + 3) / 4 - (y + 99) / 100 + (y + 399) / 400
  }

  /** Days from 1 January to the first day of month `m` in a common year. */
  const CumulativeDays: seq<int> := [0, 31, 59, 90, 120, 151, 181, 212, 243, 273, 304, 334, 365]

  /** Days from 1 January of year `y` to the first day of month `m` (`m` = 12
      gives the length of the year). */
  function DaysBeforeMonth(y: int, m: int): int
    requires 0 <= m <= 12
  {
    CumulativeDays[m] + (if m >= 2 && IsLeapYear(y) then 1 else 0)
  }

  /** The first day of month `m + 1` is `MonthLength(y, m)` days after the
      first day of month `m`. */
  lemma MonthStep(y: int, m: int)
    requires 0 <= m < 12
    ensures DaysBeforeMonth(y, m + 1) == DaysBeforeMonth(y, m) + MonthLength(y, m)
  {
  }

  /** Day number of 1 January 1970. */
  const Epoch: int := DaysBeforeYear(1970)

  /** The day of `new Date(year, month, day)`; a day outside the month runs on
      into the neighbouring months, as JavaScript's Date does. */
  function DayNumber(year: int, month: int, day: int): (d: Day)
    ensures 1 <= day <= DaysInMonth(year, month) ==>
      DaysBeforeYear(NormalYear(year, month)) - Epoch <= d < DaysBeforeYear(NormalYear(year, month) + 1) - Epoch
  {
    var y, m := NormalYear(year, month), NormalMonth(month);
    YearLength(y);
    MonthStep(y, m);
    DaysBeforeYear(y) + DaysBeforeMonth(y, m) - Epoch + day - 1
  }

  /** `getDay()`: 0 = Sunday, ..., 6 = Saturday. 1 January 1970 was a Thursday. */
  function Weekday(d: Day): (w: int)
    ensures 0 <= w < 7
  {
    (d + 4) % 7
  }

  lemma {:induction false} StepQuotient4(y: int)
    ensures (y + 4) / 4 - (y + 3) / 4 == if y % 4 == 0 then 1 else 0
  {
  }

  lemma {:induction false} StepQuotient100(y: int)
    ensures (y + 100) / 100 - (y + 99) / 100 == if y % 100 == 0 then 1 else 0
  {
  }

  lemma {:induction false} StepQuotient400(y: int)
    ensures (y + 400) / 400 - (y + 399) / 400 == if y % 400 == 0 then 1 else 0
  {
  }

  /** A year has 366 days exactly when it is a leap year. */
  lemma {:induction false} YearLength(y: int)
    ensures DaysBeforeYear(y + 1) - DaysBeforeYear(y) == if IsLeapYear(y) then 366 else 365
    ensures DaysBeforeMonth(y, 12) == DaysBeforeYear(y + 1) - DaysBeforeYear(y)
  {
    StepQuotient4(y);
    StepQuotient100(y);
    StepQuotient400(y);
    var a, b, c := (y + 4) / 4 - (y + 3) / 4, (y + 100) / 100 - (y + 99) / 100, (y + 400) / 400 - (y + 399) / 400;
    assert DaysBeforeYear(y + 1) - DaysBeforeYear(y) == 365 + a - b + c;
    assert DaysBeforeMonth(y, 12) == 365 + (if IsLeapYear(y) then 1 else 0);
    DivisibilityChain(y);
    assert (if IsLeapYear(y) then 1 else 0) == a - b + c;
  }

  /** A multiple of 400 is a multiple of 100, and a multiple of 100 is a
      multiple of 4. */
  lemma DivisibilityChain(y: int)
    ensures y % 400 == 0 ==> y % 100 == 0
    ensures y % 100 == 0 ==> y % 4 == 0
  {
    var k400, k100 := y / 400, y / 100;
    assert y == 400 * k400 + y % 400;
    assert y == 100 * k100 + y % 100;
    if y % 400 == 0 {
      assert y == 100 * (4 * k400) + 0;
    }
    if y % 100 == 0 {
      assert y == 4 * (25 * k100) + 0;
    }
  }

  /** The day after the last day of a month is the first day of the next
      month: consecutive months tile the day line without gap or overlap. */
  lemma {:induction false} MonthsTile(year: int, month: int)
    ensures DayNumber(year, month, DaysInMonth(year, month) + 1) == DayNumber(year, month + 1, 1)
  {
    var y, m := NormalYear(year, month), NormalMonth(month);
    MonthStep(y, m);
    if m < 11 {
      assert NormalYear(year, month + 1) == y && NormalMonth(month + 1) == m + 1;
    } else {
      assert NormalYear(year, month + 1) == y + 1 && NormalMonth(month + 1) == 0;
      YearLength(y);
    }
  }

  /** Month 12 of a year is January of the next: `new Date(y, 12, 1)`. */
  lemma MonthTwelveIsNextJanuary(y: int)
    ensures DayNumber(y, 12, 1) == DayNumber(y + 1, 0, 1)
  {
    assert NormalYear(y, 12) == y + 1 && NormalMonth(12) == 0;
  }

  /** Days of one month are consecutive day numbers. */
  lemma DaysOfMonthAreConsecutive(year: int, month: int, day: int)
    ensures DayNumber(year, month, day + 1) == DayNumber(year, month, day) + 1
  {
  }

  /** Day `day` of a month is `day - 1` days after its first day. */
  lemma DayOffset(year: int, month: int, day: int)
    ensures DayNumber(year, month, day) == DayNumber(year, month, 1) + (day - 1)
  {
  }

  /** Day 0 is 1 January 1970, a Thursday. */
  lemma EpochIsThursday()
    ensures DayNumber(1970, 0, 1) == 0 && Weekday(0) == 4
  {
  }

  /** 1 April 2024 is day 19814, a Monday. */
  lemma AprilFirst2024IsMonday()
    ensures DayNumber(2024, 3, 1) == 19814 && Weekday(19814) == 1
  {
    assert DaysBeforeYear(1970) == 719528;
    assert DaysBeforeYear(2024) == 739251;
    assert DaysBeforeMonth(2024, 3) == 91;
  }

  /** 6 and 13 April 2024 are Saturdays. */
  lemma AprilSaturdays2024()
    ensures DayNumber(2024, 3, 6) == 19819 && Weekday(19819) == 6
    ensures DayNumber(2024, 3, 13) == 19826 && Weekday(19826) == 6
  {
    AprilFirst2024IsMonday();
    DayOffset(2024, 3, 6);
    DayOffset(2024, 3, 13);
  }

  /** February has 29 days in leap years only; April has 30. */
  lemma MonthLengthExamples()
    ensures DaysInMonth(2024, 1) == 29 && DaysInMonth(2023, 1) == 28 && DaysInMonth(1900, 1) == 28
    ensures DaysInMonth(2000, 1) == 29 && DaysInMonth(2024, 3) == 30
  {
  }
}
