/** Month navigation of the roster header: stepping a zero-based (month, year)
    pair back or forward by one month, wrapping across year boundaries. The
    source hands the new values to state setters; here they are returned. */
module RosterHeader {
  import opened RosterTypes
  import opened Calendar

  datatype MonthYear = MonthYear(month: int, year: int)

  /** Absolute month count of a (month, year) pair. */
  function MonthCount(p: MonthYear): int
  {
    p.year * 12 + p.month
  }

  /** `prevMonth`: January goes to December of the previous year; any other
      month goes to the month before, in the same year. */
  function PrevMonth(p: MonthYear): (r: MonthYear)
    ensures MonthCount(r) == MonthCount(p) - 1
    ensures ValidMonth(p.month) ==> ValidMonth(r.month)
    ensures p.month != 0 ==> r.year == p.year
  {
    if p.month == 0 then MonthYear(11, p.year - 1) else MonthYear(p.month - 1, p.year)
  }

  /** `nextMonth`: December goes to January of the next year; any other month
      goes to the month after, in the same year. */
  function NextMonth(p: MonthYear): (r: MonthYear)
    ensures MonthCount(r) == MonthCount(p) + 1
    ensures ValidMonth(p.month) ==> ValidMonth(r.month)
    ensures p.month != 11 ==> r.year == p.year
  {
    if p.month == 11 then MonthYear(0, p.year + 1) else MonthYear(p.month + 1, p.year)
  }

  /** On valid months each step undoes the other. */
  lemma StepsAreInverse(p: MonthYear)
    requires ValidMonth(p.month)
    ensures NextMonth(PrevMonth(p)) == p
    ensures PrevMonth(NextMonth(p)) == p
  {
  }

  /** The month `NextMonth` selects starts on the day after the last day of
      the current month. */
  lemma NextMonthFollowsCalendar(p: MonthYear)
    requires ValidMonth(p.month)
    ensures var n := NextMonth(p);
      DayNumber(n.year, n.month, 1) == DayNumber(p.year, p.month, DaysInMonth(p.year, p.month) + 1)
  {
    MonthsTile(p.year, p.month);
    if p.month == 11 {
      MonthTwelveIsNextJanuary(p.year);
    }
  }

  /** The current month starts on the day after the last day of the month
      `PrevMonth` selects. */
  lemma PrevMonthFollowsCalendar(p: MonthYear)
    requires ValidMonth(p.month)
    ensures var q := PrevMonth(p);
      DayNumber(p.year, p.month, 1) == DayNumber(q.year, q.month, DaysInMonth(q.year, q.month) + 1)
  {
    StepsAreInverse(p);
    NextMonthFollowsCalendar(PrevMonth(p));
  }
}
