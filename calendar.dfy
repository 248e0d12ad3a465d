/** Paging of the month and week views (on_prev_button_clicked and
    on_next_button_clicked in src/SchedulerApp.cpp): a broken-down date is
    stepped by a month or by seven days and then normalised as mktime does.
    Dates are proleptic Gregorian, with the month counted 0..11 as in tm_mon
    and the full year (tm_year + 1900); the time of day is not modelled. */
module Calendar {

  datatype Date = Date(year: int, month: int, day: int)

  predicate IsLeap(y: int) {
    y % 4 == 0 && (y % 100 != 0 || y % 400 == 0)
  }

  function DaysInMonth(y: int, m: int): (n: int)
    requires 0 <= m < 12
    ensures 28 <= n <= 31
  {
    if m == 1 then (if IsLeap(y) then 29 else 28)
    else if m == 3 || m == 5 || m == 8 || m == 10 then 30
    else 31
  }

  function DaysInYear(y: int): int {
    if IsLeap(y) then 366 else 365
  }

  /** A date as mktime leaves it: month in 0..11 and day within the month. */
  predicate ValidDate(d: Date) {
    0 <= d.month < 12 && 1 <= d.day <= DaysInMonth(d.year, d.month)
  }

  /** Days from 1 January of year 0 to 1 January of year y: 365 per year plus
      one per leap year in [0, y). */
  function DaysBeforeYear(y: int): int {
    365 * y + (y + 3) / 4 - (y + 99) / 100 + (y + 399) / 400
  }

  /** Days in the months of year y before month m. */
  function DaysBeforeMonth(y: int, m: int): int
    requires 0 <= m <= 12
  {
    if m == 0 then 0 else DaysBeforeMonth(y, m - 1) + DaysInMonth(y, m - 1)
  }

  /** The day's number counted from 1 January of year 0; meaningful for any
      day of the month, in or out of range, as mktime reads tm_mday. */
  function DayNumber(d: Date): int
    requires 0 <= d.month < 12
  {
    DaysBeforeYear(d.year) + DaysBeforeMonth(d.year, d.month) + d.day - 1
  }

  /** The leap-year counters of DaysBeforeYear grow by one exactly at a
      multiple of their period: four years, a century, four centuries. */
  lemma FourYearCounter(y: int)
    ensures (y + 4) / 4 == (y + 3) / 4 + (if y % 4 == 0 then 1 else 0)
  {
    var q, r := y / 4, y % 4;
    assert y == 4 * q + r && 0 <= r < 4;
    assert (y + 4) / 4 == q + 1;
    assert (y + 3) / 4 == if r == 0 then q else q + 1;
  }

  lemma CenturyCounter(y: int)
    ensures (y + 100) / 100 == (y + 99) / 100 + (if y % 100 == 0 then 1 else 0)
  {
    var q, r := y / 100, y % 100;
    assert y == 100 * q + r && 0 <= r < 100;
    assert (y + 100) / 100 == q + 1;
    assert (y + 99) / 100 == if r == 0 then q else q + 1;
  }

  lemma FourCenturyCounter(y: int)
    ensures (y + 400) / 400 == (y + 399) / 400 + (if y % 400 == 0 then 1 else 0)
  {
    var q, r := y / 400, y % 400;
    assert y == 400 * q + r && 0 <= r < 400;
    assert (y + 400) / 400 == q + 1;
    assert (y + 399) / 400 == if r == 0 then q else q + 1;
  }

  /** The length of year y as the sum of the three counters' steps. */
  lemma LeapAsCounters(y: int)
    ensures DaysInYear(y) == 365 + (if y % 4 == 0 then 1 else 0) -
      (if y % 100 == 0 then 1 else 0) + (if y % 400 == 0 then 1 else 0)
  {
    if y % 400 == 0 {
      var q := y / 400;
      assert y == 100 * (4 * q);
    }
    if y % 100 == 0 {
      var q := y / 100;
      assert y == 4 * (25 * q);
    }
  }

  lemma YearStep(y: int)
    ensures DaysBeforeYear(y + 1) == DaysBeforeYear(y) + DaysInYear(y)
  {
    FourYearCounter(y);
    CenturyCounter(y);
    FourCenturyCounter(y);
    LeapAsCounters(y);
  }

  lemma WholeYear(y: int)
    ensures DaysBeforeMonth(y, 12) == DaysInYear(y)
  {
    var feb := DaysInMonth(y, 1);
    assert DaysBeforeMonth(y, 1) == 31;
    assert DaysBeforeMonth(y, 2) == 31 + feb;
    assert DaysBeforeMonth(y, 3) == 62 + feb;
    assert DaysBeforeMonth(y, 4) == 92 + feb;
    assert DaysBeforeMonth(y, 5) == 123 + feb;
    assert DaysBeforeMonth(y, 6) == 153 + feb;
    assert DaysBeforeMonth(y, 7) == 184 + feb;
    assert DaysBeforeMonth(y, 8) == 215 + feb;
    assert DaysBeforeMonth(y, 9) == 245 + feb;
    assert DaysBeforeMonth(y, 10) == 276 + feb;
    assert DaysBeforeMonth(y, 11) == 306 + feb;
    assert DaysBeforeMonth(y, 12) == 337 + feb;
  }

  // ---------------------------------------------------------------------
  // Normalisation of an out-of-range day, as mktime does

  /** Carry days forward while the day is past the end of its month. */
  function NormaliseUp(y: int, m: int, day: int): (r: Date)
    requires 0 <= m < 12 && 1 <= day
    ensures ValidDate(r) && DayNumber(r) == DayNumber(Date(y, m, day))
    decreases day
  {
    var n := DaysInMonth(y, m);
    if day <= n then Date(y, m, day)
    else if m == 11 then
      YearStep(y);
      WholeYear(y);
      NormaliseUp(y + 1, 0, day - n)
    else NormaliseUp(y, m + 1, day - n)
  }

  /** Borrow days from the previous month while the day is before the first. */
  function NormaliseDown(y: int, m: int, day: int): (r: Date)
    requires 0 <= m < 12 && day <= DaysInMonth(y, m)
    ensures ValidDate(r) && DayNumber(r) == DayNumber(Date(y, m, day))
    decreases 1 - day
  {
    if 1 <= day then Date(y, m, day)
    else if m == 0 then
      YearStep(y - 1);
      WholeYear(y - 1);
      NormaliseDown(y - 1, 11, day + DaysInMonth(y - 1, 11))
    else NormaliseDown(y, m - 1, day + DaysInMonth(y, m - 1))
  }

  /** mktime on a date whose month is in range and whose day may not be. */
  function Normalise(y: int, m: int, day: int): (r: Date)
    requires 0 <= m < 12
    ensures ValidDate(r) && DayNumber(r) == DayNumber(Date(y, m, day))
  {
    if day < 1 then NormaliseDown(y, m, day) else NormaliseUp(y, m, day)
  }

  // ---------------------------------------------------------------------
  // Day numbers identify valid dates

  lemma {:induction false} DaysBeforeMonthGrows(y: int, m1: int, m2: int)
    requires 0 <= m1 <= m2 <= 12
    ensures DaysBeforeMonth(y, m1) + 28 * (m2 - m1) <= DaysBeforeMonth(y, m2)
    decreases m2 - m1
  {
    if m1 < m2 {
      DaysBeforeMonthGrows(y, m1, m2 - 1);
    }
  }

  lemma {:induction false} DaysBeforeYearGrows(y1: int, y2: int)
    requires y1 < y2
    ensures DaysBeforeYear(y1 + 1) <= DaysBeforeYear(y2)
    decreases y2 - y1
  {
    if y1 + 1 < y2 {
      DaysBeforeYearGrows(y1, y2 - 1);
      YearStep(y2 - 1);
    }
  }

  /** A valid date's day number lies within its year and within its month. */
  lemma DayNumberBounds(d: Date)
    requires ValidDate(d)
    ensures DaysBeforeYear(d.year) <= DayNumber(d) < DaysBeforeYear(d.year + 1)
    ensures DaysBeforeMonth(d.year, d.month) <= DayNumber(d) - DaysBeforeYear(d.year)
    ensures DayNumber(d) - DaysBeforeYear(d.year) < DaysBeforeMonth(d.year, d.month + 1)
  {
    YearStep(d.year);
    WholeYear(d.year);
    assert DaysBeforeMonth(d.year, d.month + 1) == DaysBeforeMonth(d.year, d.month) + DaysInMonth(d.year, d.month);
    DaysBeforeMonthGrows(d.year, d.month + 1, 12);
    DaysBeforeMonthGrows(d.year, 0, d.month);
  }

  /** Distinct valid dates have distinct day numbers. */
  lemma DayNumberInjective(a: Date, b: Date)
    requires ValidDate(a) && ValidDate(b) && DayNumber(a) == DayNumber(b)
    ensures a == b
  {
    assert a.year == b.year by {
      DayNumberBounds(a);
      DayNumberBounds(b);
      if a.year < b.year {
        DaysBeforeYearGrows(a.year, b.year);
      } else if b.year < a.year {
        DaysBeforeYearGrows(b.year, a.year);
      }
    }
    assert a.month == b.month by {
      DayNumberBounds(a);
      DayNumberBounds(b);
      if a.month < b.month {
        DaysBeforeMonthGrows(a.year, a.month + 1, b.month);
      } else if b.month < a.month {
        DaysBeforeMonthGrows(a.year, b.month + 1, a.month);
      }
    }
  }

  /** Normalising a valid date changes nothing. */
  lemma NormaliseValid(d: Date)
    requires ValidDate(d)
    ensures Normalise(d.year, d.month, d.day) == d
  {
  }

  // ---------------------------------------------------------------------
  // Month paging

  /** The tm_mon/tm_year step: December and January wrap into the adjacent year. */
  function PrevMonthOf(d: Date): (r: Date)
    requires ValidDate(d)
    ensures 0 <= r.month < 12 && r.day == d.day
    ensures d.month == 0 ==> r.year == d.year - 1 && r.month == 11
    ensures d.month != 0 ==> r.year == d.year && r.month == d.month - 1
  {
    if d.month == 0 then Date(d.year - 1, 11, d.day) else Date(d.year, d.month - 1, d.day)
  }

  function NextMonthOf(d: Date): (r: Date)
    requires ValidDate(d)
    ensures 0 <= r.month < 12 && r.day == d.day
    ensures d.month == 11 ==> r.year == d.year + 1 && r.month == 0
    ensures d.month != 11 ==> r.year == d.year && r.month == d.month + 1
  {
    if d.month == 11 then Date(d.year + 1, 0, d.day) else Date(d.year, d.month + 1, d.day)
  }

  /** The handlers as written: the day of the month is kept and mktime
      normalises it, so a day past the end of the target month spills over
      into the month after it. */
  function PrevMonthAsWritten(d: Date): (r: Date)
    requires ValidDate(d)
    ensures ValidDate(r) && DayNumber(r) == DayNumber(PrevMonthOf(d))
    ensures ValidDate(PrevMonthOf(d)) ==> r == PrevMonthOf(d)
  {
    var p := PrevMonthOf(d);
    Normalise(p.year, p.month, p.day)
  }

  function NextMonthAsWritten(d: Date): (r: Date)
    requires ValidDate(d)
    ensures ValidDate(r) && DayNumber(r) == DayNumber(NextMonthOf(d))
    ensures ValidDate(NextMonthOf(d)) ==> r == NextMonthOf(d)
  {
    var n := NextMonthOf(d);
    Normalise(n.year, n.month, n.day)
  }

  /** Paging back from 31 March 2025 lands on 3 March 2025: the month does not change. */
  lemma PrevMonthAsWrittenStaysInMarch()
    ensures PrevMonthAsWritten(Date(2025, 2, 31)) == Date(2025, 2, 3)
    ensures PrevMonthAsWritten(Date(2025, 2, 31)).month == Date(2025, 2, 31).month
  {
    assert DaysInMonth(2025, 1) == 28;
    assert NormaliseUp(2025, 1, 31) == NormaliseUp(2025, 2, 3);
  }

  /** Paging forward from 31 January 2025 lands on 3 March 2025: February is skipped. */
  lemma NextMonthAsWrittenSkipsFebruary()
    ensures NextMonthAsWritten(Date(2025, 0, 31)) == Date(2025, 2, 3)
  {
    assert DaysInMonth(2025, 1) == 28;
    assert NormaliseUp(2025, 1, 31) == NormaliseUp(2025, 2, 3);
  }

  /** Paging selects the first day of the new month, which the handlers'
      comment says is meant, so the step always lands in the adjacent month. */
  function PrevMonth(d: Date): (r: Date)
    requires ValidDate(d)
    ensures ValidDate(r) && r.day == 1
    ensures d.month == 0 ==> r.year == d.year - 1 && r.month == 11
    ensures d.month != 0 ==> r.year == d.year && r.month == d.month - 1
  {
    PrevMonthOf(d).(day := 1)
  }

  function NextMonth(d: Date): (r: Date)
    requires ValidDate(d)
    ensures ValidDate(r) && r.day == 1
    ensures d.month == 11 ==> r.year == d.year + 1 && r.month == 0
    ensures d.month != 11 ==> r.year == d.year && r.month == d.month + 1
  {
    NextMonthOf(d).(day := 1)
  }

  /** Forward after back, and back after forward, return to the same month. */
  lemma MonthPagingRoundTrip(d: Date)
    requires ValidDate(d)
    ensures NextMonth(PrevMonth(d)) == d.(day := 1)
    ensures PrevMonth(NextMonth(d)) == d.(day := 1)
  {
  }

  /** Where the day exists in the target month, the handlers as written agree with the intended step. */
  lemma AsWrittenAgreesWhenDayFits(d: Date)
    requires ValidDate(d)
    ensures d.day <= DaysInMonth(PrevMonthOf(d).year, PrevMonthOf(d).month) ==>
      PrevMonthAsWritten(d) == PrevMonth(d).(day := d.day)
    ensures d.day <= DaysInMonth(NextMonthOf(d).year, NextMonthOf(d).month) ==>
      NextMonthAsWritten(d) == NextMonth(d).(day := d.day)
  {
  }

  // ---------------------------------------------------------------------
  // Week paging

  function PrevWeek(d: Date): (r: Date)
    requires ValidDate(d)
    ensures ValidDate(r) && DayNumber(r) == DayNumber(d) - 7
  {
    Normalise(d.year, d.month, d.day - 7)
  }

  function NextWeek(d: Date): (r: Date)
    requires ValidDate(d)
    ensures ValidDate(r) && DayNumber(r) == DayNumber(d) + 7
  {
    Normalise(d.year, d.month, d.day + 7)
  }

  /** Forward after back, and back after forward, return to the same day. */
  lemma WeekPagingRoundTrip(d: Date)
    requires ValidDate(d)
    ensures NextWeek(PrevWeek(d)) == d
    ensures PrevWeek(NextWeek(d)) == d
  {
    DayNumberInjective(NextWeek(PrevWeek(d)), d);
    DayNumberInjective(PrevWeek(NextWeek(d)), d);
  }

  // ---------------------------------------------------------------------
  // The view state

  datatype ViewMode = MonthView | WeekView

  /** Which month step the handlers take: the code as written keeps the day of
      the month, the corrected step selects the first day. */
  datatype MonthStep = KeepDay | FirstDay

  function MonthBack(d: Date, step: MonthStep): (r: Date)
    requires ValidDate(d)
    ensures ValidDate(r)
    ensures step == KeepDay ==> r == PrevMonthAsWritten(d)
    ensures step == FirstDay ==> r == PrevMonth(d)
  {
    if step == KeepDay then PrevMonthAsWritten(d) else PrevMonth(d)
  }

  function MonthOn(d: Date, step: MonthStep): (r: Date)
    requires ValidDate(d)
    ensures ValidDate(r)
    ensures step == KeepDay ==> r == NextMonthAsWritten(d)
    ensures step == FirstDay ==> r == NextMonth(d)
  {
    if step == KeepDay then NextMonthAsWritten(d) else NextMonth(d)
  }

  /** The displayed and selected dates of the main window (m_displayed_date and
      m_selected_date, at day granularity) and the current view mode. */
  class CalendarView {
    var mode: ViewMode
    var displayed: Date
    var selected: Date

    predicate Valid()
      reads this
    {
      ValidDate(displayed) && ValidDate(selected)
    }

    constructor(mode: ViewMode, today: Date)
      requires ValidDate(today)
      ensures Valid()
      ensures this.mode == mode && displayed == today && selected == today
    {
      this.mode := mode;
      displayed := today;
      selected := today;
    }

    /** on_prev_button_clicked: a month (by the step chosen) or a week back;
        the selection follows. */
    method OnPrev(step: MonthStep)
      requires Valid()
      modifies this
      ensures Valid()
      ensures mode == old(mode)
      ensures displayed == (if mode == MonthView then MonthBack(old(displayed), step) else PrevWeek(old(displayed)))
      ensures selected == displayed
    {
      if mode == MonthView {
        displayed := MonthBack(displayed, step);
      } else {
        displayed := PrevWeek(displayed);
      }
      selected := displayed;
    }

    /** on_next_button_clicked: a month (by the step chosen) or a week forward;
        the selection follows. */
    method OnNext(step: MonthStep)
      requires Valid()
      modifies this
      ensures Valid()
      ensures mode == old(mode)
      ensures displayed == (if mode == MonthView then MonthOn(old(displayed), step) else NextWeek(old(displayed)))
      ensures selected == displayed
    {
      if mode == MonthView {
        displayed := MonthOn(displayed, step);
      } else {
        displayed := NextWeek(displayed);
      }
      selected := displayed;
    }
  }
}
