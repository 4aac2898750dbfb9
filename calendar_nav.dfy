/**
 * The calendar's navigation store (`calendarSlice`): the date the week view
 * shows and the view mode. The date is a day number, as in `DateGrid`; the
 * clock is a parameter of the initial state.
 */
module CalendarNav {
  import opened DateGrid

  datatype ViewMode = Week | Month

  /** `goToNextWeek`: `addWeeks(currentDate, 1)`, seven days later on the same day of the week. */
  function NextWeek(currentDate: int): (next: int)
    ensures next == currentDate + 7 && Weekday(next) == Weekday(currentDate)
  {
    WeekdayAfter(currentDate, 7);
    AddWeeks(currentDate, 1)
  }

  /** `goToPrevWeek`: `subWeeks(currentDate, 1)`, seven days earlier on the same day of the week. */
  function PrevWeek(currentDate: int): (prev: int)
    ensures prev == currentDate - 7 && Weekday(prev) == Weekday(currentDate)
  {
    WeekdayAfter(currentDate - 7, 7);
    AddWeeks(currentDate, -1)
  }

  class CalendarState {
    var currentDate: int
    var viewMode: ViewMode

    /** `initialState`: today, in the week view. */
    constructor(today: int)
      ensures currentDate == today && viewMode == Week
    {
      currentDate := today;
      viewMode := Week;
    }

    method SetCurrentDate(date: int)
      modifies this
      ensures currentDate == date && viewMode == old(viewMode)
    {
      currentDate := date;
    }

    method GoToNextWeek()
      modifies this
      ensures currentDate == NextWeek(old(currentDate)) && viewMode == old(viewMode)
    {
      var nextWeek := AddWeeks(currentDate, 1);
      currentDate := nextWeek;
    }

    method GoToPrevWeek()
      modifies this
      ensures currentDate == PrevWeek(old(currentDate)) && viewMode == old(viewMode)
    {
      var prevWeek := AddWeeks(currentDate, -1);
      currentDate := prevWeek;
    }

    method SetViewMode(mode: ViewMode)
      modifies this
      ensures viewMode == mode && currentDate == old(currentDate)
    {
      viewMode := mode;
    }
  }

  /** Forward then back, or back then forward, returns to the same date. */
  lemma NextPrevInverse(currentDate: int)
    ensures PrevWeek(NextWeek(currentDate)) == currentDate
    ensures NextWeek(PrevWeek(currentDate)) == currentDate
  {
  }

  /** After a step forward the week header shows the next week: each of its days seven days on. */
  lemma NextWeekHeader(currentDate: int)
    ensures forall i :: 0 <= i < 7 ==> GetWeekDays(NextWeek(currentDate))[i] == GetWeekDays(currentDate)[i] + 7
    ensures forall i :: 0 <= i < 7 ==> GetWeekDays(PrevWeek(currentDate))[i] == GetWeekDays(currentDate)[i] - 7
  {
    NextWeekDays(currentDate);
    NextWeekDays(PrevWeek(currentDate));
  }
}
