/**
 * The week header and hour rows of the time grid (`getWeekDays`,
 * `get24Hours`). A date is a day number: day 0 is 1970-01-01, a Thursday;
 * `startOfWeek` with `weekStartsOn: 0` and `addDays` become arithmetic on it.
 */
module DateGrid {

  const Sunday: int := 0
  const Saturday: int := 6

  /** Day of the week, Sunday = 0 … Saturday = 6 (`Date.prototype.getDay`). */
  function Weekday(day: int): (w: int)
    ensures 0 <= w < 7
  {
    (day + 4) % 7
  }

  function AddDays(day: int, n: int): int {
    day + n
  }

  /** `addWeeks(day, n)`: `n` times seven days. */
  function AddWeeks(day: int, n: int): int {
    AddDays(day, 7 * n)
  }

  /** `startOfWeek(day, { weekStartsOn: 0 })`: the Sunday that opens the week of `day`. */
  function StartOfWeek(day: int): (start: int)
    ensures Weekday(start) == Sunday && start <= day < start + 7
  {
    day - Weekday(day)
  }

  /** `getWeekDays`: the seven days of the week of `currentDate`, from its Sunday on. */
  function GetWeekDays(currentDate: int): (days: seq<int>)
    ensures |days| == 7
  {
    var weekStart := StartOfWeek(currentDate);
    seq(7, i => AddDays(weekStart, i))
  }

  /** `get24Hours`: the hour rows 0 … 23 of the grid. */
  function Get24Hours(): (hours: seq<int>)
    ensures |hours| == 24 && forall i :: 0 <= i < 24 ==> hours[i] == i
  {
    seq(24, i => i)
  }

  /** Seven days on, the day of the week recurs. */
  lemma {:induction false} WeekdayAfter(day: int, n: nat)
    ensures Weekday(day + n) == (Weekday(day) + n) % 7
  {
    var q := (day + 4) / 7;
    assert day + 4 == 7 * q + Weekday(day);
    ShiftMod(q, Weekday(day) + n);
  }

  lemma {:induction false} ShiftMod(q: int, r: int)
    requires 0 <= r
    ensures (7 * q + r) % 7 == r % 7
  {
    var k := r / 7;
    assert r == 7 * k + r % 7;
    assert 7 * q + r == 7 * (q + k) + r % 7;
  }

  /** The week's first day is the latest Sunday on or before the reference day. */
  lemma {:induction false} WeekStartIsLatestSunday(day: int, sunday: int)
    requires sunday <= day && Weekday(sunday) == Sunday
    ensures sunday <= StartOfWeek(day)
  {
    WeekdayAfter(sunday, day - sunday);
  }

  /**
   * The week runs Sunday to Saturday, one day apart, starting at the reference
   * day's Sunday; the reference day sits at its own day of the week.
   */
  lemma {:induction false} WeekDaysLayout(currentDate: int)
    ensures var days := GetWeekDays(currentDate);
      && days[0] == StartOfWeek(currentDate)
      && (forall i :: 0 <= i < 7 ==> days[i] == days[0] + i && Weekday(days[i]) == i)
      && Weekday(days[6]) == Saturday
      && days[Weekday(currentDate)] == currentDate
  {
    var days := GetWeekDays(currentDate);
    forall i | 0 <= i < 7
      ensures Weekday(days[i]) == i
    {
      WeekdayAfter(days[0], i);
    }
  }

  /** Every day of a week shows that same week. */
  lemma {:induction false} WeekOfEachDay(currentDate: int, i: int)
    requires 0 <= i < 7
    ensures GetWeekDays(GetWeekDays(currentDate)[i]) == GetWeekDays(currentDate)
  {
    WeekDaysLayout(currentDate);
  }

  /** One week on, every header day is seven days later. */
  lemma {:induction false} NextWeekDays(currentDate: int)
    ensures forall i :: 0 <= i < 7 ==> GetWeekDays(AddWeeks(currentDate, 1))[i] == GetWeekDays(currentDate)[i] + 7
  {
    WeekdayAfter(currentDate, 7);
  }
}
