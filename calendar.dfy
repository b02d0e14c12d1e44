/**
 * `getNextBusinessDay` of server2.js: starting from the day after today, step
 * one day at a time while the day is a Saturday or a Sunday. The clock is a
 * parameter: a day is a whole number of days since 1970-01-01, which was a
 * Thursday, so `Weekday` agrees with JavaScript's `Date.prototype.getDay`
 * (0 is Sunday, 6 is Saturday) for the local calendar.
 */
module Calendar {

  const Sunday := 0
  const Monday := 1
  const Friday := 5
  const Saturday := 6

  /** The day of the week of day `d`: `getDay()`. */
  function Weekday(d: int): (w: int)
    ensures 0 <= w < 7
  {
    (d + 4) % 7
  }

  /** The days the loop skips. */
  predicate IsWeekend(d: int)
  {
    Weekday(d) == Sunday || Weekday(d) == Saturday
  }

  /** Consecutive days have consecutive weekdays, Saturday being followed by Sunday. */
  lemma WeekdayNext(d: int)
    ensures Weekday(d + 1) == if Weekday(d) == Saturday then Sunday else Weekday(d) + 1
  {
  }

  /** Of three consecutive days at least one is a weekday. */
  lemma NoThreeWeekendDays(d: int)
    ensures !IsWeekend(d) || !IsWeekend(d + 1) || !IsWeekend(d + 2)
  {
    WeekdayNext(d);
    WeekdayNext(d + 1);
  }

  /** The first day after `today` that is not a Saturday or a Sunday, as a closed form. */
  function NextBusinessDayOf(today: int): (r: int)
    ensures today < r <= today + 3
    ensures !IsWeekend(r)
    ensures forall d :: today < d < r ==> IsWeekend(d)
  {
    NoThreeWeekendDays(today + 1);
    if !IsWeekend(today + 1) then today + 1
    else if !IsWeekend(today + 2) then today + 2
    else today + 3
  }

  /** Being after `today`, a weekday and preceded only by weekend days determines the next business day. */
  lemma NextBusinessDayUnique(today: int, r: int)
    requires today < r && !IsWeekend(r)
    requires forall d :: today < d < r ==> IsWeekend(d)
    ensures r == NextBusinessDayOf(today)
  {
    var n := NextBusinessDayOf(today);
    assert r < n ==> IsWeekend(r);
    assert n < r ==> IsWeekend(n);
  }

  /** From Friday, Saturday or Sunday the next business day is the following Monday. */
  lemma WeekendSkipped(today: int)
    requires Weekday(today) == Friday || Weekday(today) == Saturday || Weekday(today) == Sunday
    ensures Weekday(NextBusinessDayOf(today)) == Monday
    ensures NextBusinessDayOf(today) == today + (if Weekday(today) == Friday then 3
      else if Weekday(today) == Saturday then 2 else 1)
  {
    WeekdayNext(today);
    WeekdayNext(today + 1);
    WeekdayNext(today + 2);
  }

  /** From Monday to Thursday the next business day is tomorrow. */
  lemma MidweekIsTomorrow(today: int)
    requires Monday <= Weekday(today) < Friday
    ensures NextBusinessDayOf(today) == today + 1
  {
    WeekdayNext(today);
  }

  /** `getNextBusinessDay`: the loop that steps past the weekend. */
  method NextBusinessDay(today: int) returns (next: int)
    ensures next == NextBusinessDayOf(today)
    ensures today < next <= today + 3 && !IsWeekend(next)
    ensures forall d :: today < d < next ==> IsWeekend(d)
  {
    next := today + 1;
    while IsWeekend(next)
      invariant today < next <= NextBusinessDayOf(today)
      invariant forall d :: today < d < next ==> IsWeekend(d)
      decreases NextBusinessDayOf(today) - next
    {
      next := next + 1;
    }
    NextBusinessDayUnique(today, next);
  }
}
