/**
 * The seed program's date helpers. Days are counted from 1970-01-01, a
 * Thursday; weekdays are numbered as Go's time.Weekday, Sunday = 0.
 * Time of day and time zones are not modelled.
 */
module Seed {

  type Weekday = d: int | 0 <= d < 7

  const Sunday: Weekday := 0
  const Saturday: Weekday := 6

  /** The weekday of day number `day`. */
  function WeekdayOf(day: int): Weekday
  {
    (day + 4) % 7
  }

  /** Go's `%` on int: the remainder truncated toward zero, so its sign follows `a`. */
  function GoRem(a: int, b: int): int
    requires b > 0
  {
    if a >= 0 then a % b else -((-a) % b)
  }

  /** The intermediate `day - from + 7` lies in 1..13, so `%` never sees a negative operand. */
  lemma IntermediateIsPositive(from: Weekday, day: Weekday)
    ensures 1 <= day - from + 7 <= 13
    ensures GoRem(day - from + 7, 7) == (day - from + 7) % 7
  {
  }

  /**
   * The number of days from weekday `from` to the next `day`: 1 to 7, a
   * whole week when they are the same weekday.
   */
  function DaysUntil(from: Weekday, day: Weekday): (n: int)
    ensures 1 <= n <= 7
    ensures (from + n) % 7 == day
    ensures n == 7 <==> from == day
  {
    var daysUntil := GoRem(day - from + 7, 7);
    if daysUntil == 0 then 7 else daysUntil
  }

  /** nextWeekday: the first day strictly after `from` that falls on `day`. */
  function NextWeekday(from: int, day: Weekday): (r: int)
    ensures from < r <= from + 7
    ensures WeekdayOf(r) == day
    ensures forall d :: from < d < r ==> WeekdayOf(d) != day
  {
    from + DaysUntil(WeekdayOf(from), day)
  }

  function NextSunday(from: int): (r: int)
    ensures r == NextWeekday(from, Sunday)
    ensures from < r <= from + 7 && WeekdayOf(r) == Sunday
  {
    NextWeekday(from, Sunday)
  }

  function NextSaturday(from: int): (r: int)
    ensures r == NextWeekday(from, Saturday)
    ensures from < r <= from + 7 && WeekdayOf(r) == Saturday
  {
    NextWeekday(from, Saturday)
  }

  /** Asked for the weekday `from` already falls on, nextWeekday gives next week, not today. */
  lemma SameWeekdayIsNextWeek(from: int)
    ensures NextWeekday(from, WeekdayOf(from)) == from + 7
  {
  }
}
