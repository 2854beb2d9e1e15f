/**
 The proleptic Gregorian calendar by single-day steps, and weekdays.
 Day 0 is 1970-01-01, a Thursday; an instant is a whole number of minutes of Japan
 Standard Time, so an instant t lies on day t / 1440 (rounded down).
 */
module Calendar {

  const MINUTES_PER_DAY := 1440

  datatype Date = Date(year: int, month: int, day: int)

  predicate IsLeap(year: int) {
    year % 4 == 0 && (year % 100 != 0 || year % 400 == 0)
  }

  function DaysIn(year: int, month: int): int {
    if month == 2 then (if IsLeap(year) then 29 else 28)
    else if month in {4, 6, 9, 11} then 30
    else 31
  }

  predicate ValidDate(date: Date) {
    1 <= date.month <= 12 && 1 <= date.day <= DaysIn(date.year, date.month)
  }

  function MonthDay(date: Date): int {
    date.month * 100 + date.day
  }

  predicate DateBefore(a: Date, b: Date) {
    a.year < b.year || (a.year == b.year && (a.month < b.month || (a.month == b.month && a.day < b.day)))
  }

  predicate DateAtMost(a: Date, b: Date) {
    a == b || DateBefore(a, b)
  }

  function NextDate(date: Date): (next: Date)
    requires ValidDate(date)
    ensures ValidDate(next)
  {
    if date.day < DaysIn(date.year, date.month) then date.(day := date.day + 1)
    else if date.month < 12 then Date(date.year, date.month + 1, 1)
    else Date(date.year + 1, 1, 1)
  }

  function PreviousDate(date: Date): (previous: Date)
    requires ValidDate(date)
    ensures ValidDate(previous)
  {
    if 1 < date.day then date.(day := date.day - 1)
    else if 1 < date.month then Date(date.year, date.month - 1, DaysIn(date.year, date.month - 1))
    else Date(date.year - 1, 12, 31)
  }

  /** No date lies between a date and the next one, and stepping back undoes stepping forth. */
  lemma NextDateIsNext(date: Date, other: Date)
    requires ValidDate(date) && ValidDate(other)
    ensures DateBefore(date, other) <==> DateAtMost(NextDate(date), other)
    ensures PreviousDate(NextDate(date)) == date && NextDate(PreviousDate(date)) == date
  {
  }

  /** The calendar date of a day number. */
  function DateOf(day: int): (date: Date)
    ensures ValidDate(date)
    decreases if day < 0 then -day else day
  {
    if day == 0 then Date(1970, 1, 1)
    else if 0 < day then NextDate(DateOf(day - 1))
    else PreviousDate(DateOf(day + 1))
  }

  lemma DateOfStep(day: int)
    ensures DateOf(day + 1) == NextDate(DateOf(day))
  {
    if day < 0 {
      NextDateIsNext(DateOf(day + 1), DateOf(day + 1));
    }
  }

  /** Dates follow the days: comparing (year, month, day) is comparing day numbers. */
  lemma {:induction false} DatesFollowDays(a: int, b: int)
    requires a < b
    ensures DateBefore(DateOf(a), DateOf(b))
    decreases b - a
  {
    DateOfStep(b - 1);
    NextDateIsNext(DateOf(b - 1), DateOf(b));
    if a < b - 1 {
      DatesFollowDays(a, b - 1);
    }
  }

  function DayOf(at: int): int {
    at / MINUTES_PER_DAY
  }

  function MinuteOf(at: int): int {
    at % MINUTES_PER_DAY
  }

  /** 0 is Sunday, 6 is Saturday. */
  function WeekdayOf(day: int): (dow: int)
    ensures 0 <= dow <= 6
  {
    (day + 4) % 7
  }
}
