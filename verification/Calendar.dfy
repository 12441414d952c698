/**
 Instants, UTC days and weekdays. An instant is a number of microseconds since
 1970-01-01T00:00:00Z, the resolution of a PostgreSQL timestamp; a day is a day number.
 */
module Calendar {
  type Time = int

  const MINUTE: int := 60_000_000
  const DAY: int := 86_400_000_000
  const MINUTES_PER_DAY: int := 1440
  const SUNDAY: int := 0

  /** The UTC day an instant falls on. */
  function DayOf(t: Time): int {
    t / DAY
  }

  /** `time.Date(year, month, day, 0, 0, 0, 0, time.UTC)`. */
  function Midnight(day: int): Time {
    day * DAY
  }

  /** `time.Date(year, month, day, hour, minute, 0, 0, time.UTC)`, the clock time in minutes. */
  function At(day: int, minute: int): Time {
    day * DAY + minute * MINUTE
  }

  /** Go's `Weekday()`: Sunday is 0; day 0, 1970-01-01, was a Thursday. */
  function Weekday(day: int): int {
    (day + 4) % 7
  }

  /** `SafeTruncate`: the midnight that starts an instant's own day. */
  function SafeTruncate(t: Time): Time {
    Midnight(DayOf(t))
  }

  /** The day part of a cache key. */
  function KeyDay(date: Time): int {
    DayOf(date)
  }

  /** The bounds of the availability query: `[startOfDay, startOfDay + 24h)`. */
  predicate InQueryWindow(start: Time, day: int) {
    Midnight(day) <= start < Midnight(day) + DAY
  }

  /** The query's window is the UTC day, in microseconds. */
  lemma QueryWindowExact(start: Time, day: int)
    ensures InQueryWindow(start, day) <==> day * 86_400_000_000 <= start < (day + 1) * 86_400_000_000
  {
  }

  /** A slot is listed under a day exactly when booking it invalidates that day's cache key. */
  lemma KeyMatchesWindow(start: Time, day: int)
    ensures InQueryWindow(start, day) <==> KeyDay(SafeTruncate(start)) == day
  {
    assert start == DayOf(start) * DAY + start % DAY;
  }

  /** `AddDate(0, 0, k)`. */
  function AddDate(t: Time, k: int): Time {
    t + k * DAY
  }

  /** `AddDate(0, 0, 1)`, `k` times over. */
  function DaysLater(t: Time, k: nat): Time {
    if k == 0 then t else DaysLater(t, k - 1) + DAY
  }

  lemma {:induction false} DaysLaterAtOnce(t: Time, k: nat)
    ensures DaysLater(t, k) == AddDate(t, k)
  {
    if k > 0 {
      DaysLaterAtOnce(t, k - 1);
    }
  }

  /** Stepping day by day moves an instant by whole UTC days, and passes `AddDate(0, 0, n)` after `n` steps. */
  lemma AddDays(t: Time, k: nat, n: nat)
    ensures DayOf(DaysLater(t, k)) == DayOf(t) + k
    ensures DaysLater(t, k) < AddDate(t, n) <==> k < n
  {
    DaysLaterAtOnce(t, k);
    assert t + k * DAY == (DayOf(t) + k) * DAY + t % DAY;
  }

  /** Known days: Thursday 1970-01-01, Monday 2024-01-01, and the Sunday after it. */
  lemma KnownDays()
    ensures Weekday(0) == 4 && Weekday(19723) == 1 && Weekday(19729) == 0
  {
  }

  lemma DayOfClock(day: int, t: Time)
    requires Midnight(day) <= t < Midnight(day + 1)
    ensures DayOf(t) == day
  {
  }
}
