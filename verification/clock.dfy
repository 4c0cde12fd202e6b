/** Instants and calendar arithmetic. An instant is a JavaScript time value:
    integer milliseconds since the epoch. The local time zone is a fixed
    offset in milliseconds (daylight-saving changes are not modelled); UTC
    is offset 0. Days and hours are numbered by flooring, as `Date` does
    for instants before and after the epoch alike. */
module Clock {

  const HourMs: int := 3_600_000
  const DayMs: int := 86_400_000

  /** Calendar day number of instant `t` in a zone `offset` ms ahead of UTC:
      two instants share a day number exactly when `toDateString()` (local)
      or the date part of `toISOString()` (offset 0) agree. */
  function DayNumber(t: int, offset: int): int
  {
    (t + offset) / DayMs
  }

  /** `getHours()` in the zone: the hour of the day, 0 to 23. */
  function HourOfDay(t: int, offset: int): (h: int)
    ensures 0 <= h < 24
    ensures DayNumber(t, offset) * DayMs + h * HourMs <= t + offset < DayNumber(t, offset) * DayMs + (h + 1) * HourMs
  {
    ((t + offset) % DayMs) / HourMs
  }

  /** The first instant (00:00:00.000) of local day number `day`. */
  function Midnight(day: int, offset: int): (t: int)
    ensures DayNumber(t, offset) == day
    ensures DayNumber(t - 1, offset) == day - 1
    ensures HourOfDay(t, offset) == 0
  {
    day * DayMs - offset
  }

  /** Stepping an instant back by whole days (`setDate(getDate() - k)`
      with no daylight-saving change) moves its day number back by `k`. */
  lemma DayNumberShift(t: int, offset: int, k: int)
    ensures DayNumber(t - k * DayMs, offset) == DayNumber(t, offset) - k
  {
    var q := (t + offset) / DayMs;
    var r := (t + offset) % DayMs;
    assert t + offset == q * DayMs + r;
    assert t - k * DayMs + offset == (q - k) * DayMs + r;
  }

  /** Day numbers are monotone in the instant. */
  lemma DayNumberMonotone(t: int, u: int, offset: int)
    requires t <= u
    ensures DayNumber(t, offset) <= DayNumber(u, offset)
  {
  }
}
