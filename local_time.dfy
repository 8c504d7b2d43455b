/**
 * Instants as integer milliseconds in one fixed local time zone without
 * daylight-saving changes, so that every local day is exactly 86 400 000 ms
 * long. `Date` methods that adjust a local field become arithmetic here.
 */
module LocalTime {

  const MinuteMs: int := 60000
  const HourMs: int := 3600000
  const DayMs: int := 86400000

  /** The local calendar day an instant falls on, counted from the epoch's day (floor). */
  function DayOf(t: int): int
  {
    t / DayMs
  }

  /** Milliseconds elapsed since local midnight. */
  function TimeOfDay(t: int): (ms: int)
    ensures 0 <= ms < DayMs
  {
    t % DayMs
  }

  /** An instant is determined by its day and its time of day. */
  lemma DayAndTimeDetermineInstant(a: int, b: int)
    requires DayOf(a) == DayOf(b) && TimeOfDay(a) == TimeOfDay(b)
    ensures a == b
  {
  }

  /** The instant with the given day and time of day. */
  function At(day: int, ms: int): (t: int)
    requires 0 <= ms < DayMs
    ensures DayOf(t) == day && TimeOfDay(t) == ms
  {
    day * DayMs + ms
  }

  /**
   * `d.setHours(hours, minutes, 0, 0)`: keeps the local day of `t` and sets
   * the clock to hours:minutes:00.000; fields out of range carry into
   * neighbouring days, as `Date` does.
   */
  function SetHours(t: int, hours: int, minutes: int): (r: int)
    ensures var offset := hours * HourMs + minutes * MinuteMs;
            DayOf(r) == DayOf(t) + offset / DayMs && TimeOfDay(r) == offset % DayMs
  {
    var offset := hours * HourMs + minutes * MinuteMs;
    var r := DayOf(t) * DayMs + offset;
    assert r == (DayOf(t) + offset / DayMs) * DayMs + offset % DayMs;
    r
  }

  /** `d.setDate(d.getDate() + days)`: moves the local day by `days`, keeping the clock. */
  function AddDays(t: int, days: int): (r: int)
    ensures DayOf(r) == DayOf(t) + days && TimeOfDay(r) == TimeOfDay(t)
  {
    assert t + days * DayMs == (DayOf(t) + days) * DayMs + TimeOfDay(t);
    t + days * DayMs
  }
}
