/**
 * `calculateNextNotificationDate`: the next instant at which a todo's
 * reminder should fire, from its schedule and the current instant `now`.
 */
module NotificationUtils {
  import opened Optional
  import opened LocalTime
  import opened TimeText
  import opened Database

  /**
   * What the computation yields: an instant; a `Date` whose time value is NaN;
   * or the TypeError thrown when a daily schedule has no notification time.
   */
  datatype Outcome = Fires(at: int) | InvalidDate | TypeError

  /**
   * `setting || default`: an absent (or NaN) setting and a zero setting both
   * give the default. The result is the setting or the default, and never 0
   * when the default is not 0.
   */
  function OrDefault(setting: Option<int>, default: int): (v: int)
    ensures v == default || setting == Some(v)
    ensures default != 0 ==> v != 0
  {
    if setting.Some? && setting.value != 0 then setting.value else default
  }

  function DaysBeforeDue(settings: Settings): int { OrDefault(settings.daysBeforeDue, 1) }
  function StartHour(settings: Settings): int { OrDefault(settings.startHour, 9) }
  function IntervalMinutes(settings: Settings): int { OrDefault(settings.intervalMinutes, 60) }

  /** Milliseconds after midnight of a clock time; not below 0, and below a day when it is a real clock reading. */
  function Offset(c: ClockTime): (ms: int)
    ensures ms >= 0
    ensures c.hours < 24 && c.minutes < 60 ==> ms < DayMs
  {
    c.hours * HourMs + c.minutes * MinuteMs
  }

  /** The daily branch: today's occurrence of `c` if it is still ahead of `now`, else tomorrow's. */
  function NextDaily(c: ClockTime, now: int): (t: int)
    ensures now < t
    ensures TimeOfDay(t) == Offset(c) % DayMs
    ensures Offset(c) < DayMs ==> t <= now + DayMs
  {
    var today := SetHours(now, c.hours, c.minutes);
    if today <= now then AddDays(today, 1) else today
  }

  /** The daily-from-due-date branch: `days` days before the due date, unless that is not ahead of `now`. */
  function StartOfCountdown(dueDate: int, days: int, now: int): (t: int)
    requires days != 0
    ensures t == dueDate || t == AddDays(dueDate, -days)
    ensures t == AddDays(dueDate, -days) <==> AddDays(dueDate, -days) > now
    ensures days > 0 ==> t <= dueDate
  {
    var start := AddDays(dueDate, -days);
    if start <= now then dueDate else start
  }

  function CalculateNextNotificationDate(schedule: NotificationSchedule, now: int): (r: Outcome)
    // Only a daily schedule can fail: it throws without a time and is invalid with an unreadable one.
    ensures r.TypeError? <==> schedule.frequency == Daily && schedule.settings.notificationTime.None?
    ensures r.InvalidDate? <==>
      schedule.frequency == Daily && schedule.settings.notificationTime.Some? &&
      ParseClock(schedule.settings.notificationTime.value).None?
    // once, and every unrecognised kind: the due date, whatever `now` is.
    ensures schedule.frequency.Once? || schedule.frequency.Unrecognised? ==> r == Fires(schedule.dueDate)
    // daily: strictly after now, at the stored clock time, and at most one day ahead.
    ensures schedule.frequency == Daily && r.Fires? ==>
      var c := ParseClock(schedule.settings.notificationTime.value).value;
      now < r.at && TimeOfDay(r.at) == Offset(c) % DayMs &&
      (c.hours < 24 && c.minutes < 60 ==> r.at <= now + DayMs)
    // daily-from-due-date: N = daysBeforeDue || 1 days before the due date if that is ahead of now, else the due date.
    ensures schedule.frequency == DailyFromDueDate ==>
      var start := AddDays(schedule.dueDate, -DaysBeforeDue(schedule.settings));
      r.Fires? && (r.at == start || r.at == schedule.dueDate) &&
      (r.at == start <==> start > now)
    // hourly-on-due-date: the due date's day with the clock at startHour || 9, carrying past midnight.
    ensures schedule.frequency == HourlyOnDueDate ==>
      var h := StartHour(schedule.settings);
      r.Fires? && DayOf(r.at) == DayOf(schedule.dueDate) + h / 24 && TimeOfDay(r.at) == (h % 24) * HourMs
    // custom-interval: intervalMinutes || 60 minutes after now.
    ensures schedule.frequency == CustomInterval ==>
      r == Fires(now + IntervalMinutes(schedule.settings) * MinuteMs)
  {
    var settings := schedule.settings;
    match schedule.frequency
    case Once => Fires(schedule.dueDate)
    case Daily =>
      if settings.notificationTime.None? then TypeError
      else
        (match ParseClock(settings.notificationTime.value)
         case None => InvalidDate
         case Some(c) => Fires(NextDaily(c, now)))
    case DailyFromDueDate =>
      Fires(StartOfCountdown(schedule.dueDate, DaysBeforeDue(settings), now))
    case HourlyOnDueDate =>
      var h := StartHour(settings);
      assert h * HourMs == (h / 24) * DayMs + (h % 24) * HourMs;
      Fires(SetHours(schedule.dueDate, h, 0))
    case CustomInterval =>
      Fires(now + IntervalMinutes(settings) * MinuteMs)
    case Unrecognised(_) => Fires(schedule.dueDate)
  }
}
