/** Properties of `calculateNextNotificationDate` that relate several calls or several instants. */
module SchedulerProperties {
  import opened Optional
  import opened LocalTime
  import opened TimeText
  import opened Database
  import opened NotificationUtils

  /** A daily schedule whose stored time reads as the clock time `c`. */
  predicate DailyAt(schedule: NotificationSchedule, c: ClockTime)
  {
    schedule.frequency == Daily &&
    schedule.settings.notificationTime.Some? &&
    ParseClock(schedule.settings.notificationTime.value) == Some(c)
  }

  /**
   * Daily: no instant after `now` with the stored clock time comes before the
   * result, so the result is the next occurrence of that time.
   */
  lemma DailyIsNextOccurrence(schedule: NotificationSchedule, c: ClockTime, now: int, t: int)
    requires DailyAt(schedule, c) && c.hours < 24 && c.minutes < 60
    requires now < t && TimeOfDay(t) == Offset(c)
    ensures CalculateNextNotificationDate(schedule, now) == Fires(NextDaily(c, now))
    ensures NextDaily(c, now) <= t
  {
  }

  /** Daily: the result is on today's day if the stored time is still ahead of `now`, else on tomorrow's. */
  lemma DailyTodayOrTomorrow(schedule: NotificationSchedule, c: ClockTime, now: int)
    requires DailyAt(schedule, c) && c.hours < 24 && c.minutes < 60
    ensures var r := CalculateNextNotificationDate(schedule, now);
      r.Fires? &&
      DayOf(r.at) == DayOf(now) + (if Offset(c) > TimeOfDay(now) then 0 else 1) &&
      TimeOfDay(r.at) == Offset(c)
  {
  }

  /** Daily with a stored "HH:mm" text below 24:00: fires at exactly that clock time, within a day. */
  lemma DailyWithStoredTime(schedule: NotificationSchedule, c: ClockTime, now: int)
    requires schedule.frequency == Daily && c.hours < 24 && c.minutes < 60
    requires schedule.settings.notificationTime == Some(FormatClock(c))
    ensures var r := CalculateNextNotificationDate(schedule, now);
      r.Fires? && now < r.at <= now + DayMs && TimeOfDay(r.at) == c.hours * HourMs + c.minutes * MinuteMs
  {
    ParseFormat(c);
  }

  /** Once, hourly-on-due-date and unrecognised kinds do not depend on the current instant. */
  lemma IndependentOfNow(schedule: NotificationSchedule, now1: int, now2: int)
    requires schedule.frequency.Once? || schedule.frequency.HourlyOnDueDate? || schedule.frequency.Unrecognised?
    ensures CalculateNextNotificationDate(schedule, now1) == CalculateNextNotificationDate(schedule, now2)
  {
  }

  /** `endHour` never influences the result. */
  lemma EndHourIgnored(schedule: NotificationSchedule, endHour: Option<int>, now: int)
    ensures CalculateNextNotificationDate(schedule.(settings := schedule.settings.(endHour := endHour)), now)
         == CalculateNextNotificationDate(schedule, now)
  {
  }

  /** Only the frequency, the due date and the settings matter; identity, lifecycle and active flags do not. */
  lemma OnlyFrequencyDueDateAndSettingsMatter(s1: NotificationSchedule, s2: NotificationSchedule, now: int)
    requires s1.frequency == s2.frequency && s1.dueDate == s2.dueDate && s1.settings == s2.settings
    ensures CalculateNextNotificationDate(s1, now) == CalculateNextNotificationDate(s2, now)
  {
  }

  /** Each numeric setting of 0 behaves exactly like the same setting absent, whatever the others are. */
  lemma ZeroSettingIsAbsent(schedule: NotificationSchedule, now: int)
    ensures var st := schedule.settings;
      CalculateNextNotificationDate(schedule.(settings := st.(daysBeforeDue := Some(0))), now)
        == CalculateNextNotificationDate(schedule.(settings := st.(daysBeforeDue := None)), now)
    ensures var st := schedule.settings;
      CalculateNextNotificationDate(schedule.(settings := st.(startHour := Some(0))), now)
        == CalculateNextNotificationDate(schedule.(settings := st.(startHour := None)), now)
    ensures var st := schedule.settings;
      CalculateNextNotificationDate(schedule.(settings := st.(endHour := Some(0))), now)
        == CalculateNextNotificationDate(schedule.(settings := st.(endHour := None)), now)
    ensures var st := schedule.settings;
      CalculateNextNotificationDate(schedule.(settings := st.(intervalMinutes := Some(0))), now)
        == CalculateNextNotificationDate(schedule.(settings := st.(intervalMinutes := None)), now)
  {
  }

  /** An unrecognised frequency is scheduled exactly like `once`. */
  lemma UnrecognisedLikeOnce(schedule: NotificationSchedule, now: int)
    requires schedule.frequency.Unrecognised?
    ensures CalculateNextNotificationDate(schedule, now)
         == CalculateNextNotificationDate(schedule.(frequency := Once), now)
  {
  }

  /**
   * Daily-from-due-date with no, zero or a positive `daysBeforeDue`: never
   * later than the due date, and one day before it when the setting is absent.
   */
  lemma CountdownNotAfterDue(schedule: NotificationSchedule, now: int)
    requires schedule.frequency == DailyFromDueDate
    requires schedule.settings.daysBeforeDue.None? || schedule.settings.daysBeforeDue.value >= 0
    ensures var r := CalculateNextNotificationDate(schedule, now);
      r.Fires? && r.at <= schedule.dueDate &&
      (schedule.settings.daysBeforeDue.None? ==> r.at == schedule.dueDate || r.at == schedule.dueDate - DayMs)
  {
  }

  /** Daily-from-due-date with a negative `daysBeforeDue` can fire after the due date. */
  lemma NegativeCountdownAfterDue(schedule: NotificationSchedule, now: int, n: int)
    requires schedule.frequency == DailyFromDueDate && schedule.settings.daysBeforeDue == Some(n) && n < 0
    requires schedule.dueDate > now
    ensures CalculateNextNotificationDate(schedule, now) == Fires(schedule.dueDate - n * DayMs)
    ensures schedule.dueDate < CalculateNextNotificationDate(schedule, now).at
  {
  }

  /** Custom interval: strictly after now for a positive interval; an hour after now when the interval is absent or 0. */
  lemma CustomIntervalAhead(schedule: NotificationSchedule, now: int)
    requires schedule.frequency == CustomInterval
    requires schedule.settings.intervalMinutes.None? || schedule.settings.intervalMinutes.value >= 0
    ensures var r := CalculateNextNotificationDate(schedule, now);
      r.Fires? && r.at > now &&
      (schedule.settings.intervalMinutes in {None, Some(0)} ==> r.at == now + HourMs)
  {
  }

  function Sample(frequency: StoredFrequency, dueDate: int, settings: Settings): NotificationSchedule
  {
    NotificationSchedule("n1", "t1", "Pay rent", "Due soon", frequency, dueDate, settings,
                         "", "", None, "", true, false)
  }

  const NoSettings := Settings(None, None, None, None, None)

  /** The stored text "09:00" reads as 09:00. */
  lemma NineOClockReads()
    ensures ParseClock("09:00") == Some(ClockTime(9, 0))
  {
    ParseFormat(ClockTime(9, 0));
    assert FormatClock(ClockTime(9, 0)) == "09:00";
  }

  /** "09:00": at 08:00 it fires at 09:00 the same day; at 10:00 at 09:00 the next day. */
  lemma DailyExample(day: int)
    ensures var s := Sample(Daily, 0, NoSettings.(notificationTime := Some("09:00")));
      CalculateNextNotificationDate(s, At(day, 8 * HourMs)) == Fires(At(day, 9 * HourMs)) &&
      CalculateNextNotificationDate(s, At(day, 10 * HourMs)) == Fires(At(day + 1, 9 * HourMs))
  {
    NineOClockReads();
    DayAndTimeDetermineInstant(SetHours(At(day, 8 * HourMs), 9, 0), At(day, 9 * HourMs));
    DayAndTimeDetermineInstant(SetHours(At(day, 10 * HourMs), 9, 0), At(day, 9 * HourMs));
  }

  /** "9" has no minutes piece, "ab:00" a non-numeric hours piece: both give an invalid date. */
  lemma DailyUnreadableTimeExample(now: int)
    ensures CalculateNextNotificationDate(Sample(Daily, 0, NoSettings.(notificationTime := Some("9"))), now) == InvalidDate
    ensures CalculateNextNotificationDate(Sample(Daily, 0, NoSettings.(notificationTime := Some("ab:00"))), now) == InvalidDate
  {
  }

  /**
   * A stored hour of 24 ("24:mm", the form a 24-hour clock can print for the
   * hour after midnight) always fires tomorrow at 00:mm: today's 00:mm is
   * skipped even when it is still ahead of `now`.
   */
  lemma Hour24FiresTomorrow(m: nat, now: int)
    requires m < 60
    ensures NextDaily(ClockTime(24, m), now) == At(DayOf(now) + 1, m * MinuteMs)
  {
    DayAndTimeDetermineInstant(SetHours(now, 24, m), At(DayOf(now) + 1, m * MinuteMs));
  }

  /** "24:05" at 00:01: fires tomorrow at 00:05, more than a day after `now`. */
  lemma Hour24Example(day: int)
    ensures var s := Sample(Daily, 0, NoSettings.(notificationTime := Some("24:05")));
      var now := At(day, MinuteMs);
      CalculateNextNotificationDate(s, now) == Fires(At(day + 1, 5 * MinuteMs)) &&
      CalculateNextNotificationDate(s, now).at > now + DayMs
  {
    var c := ClockTime(24, 5);
    assert ParseClock("24:05") == Some(c) by {
      ParseFormat(c);
      assert FormatClock(c) == "24:05";
    }
    var now := At(day, MinuteMs);
    assert NextDaily(c, now) == At(day + 1, 5 * MinuteMs) by {
      DayAndTimeDetermineInstant(SetHours(now, 24, 5), At(day + 1, 5 * MinuteMs));
    }
  }

  /** Due on day 10 with three days' notice: from day 5 it fires on day 7; from day 8 on the due date. */
  lemma CountdownExample()
    ensures var s := Sample(DailyFromDueDate, At(10, 0), NoSettings.(daysBeforeDue := Some(3)));
      CalculateNextNotificationDate(s, At(5, 0)) == Fires(At(7, 0)) &&
      CalculateNextNotificationDate(s, At(8, 0)) == Fires(At(10, 0))
  {
  }

  /** Due at midnight with start hour 9: fires at 09:00 that day, whatever the end hour. */
  lemma HourlyExample(due: int, endHour: Option<int>, now: int)
    ensures var s := Sample(HourlyOnDueDate, At(due, 0), NoSettings.(startHour := Some(9), endHour := endHour));
      CalculateNextNotificationDate(s, now) == Fires(At(due, 9 * HourMs))
  {
  }

  /** Custom interval of 60 minutes: exactly an hour after any `now`. */
  lemma CustomIntervalExample(now: int)
    ensures CalculateNextNotificationDate(Sample(CustomInterval, 0, NoSettings.(intervalMinutes := Some(60))), now)
         == Fires(now + 60 * MinuteMs)
  {
  }
}
