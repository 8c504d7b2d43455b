# Reminder scheduler model

A Dafny model of the reminder scheduler of a todo app: `calculateNextNotificationDate`
takes a todo's notification schedule and returns the next instant a reminder should fire.
It handles five frequency kinds and a fallback for unknown kinds:

- `once` fires at the due date.
- `daily` fires at the next occurrence of a stored "HH:mm" time.
- `daily-from-due-date` fires N days before the due date, or at the due date once that start is no longer ahead.
- `hourly-on-due-date` fires on the due date's day at the start hour.
- `custom-interval` fires a number of minutes after now.
- Any other kind fires at the due date.

The model is pure, like the source function. It is split into five modules:

- `Optional` holds the `Option` type for optional properties.
- `LocalTime` works on instants in integer milliseconds in one local time zone without daylight saving. The local day is `t / 86400000` and the time of day is `t % 86400000`. `setHours(h, m, 0, 0)` and `setDate(getDate() + k)` become arithmetic, including how out-of-range fields carry into other days.
- `TimeText` covers `split(':')`, `Number` and the `[hours, minutes]` destructuring. It also models the "HH:mm" text the add-task screen stores. `Join` is the inverse of `Split` and comes with round-trip lemmas.
- `Database` holds the schedule record, its settings and the frequency tags. `Unrecognised(tag)` keeps the default arm of the `switch` explicit. A schedule's frequency ranges only over the values a stored tag can denote, so an unrecognised tag is never one of the five known ones.
- `NotificationUtils` holds the scheduler itself. `SchedulerProperties` holds lemmas that relate several calls or instants, plus worked examples.

Several inputs become parameters or encodings:

- The current instant (`new Date()`, read twice at lines 68 and 76) is the parameter `now`. Both reads are taken as the same instant.
- The due date is an already-parsed instant.
- A thrown `TypeError` is the outcome `TypeError`. This happens when a daily schedule has no time: the `!` assertion is unchecked at run time, and `split` then runs on `undefined`.
- A `Date` whose value is NaN is the outcome `InvalidDate`.
- A numeric setting that is NaN is represented as absent, because `NaN || d` is `d` just as `undefined || d` is.

Quirks the model keeps and proves:

- `|| default` treats 0 as absent.
- `endHour` is computed but never used.
- A negative `daysBeforeDue` makes the reminder fire after the due date.
- A start hour of 24 or more moves the reminder to a later day.
- A stored time without a colon, such as "9", yields an invalid date. `minutes` is then undefined, and `setHours` turns it into NaN.
- Pieces after a second colon are ignored, and an empty piece reads as 0, so "9:" is 09:00.
- A stored hour of 24, as in "24:05", always fires tomorrow at 00:05. Today's 00:05 is skipped even when it is still ahead, so from 00:01 the reminder lands more than a day after `now`.

## Model

| member | source | states |
|---|---|---|
| `NotificationUtils.CalculateNextNotificationDate` | utils/notificationUtils.ts:66-107 | Only `daily` can fail. It throws exactly when the time is absent and gives an invalid date exactly when the time is unreadable. `once` and unrecognised kinds give the due date. `daily` gives a time after now, at the stored clock time (modulo a day), and at most a day ahead when that time is below 24:00. `daily-from-due-date` gives the countdown start if it is ahead of now, otherwise the due date. `hourly-on-due-date` gives the due day at the start hour (9 when absent or 0), carrying whole days. `custom-interval` gives now plus the interval in minutes (60 when absent or 0). |
| `NotificationUtils.OrDefault` | utils/notificationUtils.ts:84 | JavaScript's `or` default on an optional number yields either the setting or the default, and is never 0 when the default is not 0 (what the countdown's non-zero day count rests on). |
| `NotificationUtils.Offset` | utils/notificationUtils.ts:77 | The clock time's offset after midnight is non-negative, and below one day for a real clock reading. |
| `NotificationUtils.NextDaily` | utils/notificationUtils.ts:74-81 | The daily result is strictly after now and has the stored time of day (modulo a day). It is at most one day after now when the time is below 24:00. |
| `NotificationUtils.StartOfCountdown` | utils/notificationUtils.ts:83-90 | The result is either the due date or N days before it. It is the earlier instant exactly when that instant is after now. It is never later than the due date when N > 0. |
| `SchedulerProperties.DailyIsNextOccurrence` | utils/notificationUtils.ts:74-81 | No instant after now with the stored clock time comes before the daily result, so the result is the next occurrence. |
| `SchedulerProperties.DailyTodayOrTomorrow` | utils/notificationUtils.ts:76-80 | The daily result falls today if the stored time is still ahead of now, otherwise tomorrow, at exactly that time of day. |
| `SchedulerProperties.DailyWithStoredTime` | utils/notificationUtils.ts:75 | For a stored two-digit "HH:mm" below 24:00, daily fires at that clock time, within one day after now. |
| `SchedulerProperties.IndependentOfNow` | utils/notificationUtils.ts:71-72 | `once`, `hourly-on-due-date` and unrecognised kinds give the same result for any two current instants. |
| `SchedulerProperties.EndHourIgnored` | utils/notificationUtils.ts:92-97 | Changing `endHour` never changes the result. |
| `SchedulerProperties.OnlyFrequencyDueDateAndSettingsMatter` | types/database.ts:21-41 | Schedules that agree on frequency, due date and settings give the same result. Identity, timestamps and the active/completed flags are irrelevant. |
| `SchedulerProperties.ZeroSettingIsAbsent` | utils/notificationUtils.ts:94-100 | Each numeric setting (days before due, start hour, end hour, interval) set to 0 gives the same result as that setting absent, whatever the other settings are. |
| `SchedulerProperties.UnrecognisedLikeOnce` | utils/notificationUtils.ts:104-105 | An unrecognised frequency is scheduled exactly like `once`. |
| `SchedulerProperties.CountdownNotAfterDue` | utils/notificationUtils.ts:84-90 | With `daysBeforeDue` absent, 0 or positive, the result is never after the due date. When absent, the result is the due date or one day before it. |
| `SchedulerProperties.NegativeCountdownAfterDue` | utils/notificationUtils.ts:84-87 | A negative `daysBeforeDue` with the due date ahead of now fires that many days after the due date. |
| `SchedulerProperties.CustomIntervalAhead` | utils/notificationUtils.ts:99-102 | A non-negative or absent interval fires strictly after now. An absent or 0 interval fires exactly one hour after now. |
| `SchedulerProperties.DailyExample` | utils/notificationUtils.ts:74-81 | For "09:00": at 08:00 it fires at 09:00 the same day; at 10:00 it fires at 09:00 the next day. |
| `SchedulerProperties.DailyUnreadableTimeExample` | utils/notificationUtils.ts:75 | "9" (no minutes piece) and "ab:00" (non-numeric hours) give an invalid date. |
| `SchedulerProperties.Hour24FiresTomorrow` | utils/notificationUtils.ts:76-80 | A stored hour of 24 with minutes m below 60 always fires tomorrow at 00:m, for every now. |
| `SchedulerProperties.NineOClockReads` | utils/notificationUtils.ts:75 | The stored text "09:00" reads as 09:00. |
| `SchedulerProperties.Hour24Example` | utils/notificationUtils.ts:75-80 | "24:05" at 00:01 fires tomorrow at 00:05, more than one day after now. |
| `SchedulerProperties.CountdownExample` | utils/notificationUtils.ts:83-90 | Due on day 10 with 3 days' notice: from day 5 it fires on day 7; from day 8 it fires on day 10. |
| `SchedulerProperties.HourlyExample` | utils/notificationUtils.ts:92-97 | Due at midnight with start hour 9: fires at 09:00 that day, whatever the end hour and now. |
| `SchedulerProperties.CustomIntervalExample` | utils/notificationUtils.ts:99-102 | An interval of 60 fires exactly 3,600,000 ms after any now. |
| `LocalTime.SetHours` | utils/notificationUtils.ts:77 | `setHours(h, m, 0, 0)` keeps the local day and sets the clock. An offset of a day or more carries whole days: the day moves by offset / day and the time of day is offset mod day. |
| `LocalTime.AddDays` | utils/notificationUtils.ts:79 | `setDate(getDate() + k)` moves the local day by k and keeps the time of day. |
| `LocalTime.At` | utils/notificationUtils.ts:96 | The instant built from a day and a time of day has exactly that day and time of day. |
| `LocalTime.DayAndTimeDetermineInstant` | utils/notificationUtils.ts:77 | Two instants with the same local day and time of day are equal. |
| `TimeText.Split` | utils/notificationUtils.ts:75 | `split(sep)` yields at least one part, no part contains the separator, and joining the parts gives back the text. |
| `TimeText.SplitHasSeveralParts` | utils/notificationUtils.ts:75 | The text contains the separator exactly when it splits into two or more parts. |
| `TimeText.SplitAppend` | utils/notificationUtils.ts:75 | Splitting `a + sep + b` gives the parts of `a` followed by the parts of `b`. |
| `TimeText.SplitWithoutSeparator` | utils/notificationUtils.ts:75 | A text without the separator splits into itself alone. |
| `TimeText.SplitJoin` | utils/notificationUtils.ts:75 | Splitting the join of separator-free parts gives back the parts. |
| `TimeText.ToNumber` | utils/notificationUtils.ts:75 | `Number(piece)` is a number exactly for a digit string, and 0 for the empty string. |
| `TimeText.ParseClock` | utils/notificationUtils.ts:75 | Text without a colon never yields a clock time: `minutes` is undefined, and `setHours` turns it into NaN. |
| `TimeText.TwoDigits` | utils/notificationUtils.ts:75 | The two-digit text of n is two digits with no colon, and reads back as n. |
| `TimeText.ParseFormat` | utils/notificationUtils.ts:75 | Parsing the stored "HH:mm" text gives back its hours and minutes. |
| `TimeText.ParseIgnoresRest` | utils/notificationUtils.ts:75 | For any colon-free pieces `a` and `b`, text after a second colon does not change how "a:b" is parsed. |
| `TimeText.ParsePieces` | utils/notificationUtils.ts:75 | "a:b" with colon-free pieces reads as a clock time exactly when both pieces are digit strings. The result is their decimal values, and an empty piece is 0. |
| `TimeText.EmptyPiecesReadAsZero` | utils/notificationUtils.ts:75 | "9:" reads as 09:00 and ":" as 00:00. |
| `Database.ParseFrequency` | utils/notificationUtils.ts:70-104 | Each of the five tags selects its kind. Any other tag is unrecognised. The stored tag is preserved. |
| `Database.ParseTag` | types/database.ts:14-19 | Reading back the tag of any storable frequency gives the frequency. A schedule's frequency is always storable: an unrecognised tag is never one of the five known ones. |

## Left out

- The module-level `Notifications.setNotificationHandler` call and the asynchronous wrappers over the platform notification service are left out (utils/notificationUtils.ts:6-64: `requestNotificationPermissions`, `scheduleNotification`, `cancelNotification`, `getAllScheduledNotifications`). They are calls into foreign platform code.
- Parsing the due-date string (`new Date(schedule.dueDate)`) is left out, along with time zones and daylight saving. The due date is taken as an instant, and every local day is exactly 86,400,000 ms long.
- The range limit of `Date` is not modelled: an instant beyond ±8.64e15 ms is not turned into an invalid date.
- `TimeText.ToNumber`: `Number` also accepts surrounding white space, a sign, fractions, exponents, hexadecimal and "Infinity". The model reads each of those as NaN, so such stored times give `InvalidDate` here. Long digit strings also lose precision in floating point, which the model does not capture.
- `Database.Settings`: numeric settings are integers. A fractional setting, which `setHours`/`setDate` truncate and `custom-interval` uses as is, is not modelled.
- `NotificationUtils.CalculateNextNotificationDate` reads the clock twice in the daily branch. The model uses one `now` for both reads.
- The provider that chains the scheduler to the notification service, the todo storage queries, the screens and the alternative type file are not part of this model.
