/** The notification schedule record stored with a todo, and its frequency kinds. */
module Database {
  import opened Optional

  /**
   * `NotificationFrequency`. A stored record may carry any text, so a tag
   * outside the five known ones is kept as `Unrecognised`.
   */
  datatype Frequency =
    | Once
    | HourlyOnDueDate
    | Daily
    | DailyFromDueDate
    | CustomInterval
    | Unrecognised(tag: string)

  const KnownTags: set<string> :=
    {"once", "hourly-on-due-date", "daily", "daily-from-due-date", "custom-interval"}

  /** The text a frequency is stored as. */
  function Tag(f: Frequency): string
  {
    match f
    case Once => "once"
    case HourlyOnDueDate => "hourly-on-due-date"
    case Daily => "daily"
    case DailyFromDueDate => "daily-from-due-date"
    case CustomInterval => "custom-interval"
    case Unrecognised(tag) => tag
  }

  /** An `Unrecognised` frequency never carries one of the known tags. */
  predicate WellFormed(f: Frequency)
  {
    f.Unrecognised? ==> f.tag !in KnownTags
  }

  /** The frequencies a stored tag can denote. */
  type StoredFrequency = f: Frequency | WellFormed(f) witness Once

  /** Reads a stored frequency tag, the way the scheduler's `switch` compares it. */
  function ParseFrequency(tag: string): (f: StoredFrequency)
    ensures Tag(f) == tag
    ensures f.Unrecognised? <==> tag !in KnownTags
  {
    if tag == "once" then Once
    else if tag == "hourly-on-due-date" then HourlyOnDueDate
    else if tag == "daily" then Daily
    else if tag == "daily-from-due-date" then DailyFromDueDate
    else if tag == "custom-interval" then CustomInterval
    else Unrecognised(tag)
  }

  /** Reading back the stored tag of a well-formed frequency gives the frequency. */
  lemma ParseTag(f: StoredFrequency)
    ensures ParseFrequency(Tag(f)) == f
  {
  }

  /**
   * The kind-specific settings; every one is optional. A numeric setting that
   * is NaN (from `parseInt` of bad input) is falsy like an absent one and is
   * represented as None.
   */
  datatype Settings = Settings(
    notificationTime: Option<string>,
    daysBeforeDue: Option<int>,
    intervalMinutes: Option<int>,
    startHour: Option<int>,
    endHour: Option<int>)

  /** `NotificationSchedule`, with `dueDate` already parsed to a local instant in ms. */
  datatype NotificationSchedule = NotificationSchedule(
    id: string,
    todoId: string,
    title: string,
    body: string,
    frequency: StoredFrequency,
    dueDate: int,
    settings: Settings,
    createdAt: string,
    updatedAt: string,
    lastNotificationAt: Option<string>,
    nextNotificationAt: string,
    isActive: bool,
    isCompleted: bool)
}
