/**
 * The gate of `startDailyReminder` (script.js): a reading reminder is shown
 * at most once per calendar day, after the chosen time of day, when there
 * is at least one book.
 */
module Reminder {
  import opened Wrappers

  const MsPerMinute: int := 60 * 1000
  const MsPerDay: int := 24 * 60 * MsPerMinute

  /** The stored reminder time: absent or empty, or its two `Number` conversions. */
  datatype ReminderTime = NoTime | TimeOfDay(hours: Option<int>, minutes: Option<int>)

  /**
   * The stored timestamp of the last reminder: `NoStamp` when it is absent or
   * empty (both falsy, so the check accepts them), or else its `parseInt`
   * result. The code only ever stores `nowTimestamp.toString()`.
   */
  datatype Stamp = NoStamp | StampText(parsed: Option<int>)

  /** What `localStorage` remembers of the last reminder shown. */
  datatype ReminderLog = ReminderLog(lastDate: Option<string>, lastStamp: Stamp)

  /**
   * One run of the gate: the local date string, the clock in milliseconds,
   * the milliseconds since local midnight, the number of books, whether
   * notifications are granted, and whether showing the notification succeeds.
   */
  datatype Check = Check(today: string, now: int, msOfDay: int, bookCount: nat, granted: bool, shown: bool)

  /** `now >= reminderDateTime`; a time that is not a number never passes. */
  predicate TimePassed(time: ReminderTime, msOfDay: int) {
    time.TimeOfDay? && time.hours.Some? && time.minutes.Some? &&
    msOfDay >= (time.hours.value * 60 + time.minutes.value) * MsPerMinute
  }

  /** The stamp lies between a day ahead of the clock and a year behind it; an unparsable stamp fails. */
  predicate StampReasonable(stamp: Stamp, now: int) {
    match stamp
    case NoStamp => true
    case StampText(parsed) =>
      parsed.Some? && now - parsed.value > -MsPerDay && now - parsed.value < MsPerDay * 365
  }

  /** All conditions under which a reminder is due. */
  predicate Due(time: ReminderTime, log: ReminderLog, c: Check) {
    c.granted && time != NoTime &&
    log.lastDate != Some(c.today) &&
    TimePassed(time, c.msOfDay) &&
    StampReasonable(log.lastStamp, c.now) &&
    c.bookCount > 0
  }

  /** The log after one run: a shown reminder records today's date and the clock. */
  function Step(time: ReminderTime, log: ReminderLog, c: Check): (r: ReminderLog)
    ensures Due(time, log, c) && c.shown ==> r == ReminderLog(Some(c.today), StampText(Some(c.now)))
    ensures !(Due(time, log, c) && c.shown) ==> r == log
  {
    if Due(time, log, c) && c.shown then ReminderLog(Some(c.today), StampText(Some(c.now))) else log
  }

  /** Once a reminder is recorded for a day, no run on that day is due. */
  lemma RecordedDayBlocks(time: ReminderTime, log: ReminderLog, c: Check, d: Check)
    requires Due(time, log, c) && c.shown && d.today == c.today
    ensures !Due(time, Step(time, log, c), d)
  {
  }

  /** The number of reminders shown over a series of runs, and the log they leave. */
  function Run(time: ReminderTime, log: ReminderLog, checks: seq<Check>): (r: (nat, ReminderLog))
    ensures r.0 <= |checks|
    decreases |checks|
  {
    if checks == [] then (0, log)
    else
      var shown := if Due(time, log, checks[0]) && checks[0].shown then 1 else 0;
      var rest := Run(time, Step(time, log, checks[0]), checks[1..]);
      (shown + rest.0, rest.1)
  }

  /** A log that already holds the day lets no run on that day through. */
  lemma {:induction false} SameDayAfterRecordShowsNothing(time: ReminderTime, log: ReminderLog, checks: seq<Check>, day: string)
    requires log.lastDate == Some(day)
    requires forall i :: 0 <= i < |checks| ==> checks[i].today == day
    ensures Run(time, log, checks) == (0, log)
    decreases |checks|
  {
    if checks != [] {
      assert !Due(time, log, checks[0]);
      SameDayAfterRecordShowsNothing(time, log, checks[1..], day);
    }
  }

  /** However often the gate runs within one day, at most one reminder is shown. */
  lemma {:induction false} AtMostOncePerDay(time: ReminderTime, log: ReminderLog, checks: seq<Check>, day: string)
    requires forall i :: 0 <= i < |checks| ==> checks[i].today == day
    ensures Run(time, log, checks).0 <= 1
    decreases |checks|
  {
    if checks != [] {
      var c := checks[0];
      if Due(time, log, c) && c.shown {
        SameDayAfterRecordShowsNothing(time, Step(time, log, c), checks[1..], day);
      } else {
        AtMostOncePerDay(time, log, checks[1..], day);
      }
    }
  }
}
