/**
 * The window's end bound at pandas' own timestamp resolution, nanoseconds.
 * The bound is built as the end day plus one day minus one second, i.e.
 * 23:59:59.000 of the end day, so a start in the last, fractional second of
 * the end day falls outside the window although it lies on the end day.
 * The whole-day window, start day 00:00 inclusive to the following midnight
 * exclusive, keeps exactly the timestamps whose calendar day lies in the
 * window; on whole seconds the two bounds agree.
 */
module SubSecond {

  const NANOS_PER_SECOND := 1000000000
  const NANOS_PER_DAY := 86400 * NANOS_PER_SECOND

  /** The day a nanosecond timestamp falls on (floor division, as for dates before 1970). */
  function DayOf(t: int): int
  {
    t / NANOS_PER_DAY
  }

  /** The comparison of the filter as written: midnight of the start day up to
      end day + 1 day - 1 second, both inclusive. */
  predicate InWindowAsWritten(startDay: int, endDay: int, t: int)
  {
    startDay * NANOS_PER_DAY <= t <= (endDay + 1) * NANOS_PER_DAY - NANOS_PER_SECOND
  }

  /** The whole-day window: up to, but excluding, midnight after the end day. */
  predicate InWindowWholeDays(startDay: int, endDay: int, t: int)
  {
    startDay * NANOS_PER_DAY <= t < (endDay + 1) * NANOS_PER_DAY
  }

  /** As written, a start half a second before midnight after the end day lies on
      the end day and is still dropped. */
  lemma AsWrittenDropsLastSecond(startDay: int, endDay: int)
    ensures var t := (endDay + 1) * NANOS_PER_DAY - NANOS_PER_SECOND / 2;
            DayOf(t) == endDay && !InWindowAsWritten(startDay, endDay, t)
  {
  }

  /** The whole-day window keeps a timestamp exactly when its day is between the
      start day and the end day. */
  lemma WholeDaysIffDayInRange(startDay: int, endDay: int, t: int)
    ensures InWindowWholeDays(startDay, endDay, t) <==> startDay <= DayOf(t) <= endDay
  {
  }

  /** On whole-second timestamps the two bounds keep the same starts. */
  lemma AgreeOnWholeSeconds(startDay: int, endDay: int, seconds: int)
    ensures InWindowAsWritten(startDay, endDay, seconds * NANOS_PER_SECOND)
        <==> InWindowWholeDays(startDay, endDay, seconds * NANOS_PER_SECOND)
  {
  }
}
