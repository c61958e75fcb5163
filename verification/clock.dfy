/**
 * The Eastern-time calendar as the vote store sees it.  The time-zone
 * library's conversion of the wall clock is abstracted to an `Instant`
 * already expressed in Eastern local terms: a day index and the number of
 * seconds since that day's local midnight (a day may be 23 or 25 hours long,
 * so the seconds are not bounded).
 */
module Clock {

  /** A calendar day in the reference zone; consecutive days differ by one. */
  type Day = int

  datatype Instant = Instant(day: Day, second: nat)

  /** Strict time order of instants. */
  predicate Before(a: Instant, b: Instant) {
    a.day < b.day || (a.day == b.day && a.second < b.second)
  }

  /** `getCurrentDayKey`: the reference-zone calendar day containing `now`. */
  function CurrentDay(now: Instant): Day {
    now.day
  }

  /** `startOfDay`: local midnight at the beginning of `d`. */
  function StartOfDay(d: Day): Instant {
    Instant(d, 0)
  }

  /**
   * `getMidnightTomorrowET`: the start of the day after today.  It is the
   * first instant that is not on today or an earlier day.
   */
  function MidnightTomorrow(now: Instant): (r: Instant)
    ensures Before(now, r)
    ensures forall t :: Before(t, r) <==> CurrentDay(t) <= CurrentDay(now)
  {
    StartOfDay(CurrentDay(now) + 1)
  }

  /**
   * The last second of a day and the first of the next lie on different
   * days and carry different expiry instants, and the later one is already
   * at the earlier one's expiry.
   */
  lemma MidnightBoundary(d: Day, lastSecond: nat)
    ensures CurrentDay(Instant(d, lastSecond)) != CurrentDay(StartOfDay(d + 1))
    ensures MidnightTomorrow(Instant(d, lastSecond)) != MidnightTomorrow(StartOfDay(d + 1))
    ensures !Before(StartOfDay(d + 1), MidnightTomorrow(Instant(d, lastSecond)))
  {
  }
}
