/**
 * The morning gate of index.js:102-104. `moment().hour(8).minute(0)` moves
 * the current instant to 08:00 but keeps its seconds and milliseconds, and
 * `isBetween` without an inclusivity argument excludes both bounds. The
 * three `moment()` calls are taken to read one and the same instant.
 */
module TimeWindow {

  type MinuteOfDay = m: nat | m < 24 * 60
  type SubMinuteMs = s: nat | s < 60 * 1000

  /** A local time of day at millisecond resolution. */
  datatype Clock = Clock(minuteOfDay: MinuteOfDay, subMinuteMs: SubMinuteMs)

  /** Milliseconds since local midnight; moment compares instants by these. */
  function Millis(c: Clock): nat {
    c.minuteOfDay * 60 * 1000 + c.subMinuteMs
  }

  /** `now.hour(h).minute(m)`: only the hour and the minute change. */
  function AtHourMinute(now: Clock, h: nat, m: nat): Clock
    requires h < 24 && m < 60
  {
    Clock(h * 60 + m, now.subMinuteMs)
  }

  /** `x.isBetween(lo, hi)` with the default exclusive bounds. */
  predicate IsBetween(x: Clock, lo: Clock, hi: Clock) {
    Millis(lo) < Millis(x) < Millis(hi)
  }

  /**
   * The gate for bounds h1:m1 and h2:m2 built from the current instant. As the
   * bounds share the instant's seconds, it opens one whole minute after the
   * start and closes at the start of the end minute.
   */
  predicate InWindow(now: Clock, h1: nat, m1: nat, h2: nat, m2: nat)
    requires h1 < 24 && m1 < 60 && h2 < 24 && m2 < 60
    ensures InWindow(now, h1, m1, h2, m2) <==> h1 * 60 + m1 < now.minuteOfDay < h2 * 60 + m2
  {
    IsBetween(now, AtHourMinute(now, h1, m1), AtHourMinute(now, h2, m2))
  }

  /** `isMorning()`: open from 08:01:00.000 up to 15:59:59.999. */
  predicate IsMorning(now: Clock)
    ensures IsMorning(now) <==> 8 * 60 + 1 <= now.minuteOfDay <= 16 * 60 - 1
  {
    InWindow(now, 8, 0, 16, 0)
  }

  /** The boundary minutes: all of 08:00 and all of 16:00 are outside. */
  lemma MorningBoundaries(s: SubMinuteMs)
    ensures !IsMorning(Clock(8 * 60, s)) && IsMorning(Clock(8 * 60 + 1, s))
    ensures IsMorning(Clock(16 * 60 - 1, s)) && !IsMorning(Clock(16 * 60, s))
  {
  }
}
