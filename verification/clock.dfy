/**
  Wall-clock arithmetic for ChronOrbit.

  An instant is a whole number of seconds since the epoch. The viewer's
  calendar is reduced to one fixed offset from UTC (in seconds), so that the
  local clock reading of an instant is plain Euclidean division of
  `instant + offset` by the length of a day. Every other module reads hours,
  minutes and seconds through the functions here.
 */
module Clock {

  const SecondsPerMinute: nat := 60
  const SecondsPerHour: nat := 3600
  const SecondsPerDay: nat := 86400
  /** The dial's `totalMinutes`: 24 * 60. */
  const MinutesPerDay: nat := 24 * 60

  /** An absolute instant, in whole seconds since the epoch. */
  type Instant = int

  /** The viewer's fixed offset from UTC, in seconds. */
  type Offset = int

  /** The local calendar day an instant falls on (day 0 holds the epoch's local midnight). */
  function Day(t: Instant, off: Offset): int {
    (t + off) / SecondsPerDay
  }

  /** Seconds elapsed since the local midnight that starts `Day(t, off)`. */
  function SecondsOfDay(t: Instant, off: Offset): (r: nat)
    ensures r < SecondsPerDay
    ensures Day(t, off) * SecondsPerDay + r == t + off
  {
    (t + off) % SecondsPerDay
  }

  /** The `.hour` component of the local calendar, 0 through 23. */
  function Hour(t: Instant, off: Offset): (h: nat)
    ensures h < 24
    ensures h * SecondsPerHour <= SecondsOfDay(t, off) < (h + 1) * SecondsPerHour
  {
    SecondsOfDay(t, off) / SecondsPerHour
  }

  /** The `.minute` component of the local calendar, 0 through 59. */
  function Minute(t: Instant, off: Offset): (m: nat)
    ensures m < 60
    ensures Hour(t, off) * SecondsPerHour + m * SecondsPerMinute <= SecondsOfDay(t, off)
    ensures SecondsOfDay(t, off) < Hour(t, off) * SecondsPerHour + (m + 1) * SecondsPerMinute
  {
    SecondsOfDay(t, off) % SecondsPerHour / SecondsPerMinute
  }

  /** The `.second` component of the local calendar, 0 through 59. */
  function Second(t: Instant, off: Offset): (s: nat)
    ensures s < 60
    ensures Hour(t, off) * SecondsPerHour + Minute(t, off) * SecondsPerMinute + s == SecondsOfDay(t, off)
  {
    SecondsOfDay(t, off) % SecondsPerMinute
  }

  /**
    Minutes since local midnight, `hour * 60 + minute`: the date and the
    seconds are discarded.
   */
  function MinutesOfDay(t: Instant, off: Offset): (r: nat)
    ensures r < MinutesPerDay
    ensures r * SecondsPerMinute <= SecondsOfDay(t, off) < (r + 1) * SecondsPerMinute
  {
    Hour(t, off) * 60 + Minute(t, off)
  }

  /**
    The instant on the same local day as `t` whose clock reads `h:m:s`,
    as `Calendar.date(bySettingHour:minute:second:of:)` computes it under a
    fixed offset.
   */
  function SetClock(t: Instant, off: Offset, h: nat, m: nat, s: nat): (r: Instant)
    requires h < 24 && m < 60 && s < 60
    ensures Day(r, off) == Day(t, off)
    ensures Hour(r, off) == h && Minute(r, off) == m && Second(r, off) == s
  {
    var r := t - SecondsOfDay(t, off) + h * SecondsPerHour + m * SecondsPerMinute + s;
    ClockOfMidnightPlus(Day(t, off), off, h * SecondsPerHour + m * SecondsPerMinute + s);
    r
  }

  /** Clock reading of an instant `x` seconds after the local midnight of day `d`. */
  lemma ClockOfMidnightPlus(d: int, off: Offset, x: nat)
    requires x < SecondsPerDay
    ensures Day(d * SecondsPerDay - off + x, off) == d
    ensures SecondsOfDay(d * SecondsPerDay - off + x, off) == x
  {
    var t := d * SecondsPerDay - off + x;
    DivModUnique(t + off, d, x);
  }

  /** Euclidean division by the length of a day has one quotient and one remainder. */
  lemma DivModUnique(y: int, q: int, r: int)
    requires 0 <= r < SecondsPerDay
    requires y == q * SecondsPerDay + r
    ensures y / SecondsPerDay == q && y % SecondsPerDay == r
  {
  }

  /**
    Moving an instant by whole days moves its calendar day by the same count
    and leaves its clock reading alone.
   */
  lemma ShiftByDays(t: Instant, off: Offset, k: int)
    ensures Day(t + k * SecondsPerDay, off) == Day(t, off) + k
    ensures SecondsOfDay(t + k * SecondsPerDay, off) == SecondsOfDay(t, off)
  {
    DivModUnique(t + k * SecondsPerDay + off, Day(t, off) + k, SecondsOfDay(t, off));
  }

  /** Minutes-of-day ignores the calendar date. */
  lemma MinutesOfDayIgnoresDate(t: Instant, off: Offset, k: int)
    ensures MinutesOfDay(t + k * SecondsPerDay, off) == MinutesOfDay(t, off)
  {
    ShiftByDays(t, off, k);
  }

  /** Minutes-of-day ignores the seconds: any two instants in the same local minute agree. */
  lemma MinutesOfDayIgnoresSeconds(t: Instant, off: Offset, d: nat)
    requires d < SecondsPerMinute - Second(t, off)
    ensures MinutesOfDay(t + d, off) == MinutesOfDay(t, off)
    ensures MinutesOfDay(t - Second(t, off), off) == MinutesOfDay(t, off)
  {
    var x := SecondsOfDay(t, off);
    assert x + d < SecondsPerDay;
    ClockOfMidnightPlus(Day(t, off), off, x + d);
    ClockOfMidnightPlus(Day(t, off), off, x - Second(t, off));
  }
}
