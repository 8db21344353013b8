/**
  The `Schedule` record and the questions the chart asks of a list of them
  at a given "now": is this schedule current, which one is the active
  schedule (first wins), and how many minutes does it have left.
 */
module Schedules {
  import opened Clock
  import opened Options

  /** Opaque identity given to each schedule when it is created; never inspected. */
  datatype Uuid = Uuid(bits: nat)

  datatype Schedule = Schedule(id: Uuid, title: string, start: Instant, end: Instant)

  /**
    Inclusive containment of `now` in the schedule, on full instants (date
    included): both ends count, and a schedule whose end precedes its start
    is never current.
   */
  predicate IsCurrent(s: Schedule, now: Instant)
    ensures IsCurrent(s, now) ==> s.start <= s.end
  {
    now >= s.start && now <= s.end
  }

  /** Both ends of a schedule are current, and nothing outside it is. */
  lemma IsCurrentInclusive(s: Schedule, now: Instant)
    requires s.start <= s.end
    ensures IsCurrent(s, s.start) && IsCurrent(s, s.end)
    ensures now < s.start || now > s.end ==> !IsCurrent(s, now)
  {
  }

  /** `k` is the position of the first current schedule in `ss`. */
  predicate IsFirstCurrent(ss: seq<Schedule>, now: Instant, k: nat) {
    && k < |ss|
    && IsCurrent(ss[k], now)
    && forall j :: 0 <= j < k ==> !IsCurrent(ss[j], now)
  }

  /** Some schedule of `ss` is current at `now`. */
  predicate AnyCurrent(ss: seq<Schedule>, now: Instant) {
    exists j :: 0 <= j < |ss| && IsCurrent(ss[j], now)
  }

  /** Position of the active schedule: `first(where:)` over input order. */
  function ActiveIndex(ss: seq<Schedule>, now: Instant): (r: Option<nat>)
    ensures r.Some? ==> IsFirstCurrent(ss, now, r.value)
    ensures r.None? <==> !AnyCurrent(ss, now)
    decreases |ss|
  {
    if |ss| == 0 then None
    else if IsCurrent(ss[0], now) then Some(0)
    else
      match ActiveIndex(ss[1..], now)
      case None => None
      case Some(k) => Some(k + 1)
  }

  /** The active schedule itself, if any schedule is current. */
  function ActiveSchedule(ss: seq<Schedule>, now: Instant): (r: Option<Schedule>)
    ensures r.Some? <==> AnyCurrent(ss, now)
    ensures r.Some? ==> IsCurrent(r.value, now) && r.value in ss
    ensures r.Some? ==> exists k: nat :: IsFirstCurrent(ss, now, k) && ss[k] == r.value
  {
    match ActiveIndex(ss, now)
    case None => None
    case Some(k) => Some(ss[k])
  }

  /** The first-current position is unique, so `ActiveIndex` is exactly it. */
  lemma ActiveIndexIsFirstCurrent(ss: seq<Schedule>, now: Instant, k: nat)
    ensures ActiveIndex(ss, now) == Some(k) <==> IsFirstCurrent(ss, now, k)
  {
    if IsFirstCurrent(ss, now, k) {
      assert AnyCurrent(ss, now);
    }
  }

  /** Schedules appended after the active one never displace it. */
  lemma {:induction false} ActiveIndexStableUnderAppend(ss: seq<Schedule>, more: seq<Schedule>, now: Instant)
    requires ActiveIndex(ss, now).Some?
    ensures ActiveIndex(ss + more, now) == ActiveIndex(ss, now)
  {
    var k := ActiveIndex(ss, now).value;
    assert IsFirstCurrent(ss + more, now, k) by {
      assert (ss + more)[k] == ss[k];
      forall j | 0 <= j < k ensures !IsCurrent((ss + more)[j], now) {
        assert (ss + more)[j] == ss[j];
      }
    }
    ActiveIndexIsFirstCurrent(ss + more, now, k);
  }

  /** With no current schedule among `ss`, the active one is found among `more`, shifted. */
  lemma {:induction false} ActiveIndexSkipsPrefix(ss: seq<Schedule>, more: seq<Schedule>, now: Instant)
    requires ActiveIndex(ss, now).None?
    ensures ActiveIndex(ss + more, now) ==
      match ActiveIndex(more, now)
      case None => None
      case Some(k) => Some(|ss| + k)
  {
    var all := ss + more;
    match ActiveIndex(more, now)
    case None =>
      forall j | 0 <= j < |all| ensures !IsCurrent(all[j], now) {
        if j < |ss| {
          assert all[j] == ss[j];
        } else {
          assert all[j] == more[j - |ss|];
        }
      }
    case Some(k) =>
      assert IsFirstCurrent(all, now, |ss| + k) by {
        assert all[|ss| + k] == more[k];
        forall j | 0 <= j < |ss| + k ensures !IsCurrent(all[j], now) {
          if j < |ss| {
            assert all[j] == ss[j];
            assert !AnyCurrent(ss, now);
          } else {
            assert all[j] == more[j - |ss|];
          }
        }
      }
      ActiveIndexIsFirstCurrent(all, now, |ss| + k);
  }

  /** The schedule moved by `k` whole days: the same clock times on another day. */
  function ShiftDays(s: Schedule, k: int): (r: Schedule)
    ensures r.id == s.id && r.title == s.title
    ensures r.end - r.start == s.end - s.start
  {
    s.(start := s.start + k * SecondsPerDay, end := s.end + k * SecondsPerDay)
  }

  /**
    Containment is on full instants: a schedule shorter than a day that is
    current now is not current on any other day, though its clock times agree.
   */
  lemma OtherDayNotCurrent(s: Schedule, now: Instant, off: Offset, k: int)
    requires IsCurrent(s, now)
    requires s.end - s.start < SecondsPerDay
    requires k != 0
    ensures !IsCurrent(ShiftDays(s, k), now)
    ensures MinutesOfDay(ShiftDays(s, k).start, off) == MinutesOfDay(s.start, off)
    ensures MinutesOfDay(ShiftDays(s, k).end, off) == MinutesOfDay(s.end, off)
  {
    MinutesOfDayIgnoresDate(s.start, off, k);
    MinutesOfDayIgnoresDate(s.end, off, k);
  }

  /**
    `Int(x)` of a Swift `Double`: division that truncates toward zero, unlike
    Dafny's Euclidean `/`.
   */
  function TruncDiv(a: int, d: nat): (q: int)
    requires d > 0
    ensures a >= 0 ==> q >= 0 && q * d <= a < (q + 1) * d
    ensures a < 0 ==> q <= 0 && (q - 1) * d < a <= q * d
  {
    if a >= 0 then a / d else -((-a) / d)
  }

  /** `minutesLeft`: whole minutes from `now` to the schedule's end, truncated toward zero. */
  function MinutesLeft(s: Schedule, now: Instant): (r: int)
    ensures now <= s.end ==> 0 <= r && r * SecondsPerMinute <= s.end - now < (r + 1) * SecondsPerMinute
    ensures now > s.end ==> r <= 0 && (r - 1) * SecondsPerMinute < s.end - now <= r * SecondsPerMinute
  {
    TruncDiv(s.end - now, SecondsPerMinute)
  }

  /** For the active schedule the count is never negative, and is 0 exactly when under a minute remains. */
  lemma ActiveMinutesLeft(ss: seq<Schedule>, now: Instant)
    requires ActiveSchedule(ss, now).Some?
    ensures MinutesLeft(ActiveSchedule(ss, now).value, now) >= 0
    ensures MinutesLeft(ActiveSchedule(ss, now).value, now) == 0
        <==> ActiveSchedule(ss, now).value.end - now < SecondsPerMinute
  {
  }

  /**
    Past the end the count truncates toward zero, where a floor would not:
    30 seconds after the end still reads 0 minutes, not -1.
   */
  lemma MinutesLeftTruncatesPastEnd(s: Schedule, now: Instant)
    requires now == s.end + 30
    ensures MinutesLeft(s, now) == 0
    ensures (s.end - now) / SecondsPerMinute == -1
  {
  }

  /**
    Ties go to input order: "Work" 09:00-11:00 and "Lunch" 11:00-12:00 on the
    same local day both contain 11:00, and whichever is listed first is active.
   */
  lemma FirstWinsOnSharedBoundary(work: Schedule, lunch: Schedule, today: Instant, off: Offset)
    requires work.start == SetClock(today, off, 9, 0, 0) && work.end == SetClock(today, off, 11, 0, 0)
    requires lunch.start == work.end && lunch.end == SetClock(today, off, 12, 0, 0)
    ensures IsCurrent(work, work.end) && IsCurrent(lunch, work.end)
    ensures ActiveSchedule([work, lunch], work.end) == Some(work)
    ensures ActiveSchedule([lunch, work], work.end) == Some(lunch)
  {
  }
}
