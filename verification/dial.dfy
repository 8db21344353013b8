/**
  The 24-hour dial of `PieChartView`: one slice per schedule, in input
  order, whose start and end angles come from the clock readings of the
  schedule's start and end, whose hue key is its position over the count,
  and which is marked when the schedule is current. The centre of the dial
  shows the active schedule and its minutes left, or that nothing is on now.

  Angles are exact rationals (`real`), in degrees clockwise from 12 o'clock.
 */
module Dial {
  import opened Clock
  import opened Options
  import opened Schedules

  const FullTurn: real := 360.0

  /** Degrees on the dial for a minutes-of-day reading: `minutes / totalMinutes * 360`. */
  function AngleOf(minutes: nat): (deg: real)
    ensures deg * 4.0 == minutes as real
    ensures minutes < MinutesPerDay ==> 0.0 <= deg < FullTurn
  {
    minutes as real / MinutesPerDay as real * FullTurn
  }

  /** Hue key of the slice at `index` among `count`: `index / count`. */
  function Hue(index: nat, count: nat): (h: real)
    requires index < count
    ensures h * count as real == index as real
    ensures 0.0 <= h < 1.0
  {
    index as real / count as real
  }

  /** What the dial draws for one schedule. */
  datatype Slice = Slice(schedule: Schedule, startAngle: real, endAngle: real, hue: real, isCurrent: bool)

  /** The slice drawn for the schedule at `index` of `ss`. */
  function SliceAt(ss: seq<Schedule>, index: nat, now: Instant, off: Offset): (r: Slice)
    requires index < |ss|
    ensures r.schedule == ss[index]
    ensures r.startAngle * 4.0 == MinutesOfDay(ss[index].start, off) as real
    ensures r.endAngle * 4.0 == MinutesOfDay(ss[index].end, off) as real
    ensures 0.0 <= r.startAngle < FullTurn && 0.0 <= r.endAngle < FullTurn
    ensures 0.0 <= r.hue < 1.0
    ensures r.isCurrent <==> ss[index].start <= now <= ss[index].end
  {
    var s := ss[index];
    Slice(s, AngleOf(MinutesOfDay(s.start, off)), AngleOf(MinutesOfDay(s.end, off)),
          Hue(index, |ss|), IsCurrent(s, now))
  }

  /** The whole dial: exactly one slice per schedule, in input order. */
  function Layout(ss: seq<Schedule>, now: Instant, off: Offset): (r: seq<Slice>)
    ensures |r| == |ss|
    ensures forall i :: 0 <= i < |r| ==> r[i].schedule == ss[i]
    ensures forall i :: 0 <= i < |r| ==> r[i].hue * |ss| as real == i as real
    ensures forall i :: 0 <= i < |r| ==> (r[i].isCurrent <==> IsCurrent(ss[i], now))
    ensures forall i :: 0 <= i < |r| ==> r[i] == SliceAt(ss, i, now, off)
  {
    seq(|ss|, i requires 0 <= i < |ss| => SliceAt(ss, i, now, off))
  }

  /** An empty list draws nothing, so no hue division is ever evaluated. */
  lemma LayoutEmpty(now: Instant, off: Offset)
    ensures Layout([], now, off) == []
  {
  }

  /** The angle map is monotone in both directions. */
  lemma AngleOrder(a: nat, b: nat)
    ensures AngleOf(a) <= AngleOf(b) <==> a <= b
    ensures AngleOf(a) < AngleOf(b) <==> a < b
  {
  }

  /**
    A slice whose clock times are in order has its angles in order; one that
    crosses midnight gets an end angle below its start angle and is drawn as
    is, with no correction.
   */
  lemma SliceAngleOrder(ss: seq<Schedule>, i: nat, now: Instant, off: Offset)
    requires i < |ss|
    ensures var sl := Layout(ss, now, off)[i];
      && (MinutesOfDay(ss[i].start, off) <= MinutesOfDay(ss[i].end, off) <==> sl.startAngle <= sl.endAngle)
      && (MinutesOfDay(ss[i].end, off) < MinutesOfDay(ss[i].start, off) <==> sl.endAngle < sl.startAngle)
  {
  }

  /** Hue keys increase strictly with the position in the list. */
  lemma HueIncreasing(i: nat, j: nat, n: nat)
    requires i < j < n
    ensures Hue(i, n) < Hue(j, n)
  {
    var d := Hue(j, n) - Hue(i, n);
    assert d * n as real == (j - i) as real;
    assert d == (j - i) as real / n as real;
  }

  /** Slices are told apart by position: later slices have strictly larger hue keys. */
  lemma LayoutHuesIncreasing(ss: seq<Schedule>, i: nat, j: nat, now: Instant, off: Offset)
    requires i < j < |ss|
    ensures Layout(ss, now, off)[i].hue < Layout(ss, now, off)[j].hue
  {
    HueIncreasing(i, j, |ss|);
  }

  /** Two schedules with the same interval get the same angles but different hues. */
  lemma DuplicateIntervals(ss: seq<Schedule>, i: nat, j: nat, now: Instant, off: Offset)
    requires i < |ss| && j < |ss| && i != j
    requires ss[i].start == ss[j].start && ss[i].end == ss[j].end
    ensures Layout(ss, now, off)[i].startAngle == Layout(ss, now, off)[j].startAngle
    ensures Layout(ss, now, off)[i].endAngle == Layout(ss, now, off)[j].endAngle
    ensures Layout(ss, now, off)[i].isCurrent == Layout(ss, now, off)[j].isCurrent
    ensures Layout(ss, now, off)[i].hue != Layout(ss, now, off)[j].hue
  {
    if i < j {
      LayoutHuesIncreasing(ss, i, j, now, off);
    } else {
      LayoutHuesIncreasing(ss, j, i, now, off);
    }
  }

  /**
    The outlined slices and the centre agree: the active schedule's slice is
    outlined and no slice before it is.
   */
  lemma ActiveSliceIsFirstOutlined(ss: seq<Schedule>, now: Instant, off: Offset)
    ensures var sl := Layout(ss, now, off);
      match ActiveIndex(ss, now)
      case None => forall i :: 0 <= i < |sl| ==> !sl[i].isCurrent
      case Some(k) => k < |sl| && sl[k].isCurrent && forall i :: 0 <= i < k ==> !sl[i].isCurrent
  {
  }

  /** What the centre of the dial says. */
  datatype Centre = Active(title: string, minutesLeft: int) | NothingNow

  /** The centre text: the active schedule's title and minutes left, or nothing on now. */
  function CentreOf(ss: seq<Schedule>, now: Instant): (c: Centre)
    ensures c.NothingNow? <==> !AnyCurrent(ss, now)
    ensures c.Active? ==> c.minutesLeft >= 0
    ensures c.Active? ==> exists k: nat ::
      IsFirstCurrent(ss, now, k) && c.title == ss[k].title && c.minutesLeft == MinutesLeft(ss[k], now)
  {
    match ActiveSchedule(ss, now)
    case None => NothingNow
    case Some(s) => Active(s.title, MinutesLeft(s, now))
  }
}
