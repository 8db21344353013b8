/**
  The row `ScheduleInputView.register()` hands to the backend: the title,
  with an empty one replaced by a placeholder, and the start and end
  instants rendered with the date pattern `HH:mm:ss` (Unicode Technical
  Standard #35, Part 4 "Dates": `HH` hour 00-23, `mm` minute, `ss` second,
  each zero-padded to two digits). The form's pickers start at 08:00 and
  10:00 of the current day.
 */
module Payload {
  import opened Clock
  import opened Options

  /** Title submitted when the user left the field empty ("title not entered"). */
  const Placeholder: string := "タイトル未入力"

  /** The title sent to the backend. */
  function SubmittedTitle(title: string): (r: string)
    ensures |r| > 0
    ensures r == title <==> |title| > 0
    ensures |title| == 0 ==> r == Placeholder
  {
    if |title| == 0 then Placeholder else title
  }

  /** Replacing the title is idempotent: a submitted title is submitted unchanged. */
  lemma SubmittedTitleIdempotent(title: string)
    ensures SubmittedTitle(SubmittedTitle(title)) == SubmittedTitle(title)
  {
  }

  predicate IsDigit(c: char) {
    '0' <= c <= '9'
  }

  function DigitValue(c: char): (d: nat)
    requires IsDigit(c)
    ensures d < 10
  {
    c as int - '0' as int
  }

  function DigitChar(d: nat): (c: char)
    requires d < 10
    ensures IsDigit(c) && DigitValue(c) == d
  {
    ('0' as int + d) as char
  }

  /** Two zero-padded decimal digits. */
  function Pad2(n: nat): (r: string)
    requires n < 100
    ensures |r| == 2 && IsDigit(r[0]) && IsDigit(r[1])
    ensures DigitValue(r[0]) * 10 + DigitValue(r[1]) == n
  {
    [DigitChar(n / 10), DigitChar(n % 10)]
  }

  /** The value of the two digits at `s[i]`, `s[i+1]`. */
  function TwoDigits(s: string, i: nat): nat
    requires i + 2 <= |s| && IsDigit(s[i]) && IsDigit(s[i + 1])
  {
    DigitValue(s[i]) * 10 + DigitValue(s[i + 1])
  }

  /** `s` has the shape `DD:DD:DD`. */
  predicate IsClockShape(s: string) {
    && |s| == 8
    && s[2] == ':' && s[5] == ':'
    && IsDigit(s[0]) && IsDigit(s[1]) && IsDigit(s[3])
    && IsDigit(s[4]) && IsDigit(s[6]) && IsDigit(s[7])
  }

  /** A clock reading, seconds since midnight, as `HH:mm:ss`. */
  function FormatClock(x: nat): (r: string)
    requires x < SecondsPerDay
    ensures IsClockShape(r)
    ensures TwoDigits(r, 0) < 24 && TwoDigits(r, 3) < 60 && TwoDigits(r, 6) < 60
    ensures TwoDigits(r, 0) * SecondsPerHour + TwoDigits(r, 3) * SecondsPerMinute + TwoDigits(r, 6) == x
  {
    var hh, mm, ss := Pad2(x / SecondsPerHour), Pad2(x % SecondsPerHour / SecondsPerMinute), Pad2(x % SecondsPerMinute);
    [hh[0], hh[1], ':', mm[0], mm[1], ':', ss[0], ss[1]]
  }

  /** Reads an `HH:mm:ss` string back into seconds since midnight. */
  function ParseClock(s: string): (r: Option<nat>)
    ensures r.Some? ==> r.value < SecondsPerDay
  {
    if IsClockShape(s) && TwoDigits(s, 0) < 24 && TwoDigits(s, 3) < 60 && TwoDigits(s, 6) < 60 then
      Some(TwoDigits(s, 0) * SecondsPerHour + TwoDigits(s, 3) * SecondsPerMinute + TwoDigits(s, 6))
    else
      None
  }

  /** Parsing undoes formatting. */
  lemma ParseFormatClock(x: nat)
    requires x < SecondsPerDay
    ensures ParseClock(FormatClock(x)) == Some(x)
  {
  }

  /** Formatting undoes parsing: every accepted string is the canonical rendering of its value. */
  lemma FormatParseClock(s: string)
    requires ParseClock(s).Some?
    ensures FormatClock(ParseClock(s).value) == s
  {
    var x := ParseClock(s).value;
    var h, m, sec := TwoDigits(s, 0), TwoDigits(s, 3), TwoDigits(s, 6);
    assert x / SecondsPerHour == h;
    assert x % SecondsPerHour / SecondsPerMinute == m;
    assert x % SecondsPerMinute == sec;
    var r := FormatClock(x);
    PadDigits(s, 0);
    PadDigits(s, 3);
    PadDigits(s, 6);
    assert r == s;
  }

  /** Two digits are the padding of their own value. */
  lemma PadDigits(s: string, i: nat)
    requires i + 2 <= |s| && IsDigit(s[i]) && IsDigit(s[i + 1])
    ensures Pad2(TwoDigits(s, i)) == s[i..i + 2]
  {
  }

  /**
    `formatter.string(from:)` with pattern `HH:mm:ss` in the viewer's calendar,
    for a locale that prints ASCII digits and leaves the 24-hour pattern as set.
   */
  function FormatTime(t: Instant, off: Offset): (r: string)
    ensures IsClockShape(r)
    ensures TwoDigits(r, 0) == Hour(t, off)
    ensures TwoDigits(r, 3) == Minute(t, off)
    ensures TwoDigits(r, 6) == Second(t, off)
  {
    FormatClock(SecondsOfDay(t, off))
  }

  /** Two instants format alike exactly when their clock readings agree, whatever the date. */
  lemma FormatTimeEqual(t1: Instant, t2: Instant, off: Offset)
    ensures FormatTime(t1, off) == FormatTime(t2, off) <==> SecondsOfDay(t1, off) == SecondsOfDay(t2, off)
  {
    ParseFormatClock(SecondsOfDay(t1, off));
    ParseFormatClock(SecondsOfDay(t2, off));
  }

  /** The date is dropped: the same clock time on another day gives the same string. */
  lemma FormatTimeDropsDate(t: Instant, off: Offset, k: int)
    ensures FormatTime(t + k * SecondsPerDay, off) == FormatTime(t, off)
  {
    ShiftByDays(t, off, k);
  }

  /** The start picker's initial value: 08:00:00 today. */
  function DefaultStart(today: Instant, off: Offset): (r: Instant)
    ensures Day(r, off) == Day(today, off)
    ensures SecondsOfDay(r, off) == 8 * SecondsPerHour
  {
    SetClock(today, off, 8, 0, 0)
  }

  /** The end picker's initial value: 10:00:00 today. */
  function DefaultEnd(today: Instant, off: Offset): (r: Instant)
    ensures Day(r, off) == Day(today, off)
    ensures SecondsOfDay(r, off) == 10 * SecondsPerHour
  {
    SetClock(today, off, 10, 0, 0)
  }

  /** The defaults render as "08:00:00" and "10:00:00", two hours apart. */
  lemma DefaultsFormat(today: Instant, off: Offset)
    ensures FormatTime(DefaultStart(today, off), off) == "08:00:00"
    ensures FormatTime(DefaultEnd(today, off), off) == "10:00:00"
    ensures DefaultEnd(today, off) - DefaultStart(today, off) == 2 * SecondsPerHour
  {
    var s, e := DefaultStart(today, off), DefaultEnd(today, off);
    assert s == Day(today, off) * SecondsPerDay - off + 8 * SecondsPerHour;
    assert e == Day(today, off) * SecondsPerDay - off + 10 * SecondsPerHour;
  }

  /** The row inserted into the `schedules` table. */
  datatype Insert = Insert(title: string, startTime: string, endTime: string)

  /** The payload of `register()`: no check relates the end to the start. */
  function BuildInsert(title: string, start: Instant, end: Instant, off: Offset): (p: Insert)
    ensures |p.title| > 0
    ensures |title| > 0 ==> p.title == title
    ensures |title| == 0 ==> p.title == Placeholder
    ensures IsClockShape(p.startTime) && IsClockShape(p.endTime)
    ensures ParseClock(p.startTime) == Some(SecondsOfDay(start, off))
    ensures ParseClock(p.endTime) == Some(SecondsOfDay(end, off))
  {
    ParseFormatClock(SecondsOfDay(start, off));
    ParseFormatClock(SecondsOfDay(end, off));
    Insert(SubmittedTitle(title), FormatTime(start, off), FormatTime(end, off))
  }

  /** An end before the start is submitted as it stands: the pickers swapped give "10:00:00" to "08:00:00". */
  lemma InvertedIntervalAccepted(title: string, today: Instant, off: Offset)
    ensures var p := BuildInsert(title, DefaultEnd(today, off), DefaultStart(today, off), off);
      p.startTime == "10:00:00" && p.endTime == "08:00:00"
  {
    DefaultsFormat(today, off);
  }
}
