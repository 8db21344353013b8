# ChronOrbit dial and submission payload, in Dafny

ChronOrbit records named time intervals ("schedules") and draws them on a
24-hour circular chart. This project models the two pieces of the app that
hold logic:

- the per-schedule computations of the pie chart (`PieChartView.body`):
  minutes-of-day of the start and end, the start and end angles on the dial,
  whether the schedule is current, its hue key, the first-wins lookup of the
  active schedule, and the minutes left on it, shown in the centre;
- the row `ScheduleInputView.register()` sends to the backend: the title with
  the empty-title placeholder, the start and end formatted as `HH:mm:ss`, and
  the 08:00 and 10:00 defaults of the time pickers.

Files:

- `options.dfy` (module `Options`): the `Option` datatype used by lookups.
- `clock.dfy` (module `Clock`): instants are whole seconds since the epoch. The
  viewer's calendar is a fixed offset from UTC in seconds, passed as a
  parameter. This module defines the day, hour, minute, second and
  minutes-of-day of an instant, and setting the clock of an instant's day.
- `schedule.dfy` (module `Schedules`): the `Schedule` record (opaque id, title,
  start, end), inclusive containment, the active-schedule lookup, and minutes
  left with Swift's truncating `Int(...)` conversion.
- `dial.dfy` (module `Dial`): angles and hue keys as exact rationals, one
  `Slice` per schedule, and the centre text.
- `payload.dfy` (module `Payload`): the title rule, `HH:mm:ss` formatting
  as Unicode Technical Standard #35, Part 4 "Dates" defines the pattern (`HH`
  is hour 00-23, `mm` is minute and `ss` is second, each two digits) with
  ASCII digits and no locale rewrite, and the inserted
  row. `ParseClock` is an independent reader of that format, so formatting can
  be stated as a round trip.

Behaviours of the code that the model keeps as written:

- The formatter is set to `HH:mm:ss` (ScheduleInputView.swift:11), so no
  date is sent to the backend (`FormatTimeDropsDate`).
- `Int(...)` truncates toward zero. For the active schedule, where
  `now <= end`, this equals a floor. Past the end it differs from a floor
  (`MinutesLeftTruncatesPastEnd`).
- `isCurrent` (GraphView.swift:18) is inclusive at both ends, on full
  instants including the date (`IsCurrentInclusive`, `OtherDayNotCurrent`).

## Model

| member | source | states |
|---|---|---|
| Clock.Hour | ChronOrbit/Views/GraphView.swift:13-14 | `component(.hour, from:)` is the local hour 0-23: the whole hours elapsed since local midnight |
| Clock.Minute | ChronOrbit/Views/GraphView.swift:13-14 | `component(.minute, from:)` is the local minute 0-59: the whole minutes elapsed since the start of the local hour |
| Clock.MinutesOfDay | ChronOrbit/Views/GraphView.swift:13-14 | `hour*60+minute` lies in [0, 1439] and is the number of whole minutes since local midnight, so the seconds are discarded |
| Clock.MinutesOfDayIgnoresDate | ChronOrbit/Views/GraphView.swift:13-14 | moving an instant by any whole number of days leaves its minutes-of-day unchanged |
| Clock.MinutesOfDayIgnoresSeconds | ChronOrbit/Views/GraphView.swift:13-14 | instants within the same local minute have equal minutes-of-day, including the instant with its seconds zeroed |
| Clock.ShiftByDays | ChronOrbit/Views/GraphView.swift:13-14 | shifting by k days adds k to the calendar day and keeps the time-of-day, the basis of "the date is discarded" |
| Clock.SetClock | ChronOrbit/Views/ScheduleInputView.swift:5-6 | `date(bySettingHour:minute:second:of:)` returns an instant on the same local day whose hour, minute and second are the given ones |
| Dial.AngleOf | ChronOrbit/Views/GraphView.swift:12-16 | the angle `minutes/1440*360` equals minutes/4 degrees and lies in [0, 360) for any minutes-of-day |
| Dial.AngleOrder | ChronOrbit/Views/GraphView.swift:15-16 | angles compare exactly as their minutes do, for both `<=` and `<` |
| Dial.SliceAngleOrder | ChronOrbit/Views/GraphView.swift:13-16 | a slice has startAngle <= endAngle iff its start minutes <= its end minutes. A slice that crosses midnight has endAngle < startAngle, with no correction |
| Dial.Hue | ChronOrbit/Views/GraphView.swift:21 | the hue key is index/count (key times count equals index) and lies in [0, 1) |
| Dial.HueIncreasing | ChronOrbit/Views/GraphView.swift:21 | hue keys are strictly increasing in the index |
| Dial.SliceAt | ChronOrbit/Views/GraphView.swift:11-21 | the slice for position i carries schedule i, angles equal to its minutes/4, in-range angles and hue, and an outline iff start <= now <= end |
| Dial.Layout | ChronOrbit/Views/GraphView.swift:11-21 | exactly one slice per schedule, in input order: slice i carries schedule i, hue key i/count, and an outline iff schedule i is current; its angles are those of `SliceAt` |
| Dial.LayoutEmpty | ChronOrbit/Views/GraphView.swift:11 | an empty list yields no slices, so the hue division is never evaluated |
| Dial.LayoutHuesIncreasing | ChronOrbit/Views/GraphView.swift:11-21 | among the slices, a later position has a strictly larger hue key |
| Dial.DuplicateIntervals | ChronOrbit/Views/GraphView.swift:11-21 | two schedules with identical intervals get equal angles and equal outlines but distinct hues |
| Dial.ActiveSliceIsFirstOutlined | ChronOrbit/Views/GraphView.swift:18-36 | the outline test and the centre lookup agree: the active schedule's slice is the first outlined slice, and no slice is outlined when there is none |
| Dial.CentreOf | ChronOrbit/Views/GraphView.swift:36-45 | the centre reads "no schedule now" iff no schedule is current; otherwise it shows the first current schedule's title and a non-negative minutes-left count |
| Schedules.IsCurrent | ChronOrbit/Views/GraphView.swift:18 | inclusive containment start <= now <= end on full instants. A schedule whose end precedes its start is never current |
| Schedules.IsCurrentInclusive | ChronOrbit/Views/GraphView.swift:18 | both endpoints of a schedule are current, and no instant before its start or after its end is |
| Schedules.OtherDayNotCurrent | ChronOrbit/Views/GraphView.swift:18 | containment is on full instants: a current schedule shorter than a day, moved to another day, has the same minutes-of-day but is not current |
| Schedules.ActiveIndex | ChronOrbit/Views/GraphView.swift:36 | `first(where:)` returns a current schedule with no current schedule before it, and returns none iff no schedule is current |
| Schedules.ActiveSchedule | ChronOrbit/Views/GraphView.swift:36 | the active schedule exists iff some schedule is current. It is a current member of the list, at the first current position |
| Schedules.ActiveIndexIsFirstCurrent | ChronOrbit/Views/GraphView.swift:36 | the lookup returns position k iff k is the first current position (both directions) |
| Schedules.ActiveIndexStableUnderAppend | ChronOrbit/Views/GraphView.swift:36 | schedules added after an active one never change which schedule is active |
| Schedules.ActiveIndexSkipsPrefix | ChronOrbit/Views/GraphView.swift:36 | if a prefix has no current schedule, the active one is the suffix's, shifted by the prefix length |
| Schedules.FirstWinsOnSharedBoundary | ChronOrbit/Views/GraphView.swift:18-36 | with 09:00-11:00 and 11:00-12:00 local time on the same day both containing 11:00, the schedule listed first wins, in either order |
| Schedules.TruncDiv | ChronOrbit/Views/GraphView.swift:39 | `Int(a/d)` truncates toward zero: below a for a >= 0 and above a for a < 0, within one divisor |
| Schedules.MinutesLeft | ChronOrbit/Views/GraphView.swift:39 | before the end, minutesLeft is the number of whole minutes in end - now (>= 0). After the end it is the negated count of whole minutes past |
| Schedules.ActiveMinutesLeft | ChronOrbit/Views/GraphView.swift:36-39 | for the active schedule minutesLeft >= 0, and it is 0 iff less than a minute remains |
| Schedules.MinutesLeftTruncatesPastEnd | ChronOrbit/Views/GraphView.swift:39 | 30 seconds past the end reads 0 minutes, where a floor division would give -1 |
| Payload.SubmittedTitle | ChronOrbit/Views/ScheduleInputView.swift:60 | the submitted title is never empty. It equals the input iff the input is non-empty, and is the placeholder otherwise |
| Payload.SubmittedTitleIdempotent | ChronOrbit/Views/ScheduleInputView.swift:60 | applying the title rule twice changes nothing |
| Payload.FormatClock | ChronOrbit/Views/ScheduleInputView.swift:9-13 | `HH:mm:ss` gives 8 characters: two digits of hour 00-23, ':', two digits of minute 00-59, ':', two digits of second 00-59, whose values recompose the time-of-day |
| Payload.ParseFormatClock | ChronOrbit/Views/ScheduleInputView.swift:9-13 | reading a formatted time-of-day gives back the same time-of-day |
| Payload.FormatParseClock | ChronOrbit/Views/ScheduleInputView.swift:9-13 | every well-formed `HH:mm:ss` string is the formatting of the time it reads as |
| Payload.FormatTime | ChronOrbit/Views/ScheduleInputView.swift:57-58 | the formatted start or end has the `HH:mm:ss` shape, and its fields are the instant's local hour, minute and second |
| Payload.FormatTimeEqual | ChronOrbit/Views/ScheduleInputView.swift:57-58 | two instants give the same string iff their local times-of-day are equal |
| Payload.FormatTimeDropsDate | ChronOrbit/Views/ScheduleInputView.swift:57-58 | the same time-of-day on another day gives the same string |
| Payload.DefaultStart | ChronOrbit/Views/ScheduleInputView.swift:5 | the start picker defaults to 08:00:00 on today's local date |
| Payload.DefaultEnd | ChronOrbit/Views/ScheduleInputView.swift:6 | the end picker defaults to 10:00:00 on today's local date |
| Payload.DefaultsFormat | ChronOrbit/Views/ScheduleInputView.swift:5-13 | the defaults format as "08:00:00" and "10:00:00" and are two hours apart |
| Payload.BuildInsert | ChronOrbit/Views/ScheduleInputView.swift:54-63 | the inserted row has a non-empty title and two `HH:mm:ss` strings that read back as the local times-of-day of start and end |
| Payload.InvertedIntervalAccepted | ChronOrbit/Views/ScheduleInputView.swift:54-63 | nothing checks end > start: with the pickers swapped, the row is built with start "10:00:00" and end "08:00:00" |

## Left out

- SwiftUI rendering is not modelled: `GeometryReader`, `ZStack`, the centre circle, saturation and brightness, and the red outline stroke. The tap gesture is also left out. A slice only records its schedule and whether it is outlined.
- The `PieSlice` arc path is not modelled. It uses the -90° drawing rotation and `CGRect`/`Double` geometry, which is floating-point drawing. Angles here are exact rationals measured from 12 o'clock.
- Dial.AngleOf: computes the exact rational minutes/4. The source computes in `Double`, and the model does not reproduce its rounding.
- Schedules.MinutesLeft: works on whole seconds. `Date` carries fractions of a second, and the source divides a `Double` before truncating, so sub-second remainders are not modelled.
- Payload.FormatTime: assumes the formatter's locale prints ASCII digits and keeps the fixed 24-hour `HH` pattern. The formatter sets only `dateFormat`, so a locale with its own digits, or the system's rewrite of fixed formats when the user turns 24-hour time off, would print differently; that is not modelled.
- The clock text from `DateFormatter.localizedString` is not modelled. It depends on the locale.
- Time zones and daylight-saving time of `Calendar.current` are reduced to a fixed UTC offset. So `date(bySettingHour:...)` never fails here, and the source's force-unwrap of that call is not modelled.
- The `Schedule` UUID is an opaque `Uuid` value. How it is generated is not modelled.
- `SupabaseService` is a network client and singleton, and is not modelled. The model stops at the `Insert` row it would receive. The `async` task, the success and error messages, and clearing the title after a successful submit are I/O and form state.
- `ContentView` only provides tab navigation, and is not modelled.
- A `combine(date, timeOfDay)` that merges two picked `Date` values and falls back to the date on failure is not modelled. These files have no such code; the only date-and-time combination is `date(bySettingHour:minute:second:of:)` for the picker defaults, modelled as `Clock.SetClock`.
- An append-only schedule store, lookup by id with a not-found error, and calendar or reminder creation are not modelled. These files contain no code for them.

## Open design questions

No defect in the source is claimed. Two behaviours are open design questions, and the model keeps them as the code behaves:

- an interval that crosses midnight has its end angle below its start angle (`SliceAngleOrder`);
- an end before the start is submitted unchanged (`InvertedIntervalAccepted`).
