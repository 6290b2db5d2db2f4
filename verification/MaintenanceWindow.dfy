/**
 Weekly maintenance windows (packages/shared/src/alert-lifecycle.ts): the weekday-delta
 search for the occurrence that could cover `now`, against the plain statement that a
 window repeats every seven days.
 */
module MaintenanceWindow {
  import opened Calendar
  import opened Options
  import opened ZonedTime

  const WEEK: int := 7 * MS_PER_DAY

  datatype Recurrence = Once | Weekly

  /** `zone` is None when the stored name is not a time zone. */
  datatype Window = Window(startsAt: int, endsAt: int, zone: Option<Zone>, recurrence: Recurrence)

  predicate IsValidSpan(w: Window) {
    var duration := w.endsAt - w.startsAt;
    duration > 0 && (w.recurrence == Weekly ==> duration < WEEK)
  }

  function AddCalendarDays(p: Parts, days: int): (q: Parts)
    requires 1 <= p.month <= 12
    ensures 1 <= q.month <= 12
  {
    UtcParts(DateUtc(p.year, p.month, p.day + days, p.hour, p.minute, p.second))
  }

  /** Today's date in the zone with the window's time of day, `dayDelta` days back. */
  function Candidate(startsAt: int, z: Zone, now: int): (c: Parts)
    ensures 1 <= c.month <= 12
  {
    var startParts := ZonedParts(z, startsAt);
    var nowParts := ZonedParts(z, now);
    var delta := ZonedWeekday(z, now) - ZonedWeekday(z, startsAt);
    var dayDelta := if delta < 0 then delta + 7 else delta;
    AddCalendarDays(
      Parts(nowParts.year, nowParts.month, nowParts.day, startParts.hour, startParts.minute, startParts.second),
      -dayDelta)
  }

  function OccurrenceStart(startsAt: int, z: Zone, now: int): int {
    var candidate := Candidate(startsAt, z, now);
    var start := FromZonedTime(candidate, z);
    if start > now then FromZonedTime(AddCalendarDays(candidate, -7), z) else start
  }

  predicate ActiveAt(w: Window, now: int) {
    if !IsValidSpan(w) then false
    else if w.zone.None? || w.recurrence == Once then w.startsAt <= now < w.endsAt
    else if now < w.startsAt then false
    else
      var start := OccurrenceStart(w.startsAt, w.zone.value, now);
      start <= now < start + (w.endsAt - w.startsAt)
  }

  /** The span a window must have: not empty, and under seven days when it repeats. */
  predicate Spans(w: Window) {
    w.startsAt < w.endsAt && (w.recurrence == Weekly ==> w.endsAt - w.startsAt < 604800000)
  }

  /** Without a repetition, or without a known zone, the window is its own span, end excluded. */
  lemma OnceIsItsSpan(w: Window, now: int)
    ensures !Spans(w) ==> !ActiveAt(w, now)
    ensures Spans(w) && (w.recurrence == Once || w.zone == None) ==>
              (ActiveAt(w, now) <==> w.startsAt <= now < w.endsAt)
    ensures ActiveAt(w, now) ==> w.startsAt <= now
  {
    hide OccurrenceStart;
  }

  method IsMaintenanceWindowActive(w: Window, now: int) returns (active: bool)
    ensures active == ActiveAt(w, now)
    ensures !Spans(w) ==> !active
    ensures Spans(w) && (w.recurrence == Once || w.zone == None) ==> (active <==> w.startsAt <= now < w.endsAt)
    ensures active ==> w.startsAt <= now
  {
    OnceIsItsSpan(w, now);
    hide UtcParts, DateUtc, InstantFor, WeekdayOf, DayNumber;
    var valid := IsValidSpan(w);
    if !valid {
      return false;
    }
    if w.zone.None? {
      return now >= w.startsAt && now < w.endsAt;
    }
    if w.recurrence == Once {
      return now >= w.startsAt && now < w.endsAt;
    }
    if now < w.startsAt {
      return false;
    }
    var z := w.zone.value;
    var durationMs := w.endsAt - w.startsAt;
    var startParts := ZonedParts(z, w.startsAt);
    var nowParts := ZonedParts(z, now);
    var dayDelta := ZonedWeekday(z, now) - ZonedWeekday(z, w.startsAt);
    if dayDelta < 0 {
      dayDelta := dayDelta + 7;
    }
    var candidate := AddCalendarDays(
      Parts(nowParts.year, nowParts.month, nowParts.day, startParts.hour, startParts.minute, startParts.second),
      -dayDelta);
    var occurrenceStart := FromZonedTime(candidate, z);
    if occurrenceStart > now {
      occurrenceStart := FromZonedTime(AddCalendarDays(candidate, -7), z);
    }
    var occurrenceEnd := occurrenceStart + durationMs;
    active := now >= occurrenceStart && now < occurrenceEnd;
  }

  /** Stepping a date by calendar days is stepping the instant by whole days. */
  lemma AddCalendarDaysExact(p: Parts, days: int)
    requires 1 <= p.month <= 12 && p.year >= 100
    requires FromParts(p) + days * MS_PER_DAY >= YEAR_100
    ensures FromParts(AddCalendarDays(p, days)) == FromParts(p) + days * MS_PER_DAY
    ensures AddCalendarDays(p, days).year >= 100
  {
    hide UtcParts, YearOf;
    var moved := DateUtc(p.year, p.month, p.day + days, p.hour, p.minute, p.second);
    assert moved == FromParts(p) + days * MS_PER_DAY;
    FromPartsWholeSecond(Parts(p.year, p.month, p.day + days, p.hour, p.minute, p.second));
    FromUtcParts(moved);
  }

  ghost predicate FixedOffset(z: Zone, o: int) {
    PlausibleOffset(o) && forall t :: z(t) == o
  }

  lemma FixedZone(z: Zone, o: int, t: int)
    requires FixedOffset(z, o)
    ensures PlausibleZone(z) && Wall(z, t) == t + o
  {
  }

  lemma FixedZoneInstant(p: Parts, z: Zone, o: int)
    requires 1 <= p.month <= 12 && FixedOffset(z, o)
    requires FromParts(p) >= EARLIEST_WALL
    ensures FromZonedTime(p, z) == FromParts(p) - o
  {
    FromPartsWholeSecond(p);
    TwoGuesses(FromParts(p), z);
  }

  /** A window's start as the zone's clock shows it, without its sub-second part. */
  function ShownStart(startsAt: int): int {
    startsAt - startsAt % MS_PER_SECOND
  }

  /** Earliest start the year-100 rule of `Date.UTC` leaves alone, two weeks' search included. */
  const EARLIEST_START: int := EARLIEST_WALL + 3 * WEEK

  /** Days from the latest same-weekday date, for two local day numbers. */
  lemma WeekdayDelta(today: int, first: int)
    ensures var d := WeekdayOf(today) - WeekdayOf(first);
            var delta := if d < 0 then d + 7 else d;
            0 <= delta < 7 && (today - delta - first) % 7 == 0
  {
  }

  lemma TodayAtStartTime(startsAt: int, z: Zone, now: int)
    requires PlausibleZone(z) && EARLIEST_START <= startsAt <= now
    ensures var s, n := ZonedParts(z, startsAt), ZonedParts(z, now);
            var today := Parts(n.year, n.month, n.day, s.hour, s.minute, s.second);
            && today.year >= 100
            && FromParts(today) == DayNumber(Wall(z, now)) * MS_PER_DAY
                                   + (TimeInDay(Wall(z, startsAt)) - startsAt % MS_PER_SECOND)
  {
    hide DaysFromCivil, CivilFromDays;
    assert PlausibleOffset(z(startsAt)) && PlausibleOffset(z(now));
    DayStartAtLeast100(Wall(z, now));
    YearAtLeast100(DayNumber(Wall(z, now)));
    ClockFields(TimeInDay(Wall(z, startsAt)));
    SecondOfDay(Wall(z, startsAt));
    WholeSecondShift(startsAt, z(startsAt));
  }

  lemma CandidateArithmetic(startsAt: int, z: Zone, o: int, now: int, delta: int, x: int)
    requires startsAt <= now && 0 <= delta < 7 && FixedOffset(z, o)
    requires (DayNumber(now + o) - delta - DayNumber(startsAt + o)) % 7 == 0
    requires x == (DayNumber(now + o) - delta) * MS_PER_DAY
                  + (TimeInDay(startsAt + o) - startsAt % MS_PER_SECOND) - o
    ensures (x - ShownStart(startsAt)) % WEEK == 0
    ensures now - WEEK < x <= now + MS_PER_DAY
  {
    SecondOfDay(startsAt + o);
    SecondOfDay(now + o);
    WholeSecondShift(startsAt, o);
    var weeks := (DayNumber(now + o) - delta - DayNumber(startsAt + o)) / 7;
    hide DayNumber, TimeInDay;
    assert DayNumber(now + o) - delta - DayNumber(startsAt + o) == 7 * weeks;
    MultipleOfWeek(weeks);
  }

  lemma MultipleOfWeek(k: int)
    ensures k * WEEK % WEEK == 0 && k * WEEK / WEEK == k
  {
  }

  /** Days from the window's weekday back to the latest such date in the zone. */
  function DayDelta(startsAt: int, z: Zone, now: int): (delta: int)
    ensures 0 <= delta < 7
  {
    var d := ZonedWeekday(z, now) - ZonedWeekday(z, startsAt);
    if d < 0 then d + 7 else d
  }

  lemma DayDeltaSameWeekday(startsAt: int, z: Zone, now: int)
    ensures (DayNumber(Wall(z, now)) - DayDelta(startsAt, z, now) - DayNumber(Wall(z, startsAt))) % 7 == 0
  {
    hide DayNumber;
    WeekdayDelta(DayNumber(Wall(z, now)), DayNumber(Wall(z, startsAt)));
  }

  lemma CandidateFields(startsAt: int, z: Zone, now: int)
    requires PlausibleZone(z) && EARLIEST_START <= startsAt <= now
    ensures var c := Candidate(startsAt, z, now);
            && c.year >= 100
            && FromParts(c) == (DayNumber(Wall(z, now)) - DayDelta(startsAt, z, now)) * MS_PER_DAY
                               + (TimeInDay(Wall(z, startsAt)) - startsAt % MS_PER_SECOND)
  {
    hide UtcParts, FromParts, TimeInDay, WeekdayOf, DaysFromCivil;
    assert PlausibleOffset(z(startsAt)) && PlausibleOffset(z(now));
    TodayAtStartTime(startsAt, z, now);
    DayStartNear(Wall(z, now));
    ClockNotNegative(startsAt, z(startsAt));
    hide DayNumber;
    var s, n := ZonedParts(z, startsAt), ZonedParts(z, now);
    var p := Parts(n.year, n.month, n.day, s.hour, s.minute, s.second);
    AddCalendarDaysExact(p, -DayDelta(startsAt, z, now));
  }

  lemma DayStartNear(t: int)
    ensures t - MS_PER_DAY < DayNumber(t) * MS_PER_DAY <= t
  {
  }

  lemma ClockNotNegative(t: int, o: int)
    requires o % MS_PER_SECOND == 0
    ensures 0 <= TimeInDay(t + o) - t % MS_PER_SECOND
  {
    SecondOfDay(t + o);
    WholeSecondShift(t, o);
  }

  /** The candidate is the latest date on the start's weekday, at the start's time of day. */
  lemma CandidateInstant(startsAt: int, z: Zone, o: int, now: int)
    requires FixedOffset(z, o) && EARLIEST_START <= startsAt <= now
    ensures var c := Candidate(startsAt, z, now);
            var x := FromParts(c) - o;
            && c.year >= 100
            && (x - ShownStart(startsAt)) % WEEK == 0
            && now - WEEK < x <= now + MS_PER_DAY
  {
    hide *;
    FixedZone(z, o, startsAt);
    FixedZone(z, o, now);
    DayDeltaSameWeekday(startsAt, z, now);
    CandidateFields(startsAt, z, now);
    CandidateArithmetic(startsAt, z, o, now, DayDelta(startsAt, z, now), FromParts(Candidate(startsAt, z, now)) - o);
  }

  /** The occurrence the search settles on is the last one that started by `now`. */
  lemma LatestOccurrence(startsAt: int, z: Zone, o: int, now: int)
    requires FixedOffset(z, o) && EARLIEST_START <= startsAt <= now
    ensures var x := OccurrenceStart(startsAt, z, now);
            && (x - ShownStart(startsAt)) % WEEK == 0
            && x <= now < x + WEEK
  {
    hide UtcParts, FromParts, InstantFor;
    CandidateInstant(startsAt, z, o, now);
    var c := Candidate(startsAt, z, now);
    FixedZoneInstant(c, z, o);
    if FromParts(c) - o > now {
      AddCalendarDaysExact(c, -7);
      FixedZoneInstant(AddCalendarDays(c, -7), z, o);
      OneWeekBack(FromParts(c) - o - ShownStart(startsAt));
    }
  }

  lemma OneWeekBack(a: int)
    requires a % WEEK == 0
    ensures (a - WEEK) % WEEK == 0
  {
  }

  /** The `k`-th repeat of the window covers `now`. */
  predicate RepeatCovers(w: Window, k: nat, now: int) {
    var start := ShownStart(w.startsAt) + k * WEEK;
    start <= now < start + (w.endsAt - w.startsAt)
  }

  lemma ActiveInLastRepeat(w: Window, o: int, now: int) returns (last: nat)
    requires IsValidSpan(w) && w.recurrence == Weekly
    requires w.zone.Some? && FixedOffset(w.zone.value, o) && EARLIEST_START <= w.startsAt <= now
    ensures ActiveAt(w, now) == RepeatCovers(w, last, now)
    ensures var start := ShownStart(w.startsAt) + last * WEEK; start <= now < start + WEEK
  {
    hide OccurrenceStart, ShownStart;
    LatestOccurrence(w.startsAt, w.zone.value, o, now);
    StartNotAfter(w.startsAt);
    last := LastRepeat(ShownStart(w.startsAt), OccurrenceStart(w.startsAt, w.zone.value, now), now);
  }

  /**
   A weekly window is active exactly inside one of its seven-day repeats, from its own start
   on. The zone's clock drops sub-seconds, so repeats run from the start's whole second.
   */
  lemma WeeklyActiveIff(w: Window, o: int, now: int)
    requires IsValidSpan(w) && w.recurrence == Weekly
    requires w.zone.Some? && FixedOffset(w.zone.value, o) && w.startsAt >= EARLIEST_START
    ensures ActiveAt(w, now) <==> now >= w.startsAt && exists k: nat :: RepeatCovers(w, k, now)
  {
    if now >= w.startsAt {
      var last := ActiveInLastRepeat(w, o, now);
      forall k: nat | RepeatCovers(w, k, now) ensures k == last {
        OnlyOneRepeat(ShownStart(w.startsAt), now, k, last);
      }
    }
  }

  lemma LastRepeat(base: int, x: int, now: int) returns (last: nat)
    requires (x - base) % WEEK == 0 && x <= now < x + WEEK && base <= now
    ensures x == base + last * WEEK
  {
    last := (x - base) / WEEK;
  }

  lemma StartNotAfter(t: int)
    ensures ShownStart(t) <= t
  {
  }

  lemma OnlyOneRepeat(base: int, now: int, k: int, last: int)
    requires base + last * WEEK <= now < base + last * WEEK + WEEK
    requires base + k * WEEK <= now < base + k * WEEK + WEEK
    ensures k == last
  {
  }

  // ----- zones whose offset changes -----

  /** What the zone's clock shows at the start of the window, without the sub-second part. */
  function StartWall(startsAt: int, z: Zone): int {
    Wall(z, startsAt) - startsAt % MS_PER_SECOND
  }

  /** The start of the window's `k`-th week: its wall time, `k` weeks on, turned into an instant. */
  function Occurrence(startsAt: int, z: Zone, k: int): int {
    InstantFor(StartWall(startsAt, z) + k * WEEK, z)
  }

  /** The local day the `k`-th week's occurrence is asked for. */
  function DateOf(startsAt: int, z: Zone, k: int): int {
    DayNumber(StartWall(startsAt, z) + k * WEEK)
  }

  lemma StartWallBounds(startsAt: int, z: Zone)
    requires PlausibleZone(z) && startsAt >= EARLIEST_START
    ensures StartWall(startsAt, z) % MS_PER_SECOND == 0 && StartWall(startsAt, z) >= EARLIEST_WALL + 2 * WEEK
    ensures startsAt - MS_PER_DAY - MS_PER_SECOND < StartWall(startsAt, z) < startsAt + MS_PER_DAY
  {
    assert PlausibleOffset(z(startsAt));
    WholeSecondShift(startsAt, z(startsAt));
    WholeSecondRest(Wall(z, startsAt));
  }

  lemma WholeSecondRest(t: int)
    ensures (t - t % MS_PER_SECOND) % MS_PER_SECOND == 0
  {
  }

  lemma WeeksAreWholeSeconds(w: int, k: int)
    requires w % MS_PER_SECOND == 0
    ensures (w + k * WEEK) % MS_PER_SECOND == 0
  {
    assert k * WEEK == k * 604800 * MS_PER_SECOND;
    WholeSecondShift(w, k * WEEK);
  }

  /** An occurrence lies within a day of what its wall time would be in UTC. */
  lemma OccurrenceNearWall(startsAt: int, z: Zone, k: int)
    requires PlausibleZone(z) && startsAt >= EARLIEST_START && k >= -2
    ensures var w := StartWall(startsAt, z) + k * WEEK;
            w >= EARLIEST_WALL && w % MS_PER_SECOND == 0 && w - MS_PER_DAY < Occurrence(startsAt, z, k) < w + MS_PER_DAY
  {
    hide InstantFor, StartWall;
    StartWallBounds(startsAt, z);
    var w := StartWall(startsAt, z) + k * WEEK;
    assert k * WEEK >= -2 * WEEK;
    WeeksAreWholeSeconds(StartWall(startsAt, z), k);
    TwoGuesses(w, z);
    assert PlausibleOffset(z(w - z(w)));
  }

  /** The candidate date is a whole number of weeks from the start's, the last not after today's date. */
  lemma CandidateWeek(startsAt: int, z: Zone, now: int) returns (c: int)
    requires PlausibleZone(z) && EARLIEST_START <= startsAt <= now
    ensures FromParts(Candidate(startsAt, z, now)) == StartWall(startsAt, z) + c * WEEK
    ensures Candidate(startsAt, z, now).year >= 100 && c >= -1
    ensures DayNumber(Wall(z, now)) - DayDelta(startsAt, z, now) == DayNumber(Wall(z, startsAt)) + 7 * c
    ensures Wall(z, now) - WEEK < StartWall(startsAt, z) + c * WEEK <= Wall(z, now) + MS_PER_DAY
  {
    hide *;
    CandidateFields(startsAt, z, now);
    DayDeltaSameWeekday(startsAt, z, now);
    SecondOfDay(Wall(z, startsAt));
    SecondOfDay(Wall(z, now));
    var today, first := DayNumber(Wall(z, now)), DayNumber(Wall(z, startsAt));
    var delta := DayDelta(startsAt, z, now);
    c := (today - delta - first) / 7;
    var clock := StartWall(startsAt, z) - first * MS_PER_DAY;
    WallsNear(startsAt, z, now);
    ClockWithinDay(startsAt, z);
    ShownSplit(startsAt, z);
    WeekOfDays(first, clock, c, today, delta, Wall(z, now));
    AtLeastLastWeek(StartWall(startsAt, z), c, Wall(z, now));
  }

  lemma ShownSplit(startsAt: int, z: Zone)
    ensures StartWall(startsAt, z)
            == DayNumber(Wall(z, startsAt)) * MS_PER_DAY + (TimeInDay(Wall(z, startsAt)) - startsAt % MS_PER_SECOND)
  {
    SecondOfDay(Wall(z, startsAt));
  }

  lemma ClockWithinDay(startsAt: int, z: Zone)
    requires PlausibleZone(z)
    ensures 0 <= TimeInDay(Wall(z, startsAt)) - startsAt % MS_PER_SECOND < MS_PER_DAY
  {
    assert PlausibleOffset(z(startsAt));
    ClockNotNegative(startsAt, z(startsAt));
  }

  lemma WallsNear(startsAt: int, z: Zone, now: int)
    requires PlausibleZone(z) && startsAt <= now
    ensures Wall(z, now) > Wall(z, startsAt) - 2 * MS_PER_DAY && Wall(z, startsAt) >= StartWall(startsAt, z)
    ensures now - MS_PER_DAY < Wall(z, now) < now + MS_PER_DAY
  {
    assert PlausibleOffset(z(startsAt)) && PlausibleOffset(z(now));
  }

  lemma DatesOfWeeks(startsAt: int, z: Zone, k: int)
    requires PlausibleZone(z)
    ensures DateOf(startsAt, z, k) == DayNumber(Wall(z, startsAt)) + 7 * k
  {
    ShownSplit(startsAt, z);
    ClockWithinDay(startsAt, z);
    var first, clock := DayNumber(Wall(z, startsAt)), TimeInDay(Wall(z, startsAt)) - startsAt % MS_PER_SECOND;
    assert StartWall(startsAt, z) + k * WEEK == (first + 7 * k) * MS_PER_DAY + clock;
    hide StartWall, Wall, TimeInDay;
    DayOf(first + 7 * k, clock);
  }

  lemma DayOf(day: int, clock: int)
    requires 0 <= clock < MS_PER_DAY
    ensures DayNumber(day * MS_PER_DAY + clock) == day
  {
  }

  lemma WeekOfDays(first: int, clock: int, c: int, today: int, delta: int, wall: int)
    requires 0 <= clock < MS_PER_DAY && 0 <= delta < 7 && today - delta - first == 7 * c
    requires today == DayNumber(wall)
    ensures (today - delta) * MS_PER_DAY + clock == first * MS_PER_DAY + clock + c * WEEK
    ensures wall - WEEK < first * MS_PER_DAY + clock + c * WEEK <= wall + MS_PER_DAY
  {
    DayStartNear(wall);
    hide DayNumber;
    assert (today - delta - first) * MS_PER_DAY == 7 * c * MS_PER_DAY == c * WEEK;
  }

  lemma AtLeastLastWeek(start: int, c: int, wall: int)
    requires wall > start - 2 * MS_PER_DAY && wall - WEEK < start + c * WEEK
    ensures c >= -1
  {
  }

  predicate Covers(w: Window, z: Zone, k: int, now: int) {
    var start := Occurrence(w.startsAt, z, k);
    start <= now < start + (w.endsAt - w.startsAt)
  }

  /** The candidate date's week and its neighbours, from the numbers alone. */
  lemma WeeksApart(wall: int, now: int, base: int, c: int, k: int, x: int, duration: int)
    requires now - MS_PER_DAY < wall < now + MS_PER_DAY && wall - WEEK < base + c * WEEK <= wall + MS_PER_DAY
    requires base + k * WEEK - MS_PER_DAY < x < base + k * WEEK + MS_PER_DAY && duration < WEEK
    ensures k >= c + 2 ==> x > now
    ensures k <= c - 1 ==> x <= now
    ensures k <= c - 2 ==> x + duration <= now
  {
    if k >= c + 2 {
      assert k * WEEK >= (c + 2) * WEEK;
    } else if k <= c - 2 {
      assert k * WEEK <= (c - 2) * WEEK;
    }
  }

  lemma ShiftedDate(p: Parts, z: Zone, days: int, moved: int)
    requires 1 <= p.month <= 12 && p.year >= 100 && FromParts(p) + days * MS_PER_DAY == moved && moved >= EARLIEST_WALL
    ensures FromZonedTime(AddCalendarDays(p, days), z) == InstantFor(moved, z)
  {
    hide InstantFor, AddCalendarDays, FromParts;
    AddCalendarDaysExact(p, days);
  }

  lemma DatesAround(p: Parts, z: Zone, base: int, c: int)
    requires 1 <= p.month <= 12 && p.year >= 100 && FromParts(p) == base + c * WEEK
             && base + (c - 1) * WEEK >= EARLIEST_WALL
    ensures FromZonedTime(p, z) == InstantFor(base + c * WEEK, z)
    ensures FromZonedTime(AddCalendarDays(p, -7), z) == InstantFor(base + (c - 1) * WEEK, z)
  {
    hide InstantFor, AddCalendarDays, FromParts;
    WeekStep(base, c);
    ShiftedDate(p, z, -7, base + (c - 1) * WEEK);
  }

  lemma OccurrenceIs(startsAt: int, z: Zone, k: int)
    ensures Occurrence(startsAt, z, k) == InstantFor(StartWall(startsAt, z) + k * WEEK, z)
  {
  }

  lemma CandidateDates(startsAt: int, z: Zone, now: int, c: int)
    requires PlausibleZone(z)
    requires DayNumber(Wall(z, now)) - DayDelta(startsAt, z, now) == DayNumber(Wall(z, startsAt)) + 7 * c
    ensures DateOf(startsAt, z, c) <= DayNumber(Wall(z, now)) < DateOf(startsAt, z, c + 1)
  {
    hide DateOf, DayDelta, DayNumber, Wall;
    DatesOfWeeks(startsAt, z, c);
    DatesOfWeeks(startsAt, z, c + 1);
  }

  /** The candidate date's occurrence and the one before, as the search computes them. */
  lemma CandidateOccurrences(startsAt: int, z: Zone, now: int) returns (c: int)
    requires PlausibleZone(z) && EARLIEST_START <= startsAt <= now
    ensures c >= -1
    ensures DateOf(startsAt, z, c) <= DayNumber(Wall(z, now)) < DateOf(startsAt, z, c + 1)
    ensures Wall(z, now) - WEEK < StartWall(startsAt, z) + c * WEEK <= Wall(z, now) + MS_PER_DAY
    ensures FromZonedTime(Candidate(startsAt, z, now), z) == Occurrence(startsAt, z, c)
    ensures FromZonedTime(AddCalendarDays(Candidate(startsAt, z, now), -7), z) == Occurrence(startsAt, z, c - 1)
  {
    hide *;
    c := CandidateWeek(startsAt, z, now);
    CandidateDates(startsAt, z, now, c);
    OccurrenceNearWall(startsAt, z, c - 1);
    DatesAround(Candidate(startsAt, z, now), z, StartWall(startsAt, z), c);
    OccurrenceIs(startsAt, z, c - 1);
    OccurrenceIs(startsAt, z, c);
  }

  lemma WeekStep(base: int, c: int)
    ensures base + c * WEEK + -7 * MS_PER_DAY == base + (c - 1) * WEEK
  {
  }

  /**
   No week but the candidate's and its two neighbours can cover `now`, and last week's only if
   this week's does or has not begun.
   */
  lemma NearWeeks(w: Window, z: Zone, now: int, c: int, k: int)
    requires IsValidSpan(w) && w.recurrence == Weekly && PlausibleZone(z) && EARLIEST_START <= w.startsAt <= now
    requires c >= -1 && k >= -1
    requires Wall(z, now) - WEEK < StartWall(w.startsAt, z) + c * WEEK <= Wall(z, now) + MS_PER_DAY
    ensures Covers(w, z, k, now) ==> c - 1 <= k <= c + 1
    ensures Covers(w, z, c - 1, now) && Occurrence(w.startsAt, z, c) <= now ==> Covers(w, z, c, now)
    ensures c == -1 ==> Occurrence(w.startsAt, z, c) <= now
  {
    hide Occurrence, StartWall, Wall;
    WallsNear(w.startsAt, z, now);
    StartWallBounds(w.startsAt, z);
    OccurrenceNearWall(w.startsAt, z, k);
    OccurrenceNearWall(w.startsAt, z, c);
    OccurrenceNearWall(w.startsAt, z, c - 1);
    var base, duration := StartWall(w.startsAt, z), w.endsAt - w.startsAt;
    WeeksApart(Wall(z, now), now, base, c, k, Occurrence(w.startsAt, z, k), duration);
    assert (c - 1) * WEEK == c * WEEK - WEEK;
  }

  /** The occurrence of one of the window's weeks covers `now`. */
  ghost predicate SomeWeekCovers(w: Window, z: Zone, now: int) {
    exists k: nat :: Covers(w, z, k, now)
  }

  /**
   A week's occurrence is under way while the zone's clock shows an earlier date than it was
   asked for, and the last one is over.
   */
  predicate EarlyWeek(w: Window, z: Zone, now: int, k: nat) {
    Covers(w, z, k, now) && DayNumber(Wall(z, now)) < DateOf(w.startsAt, z, k) && !Covers(w, z, k - 1, now)
  }

  ghost predicate RunsBeforeItsDate(w: Window, z: Zone, now: int) {
    exists k: nat :: EarlyWeek(w, z, now, k)
  }

  /** The week before the window's first would have had it open still, and the first has not begun. */
  predicate OpenFromBefore(w: Window, z: Zone, now: int) {
    Covers(w, z, -1, now) && !Covers(w, z, 0, now)
  }

  /** The search takes this week's occurrence if it has begun, else last week's. */
  lemma ActiveInWeek(w: Window, z: Zone, now: int, c: int)
    requires IsValidSpan(w) && w.recurrence == Weekly && w.zone == Some(z) && now >= w.startsAt
    requires FromZonedTime(Candidate(w.startsAt, z, now), z) == Occurrence(w.startsAt, z, c)
    requires FromZonedTime(AddCalendarDays(Candidate(w.startsAt, z, now), -7), z) == Occurrence(w.startsAt, z, c - 1)
    ensures ActiveAt(w, now)
            <==> if Occurrence(w.startsAt, z, c) > now then Covers(w, z, c - 1, now) else Covers(w, z, c, now)
  {
    hide Candidate, AddCalendarDays, FromZonedTime, Occurrence;
  }

  /** The candidate's week `c` lies around `now`, by its wall time and by its date. */
  ghost predicate WeekOf(w: Window, z: Zone, now: int, c: int) {
    && IsValidSpan(w) && w.recurrence == Weekly && PlausibleZone(z) && EARLIEST_START <= w.startsAt <= now
    && c >= -1 && Wall(z, now) - WEEK < StartWall(w.startsAt, z) + c * WEEK <= Wall(z, now) + MS_PER_DAY
    && DateOf(w.startsAt, z, c) <= DayNumber(Wall(z, now)) < DateOf(w.startsAt, z, c + 1)
  }

  lemma SomeWeekIsNear(w: Window, z: Zone, now: int, c: int)
    requires WeekOf(w, z, now, c)
    ensures SomeWeekCovers(w, z, now)
            <==> (c >= 1 && Covers(w, z, c - 1, now)) || (c >= 0 && Covers(w, z, c, now)) || Covers(w, z, c + 1, now)
  {
    hide Covers, Occurrence, StartWall, Wall, IsValidSpan, PlausibleZone, DateOf, DayNumber;
    if k: nat :| Covers(w, z, k, now) {
      NearWeeks(w, z, now, c, k);
    }
  }

  /** The one week whose date is still to come and whose occurrence may have begun is the next. */
  lemma EarlyWeekIsNext(w: Window, z: Zone, now: int, c: int)
    requires WeekOf(w, z, now, c)
    ensures RunsBeforeItsDate(w, z, now) <==> Covers(w, z, c + 1, now) && !Covers(w, z, c, now)
  {
    hide Covers, Occurrence, StartWall, Wall, IsValidSpan, DayNumber;
    if k: nat :| EarlyWeek(w, z, now, k) {
      NearWeeks(w, z, now, c, k);
      DatesOfWeeks(w.startsAt, z, k);
      DatesOfWeeks(w.startsAt, z, c);
      assert k == c + 1;
    }
    if Covers(w, z, c + 1, now) && !Covers(w, z, c, now) {
      var k: nat := c + 1;
      assert EarlyWeek(w, z, now, k);
    }
  }

  /**
   In any zone, whatever its offset does: the window is active exactly inside its weeks'
   occurrences, unless one runs before its date or the week before the first has it open still.
   */
  lemma WeeklyInAnyZoneIff(w: Window, now: int)
    requires IsValidSpan(w) && w.recurrence == Weekly && w.zone.Some? && PlausibleZone(w.zone.value)
    requires w.startsAt >= EARLIEST_START
    ensures (ActiveAt(w, now) <==> now >= w.startsAt && SomeWeekCovers(w, w.zone.value, now))
            <==> !(now >= w.startsAt
                   && (RunsBeforeItsDate(w, w.zone.value, now) || OpenFromBefore(w, w.zone.value, now)))
  {
    if now >= w.startsAt {
      var z := w.zone.value;
      hide *;
      var c := WeekSearched(w, z, now);
      WeekDecides(w, z, now, c);
    }
  }

  lemma WeekSearched(w: Window, z: Zone, now: int) returns (c: int)
    requires IsValidSpan(w) && w.recurrence == Weekly && w.zone == Some(z) && PlausibleZone(z)
    requires EARLIEST_START <= w.startsAt <= now
    ensures WeekOf(w, z, now, c)
    ensures ActiveAt(w, now)
            <==> if Occurrence(w.startsAt, z, c) > now then Covers(w, z, c - 1, now) else Covers(w, z, c, now)
  {
    hide ActiveAt, Covers, Candidate, AddCalendarDays, FromZonedTime, Occurrence, StartWall, Wall, DateOf, DayNumber,
      PlausibleZone, IsValidSpan;
    c := CandidateOccurrences(w.startsAt, z, now);
    ActiveInWeek(w, z, now, c);
  }

  lemma WeekDecides(w: Window, z: Zone, now: int, c: int)
    requires WeekOf(w, z, now, c)
    requires ActiveAt(w, now)
             <==> if Occurrence(w.startsAt, z, c) > now then Covers(w, z, c - 1, now) else Covers(w, z, c, now)
    ensures (ActiveAt(w, now) <==> SomeWeekCovers(w, z, now))
            <==> !(RunsBeforeItsDate(w, z, now) || OpenFromBefore(w, z, now))
  {
    hide ActiveAt, SomeWeekCovers, RunsBeforeItsDate, Occurrence, StartWall, Wall, DateOf, PlausibleZone;
    SomeWeekIsNear(w, z, now, c);
    EarlyWeekIsNext(w, z, now, c);
    NearWeeks(w, z, now, c, c);
    NearWeeks(w, z, now, c, -1);
    NearWeeks(w, z, now, c, 0);
    NextIsLater(w, z, now, c);
  }

  /** If next week's occurrence has begun, this week's has. */
  lemma NextIsLater(w: Window, z: Zone, now: int, c: int)
    requires PlausibleZone(z) && w.startsAt >= EARLIEST_START && c >= -1
    ensures Occurrence(w.startsAt, z, c + 1) <= now ==> Occurrence(w.startsAt, z, c) <= now
  {
    hide Occurrence, StartWall;
    OccurrenceNearWall(w.startsAt, z, c);
    OccurrenceNearWall(w.startsAt, z, c + 1);
    assert (c + 1) * WEEK == c * WEEK + WEEK;
  }

  ghost predicate NoChangeNear(z: Zone, now: int) {
    forall t :: now - 5 * MS_PER_DAY < t < now + 5 * MS_PER_DAY ==> z(t) == z(now)
  }

  /** Away from offset changes, five days either way, the window is active exactly inside its occurrences. */
  lemma WeeklyAwayFromChanges(w: Window, now: int)
    requires IsValidSpan(w) && w.recurrence == Weekly && w.zone.Some? && PlausibleZone(w.zone.value)
    requires w.startsAt >= EARLIEST_START && NoChangeNear(w.zone.value, now)
    ensures ActiveAt(w, now) <==> now >= w.startsAt && SomeWeekCovers(w, w.zone.value, now)
  {
    hide ActiveAt, SomeWeekCovers, PlausibleZone, InstantFor, Occurrence, StartWall, Wall, DateOf, NoChangeNear;
    WeeklyInAnyZoneIff(w, now);
    if now >= w.startsAt {
      var z := w.zone.value;
      forall k: nat | Covers(w, z, k, now) && DayNumber(Wall(z, now)) < DateOf(w.startsAt, z, k) ensures false {
        NotYetBegun(w.startsAt, z, now, k);
      }
      FirstHasBegun(w.startsAt, z, now);
      OccurrenceNearWall(w.startsAt, z, -1);
      OccurrenceNearWall(w.startsAt, z, 0);
    }
  }

  /** An occurrence whose date is to come has not begun. */
  lemma NotYetBegun(startsAt: int, z: Zone, now: int, k: nat)
    requires PlausibleZone(z) && startsAt >= EARLIEST_START && NoChangeNear(z, now)
    requires DayNumber(Wall(z, now)) < DateOf(startsAt, z, k)
    ensures Occurrence(startsAt, z, k) > now
  {
    hide InstantFor, StartWall;
    OccurrenceNearWall(startsAt, z, k);
    var w := StartWall(startsAt, z) + k * WEEK;
    assert w > Wall(z, now);
    TwoGuesses(w, z);
    assert PlausibleOffset(z(w)) && PlausibleOffset(z(now)) && PlausibleOffset(z(w - z(w)));
  }

  /** The first occurrence has begun once the window's start has passed. */
  lemma FirstHasBegun(startsAt: int, z: Zone, now: int)
    requires PlausibleZone(z) && EARLIEST_START <= startsAt <= now && NoChangeNear(z, now)
    ensures Occurrence(startsAt, z, 0) <= now
  {
    hide InstantFor;
    OccurrenceNearWall(startsAt, z, 0);
    StartWallBounds(startsAt, z);
    var w := StartWall(startsAt, z);
    assert w + 0 * WEEK == w;
    TwoGuesses(w, z);
    assert PlausibleOffset(z(w)) && PlausibleOffset(z(startsAt)) && PlausibleOffset(z(w - z(w)));
  }

  /**
   Around one offset change an occurrence starts at the wall time asked for whenever that wall
   time exists.
   */
  lemma OccurrenceAtAskedTime(startsAt: int, z: Zone, k: int, change: int, before: int, after: int)
    requires PlausibleZone(z) && startsAt >= EARLIEST_START && k >= -1
    requires OneChangeAround(z, StartWall(startsAt, z) + k * WEEK, change, before, after)
    ensures Wall(z, Occurrence(startsAt, z, k)) == StartWall(startsAt, z) + k * WEEK
            <==> exists t :: Wall(z, t) == StartWall(startsAt, z) + k * WEEK
  {
    hide InstantFor, StartWall;
    OccurrenceNearWall(startsAt, z, k);
    var w := StartWall(startsAt, z) + k * WEEK;
    TwoGuesses(w, z);
    if t :| Wall(z, t) == w {
      assert PlausibleOffset(z(t)) && PlausibleOffset(z(w));
    }
  }

  /** An hour is repeated from one minute past midnight of local day `d` on; the clock is behind UTC. */
  function PastMidnightZone(d: int): Zone {
    t => if t < d * MS_PER_DAY + 9060000 then -9000000 else -12600000
  }

  /** Half an hour from local midnight, first a week before that change. */
  function MidnightWindow(d: int): Window {
    Window((d - 7) * MS_PER_DAY + 9000000, (d - 7) * MS_PER_DAY + 10800000, Some(PastMidnightZone(d)), Weekly)
  }

  lemma PastMidnightFacts(d: int)
    requires d * MS_PER_DAY >= EARLIEST_START + WEEK
    ensures var z := PastMidnightZone(d);
            && PlausibleZone(z)
            && InstantFor((d - 7) * MS_PER_DAY, z) == (d - 7) * MS_PER_DAY + 9000000
            && InstantFor(d * MS_PER_DAY, z) == d * MS_PER_DAY + 9000000
  {
    var z := PastMidnightZone(d);
    WholeSecondDay(d);
    WholeSecondDay(d - 7);
    TwoGuesses((d - 7) * MS_PER_DAY, z);
    TwoGuesses(d * MS_PER_DAY, z);
  }

  lemma WholeSecondDay(d: int)
    ensures d * MS_PER_DAY % MS_PER_SECOND == 0
  {
    assert d * MS_PER_DAY == d * 86400 * MS_PER_SECOND;
  }

  /**
   Two minutes in, the clock has gone back to the day before: the window's occurrence has begun
   and is not over, yet the search, looking at dates only, finds last week's.
   */
  lemma BackOverMidnightIsMissed(d: int)
    requires d * MS_PER_DAY >= EARLIEST_START + WEEK
    ensures var w, now := MidnightWindow(d), d * MS_PER_DAY + 9120000;
            && now >= w.startsAt && SomeWeekCovers(w, PastMidnightZone(d), now) && !ActiveAt(w, now)
  {
    var w, z, now := MidnightWindow(d), PastMidnightZone(d), d * MS_PER_DAY + 9120000;
    hide InstantFor, Candidate, AddCalendarDays, FromParts, PlausibleZone;
    PastMidnightFacts(d);
    WholeSecondDay(d - 7);
    WholeSecondShift((d - 7) * MS_PER_DAY, 9000000);
    assert w.startsAt % MS_PER_SECOND == 0;
    DaysAround(d);
    CandidateFields(w.startsAt, z, now);
    DayDeltaSameWeekday(w.startsAt, z, now);
    hide DayNumber, TimeInDay, DayDelta;
    assert DayDelta(w.startsAt, z, now) == 6;
    assert StartWall(w.startsAt, z) + WEEK == d * MS_PER_DAY;
    assert Occurrence(w.startsAt, z, 1) == d * MS_PER_DAY + 9000000;
    assert Covers(w, z, 1, now);
    assert FromZonedTime(Candidate(w.startsAt, z, now), z) == w.startsAt;
  }

  lemma DaysAround(d: int)
    ensures DayNumber(d * MS_PER_DAY - 3480000) == d - 1
    ensures DayNumber((d - 7) * MS_PER_DAY) == d - 7 && TimeInDay((d - 7) * MS_PER_DAY) == 0
  {
  }
}
