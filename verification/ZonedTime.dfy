/**
 Wall-clock time in a named zone (packages/shared/src/alert-lifecycle.ts). A zone is the
 function from an instant to the milliseconds its wall clock is ahead of UTC, which is all
 that the platform's zone database contributes.
 */
module ZonedTime {
  import opened Calendar

  type Zone = int -> int

  /** Local wall time of instant `t`, written as milliseconds the way UTC instants are. */
  function Wall(z: Zone, t: int): int {
    t + z(t)
  }

  /** Offsets in use anywhere stay below a day and are whole seconds. */
  predicate PlausibleOffset(o: int) {
    -MS_PER_DAY < o < MS_PER_DAY && o % MS_PER_SECOND == 0
  }

  ghost predicate PlausibleZone(z: Zone) {
    forall t :: PlausibleOffset(z(t))
  }

  function ZonedParts(z: Zone, t: int): (p: Parts)
    ensures 1 <= p.month <= 12
  {
    UtcParts(Wall(z, t))
  }

  function ZonedWeekday(z: Zone, t: int): int {
    WeekdayOf(DayNumber(Wall(z, t)))
  }

  function TimeZoneOffsetMs(z: Zone, t: int): int {
    FromParts(ZonedParts(z, t)) - t
  }

  function FromZonedTime(p: Parts, z: Zone): int
    requires 1 <= p.month <= 12
  {
    InstantFor(FromParts(p), z)
  }

  /** The two guesses, with the wall time already written as UTC milliseconds. */
  function InstantFor(utcGuess: int, z: Zone): int {
    var first := utcGuess - TimeZoneOffsetMs(z, utcGuess);
    var secondOffset := TimeZoneOffsetMs(z, first);
    var firstOffset := TimeZoneOffsetMs(z, utcGuess);
    if secondOffset == firstOffset then first else utcGuess - secondOffset
  }

  /**
   The offset read back through calendar fields is the zone's own, short of the instant's
   sub-second part.
   */
  lemma OffsetThroughParts(z: Zone, t: int)
    requires PlausibleOffset(z(t)) && Wall(z, t) >= YEAR_100
    ensures TimeZoneOffsetMs(z, t) == z(t) - t % MS_PER_SECOND
  {
    hide UtcParts, FromParts;
    FromUtcParts(Wall(z, t));
    WholeSecondShift(t, z(t));
  }

  /** Three days' margin keeps every instant the conversion looks at after year 100. */
  const EARLIEST_WALL: int := YEAR_100 + 3 * MS_PER_DAY

  lemma OffsetAtWholeSecond(z: Zone, t: int)
    requires PlausibleZone(z) && t % MS_PER_SECOND == 0 && t >= YEAR_100 + MS_PER_DAY
    ensures TimeZoneOffsetMs(z, t) == z(t) && PlausibleOffset(z(t))
  {
    assert PlausibleOffset(z(t));
    OffsetThroughParts(z, t);
  }

  /** What the two guesses amount to, for any zone. */
  lemma TwoGuesses(w: int, z: Zone)
    requires PlausibleZone(z)
    requires w % MS_PER_SECOND == 0 && w >= EARLIEST_WALL
    ensures InstantFor(w, z) == w - z(w - z(w))
  {
    hide TimeZoneOffsetMs, DaysFromCivil;
    OffsetAtWholeSecond(z, w);
    WholeSecondShift(w, z(w));
    OffsetAtWholeSecond(z, w - z(w));
  }

  /** From instant `change` on the offset is `after`; before it, `before`. */
  ghost predicate OneChangeAround(z: Zone, w: int, change: int, before: int, after: int) {
    forall t :: w - MS_PER_DAY < t < w + MS_PER_DAY ==> z(t) == if t < change then before else after
  }

  /**
   With at most one offset change within a day of the wall time asked for, the conversion
   succeeds on exactly the wall times that occur in the zone.
   */
  lemma WallTimeIsHit(p: Parts, z: Zone, change: int, before: int, after: int)
    requires 1 <= p.month <= 12 && PlausibleZone(z)
    requires FromParts(p) >= EARLIEST_WALL
    requires OneChangeAround(z, FromParts(p), change, before, after)
    ensures Wall(z, FromZonedTime(p, z)) == FromParts(p) <==> exists t :: Wall(z, t) == FromParts(p)
  {
    var w := FromParts(p);
    FromPartsWholeSecond(p);
    TwoGuesses(FromParts(p), z);
    if t :| Wall(z, t) == w {
      assert PlausibleOffset(z(t)) && PlausibleOffset(z(w));
    }
  }

  /**
   A wall time inside the gap of a forward change is moved out of it by the size of the gap:
   later when the guess still carried the old offset's day, earlier otherwise.
   */
  lemma WallTimeInGap(p: Parts, z: Zone, change: int, before: int, after: int)
    requires 1 <= p.month <= 12 && PlausibleZone(z)
    requires FromParts(p) >= EARLIEST_WALL
    requires OneChangeAround(z, FromParts(p), change, before, after)
    requires !exists t :: Wall(z, t) == FromParts(p)
    ensures before < after
    ensures var w := FromParts(p);
            Wall(z, FromZonedTime(p, z)) == if w < change then w - (after - before) else w + (after - before)
  {
    var w := FromParts(p);
    FromPartsWholeSecond(p);
    TwoGuesses(FromParts(p), z);
    assert PlausibleOffset(z(w)) && PlausibleOffset(z(w - z(w)));
    assert Wall(z, w - z(w)) != w;
    assert Wall(z, w - z(w - z(w))) != w;
  }

  /**
   A wall time that occurs twice is resolved to the occurrence under the offset in force at
   the same reading of the UTC clock.
   */
  lemma WallTimeTwice(p: Parts, z: Zone, change: int, before: int, after: int, t1: int, t2: int)
    requires 1 <= p.month <= 12 && PlausibleZone(z)
    requires FromParts(p) >= EARLIEST_WALL
    requires OneChangeAround(z, FromParts(p), change, before, after)
    requires t1 < t2 && Wall(z, t1) == FromParts(p) == Wall(z, t2)
    ensures t1 == FromParts(p) - before < change <= t2 == FromParts(p) - after
    ensures FromZonedTime(p, z) == if FromParts(p) < change then t1 else t2
  {
    assert PlausibleOffset(z(t1)) && PlausibleOffset(z(t2)) && PlausibleOffset(z(FromParts(p)));
    FromPartsWholeSecond(p);
    TwoGuesses(FromParts(p), z);
  }
}
