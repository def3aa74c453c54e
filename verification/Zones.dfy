/**
 * Wall clocks: what a zone reads at a moment, and the moment a reading happens (packages/rules/src/schedule.ts:38-160).
 * Moments are in milliseconds, 60_000 to the minute and 86_400_000 to the day; a zone's offset is in seconds.
 */
module Zones {
  import opened Arithmetic
  import opened Calendar

  /** A time zone is how far ahead of UTC its clocks are, in seconds, at each moment in milliseconds. */
  type Zone = int -> int

  /** Every zone there is stays within a day of UTC. */
  ghost predicate Earthly(zone: Zone) {
    forall u :: -86_400 < zone(u) < 86_400
  }

  datatype LocalTime = LocalTime(date: Date, hour: int, minute: int) {
    predicate Proper() {
      Real(date) && 0 <= hour < 24 && 0 <= minute < 60
    }
  }

  datatype Reading = Reading(local: LocalTime, second: int)

  /** What the zone's clock shows, counted as if it were UTC. */
  function Clock(zone: Zone, u: int): int {
    u + zone(u) * 1000
  }

  /** `Date.UTC(year, month - 1, day, hour, minute)`. */
  function AsUtc(local: LocalTime): int {
    NumberOf(local.date) * 86_400_000 + local.hour * 3_600_000 + local.minute * 60_000
  }

  /** A clock counts seconds in minutes, minutes in hours and hours in days. */
  lemma ClockDigits(clock: int)
    ensures clock / 60_000 == clock / 3_600_000 * 60 + clock / 60_000 % 60
    ensures clock / 3_600_000 == clock / 86_400_000 * 24 + clock / 3_600_000 % 24
    ensures clock / 1000 % 60 == clock % 60_000 / 1000
  {
    NestedQuotient(clock, 1000, 60);
    NestedQuotient(clock, 60_000, 60);
    NestedQuotient(clock, 3_600_000, 24);
    QuotientBounds(clock / 1000, 60);
    QuotientBounds(clock / 60_000, 60);
    QuotientBounds(clock / 3_600_000, 24);
    QuotientBounds(clock, 60_000);
    ShiftedQuotient(clock, 1000, clock / 60_000 * 60);
  }

  /** The local time is the proper one that stands for the minute the clock shows. */
  method LocalTimeAt(zone: Zone, u: int) returns (reading: Reading)
    ensures reading.local.Proper()
    ensures AsUtc(reading.local) == Clock(zone, u) / 60_000 * 60_000
    ensures reading.second == Clock(zone, u) % 60_000 / 1000
  {
    var clock := Clock(zone, u);
    ClockDigits(clock);
    NumberOfDateOf(clock / 86_400_000);
    return Reading(LocalTime(DateOf(clock / 86_400_000), clock / 3_600_000 % 24, clock / 60_000 % 60),
      clock / 1000 % 60);
  }

  lemma WholeSeconds(u: int, ahead: int)
    ensures var clock := u + ahead * 1000;
            clock / 60_000 * 60_000 + clock % 60_000 / 1000 * 1000 - u / 1000 * 1000 == ahead * 1000
  {
    var clock := u + ahead * 1000;
    ShiftedQuotient(u, 1000, -ahead);
    ClockDigits(clock);
    NestedQuotient(clock, 1000, 60);
    QuotientBounds(clock / 1000, 60);
  }

  /** Reading the fields back as UTC measures the zone's offset. */
  method OffsetAt(zone: Zone, u: int) returns (offset: int)
    ensures offset == zone(u) * 1000
  {
    var reading := LocalTimeAt(zone, u);
    WholeSeconds(u, zone(u));
    return AsUtc(reading.local) + reading.second * 1000 - u / 1000 * 1000;
  }

  /** The comparison of local times field by field, largest first. */
  predicate Passed(at: LocalTime, local: LocalTime) {
    || at.date.year > local.date.year
    || (at.date.year == local.date.year
        && (|| at.date.month > local.date.month
            || (at.date.month == local.date.month
                && (|| at.date.day > local.date.day
                    || (at.date.day == local.date.day
                        && (|| at.hour > local.hour
                            || (at.hour == local.hour && at.minute >= local.minute)))))))
  }

  lemma FieldsCompareAsMoments(at: LocalTime, local: LocalTime)
    requires at.Proper() && local.Proper()
    ensures Passed(at, local) <==> AsUtc(local) <= AsUtc(at)
    ensures at == local <==> AsUtc(local) == AsUtc(at)
  {
    DateOrderIsNumberOrder(at.date, local.date);
    DateOrderIsNumberOrder(local.date, at.date);
  }

  // ----- the moment of a local time -----

  function Guess(zone: Zone, wanted: int): int {
    wanted - zone(wanted - zone(wanted) * 1000) * 1000
  }

  /** The walk forward, from its `minutes`-th step on. */
  function Walk(zone: Zone, wanted: int, guess: int, minutes: nat): int
    decreases 181 - minutes
  {
    if minutes > 180 then guess
    else
      var candidate := guess + minutes * 60_000;
      if wanted <= Clock(zone, candidate) then candidate - Clock(zone, candidate) % 60_000 / 1000 * 1000
      else Walk(zone, wanted, guess, minutes + 1)
  }

  function MomentOf(zone: Zone, wanted: int): int {
    var guess := Guess(zone, wanted);
    if Clock(zone, guess) / 60_000 * 60_000 == wanted then guess else Walk(zone, wanted, guess, 1)
  }

  lemma WholeMinutesCompare(wanted: int, clock: int, minutes: int)
    requires wanted == minutes * 60_000
    ensures wanted <= clock / 60_000 * 60_000 <==> wanted <= clock
  {
  }

  lemma {:induction false} WalkTo(zone: Zone, wanted: int, guess: int, minutes: nat, landing: nat)
    requires 1 <= minutes <= landing <= 180
    requires forall k | minutes <= k < landing :: Clock(zone, guess + k * 60_000) < wanted
    requires wanted <= Clock(zone, guess + landing * 60_000)
    ensures Walk(zone, wanted, guess, minutes)
         == guess + landing * 60_000 - Clock(zone, guess + landing * 60_000) % 60_000 / 1000 * 1000
    decreases landing - minutes
  {
    if minutes < landing {
      assert Clock(zone, guess + minutes * 60_000) < wanted;
      WalkTo(zone, wanted, guess, minutes + 1, landing);
    }
  }

  lemma WalkToTheMinute(zone: Zone, wanted: int, guess: int, landing: nat, reading: int)
    requires 1 <= landing <= 180
    requires forall k | 1 <= k < landing :: Clock(zone, guess + k * 60_000) < wanted
    requires wanted <= Clock(zone, guess + landing * 60_000) == reading * 60_000
    ensures Walk(zone, wanted, guess, 1) == guess + landing * 60_000
  {
    QuotientIs(reading * 60_000, 60_000, reading);
    WalkTo(zone, wanted, guess, 1, landing);
  }

  lemma {:induction false} WalkRunsOut(zone: Zone, wanted: int, guess: int, minutes: nat)
    requires 1 <= minutes <= 181
    requires forall k | minutes <= k < 181 :: Clock(zone, guess + k * 60_000) < wanted
    ensures Walk(zone, wanted, guess, minutes) == guess
    decreases 181 - minutes
  {
    if minutes < 181 {
      assert Clock(zone, guess + minutes * 60_000) < wanted;
      WalkRunsOut(zone, wanted, guess, minutes + 1);
    }
  }

  lemma FieldsCompareWithTheClock(at: LocalTime, local: LocalTime, clock: int, wanted: int)
    requires at.Proper() && local.Proper() && AsUtc(at) == clock / 60_000 * 60_000 && wanted == AsUtc(local)
    ensures at == local <==> clock / 60_000 * 60_000 == wanted
    ensures Passed(at, local) <==> wanted <= clock
  {
    FieldsCompareAsMoments(at, local);
    WholeMinutesCompare(wanted, clock, NumberOf(local.date) * 1440 + local.hour * 60 + local.minute);
  }

  /** Whether the clock shows the wanted minute. */
  method Matches(zone: Zone, u: int, local: LocalTime, ghost wanted: int) returns (matches: bool)
    requires local.Proper() && wanted == AsUtc(local)
    ensures matches <==> Clock(zone, u) / 60_000 * 60_000 == wanted
  {
    var got := LocalTimeAt(zone, u);
    FieldsCompareWithTheClock(got.local, local, Clock(zone, u), wanted);
    return got.local == local;
  }

  /** Whether the clock shows the wanted minute or a later one, and how far into the minute it is. */
  method HasPassed(zone: Zone, u: int, local: LocalTime, ghost wanted: int) returns (passed: bool, second: int)
    requires local.Proper() && wanted == AsUtc(local)
    ensures passed <==> wanted <= Clock(zone, u)
    ensures second == Clock(zone, u) % 60_000 / 1000
  {
    var at := LocalTimeAt(zone, u);
    FieldsCompareWithTheClock(at.local, local, Clock(zone, u), wanted);
    return Passed(at.local, local), at.second;
  }

  /** The walk forward, a minute at a time, for a local time that was skipped. */
  method WalkForward(zone: Zone, local: LocalTime, guess: int, ghost wanted: int) returns (at: int)
    requires local.Proper() && wanted == AsUtc(local)
    ensures at == Walk(zone, wanted, guess, 1)
  {
    for minutes := 1 to 181
      invariant forall k | 1 <= k < minutes :: Clock(zone, guess + k * 60_000) < wanted
    {
      var candidate := guess + minutes * 60_000;
      var passed, second := HasPassed(zone, candidate, local, wanted);
      if passed {
        WalkTo(zone, wanted, guess, 1, minutes);
        return candidate - second * 1000;
      }
    }
    WalkRunsOut(zone, wanted, guess, 1);
    return guess;
  }

  /** The second guess, made with the offset at the first. */
  method TwoPasses(zone: Zone, wanted: int) returns (guess: int)
    ensures guess == Guess(zone, wanted)
  {
    var offset := OffsetAt(zone, wanted);
    guess := wanted - offset;
    offset := OffsetAt(zone, guess);
    guess := wanted - offset;
  }

  method UtcFor(zone: Zone, local: LocalTime) returns (at: int)
    requires local.Proper()
    ensures at == MomentOf(zone, AsUtc(local))
  {
    var wanted := AsUtc(local);
    var guess := TwoPasses(zone, wanted);
    var matches := Matches(zone, guess, local, wanted);
    if matches {
      return guess;
    }
    at := WalkForward(zone, local, guess, wanted);
  }

  lemma {:induction false} WalkStaysClose(zone: Zone, wanted: int, guess: int, minutes: nat)
    requires 1 <= minutes
    ensures guess <= Walk(zone, wanted, guess, minutes) <= guess + 10_800_000
    decreases 181 - minutes
  {
    if minutes <= 180 {
      WalkStaysClose(zone, wanted, guess, minutes + 1);
    }
  }

  /** Whatever the clocks do, the answer lies at the second guess or within three hours after it. */
  lemma MomentStaysClose(zone: Zone, wanted: int)
    ensures Guess(zone, wanted) <= MomentOf(zone, wanted) <= Guess(zone, wanted) + 10_800_000
  {
    WalkStaysClose(zone, wanted, Guess(zone, wanted), 1);
  }

  lemma WholeMinutesAdd(u: int, offset: int)
    requires u % 60_000 == 0 && offset % 60 == 0
    ensures (u + offset * 1000) % 60_000 == 0 && (u - offset * 1000) % 60_000 == 0
  {
    assert offset * 1000 == offset / 60 * 60_000;
  }

  lemma {:induction false} WalkKeepsToTheMinute(zone: Zone, wanted: int, guess: int, minutes: nat)
    requires forall u :: zone(u) % 60 == 0
    requires guess % 60_000 == 0 && 1 <= minutes
    ensures Walk(zone, wanted, guess, minutes) % 60_000 == 0
    decreases 181 - minutes
  {
    if minutes <= 180 {
      WalkKeepsToTheMinute(zone, wanted, guess, minutes + 1);
      var candidate := guess + minutes * 60_000;
      WholeMinutesAdd(candidate, zone(candidate));
    }
  }

  /** In a zone of whole minutes a whole minute is answered with a whole minute. */
  lemma MomentKeepsToTheMinute(zone: Zone, wanted: int)
    requires forall u :: zone(u) % 60 == 0
    requires wanted % 60_000 == 0
    ensures MomentOf(zone, wanted) % 60_000 == 0
  {
    var offset := zone(wanted - zone(wanted) * 1000);
    WholeMinutesAdd(wanted, offset);
    WalkKeepsToTheMinute(zone, wanted, wanted - offset * 1000, 1);
    assert Guess(zone, wanted) == wanted - offset * 1000;
  }

  // ----- what the moment should be -----

  /**
   * The first moment at which the clock reads `wanted` or later. Of two moments that read it this is the
   * earlier; when none does, it is where the clocks landed after the jump.
   */
  ghost predicate IsFirst(zone: Zone, wanted: int, m: int) {
    wanted <= Clock(zone, m) && forall u | u < m :: Clock(zone, u) < wanted
  }

  /**
   * Around one clock change everything is in whole minutes: the reading `wanted`, the change and the offsets. Within
   * two days of `wanted` the offset changes at most once.
   */
  ghost predicate OneChange(zone: Zone, wanted: int, change: int, before: int, after: int) {
    && -1440 < before < 1440 && -1440 < after < 1440
    && forall u | (wanted - 2880) * 60_000 <= u <= (wanted + 2880) * 60_000 ::
         zone(u) == 60 * if u < change * 60_000 then before else after
  }

  /** The readings the change repeats or skips. */
  predicate Affected(wanted: int, change: int, before: int, after: int) {
    change + before <= wanted < change + after || change + after <= wanted < change + before
  }

  /** What the search answers, case by case. */
  function Answer(wanted: int, change: int, before: int, after: int): int {
    if wanted < change then
      if wanted - before < change then wanted - before
      else if change <= wanted - after then wanted - after
      else if change <= wanted - after + 180 then change
      else wanted - after
    else
      if change <= wanted - after then wanted - after
      else if wanted - before < change then wanted - before
      else wanted - before + 1
  }

  /** A jump over `wanted` that comes after it in UTC is walked to and landed on. */
  lemma WalkLandsOnTheJump(zone: Zone, wanted: int, change: int, before: int, after: int)
    requires Earthly(zone) && OneChange(zone, wanted, change, before, after)
    requires wanted < change <= wanted - before && wanted - after < change <= wanted - after + 180
    ensures Walk(zone, wanted * 60_000, (wanted - after) * 60_000, 1) == change * 60_000
  {
    assert zone(wanted * 60_000) == 60 * before && zone((wanted - before) * 60_000) == 60 * after;
    WalkToTheMinute(zone, wanted * 60_000, (wanted - after) * 60_000, change - wanted + after, change + after);
  }

  /** A jump of more than the walk covers is not reached, and the walk comes back to where it began. */
  lemma WalkFallsShortOfTheJump(zone: Zone, wanted: int, change: int, before: int, after: int)
    requires Earthly(zone) && OneChange(zone, wanted, change, before, after)
    requires wanted < change <= wanted - before && wanted - after + 180 < change
    ensures Walk(zone, wanted * 60_000, (wanted - after) * 60_000, 1) == (wanted - after) * 60_000
  {
    assert zone(wanted * 60_000) == 60 * before && zone((wanted - before) * 60_000) == 60 * after;
    var guess := (wanted - after) * 60_000;
    forall k | 1 <= k < 181
      ensures Clock(zone, guess + k * 60_000) < wanted * 60_000
    {
      assert zone(guess + k * 60_000) == 60 * before;
    }
    WalkRunsOut(zone, wanted * 60_000, guess, 1);
  }

  /** A jump over `wanted` that comes before it in UTC has been passed already; one step more is taken. */
  lemma WalkOvershootsTheJump(zone: Zone, wanted: int, change: int, before: int, after: int)
    requires Earthly(zone) && OneChange(zone, wanted, change, before, after)
    requires change <= wanted && wanted - after < change <= wanted - before
    ensures Walk(zone, wanted * 60_000, (wanted - before) * 60_000, 1) == (wanted - before + 1) * 60_000
  {
    assert zone(wanted * 60_000) == 60 * after && zone((wanted - after) * 60_000) == 60 * before;
    WalkToTheMinute(zone, wanted * 60_000, (wanted - before) * 60_000, 1, wanted - before + 1 + after);
  }

  lemma MomentIsTheGuess(zone: Zone, wanted: int)
    requires Clock(zone, Guess(zone, wanted * 60_000)) == wanted * 60_000
    ensures MomentOf(zone, wanted * 60_000) == Guess(zone, wanted * 60_000)
  {
    QuotientIs(wanted * 60_000, 60_000, wanted);
  }

  lemma MomentIsWalkedTo(zone: Zone, wanted: int)
    requires var clock := Clock(zone, Guess(zone, wanted)); clock < wanted || wanted + 60_000 <= clock
    ensures MomentOf(zone, wanted) == Walk(zone, wanted, Guess(zone, wanted), 1)
  {
  }

  /** The offsets the two passes use, in minutes. */
  lemma GuessUses(zone: Zone, wanted: int, change: int, before: int, after: int) returns (second: int)
    requires Earthly(zone) && OneChange(zone, wanted, change, before, after)
    ensures var first := if wanted < change then before else after;
            second == if wanted - first < change then before else after
    ensures Guess(zone, wanted * 60_000) == (wanted - second) * 60_000
    ensures Clock(zone, Guess(zone, wanted * 60_000))
         == (wanted - second + if wanted - second < change then before else after) * 60_000
  {
    var first := if wanted < change then before else after;
    assert zone(wanted * 60_000) == 60 * first;
    second := if wanted - first < change then before else after;
    assert zone((wanted - first) * 60_000) == 60 * second;
    assert zone((wanted - second) * 60_000) == 60 * if wanted - second < change then before else after;
  }

  /** The second guess reads the wanted time: it is the answer. */
  lemma AnswerWhenSettled(zone: Zone, wanted: int, second: int)
    requires Guess(zone, wanted * 60_000) == (wanted - second) * 60_000
    requires Clock(zone, Guess(zone, wanted * 60_000)) == wanted * 60_000
    ensures MomentOf(zone, wanted * 60_000) == (wanted - second) * 60_000
  {
    MomentIsTheGuess(zone, wanted);
  }

  /** The wanted time was skipped, by a jump that comes later in UTC. */
  lemma AnswerBeforeTheJump(zone: Zone, wanted: int, change: int, before: int, after: int)
    requires Earthly(zone) && OneChange(zone, wanted, change, before, after)
    requires wanted < change <= wanted - before && wanted - after < change
    requires Guess(zone, wanted * 60_000) == (wanted - after) * 60_000
    requires Clock(zone, Guess(zone, wanted * 60_000)) < wanted * 60_000
    ensures MomentOf(zone, wanted * 60_000)
         == (if change <= wanted - after + 180 then change else wanted - after) * 60_000
  {
    MomentIsWalkedTo(zone, wanted * 60_000);
    if change <= wanted - after + 180 {
      WalkLandsOnTheJump(zone, wanted, change, before, after);
    } else {
      WalkFallsShortOfTheJump(zone, wanted, change, before, after);
    }
  }

  /** The wanted time was skipped, by a jump that comes earlier in UTC. */
  lemma AnswerAfterTheJump(zone: Zone, wanted: int, change: int, before: int, after: int)
    requires Earthly(zone) && OneChange(zone, wanted, change, before, after)
    requires change <= wanted && wanted - after < change <= wanted - before
    requires Guess(zone, wanted * 60_000) == (wanted - before) * 60_000
    requires Clock(zone, Guess(zone, wanted * 60_000)) >= wanted * 60_000 + 60_000
    ensures MomentOf(zone, wanted * 60_000) == (wanted - before + 1) * 60_000
  {
    MomentIsWalkedTo(zone, wanted * 60_000);
    WalkOvershootsTheJump(zone, wanted, change, before, after);
  }

  lemma SearchAnswers(zone: Zone, wanted: int, change: int, before: int, after: int)
    requires Earthly(zone) && OneChange(zone, wanted, change, before, after)
    ensures MomentOf(zone, wanted * 60_000) == Answer(wanted, change, before, after) * 60_000
  {
    var second := GuessUses(zone, wanted, change, before, after);
    if second == if wanted - second < change then before else after {
      AnswerWhenSettled(zone, wanted, second);
    } else if wanted < change {
      AnswerBeforeTheJump(zone, wanted, change, before, after);
    } else {
      AnswerAfterTheJump(zone, wanted, change, before, after);
    }
  }

  /** Where the earliest moment lies, by the same two offsets. */
  function Earliest(wanted: int, change: int, before: int, after: int): int {
    if wanted < change + before then wanted - before
    else if wanted < change + after then change
    else wanted - after
  }

  lemma EarliestIsFirst(zone: Zone, wanted: int, change: int, before: int, after: int)
    requires Earthly(zone) && OneChange(zone, wanted, change, before, after)
    ensures IsFirst(zone, wanted * 60_000, Earliest(wanted, change, before, after) * 60_000)
  {
    var m := Earliest(wanted, change, before, after);
    assert zone((wanted - 1440) * 60_000) == 60 * if wanted - 1440 < change then before else after;
    assert zone((wanted + 1440) * 60_000) == 60 * if wanted + 1440 < change then before else after;
    assert zone(m * 60_000) == 60 * if m < change then before else after;
    forall u | u < m * 60_000
      ensures Clock(zone, u) < wanted * 60_000
    {
      if (wanted - 2880) * 60_000 <= u {
        assert zone(u) == 60 * if u < change * 60_000 then before else after;
      } else {
        assert zone(u) < 86_400;
      }
    }
  }

  lemma FirstIsUnique(zone: Zone, wanted: int, m: int, n: int)
    requires IsFirst(zone, wanted, m) && IsFirst(zone, wanted, n)
    ensures m == n
  {
  }

  /** The local time `wanted` is answered with the first moment that reads it, or that reads later when none does. */
  ghost predicate Kept(zone: Zone, wanted: int) {
    IsFirst(zone, wanted * 60_000, MomentOf(zone, wanted * 60_000))
  }

  /**
   * Around one clock change, of whatever size, the search finds the first moment exactly when the change leaves
   * the reading alone, or the reading, taken as UTC, comes before the change and the clocks, if they jump, land
   * within the three hours that are walked. Otherwise it takes the later of the two moments, or goes past where
   * the clocks landed, or stops short of it.
   */
  lemma UtcForIsFirstExactlyWhen(zone: Zone, wanted: int, change: int, before: int, after: int)
    requires Earthly(zone) && OneChange(zone, wanted, change, before, after)
    ensures Kept(zone, wanted)
       <==> (Affected(wanted, change, before, after) ==>
               wanted < change && (before < after ==> change <= wanted - after + 180))
  {
    SearchAnswers(zone, wanted, change, before, after);
    EarliestIsFirst(zone, wanted, change, before, after);
    if Kept(zone, wanted) {
      FirstIsUnique(zone, wanted * 60_000, Earliest(wanted, change, before, after) * 60_000,
        MomentOf(zone, wanted * 60_000));
    }
  }

  // ----- a zone over all time -----

  /** The zone's clocks change at this minute, between these offsets. */
  ghost predicate IsChange(zone: Zone, change: int, before: int, after: int) {
    && before != after && -1440 < before < 1440 && -1440 < after < 1440
    && zone(change * 60_000 - 1) == 60 * before && zone(change * 60_000) == 60 * after
  }

  ghost predicate OneNearby(zone: Zone, wanted: int) {
    exists change, before, after :: OneChange(zone, wanted, change, before, after)
  }

  /** The clocks may change as often as they like, though never twice within four days. */
  ghost predicate ChangesApart(zone: Zone) {
    forall wanted :: OneNearby(zone, wanted)
  }

  lemma ChangeNearby(zone: Zone, wanted: int, change: int, before: int, after: int)
    requires ChangesApart(zone) && IsChange(zone, change, before, after)
    requires wanted - 2880 < change <= wanted + 2880
    ensures OneChange(zone, wanted, change, before, after)
  {
    assert OneNearby(zone, wanted);
    var c, b, a :| OneChange(zone, wanted, c, b, a);
    assert zone(change * 60_000 - 1) == 60 * if change * 60_000 - 1 < c * 60_000 then b else a;
    assert zone(change * 60_000) == 60 * if change * 60_000 < c * 60_000 then b else a;
    assert c == change && b == before && a == after;
  }

  /** The last minute that a change repeats or skips: if the zone is ahead of UTC there, the search gets it wrong. */
  lemma AheadOfUtcMissesOne(zone: Zone, change: int, before: int, after: int)
    requires Earthly(zone) && ChangesApart(zone) && IsChange(zone, change, before, after)
    requires before > 0 || after > 0
    ensures !Kept(zone, change + (if before < after then after else before) - 1)
  {
    var wanted := change + (if before < after then after else before) - 1;
    ChangeNearby(zone, wanted, change, before, after);
    UtcForIsFirstExactlyWhen(zone, wanted, change, before, after);
  }

  lemma LongJumpSkips(zone: Zone, wanted: int, change: int, before: int, after: int)
    requires Earthly(zone) && OneChange(zone, wanted, change, before, after)
    requires wanted == change + before && after - before > 180
    ensures !Kept(zone, wanted)
  {
    UtcForIsFirstExactlyWhen(zone, wanted, change, before, after);
  }

  /** The first minute that a jump of more than three hours skips is one that the walk does not bring home. */
  lemma LongJumpMissesOne(zone: Zone, wanted: int, change: int, before: int, after: int)
    requires Earthly(zone) && ChangesApart(zone) && IsChange(zone, change, before, after)
    requires wanted == change + before && after - before > 180
    ensures !Kept(zone, wanted)
  {
    ChangeNearby(zone, wanted, change, before, after);
    LongJumpSkips(zone, wanted, change, before, after);
  }

  lemma KeptWhenNeverAhead(zone: Zone, wanted: int)
    requires Earthly(zone) && ChangesApart(zone)
    requires forall change, before, after | IsChange(zone, change, before, after) ::
               before <= 0 && after <= 0 && after - before <= 180
    ensures Kept(zone, wanted)
  {
    assert OneNearby(zone, wanted);
    var change, before, after :| OneChange(zone, wanted, change, before, after);
    if Affected(wanted, change, before, after) {
      assert zone(change * 60_000 - 1) == 60 * before && zone(change * 60_000) == 60 * after;
      assert IsChange(zone, change, before, after);
    }
    UtcForIsFirstExactlyWhen(zone, wanted, change, before, after);
  }

  /**
   * Every local time there is, in a zone whose clocks change any number of times, is met at its first moment
   * exactly when no change is from or to an offset ahead of UTC and none jumps by more than three hours.
   */
  lemma PromiseKeptExactlyWhenNeverAhead(zone: Zone)
    requires Earthly(zone) && ChangesApart(zone)
    ensures (forall wanted :: Kept(zone, wanted))
       <==> forall change, before, after | IsChange(zone, change, before, after) ::
              before <= 0 && after <= 0 && after - before <= 180
  {
    if forall change, before, after | IsChange(zone, change, before, after) ::
         before <= 0 && after <= 0 && after - before <= 180 {
      forall wanted
        ensures Kept(zone, wanted)
      {
        KeptWhenNeverAhead(zone, wanted);
      }
    } else {
      var change, before, after :|
        IsChange(zone, change, before, after) && !(before <= 0 && after <= 0 && after - before <= 180);
      if before > 0 || after > 0 {
        AheadOfUtcMissesOne(zone, change, before, after);
      } else {
        LongJumpMissesOne(zone, change + before, change, before, after);
      }
    }
  }

  /**
   * Berlin, 29 March 2026: at 01:00 UTC the clocks go from +1 to +2 hours, over the local times from 02:00 to
   * 03:00. A slot at 02:30 runs at 03:31 local time, not at 03:00.
   */
  lemma BerlinOvershootsTheJump()
    ensures var change, wanted := 29_579_100, 29_579_190;
            var berlin := (u: int) => if u < change * 60_000 then 3600 else 7200;
            && IsFirst(berlin, wanted * 60_000, change * 60_000)
            && MomentOf(berlin, wanted * 60_000) == (change + 31) * 60_000
  {
    var change, wanted := 29_579_100, 29_579_190;
    var berlin := (u: int) => if u < change * 60_000 then 3600 else 7200;
    SearchAnswers(berlin, wanted, change, 60, 120);
    EarliestIsFirst(berlin, wanted, change, 60, 120);
  }

  /** Berlin, 25 October 2026: 02:30 happens at 00:30 and at 01:30 UTC, and the later of the two is taken. */
  lemma BerlinTakesTheLaterRepeat()
    ensures var change, wanted := 29_881_500, 29_881_590;
            var berlin := (u: int) => if u < change * 60_000 then 7200 else 3600;
            && IsFirst(berlin, wanted * 60_000, (change - 30) * 60_000)
            && MomentOf(berlin, wanted * 60_000) == (change + 30) * 60_000
  {
    var change, wanted := 29_881_500, 29_881_590;
    var berlin := (u: int) => if u < change * 60_000 then 7200 else 3600;
    SearchAnswers(berlin, wanted, change, 120, 60);
    EarliestIsFirst(berlin, wanted, change, 120, 60);
  }
}
