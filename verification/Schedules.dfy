/** When a schedule is next due (packages/rules/src/schedule.ts:32-64 and 162-230). */
module Schedules {
  import opened Calendar
  import opened Results
  import opened Zones

  datatype Every = EveryDay | EveryWeek(weekday: Weekday) | EveryMonth(dayOfMonth: int)

  /** `zone` is absent when the time zone's name is unknown. */
  datatype Schedule = Schedule(every: Every, hour: int, minute: int, zone: Option<Zone>)

  predicate Acceptable(schedule: Schedule) {
    && 0 <= schedule.hour <= 23
    && 0 <= schedule.minute <= 59
    && (schedule.every.EveryMonth? ==> 1 <= schedule.every.dayOfMonth <= 31)
    && schedule.zone.Some?
  }

  method AssertSchedule(schedule: Schedule) returns (r: Result<()>)
    ensures r == if Acceptable(schedule) then Success(()) else Failure(InvalidInput)
  {
    if schedule.hour < 0 || schedule.hour > 23 {
      return Failure(InvalidInput);
    }
    if schedule.minute < 0 || schedule.minute > 59 {
      return Failure(InvalidInput);
    }
    if schedule.every.EveryMonth? && (schedule.every.dayOfMonth < 1 || schedule.every.dayOfMonth > 31) {
      return Failure(InvalidInput);
    }
    if schedule.zone.None? {
      return Failure(InvalidInput);
    }
    return Success(());
  }

  // ----- slots -----

  function SlotOn(schedule: Schedule, date: Date): Option<LocalTime> {
    var slot := Some(LocalTime(date, schedule.hour, schedule.minute));
    match schedule.every
    case EveryDay => slot
    case EveryWeek(weekday) => if WeekdayOf(NumberOf(date)) == weekday then slot else None
    case EveryMonth(dayOfMonth) =>
      var last := DaysInMonth(date.year, date.month);
      if date.day == if dayOfMonth < last then dayOfMonth else last then slot else None
  }

  /** Whether the schedule has a slot on the `d`-th day. */
  predicate Scheduled(schedule: Schedule, d: int) {
    SlotOn(schedule, DateOf(d)).Some?
  }

  /** The slot's local time on that day, as if it were UTC. */
  function Wanted(schedule: Schedule, d: int): int {
    d * 86_400_000 + schedule.hour * 3_600_000 + schedule.minute * 60_000
  }

  function SlotMoment(schedule: Schedule, d: int): int
    requires schedule.zone.Some?
  {
    MomentOf(schedule.zone.value, Wanted(schedule, d))
  }

  ghost predicate IsSlot(schedule: Schedule, d: int, u: int)
    requires schedule.zone.Some?
  {
    Scheduled(schedule, d) && SlotMoment(schedule, d) == u
  }

  /** `u` is the moment of a slot, on whatever day. */
  ghost predicate Occurs(schedule: Schedule, u: int)
    requires schedule.zone.Some?
  {
    exists d :: IsSlot(schedule, d, u)
  }

  /** `u` is the least occurrence after `after`. */
  ghost predicate IsNext(schedule: Schedule, after: int, u: int)
    requires schedule.zone.Some?
  {
    && after < u && Occurs(schedule, u)
    && forall v | after < v && Occurs(schedule, v) :: u <= v
  }

  /** Between two moments the zone's offset never varies by 21 hours or more. */
  ghost predicate Steady(zone: Zone, from: int, to: int) {
    forall u, v | from <= u <= to && from <= v <= to :: zone(u) - zone(v) < 75_600
  }

  /** What the search for the occurrence after `after` needs of the zone. */
  ghost predicate SteadyAround(zone: Zone, from: int, to: int) {
    Steady(zone, from - 518_400_000, to + 3_456_000_000)
  }

  // ----- where a slot's moment can lie -----

  /** The moment whose offset the second guess uses. */
  function Probe(zone: Zone, wanted: int): int {
    wanted - zone(wanted) * 1000
  }

  lemma MomentIsNearby(zone: Zone, wanted: int)
    requires Earthly(zone)
    ensures wanted - 86_400_000 < Probe(zone, wanted) < wanted + 86_400_000
    ensures -86_400 < zone(Probe(zone, wanted)) < 86_400
    ensures var offset := zone(Probe(zone, wanted)) * 1000;
            wanted - offset <= MomentOf(zone, wanted) <= wanted - offset + 10_800_000
  {
    MomentStaysClose(zone, wanted);
  }

  /** A slot on a later day comes at a later moment, when the days are far apart or the zone is steady. */
  lemma LaterDayLaterMoment(zone: Zone, early: int, late: int)
    requires Earthly(zone) && early + 86_400_000 <= late
    requires early + 259_200_000 <= late || zone(Probe(zone, late)) - zone(Probe(zone, early)) < 75_600
    ensures MomentOf(zone, early) < MomentOf(zone, late)
  {
    MomentIsNearby(zone, early);
    MomentIsNearby(zone, late);
  }

  /** One occurrence to a slot: slots on different days come at different moments, in the order of their days. */
  lemma DaysKeepTheirOrder(schedule: Schedule, day: int, d: int)
    requires Acceptable(schedule) && Earthly(schedule.zone.value) && day < d
    requires Steady(schedule.zone.value, Wanted(schedule, day) - 86_400_000, Wanted(schedule, day) + 345_600_000)
    ensures SlotMoment(schedule, day) < SlotMoment(schedule, d)
  {
    var zone := schedule.zone.value;
    var early, late := Wanted(schedule, day), Wanted(schedule, d);
    MomentIsNearby(zone, early);
    MomentIsNearby(zone, late);
    if d < day + 3 {
      assert zone(Probe(zone, late)) - zone(Probe(zone, early)) < 75_600;
    }
    LaterDayLaterMoment(zone, early, late);
  }

  /** The first day the scan looks at. */
  function FirstDay(zone: Zone, after: int): int {
    Clock(zone, after - 86_400_000) / 86_400_000
  }

  lemma NothingBeforeTheScan(zone: Zone, after: int, d: int, wanted: int)
    requires Earthly(zone) && SteadyAround(zone, after, after)
    requires d < FirstDay(zone, after) && d * 86_400_000 <= wanted < (d + 1) * 86_400_000
    ensures MomentOf(zone, wanted) <= after
  {
    MomentIsNearby(zone, wanted);
    var first := FirstDay(zone, after);
    assert first * 86_400_000 <= Clock(zone, after - 86_400_000);
    assert -86_400 < zone(after - 86_400_000) < 86_400;
    if first - 3 < d {
      assert zone(after - 86_400_000) - zone(Probe(zone, wanted)) < 75_600;
    }
  }

  lemma AheadFromTheFifthDay(zone: Zone, after: int, d: int, wanted: int)
    requires Earthly(zone)
    requires FirstDay(zone, after) + 4 <= d && d * 86_400_000 <= wanted
    ensures after < MomentOf(zone, wanted)
  {
    MomentIsNearby(zone, wanted);
    assert Clock(zone, after - 86_400_000) < (FirstDay(zone, after) + 1) * 86_400_000;
    assert -86_400 < zone(after - 86_400_000) < 86_400;
  }

  // ----- a scheduled day is never far -----

  lemma WeekdayComesRound(d: int, weekday: Weekday)
    ensures 0 <= (IndexOf(weekday) - (d + 4)) % 7 <= 6
    ensures WeekdayOf(d + (IndexOf(weekday) - (d + 4)) % 7) == weekday
  {
    var k := (IndexOf(weekday) - (d + 4)) % 7;
    assert (d + k + 4) % 7 == IndexOf(weekday);
  }

  lemma LaterThisWeek(schedule: Schedule, d: int) returns (day: int)
    requires schedule.every.EveryWeek?
    ensures d <= day <= d + 6 && Scheduled(schedule, day)
  {
    WeekdayComesRound(d, schedule.every.weekday);
    day := d + (IndexOf(schedule.every.weekday) - (d + 4)) % 7;
    NumberOfDateOf(day);
  }

  lemma NumbersInAMonth(year: int, month: int, day: int)
    requires Real(Date(year, month, day))
    ensures NumberOf(Date(year, month, day)) == NumberOf(Date(year, month, 1)) + day - 1
  {
    NumberOfReal(Date(year, month, day));
    NumberOfReal(Date(year, month, 1));
  }

  /** The day of a date's month on which a month schedule has its slot. */
  function SlotDay(dayOfMonth: int, date: Date): int {
    if dayOfMonth < MonthLength(date.year, date.month) then dayOfMonth else MonthLength(date.year, date.month)
  }

  lemma ScheduledInTheMonth(schedule: Schedule, date: Date)
    requires schedule.every.EveryMonth? && 1 <= schedule.every.dayOfMonth && 1 <= date.month <= 12
    requires date.day == SlotDay(schedule.every.dayOfMonth, date)
    ensures Real(date) && Scheduled(schedule, NumberOf(date))
  {
    DateOrderIsNumberOrder(date, date);
    DaysInMonthIsItsLength(date.year, date.month);
  }

  lemma LaterThisMonth(schedule: Schedule, date: Date) returns (day: int)
    requires schedule.every.EveryMonth? && 1 <= schedule.every.dayOfMonth
    requires Real(date) && date.day <= SlotDay(schedule.every.dayOfMonth, date)
    ensures NumberOf(date) <= day <= NumberOf(date) + 30 && Scheduled(schedule, day)
  {
    var slot := date.(day := SlotDay(schedule.every.dayOfMonth, date));
    ScheduledInTheMonth(schedule, slot);
    NumbersInAMonth(date.year, date.month, date.day);
    NumbersInAMonth(date.year, date.month, slot.day);
    day := NumberOf(slot);
  }

  lemma InTheNextMonth(schedule: Schedule, date: Date) returns (day: int)
    requires schedule.every.EveryMonth? && 1 <= schedule.every.dayOfMonth
    requires Real(date) && SlotDay(schedule.every.dayOfMonth, date) < date.day
    ensures NumberOf(date) <= day <= NumberOf(date) + 30 && Scheduled(schedule, day)
  {
    var last := date.(day := MonthLength(date.year, date.month));
    var first := NextPage(last);
    NextPageIsNextNumber(last);
    NumbersInAMonth(date.year, date.month, date.day);
    NumbersInAMonth(date.year, date.month, last.day);
    var slot := first.(day := SlotDay(schedule.every.dayOfMonth, first));
    ScheduledInTheMonth(schedule, slot);
    NumbersInAMonth(slot.year, slot.month, slot.day);
    day := NumberOf(slot);
  }

  /** Some day of any 31 in a row has a slot. */
  lemma SomeDayIsScheduled(schedule: Schedule, d: int) returns (day: int)
    requires Acceptable(schedule)
    ensures d <= day <= d + 30 && Scheduled(schedule, day)
  {
    var date := DateOf(d);
    NumberOfDateOf(d);
    match schedule.every
    case EveryDay =>
      day := d;
    case EveryWeek(weekday) =>
      day := LaterThisWeek(schedule, d);
    case EveryMonth(dayOfMonth) =>
      if date.day <= SlotDay(dayOfMonth, date) {
        day := LaterThisMonth(schedule, date);
      } else {
        day := InTheNextMonth(schedule, date);
      }
  }

  // ----- the scan -----

  /** None of the slots on the days from `first` up to `end` lies after `after`. */
  ghost predicate NoneAfter(schedule: Schedule, after: int, first: int, end: int)
    requires schedule.zone.Some?
  {
    forall d | first <= d < end && Scheduled(schedule, d) :: SlotMoment(schedule, d) <= after
  }

  lemma OneMoreDay(schedule: Schedule, after: int, first: int, end: int, at: Option<int>)
    requires schedule.zone.Some? && NoneAfter(schedule, after, first, end)
    requires at.Some? ==> IsSlot(schedule, end, at.value) && at.value <= after
    requires at.None? ==> !Scheduled(schedule, end)
    ensures NoneAfter(schedule, after, first, end + 1)
  {
    forall d | first <= d < end + 1 && Scheduled(schedule, d)
      ensures SlotMoment(schedule, d) <= after
    {
      if d == end {
      } else {
        assert Scheduled(schedule, d);
      }
    }
  }

  ghost predicate RunsDry(schedule: Schedule, after: int)
    requires schedule.zone.Some?
  {
    var first := FirstDay(schedule.zone.value, after);
    NoneAfter(schedule, after, first, first + 71)
  }

  /** The error at the end of the scan is never reached. */
  lemma ScanNeverRunsDry(schedule: Schedule, after: int)
    requires Acceptable(schedule) && Earthly(schedule.zone.value)
    ensures !RunsDry(schedule, after)
  {
    var first := FirstDay(schedule.zone.value, after);
    var d := SomeDayIsScheduled(schedule, first + 4);
    AheadFromTheFifthDay(schedule.zone.value, after, d, Wanted(schedule, d));
  }

  method SlotAt(schedule: Schedule, date: Date, ghost d: int) returns (at: Option<int>)
    requires Acceptable(schedule) && Real(date) && NumberOf(date) == d
    ensures at.Some? ==> IsSlot(schedule, d, at.value)
    ensures at.None? ==> !Scheduled(schedule, d)
  {
    DateOrderIsNumberOrder(date, date);
    var local := SlotOn(schedule, date);
    if local.None? {
      return None;
    }
    var moment := UtcFor(schedule.zone.value, local.value);
    return Some(moment);
  }

  method StartDay(zone: Zone, after: int) returns (date: Date)
    ensures Real(date) && NumberOf(date) == FirstDay(zone, after)
  {
    var reading := LocalTimeAt(zone, after - 86_400_000);
    assert reading.local.hour * 3_600_000 + reading.local.minute * 60_000 < 86_400_000;
    return reading.local.date;
  }

  method NextDate(date: Date, ghost d: int) returns (next: Date)
    requires Real(date) && NumberOf(date) == d
    ensures Real(next) && NumberOf(next) == d + 1
  {
    DayAfterIsTheNextPage(date);
    NextPageIsNextNumber(date);
    return DayAfter(date);
  }

  /** The loop over 71 days, from the `first`-th on. */
  method Scan(schedule: Schedule, after: int, start: Date, ghost first: int)
    returns (found: Option<int>, ghost day: int)
    requires Acceptable(schedule) && Real(start) && NumberOf(start) == first
    ensures found.None? ==> NoneAfter(schedule, after, first, first + 71)
    ensures found.Some? ==>
              && first <= day <= first + 70
              && IsSlot(schedule, day, found.value)
              && after < found.value
              && NoneAfter(schedule, after, first, day)
  {
    var date := start;
    for scanned := 0 to 71
      invariant Real(date) && NumberOf(date) == first + scanned
      invariant NoneAfter(schedule, after, first, first + scanned)
    {
      ghost var d := first + scanned;
      var at := SlotAt(schedule, date, d);
      if at.Some? && at.value > after {
        return at, d;
      }
      OneMoreDay(schedule, after, first, d, at);
      date := NextDate(date, d);
    }
    return None, 0;
  }

  // ----- the scan finds the least occurrence -----

  lemma FoundDayIsSoon(schedule: Schedule, after: int, day: int)
    requires Acceptable(schedule) && Earthly(schedule.zone.value)
    requires FirstDay(schedule.zone.value, after) <= day
    requires NoneAfter(schedule, after, FirstDay(schedule.zone.value, after), day)
    ensures day <= FirstDay(schedule.zone.value, after) + 34
  {
    var zone := schedule.zone.value;
    var d := SomeDayIsScheduled(schedule, FirstDay(zone, after) + 4);
    AheadFromTheFifthDay(zone, after, d, Wanted(schedule, d));
    assert Scheduled(schedule, d) && after < SlotMoment(schedule, d);
  }

  lemma LaterDayIsLater(schedule: Schedule, after: int, day: int, d: int)
    requires Acceptable(schedule) && Earthly(schedule.zone.value) && SteadyAround(schedule.zone.value, after, after)
    requires FirstDay(schedule.zone.value, after) <= day <= FirstDay(schedule.zone.value, after) + 34
    requires day < d
    ensures SlotMoment(schedule, day) < SlotMoment(schedule, d)
  {
    var zone := schedule.zone.value;
    var clock := Clock(zone, after - 86_400_000);
    assert -86_400 < zone(after - 86_400_000) < 86_400;
    assert FirstDay(zone, after) * 86_400_000 <= clock < (FirstDay(zone, after) + 1) * 86_400_000;
    DaysKeepTheirOrder(schedule, day, d);
  }

  /** Of all the slots there are, on any day at all, none lies between `after` and the one the scan stops at. */
  lemma FoundIsNext(schedule: Schedule, after: int, day: int, found: int)
    requires Acceptable(schedule) && Earthly(schedule.zone.value) && SteadyAround(schedule.zone.value, after, after)
    requires FirstDay(schedule.zone.value, after) <= day
    requires NoneAfter(schedule, after, FirstDay(schedule.zone.value, after), day)
    requires IsSlot(schedule, day, found) && after < found
    ensures IsNext(schedule, after, found)
  {
    FoundDayIsSoon(schedule, after, day);
    forall v | after < v && Occurs(schedule, v)
      ensures found <= v
    {
      var d :| IsSlot(schedule, d, v);
      if d < FirstDay(schedule.zone.value, after) {
        NothingBeforeTheScan(schedule.zone.value, after, d, Wanted(schedule, d));
      } else if day < d {
        LaterDayIsLater(schedule, after, day, d);
      }
    }
  }

  /** Where the source raises an internal error for a scan that found nothing, there is nothing to raise. */
  method NextOccurrence(schedule: Schedule, after: int) returns (r: Result<int>)
    requires schedule.zone.Some? ==> Earthly(schedule.zone.value)
    ensures r.Success? <==> Acceptable(schedule)
    ensures r.Failure? ==> r.problem == InvalidInput
    ensures r.Success? ==> after < r.value && Occurs(schedule, r.value)
    ensures r.Success? && SteadyAround(schedule.zone.value, after, after) ==> IsNext(schedule, after, r.value)
  {
    var checked := AssertSchedule(schedule);
    if checked.Failure? {
      return Failure(checked.problem);
    }
    var start := StartDay(schedule.zone.value, after);
    ghost var day;
    var found;
    found, day := Scan(schedule, after, start, FirstDay(schedule.zone.value, after));
    if found.None? {
      ScanNeverRunsDry(schedule, after);
      assert false;
    }
    if SteadyAround(schedule.zone.value, after, after) {
      FoundIsNext(schedule, after, day, found.value);
    }
    return Success(found.value);
  }

  // ----- windows -----

  /** Occurrences after `from` and not after `to`, oldest first, and no more than `limit` of them. */
  ghost predicate Selects(schedule: Schedule, from: int, to: int, limit: nat, found: seq<int>)
    requires schedule.zone.Some?
  {
    && |found| <= limit
    && (forall i, j | 0 <= i < j < |found| :: found[i] < found[j])
    && (forall u | u in found :: from < u <= to && Occurs(schedule, u))
  }

  /** All of them, or the first `limit`. */
  ghost predicate Collects(schedule: Schedule, from: int, to: int, limit: nat, found: seq<int>)
    requires schedule.zone.Some?
  {
    && Selects(schedule, from, to, limit, found)
    && (forall u | from < u <= to && Occurs(schedule, u) ::
          u in found || (|found| == limit && 0 < limit && found[limit - 1] < u))
  }

  /** What a loop has gathered once it has come as far as `cursor`. */
  ghost predicate Gathering(schedule: Schedule, from: int, cursor: int, to: int, found: seq<int>)
    requires schedule.zone.Some?
  {
    && cursor == (if found == [] then from else found[|found| - 1])
    && (forall i, j | 0 <= i < j < |found| :: found[i] < found[j])
    && (forall u | u in found :: from < u <= to && Occurs(schedule, u))
  }

  ghost predicate Gathered(schedule: Schedule, from: int, cursor: int, to: int, found: seq<int>)
    requires schedule.zone.Some?
  {
    && Gathering(schedule, from, cursor, to, found)
    && (forall u | from < u <= cursor && Occurs(schedule, u) :: u in found)
  }

  lemma CursorAdvances(schedule: Schedule, from: int, cursor: int, to: int, found: seq<int>)
    requires schedule.zone.Some? && Gathering(schedule, from, cursor, to, found)
    ensures from <= cursor && (found != [] ==> cursor <= to)
    ensures forall u | u in found :: u <= cursor
  {
    if found != [] {
      assert found[|found| - 1] in found;
    }
  }

  lemma GatheringOneMore(schedule: Schedule, from: int, cursor: int, to: int, found: seq<int>, next: int)
    requires schedule.zone.Some? && Gathering(schedule, from, cursor, to, found)
    requires cursor < next <= to && Occurs(schedule, next)
    ensures Gathering(schedule, from, next, to, found + [next])
  {
    CursorAdvances(schedule, from, cursor, to, found);
    assert forall i | 0 <= i < |found| :: found[i] in found;
  }

  lemma GatheredOneMore(schedule: Schedule, from: int, cursor: int, to: int, found: seq<int>, next: int)
    requires schedule.zone.Some? && Gathered(schedule, from, cursor, to, found)
    requires IsNext(schedule, cursor, next) && next <= to
    ensures Gathered(schedule, from, next, to, found + [next])
  {
    GatheringOneMore(schedule, from, cursor, to, found, next);
    forall u | from < u <= next && Occurs(schedule, u)
      ensures u in found + [next]
    {
      if u <= cursor {
        assert u in found;
      }
    }
  }

  lemma GatheredAll(schedule: Schedule, from: int, cursor: int, to: int, limit: nat, found: seq<int>)
    requires schedule.zone.Some? && Gathered(schedule, from, cursor, to, found)
    requires |found| <= limit && 0 < limit
    requires |found| == limit || forall u | cursor < u <= to :: !Occurs(schedule, u)
    ensures Collects(schedule, from, to, limit, found)
  {
    forall u | from < u <= to && Occurs(schedule, u)
      ensures u in found || (|found| == limit && found[limit - 1] < u)
    {
      if u <= cursor {
        assert u in found;
      }
    }
  }

  lemma SteadyWithin(zone: Zone, from: int, to: int, cursor: int)
    requires SteadyAround(zone, from, to) && from <= cursor <= to
    ensures SteadyAround(zone, cursor, cursor)
  {
  }

  /** Both loops that gather occurrences take this step: one more, or the end of the window. */
  lemma NextGathers(schedule: Schedule, from: int, cursor: int, to: int, limit: nat, found: seq<int>, next: int)
    requires Acceptable(schedule) && |found| < limit
    requires Gathering(schedule, from, cursor, to, found)
    requires SteadyAround(schedule.zone.value, from, to) ==> Gathered(schedule, from, cursor, to, found)
    requires cursor < next && Occurs(schedule, next)
    requires SteadyAround(schedule.zone.value, cursor, cursor) ==> IsNext(schedule, cursor, next)
    ensures next <= to ==>
              && Gathering(schedule, from, next, to, found + [next])
              && (SteadyAround(schedule.zone.value, from, to) ==> Gathered(schedule, from, next, to, found + [next]))
    ensures next > to && SteadyAround(schedule.zone.value, from, to) ==> Collects(schedule, from, to, limit, found)
  {
    CursorAdvances(schedule, from, cursor, to, found);
    if next <= to {
      GatheringOneMore(schedule, from, cursor, to, found, next);
    }
    if SteadyAround(schedule.zone.value, from, to) {
      if cursor <= to {
        SteadyWithin(schedule.zone.value, from, to, cursor);
      }
      if next <= to {
        GatheredOneMore(schedule, from, cursor, to, found, next);
      } else {
        GatheredAll(schedule, from, cursor, to, limit, found);
      }
    }
  }

  method OccurrencesBetween(schedule: Schedule, from: int, to: int) returns (r: Result<seq<int>>)
    requires schedule.zone.Some? ==> Earthly(schedule.zone.value)
    ensures r.Success? <==> Acceptable(schedule)
    ensures r.Failure? ==> r.problem == InvalidInput
    ensures r.Success? ==> Selects(schedule, from, to, 1000, r.value)
    ensures r.Success? && SteadyAround(schedule.zone.value, from, to) ==> Collects(schedule, from, to, 1000, r.value)
  {
    var found: seq<int> := [];
    var cursor := from;
    while |found| < 1000
      invariant |found| <= 1000
      invariant found != [] ==> Acceptable(schedule)
      invariant schedule.zone.Some? ==> Gathering(schedule, from, cursor, to, found)
      invariant schedule.zone.Some? && SteadyAround(schedule.zone.value, from, to) ==>
          Gathered(schedule, from, cursor, to, found)
    {
      var next := NextOccurrence(schedule, cursor);
      if next.Failure? {
        return Failure(next.problem);
      }
      NextGathers(schedule, from, cursor, to, 1000, found, next.value);
      if next.value > to {
        return Success(found);
      }
      found := found + [next.value];
      cursor := next.value;
    }
    if SteadyAround(schedule.zone.value, from, to) {
      GatheredAll(schedule, from, cursor, to, 1000, found);
    }
    return Success(found);
  }
}
