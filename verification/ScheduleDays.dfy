/**
 * On which days a schedule has a slot, and how far apart its slots lie (packages/rules/src/schedule.ts:26-60 and
 * 174-217).
 */
module ScheduleDays {
  import opened Calendar
  import opened Results
  import opened Zones
  import opened Schedules

  /**
   * A schedule is taken exactly when it has a zone, its time of day is one that clocks show on every date, and its
   * day of the month is one that some month has.
   */
  lemma AcceptableExactlyWhen(schedule: Schedule)
    ensures Acceptable(schedule) <==>
              && schedule.zone.Some?
              && (forall date: Date | Real(date) :: LocalTime(date, schedule.hour, schedule.minute).Proper())
              && (schedule.every.EveryMonth? ==>
                    exists date: Date :: Real(date) && date.day == schedule.every.dayOfMonth)
  {
    assert Real(Date(1970, 1, 1)) && (forall date: Date | Real(date) :: 1 <= date.day <= 31);
    if schedule.every.EveryMonth? && 1 <= schedule.every.dayOfMonth <= 31 {
      assert Real(Date(1970, 1, schedule.every.dayOfMonth));
    }
    if forall date: Date | Real(date) :: LocalTime(date, schedule.hour, schedule.minute).Proper() {
      assert LocalTime(Date(1970, 1, 1), schedule.hour, schedule.minute).Proper();
    }
  }

  /** The last day of a month, or the day asked for if the month has it. */
  function Clamped(dayOfMonth: int, year: int, month: int): int {
    if dayOfMonth < MonthLength(year, month) then dayOfMonth else MonthLength(year, month)
  }

  /** Which days have a slot: all of them, those of one weekday, or one day in each month. */
  lemma WhichDaysHaveASlot(schedule: Schedule, d: int)
    ensures schedule.every.EveryDay? ==> Scheduled(schedule, d)
    ensures schedule.every.EveryWeek? ==>
              (Scheduled(schedule, d) <==> (d + 4) % 7 == IndexOf(schedule.every.weekday))
    ensures schedule.every.EveryMonth? ==>
              var date := DateOf(d);
              (Scheduled(schedule, d) <==> date.day == Clamped(schedule.every.dayOfMonth, date.year, date.month))
  {
    var date := DateOf(d);
    NumberOfDateOf(d);
    WeekGoesOn(d);
    DaysInMonthIsItsLength(date.year, date.month);
  }

  lemma WeekdaysHaveASlot(schedule: Schedule, d: int)
    requires schedule.every.EveryWeek?
    ensures Scheduled(schedule, d) <==> (d + 4) % 7 == IndexOf(schedule.every.weekday)
  {
    WhichDaysHaveASlot(schedule, d);
  }

  /** A slot comes at the schedule's own hour and minute of its day. */
  lemma SlotIsAtItsTime(schedule: Schedule, d: int)
    requires Scheduled(schedule, d)
    ensures SlotOn(schedule, DateOf(d)) == Some(LocalTime(DateOf(d), schedule.hour, schedule.minute))
    ensures AsUtc(SlotOn(schedule, DateOf(d)).value)
         == d * 86_400_000 + schedule.hour * 3_600_000 + schedule.minute * 60_000
  {
    NumberOfDateOf(d);
  }

  lemma SevensApart(d: int, k: int, index: int)
    requires d < k <= d + 7 && (d + 4) % 7 == index
    ensures (k + 4) % 7 == index <==> k == d + 7
  {
  }

  /** From one weekly slot to the next it is seven days, with none in between. */
  lemma WeeklySlotsAreSevenDaysApart(schedule: Schedule, d: int, k: int)
    requires schedule.every.EveryWeek? && Scheduled(schedule, d) && d < k <= d + 7
    ensures Scheduled(schedule, k) <==> k == d + 7
  {
    var index := IndexOf(schedule.every.weekday);
    assert (d + 4) % 7 == index by {
      WeekdaysHaveASlot(schedule, d);
    }
    SevensApart(d, k, index);
    WeekdaysHaveASlot(schedule, k);
  }

  /** Every month of every year has exactly one slot of a monthly schedule. */
  lemma OneSlotAMonth(schedule: Schedule, year: int, month: int, day: int)
    requires Acceptable(schedule) && schedule.every.EveryMonth? && Real(Date(year, month, day))
    ensures Scheduled(schedule, NumberOf(Date(year, month, day)))
       <==> day == Clamped(schedule.every.dayOfMonth, year, month)
    ensures Real(Date(year, month, Clamped(schedule.every.dayOfMonth, year, month)))
  {
    DateOrderIsNumberOrder(Date(year, month, day), Date(year, month, day));
    WhichDaysHaveASlot(schedule, NumberOf(Date(year, month, day)));
  }

  // ----- where clocks never change -----

  ghost predicate Fixed(zone: Zone, offset: int) {
    forall u :: zone(u) == offset
  }

  lemma WholeDays(d: int, hour: int, minute: int, wanted: int)
    requires wanted == d * 86_400_000 + hour * 3_600_000 + minute * 60_000
    ensures wanted / 60_000 * 60_000 == wanted
  {
    assert wanted == (d * 1440 + hour * 60 + minute) * 60_000;
  }

  /** A slot then comes at its time of day, less the offset. */
  lemma SlotOfAFixedZone(schedule: Schedule, offset: int, d: int)
    requires schedule.zone.Some? && Fixed(schedule.zone.value, offset)
    ensures SlotMoment(schedule, d)
         == d * 86_400_000 + schedule.hour * 3_600_000 + schedule.minute * 60_000 - offset * 1000
  {
    WholeDays(d, schedule.hour, schedule.minute, Wanted(schedule, d));
    assert Clock(schedule.zone.value, Wanted(schedule, d) - offset * 1000) == Wanted(schedule, d);
  }

  /** Such a zone is steady throughout. */
  lemma FixedZonesAreSteady(zone: Zone, offset: int, from: int, to: int)
    requires Fixed(zone, offset)
    ensures SteadyAround(zone, from, to)
  {
  }

  /** And a weekly schedule comes round in a week to the millisecond. */
  lemma WeekToTheMillisecond(schedule: Schedule, offset: int, u: int)
    requires schedule.zone.Some? && Fixed(schedule.zone.value, offset) && schedule.every.EveryWeek?
    requires Occurs(schedule, u)
    ensures IsNext(schedule, u, u + 604_800_000)
  {
    var d :| IsSlot(schedule, d, u);
    SlotOfAFixedZone(schedule, offset, d);
    SlotOfAFixedZone(schedule, offset, d + 7);
    WeeklySlotsAreSevenDaysApart(schedule, d, d + 7);
    assert IsSlot(schedule, d + 7, u + 604_800_000);
    forall v | u < v && Occurs(schedule, v)
      ensures u + 604_800_000 <= v
    {
      var e :| IsSlot(schedule, e, v);
      SlotOfAFixedZone(schedule, offset, e);
      if e < d + 7 {
        WeeklySlotsAreSevenDaysApart(schedule, d, e);
      }
    }
  }

  lemma MondaysAtNine(mondays: Schedule, d: int)
    requires mondays.every == EveryWeek(Monday) && mondays.hour == 9 && mondays.minute == 0
    requires mondays.zone.Some? && Fixed(mondays.zone.value, 0)
    ensures Scheduled(mondays, d) <==> (d + 4) % 7 == 1
    ensures SlotMoment(mondays, d) == d * 86_400_000 + 32_400_000
  {
    WhichDaysHaveASlot(mondays, d);
    SlotOfAFixedZone(mondays, 0, d);
  }

  lemma MondayAtNineOccurs(mondays: Schedule, d: int)
    requires mondays.every == EveryWeek(Monday) && mondays.hour == 9 && mondays.minute == 0
    requires mondays.zone.Some? && Fixed(mondays.zone.value, 0) && (d + 4) % 7 == 1
    ensures Occurs(mondays, d * 86_400_000 + 32_400_000)
  {
    MondaysAtNine(mondays, d);
    assert IsSlot(mondays, d, d * 86_400_000 + 32_400_000);
  }

  /** The epoch is a Thursday: the first Monday at nine after it, in UTC, is on its fifth day, 5 January 1970. */
  lemma TheFirstMondayAtNine(mondays: Schedule)
    requires mondays.every == EveryWeek(Monday) && mondays.hour == 9 && mondays.minute == 0
    requires mondays.zone.Some? && Fixed(mondays.zone.value, 0)
    ensures IsNext(mondays, 0, 378_000_000)
  {
    MondayAtNineOccurs(mondays, -3);
    WeekToTheMillisecond(mondays, 0, -226_800_000);
  }
}
