/** Which occurrences are queued and which are skipped (packages/runtime/src/scheduling.ts). */
module Scheduling {
  import opened Results
  import opened Schedules
  import opened Zones

  datatype MachineState = Draft | Ready | Running | Paused | Stopped

  datatype Machine = Machine(
    id: string,
    state: MachineState,
    schedule: Schedule,
    lastCheckedAt: int,
    graceSeconds: Option<int>)

  /** The key is the minute of the moment, counted rather than written out. */
  datatype PlannedRun = PlannedRun(machineId: string, occurrenceKey: int, dueAt: int, lateBySeconds: int)

  datatype SkipReason = MissedWindow | MachinePaused | MachineStopped

  datatype SkippedRun = SkippedRun(run: PlannedRun, reason: SkipReason)

  datatype Plan = Plan(queue: seq<PlannedRun>, skip: seq<SkippedRun>)

  const DEFAULT_GRACE_SECONDS := 3600

  function ReasonForState(state: MachineState): Option<SkipReason> {
    match state
    case Paused => Some(MachinePaused)
    case Stopped => Some(MachineStopped)
    case _ => None
  }

  function Entry(machine: Machine, now: int, dueAt: int): PlannedRun {
    PlannedRun(machine.id, dueAt / 60_000, dueAt, (now - dueAt) / 1000)
  }

  function GraceOf(machine: Machine): int {
    (if machine.graceSeconds.Some? then machine.graceSeconds.value else DEFAULT_GRACE_SECONDS) * 1000
  }

  /** The skips of a list of moments, all for one reason. */
  function Skips(machine: Machine, now: int, due: seq<int>, reason: SkipReason): seq<SkippedRun> {
    seq(|due|, i requires 0 <= i < |due| => SkippedRun(Entry(machine, now, due[i]), reason))
  }

  /** What each state makes of the moments that came due. */
  function PlanFor(machine: Machine, now: int, due: seq<int>): Plan {
    if due == [] then Plan([], [])
    else
      var latest := due[|due| - 1];
      match machine.state
      case Draft => Plan([], [])
      case Ready => Plan([], [])
      case Paused => Plan([], Skips(machine, now, due, MachinePaused))
      case Stopped => Plan([], Skips(machine, now, due, MachineStopped))
      case Running =>
        if now - latest > GraceOf(machine) then Plan([], Skips(machine, now, due, MissedWindow))
        else Plan([Entry(machine, now, latest)], Skips(machine, now, due[..|due| - 1], MissedWindow))
  }

  method DueFor(schedule: Schedule, from: int, now: int) returns (r: Result<seq<int>>)
    requires schedule.zone.Some? ==> Earthly(schedule.zone.value)
    ensures r.Success? <==> Acceptable(schedule)
    ensures r.Failure? ==> r.problem == InvalidInput
    ensures r.Success? ==> Selects(schedule, from, now, 500, r.value)
    ensures r.Success? && SteadyAround(schedule.zone.value, from, now) ==> Collects(schedule, from, now, 500, r.value)
  {
    var due: seq<int> := [];
    var cursor := from;
    while |due| < 500
      invariant |due| <= 500
      invariant due != [] ==> Acceptable(schedule)
      invariant schedule.zone.Some? ==> Gathering(schedule, from, cursor, now, due)
      invariant schedule.zone.Some? && SteadyAround(schedule.zone.value, from, now) ==>
          Gathered(schedule, from, cursor, now, due)
    {
      var next := NextOccurrence(schedule, cursor);
      if next.Failure? {
        return Failure(next.problem);
      }
      NextGathers(schedule, from, cursor, now, 500, due, next.value);
      if next.value > now {
        return Success(due);
      }
      due := due + [next.value];
      cursor := next.value;
    }
    if SteadyAround(schedule.zone.value, from, now) {
      GatheredAll(schedule, from, cursor, now, 500, due);
    }
    return Success(due);
  }

  /** A plan of occurrences since the last check, though perhaps not of all of them. */
  ghost predicate PlannedSome(machine: Machine, now: int, due: seq<int>, plan: Plan)
    requires machine.schedule.zone.Some?
  {
    Selects(machine.schedule, machine.lastCheckedAt, now, 500, due) && plan == PlanFor(machine, now, due)
  }

  ghost predicate PlannedFrom(machine: Machine, now: int, due: seq<int>, plan: Plan)
    requires machine.schedule.zone.Some?
  {
    Collects(machine.schedule, machine.lastCheckedAt, now, 500, due) && plan == PlanFor(machine, now, due)
  }

  /** A plan, and one of everything where the zone is steady over the window. */
  ghost predicate Planned(machine: Machine, now: int, due: seq<int>, plan: Plan)
    requires machine.schedule.zone.Some?
  {
    && PlannedSome(machine, now, due, plan)
    && (SteadyAround(machine.schedule.zone.value, machine.lastCheckedAt, now) ==> PlannedFrom(machine, now, due, plan))
  }

  method PlanMachine(machine: Machine, now: int) returns (r: Result<Plan>, ghost due: seq<int>)
    requires machine.schedule.zone.Some? ==> Earthly(machine.schedule.zone.value)
    ensures r.Success? <==> Acceptable(machine.schedule)
    ensures r.Failure? ==> r.problem == InvalidInput
    ensures r.Success? ==> Planned(machine, now, due, r.value)
  {
    var read := DueFor(machine.schedule, machine.lastCheckedAt, now);
    if read.Failure? {
      return Failure(read.problem), [];
    }
    var moments := read.value;
    due := moments;
    if |moments| == 0 {
      return Success(Plan([], [])), moments;
    }
    var grace := GraceOf(machine);
    var stateReason := ReasonForState(machine.state);
    var last := |moments| - 1;
    var queue: seq<PlannedRun>, skip: seq<SkippedRun> := [], [];
    for i := 0 to |moments|
      invariant stateReason.Some? ==> queue == [] && skip == Skips(machine, now, moments[..i], stateReason.value)
      invariant stateReason.None? && machine.state != Running ==> queue == [] && skip == []
      invariant machine.state == Running && i <= last ==>
          queue == [] && skip == Skips(machine, now, moments[..i], MissedWindow)
      invariant i == |moments| ==> Plan(queue, skip) == PlanFor(machine, now, moments)
    {
      var dueAt := moments[i];
      var entry := Entry(machine, now, dueAt);
      assert moments[..i + 1] == moments[..i] + [dueAt];
      assert i == last ==> moments[..i + 1] == moments;
      if stateReason.Some? {
        skip := skip + [SkippedRun(entry, stateReason.value)];
        continue;
      }
      if machine.state != Running {
        continue;
      }
      if i != last {
        skip := skip + [SkippedRun(entry, MissedWindow)];
        continue;
      }
      if now - dueAt > grace {
        skip := skip + [SkippedRun(entry, MissedWindow)];
        continue;
      }
      queue := queue + [entry];
    }
    return Success(Plan(queue, skip)), moments;
  }

  // ----- what a plan says of each run -----

  /** The run is the machine's own; its key is the minute it was due in, and its lateness in whole seconds. */
  predicate Describes(machine: Machine, now: int, run: PlannedRun) {
    && run.machineId == machine.id
    && run.occurrenceKey * 60_000 <= run.dueAt < (run.occurrenceKey + 1) * 60_000
    && run.lateBySeconds * 1000 <= now - run.dueAt < (run.lateBySeconds + 1) * 1000
  }

  /** Everything planned is described so; what a running machine skips was missed, and a resting state says which. */
  lemma EveryRunIsDescribed(machine: Machine, now: int, due: seq<int>)
    ensures var plan := PlanFor(machine, now, due);
            && (forall run | run in plan.queue :: Describes(machine, now, run))
            && forall skipped | skipped in plan.skip ::
                 && Describes(machine, now, skipped.run)
                 && (machine.state == Running ==> skipped.reason == MissedWindow)
                 && (machine.state == Paused ==> skipped.reason == MachinePaused)
                 && (machine.state == Stopped ==> skipped.reason == MachineStopped)
  {
    forall dueAt
      ensures Describes(machine, now, Entry(machine, now, dueAt))
    {
      assert Entry(machine, now, dueAt).dueAt == dueAt;
    }
  }

  /** The machine's own grace, or an hour. */
  predicate InGrace(machine: Machine, now: int, dueAt: int) {
    match machine.graceSeconds
    case Some(seconds) => now - dueAt <= seconds * 1000
    case None => now - dueAt <= 3_600_000
  }

  /** A running machine's latest moment is queued exactly within its grace, and missed otherwise. */
  lemma LatestIsQueuedExactlyInGrace(machine: Machine, now: int, due: seq<int>)
    requires machine.state == Running && due != []
    ensures var plan, latest := PlanFor(machine, now, due), due[|due| - 1];
            && (InGrace(machine, now, latest) ==> |plan.queue| == 1 && plan.queue[0].dueAt == latest)
            && (!InGrace(machine, now, latest) ==>
                  plan.queue == [] && plan.skip != [] && plan.skip[|plan.skip| - 1].run.dueAt == latest)
  {
  }

  // ----- what a plan reports -----

  function QueuedAt(plan: Plan): seq<int> {
    seq(|plan.queue|, i requires 0 <= i < |plan.queue| => plan.queue[i].dueAt)
  }

  function SkippedAt(plan: Plan): seq<int> {
    seq(|plan.skip|, i requires 0 <= i < |plan.skip| => plan.skip[i].run.dueAt)
  }

  predicate Increasing(s: seq<int>) {
    forall i, j | 0 <= i < j < |s| :: s[i] < s[j]
  }

  ghost predicate Reports(plan: Plan, u: int) {
    u in SkippedAt(plan) || u in QueuedAt(plan)
  }

  /** Skips and then queue, the plan of a machine that is past its start is the list of what came due, in order. */
  lemma PlanIsWhatCameDue(machine: Machine, now: int, due: seq<int>)
    requires machine.state.Running? || machine.state.Paused? || machine.state.Stopped?
    ensures SkippedAt(PlanFor(machine, now, due)) + QueuedAt(PlanFor(machine, now, due)) == due
  {
    if due != [] {
      assert due == due[..|due| - 1] + [due[|due| - 1]];
    }
  }

  ghost predicate Due(machine: Machine, now: int, u: int)
    requires machine.schedule.zone.Some?
  {
    machine.lastCheckedAt < u <= now && Occurs(machine.schedule, u)
  }

  /** Different occurrences that came due, in their order. */
  ghost predicate AllDue(machine: Machine, now: int, list: seq<int>)
    requires machine.schedule.zone.Some?
  {
    Increasing(list) && forall u | u in list :: Due(machine, now, u)
  }

  /** No more than `limit` occurrences came due. */
  ghost predicate AtMostDue(machine: Machine, now: int, limit: nat)
    requires machine.schedule.zone.Some?
  {
    forall list | AllDue(machine, now, list) :: |list| <= limit
  }

  lemma BelowTheLast(a: seq<int>, u: int)
    requires a != [] && Increasing(a)
    ensures u in a[..|a| - 1] <==> u in a && u < a[|a| - 1]
  {
    var m := |a| - 1;
    assert a == a[..m] + [a[m]];
  }

  lemma LatestIsLargest(due: seq<int>)
    requires due != [] && Increasing(due)
    ensures forall v | v in due :: v <= due[|due| - 1]
  {
  }

  lemma {:induction false} NoLongerThan(list: seq<int>, due: seq<int>)
    requires Increasing(list) && Increasing(due) && forall u | u in list :: u in due
    ensures |list| <= |due|
  {
    if list != [] {
      var n := |list| - 1;
      assert list[n] in list && list[n] in due;
      LatestIsLargest(due);
      forall u | u in list[..n]
        ensures u in due[..|due| - 1]
      {
        BelowTheLast(list, u);
        BelowTheLast(due, u);
      }
      NoLongerThan(list[..n], due[..|due| - 1]);
    }
  }

  lemma ReportedAre(skipped: seq<int>, queued: seq<int>, due: seq<int>)
    requires skipped + queued == due
    ensures forall u :: u in skipped || u in queued <==> u in due
  {
  }

  /** A plan reports the occurrences since the last check, or the first 500 of them and none after. */
  lemma TheFirstAreReported(machine: Machine, now: int, due: seq<int>, plan: Plan)
    requires machine.schedule.zone.Some? && PlannedFrom(machine, now, due, plan)
    requires machine.state.Running? || machine.state.Paused? || machine.state.Stopped?
    ensures SkippedAt(plan) + QueuedAt(plan) == due && Increasing(due) && |due| <= 500
    ensures forall u :: Reports(plan, u) <==> Due(machine, now, u) && (|due| < 500 || u <= due[499])
  {
    PlanIsWhatCameDue(machine, now, due);
    ReportedAre(SkippedAt(plan), QueuedAt(plan), due);
    if due != [] {
      LatestIsLargest(due);
    }
    assert forall u :: u in due ==> Due(machine, now, u);
    assert forall u :: Due(machine, now, u) ==> u in due || (|due| == 500 && due[499] < u);
  }

  lemma StillIncreasing(due: seq<int>, u: int)
    requires Increasing(due) && forall v | v in due :: v < u
    ensures Increasing(due + [u])
  {
    assert forall i | 0 <= i < |due| :: due[i] in due;
  }

  lemma OneMoreDue(machine: Machine, now: int, due: seq<int>, u: int)
    requires machine.schedule.zone.Some? && Increasing(due) && Due(machine, now, u)
    requires (forall v | v in due :: Due(machine, now, v)) && forall v | v in due :: v < u
    ensures !AtMostDue(machine, now, |due|)
  {
    StillIncreasing(due, u);
    var longer := due + [u];
    assert forall v | v in longer :: v in due || v == u;
    assert AllDue(machine, now, longer);
  }

  /** Nothing that came due is left unread exactly when no more than 500 occurrences came due. */
  lemma AllAreReadExactlyUpToTheLimit(machine: Machine, now: int, due: seq<int>, plan: Plan)
    requires machine.schedule.zone.Some? && PlannedFrom(machine, now, due, plan)
    ensures (forall u :: Due(machine, now, u) ==> u in due) <==> AtMostDue(machine, now, 500)
  {
    if forall u :: Due(machine, now, u) ==> u in due {
      forall list | AllDue(machine, now, list)
        ensures |list| <= 500
      {
        NoLongerThan(list, due);
      }
    } else {
      var u :| Due(machine, now, u) && u !in due;
      LatestIsLargest(due);
      OneMoreDue(machine, now, due, u);
    }
  }

  /** Up to the limit, what came due is exactly the occurrences since the last check. */
  lemma ReportsAreWhatIsDue(machine: Machine, now: int, due: seq<int>, plan: Plan)
    requires machine.schedule.zone.Some? && PlannedFrom(machine, now, due, plan) && AtMostDue(machine, now, 500)
    requires machine.state.Running? || machine.state.Paused? || machine.state.Stopped?
    ensures forall u :: Reports(plan, u) <==> Due(machine, now, u)
    ensures SkippedAt(plan) + QueuedAt(plan) == due && Increasing(due)
    ensures forall u :: u in due <==> Due(machine, now, u)
  {
    AllAreReadExactlyUpToTheLimit(machine, now, due, plan);
    PlanIsWhatCameDue(machine, now, due);
    ReportedAre(SkippedAt(plan), QueuedAt(plan), due);
  }

  /**
   * Every occurrence since the last check is reported, as the documentation promises after any outage, exactly when
   * no more than 500 came due: past that the plan stops at the 500th.
   */
  lemma EverythingIsReportedExactlyUpToTheLimit(machine: Machine, now: int, due: seq<int>, plan: Plan)
    requires machine.schedule.zone.Some? && PlannedFrom(machine, now, due, plan)
    requires machine.state.Running? || machine.state.Paused? || machine.state.Stopped?
    ensures (forall u :: Reports(plan, u) <==> Due(machine, now, u)) <==> AtMostDue(machine, now, 500)
  {
    AllAreReadExactlyUpToTheLimit(machine, now, due, plan);
    TheFirstAreReported(machine, now, due, plan);
    ReportedAre(SkippedAt(plan), QueuedAt(plan), due);
    assert forall u :: Reports(plan, u) <==> u in due;
    assert forall u :: u in due ==> Due(machine, now, u);
  }

  /**
   * Up to the limit, a running machine's plan reports every occurrence since the last check, once and in order,
   * and nothing else; whatever is queued is the last of them.
   */
  lemma EveryOccurrenceReportedOnce(machine: Machine, now: int, due: seq<int>, plan: Plan)
    requires machine.schedule.zone.Some? && PlannedFrom(machine, now, due, plan) && AtMostDue(machine, now, 500)
    requires machine.state == Running
    ensures forall u :: Reports(plan, u) <==> Due(machine, now, u)
    ensures Increasing(SkippedAt(plan) + QueuedAt(plan))
    ensures |plan.queue| <= 1
  {
    ReportsAreWhatIsDue(machine, now, due, plan);
  }

  /** `u` is the latest occurrence since the last check. */
  ghost predicate Latest(machine: Machine, now: int, u: int)
    requires machine.schedule.zone.Some?
  {
    Due(machine, now, u) && forall v | Due(machine, now, v) :: v <= u
  }

  /** Up to the limit, one run is queued exactly when the latest occurrence is within its grace, and it is that one. */
  lemma LatestIsQueuedExactlyWithinGrace(machine: Machine, now: int, due: seq<int>, plan: Plan)
    requires machine.schedule.zone.Some? && PlannedFrom(machine, now, due, plan) && AtMostDue(machine, now, 500)
    requires machine.state == Running
    ensures plan.queue != [] <==> exists u :: Latest(machine, now, u) && now - u <= GraceOf(machine)
    ensures plan.queue != [] ==> Latest(machine, now, plan.queue[0].dueAt)
  {
    ReportsAreWhatIsDue(machine, now, due, plan);
    if due != [] {
      LatestIsLargest(due);
      assert due[|due| - 1] in due;
      assert Latest(machine, now, due[|due| - 1]);
    }
  }

  lemma TheLastIsQueued(machine: Machine, now: int, due: seq<int>)
    requires due != [] && machine.state == Running
    ensures QueuedAt(PlanFor(machine, now, due))
         == if now - due[|due| - 1] <= GraceOf(machine) then [due[|due| - 1]] else []
  {
  }

  lemma PastTheLimit(machine: Machine, now: int, due: seq<int>, plan: Plan)
    requires machine.schedule.zone.Some? && PlannedFrom(machine, now, due, plan) && !AtMostDue(machine, now, 500)
    ensures |due| == 500 && !Latest(machine, now, due[499])
  {
    AllAreReadExactlyUpToTheLimit(machine, now, due, plan);
    var u :| Due(machine, now, u) && u !in due;
    assert |due| == 500 && due[499] < u;
  }

  /**
   * The moment a running machine's plan takes for the latest is the latest exactly when no more than 500 came due.
   * Past that it is the 500th, which is queued or skipped in the latest one's stead.
   */
  lemma LatestIsJudgedExactlyUpToTheLimit(machine: Machine, now: int, due: seq<int>, plan: Plan)
    requires machine.schedule.zone.Some? && PlannedFrom(machine, now, due, plan) && due != []
    requires machine.state == Running
    ensures QueuedAt(plan) == if now - due[|due| - 1] <= GraceOf(machine) then [due[|due| - 1]] else []
    ensures Latest(machine, now, due[|due| - 1]) <==> AtMostDue(machine, now, 500)
    ensures !AtMostDue(machine, now, 500) ==> |due| == 500
  {
    TheLastIsQueued(machine, now, due);
    if AtMostDue(machine, now, 500) {
      ReportsAreWhatIsDue(machine, now, due, plan);
      LatestIsLargest(due);
      assert due[|due| - 1] in due;
    } else {
      PastTheLimit(machine, now, due, plan);
    }
  }

  const DAILY_UTC := Schedule(EveryDay, 0, 0, Some((u: int) => 0))

  /** A daily machine that nothing has checked for 501 days. */
  const FORGOTTEN := Machine("m", Running, DAILY_UTC, 0, None)

  lemma MidnightOccurs(d: int)
    ensures Occurs(DAILY_UTC, d * 86_400_000)
  {
    var wanted := d * 86_400_000;
    MultipleOfAMinute(wanted, d * 1440);
    assert Clock(DAILY_UTC.zone.value, wanted) == wanted;
    assert IsSlot(DAILY_UTC, d, wanted);
  }

  function Midnights(n: nat): (list: seq<int>)
    ensures |list| == n && forall i | 0 <= i < n :: list[i] == (i + 1) * 86_400_000
  {
    seq(n, i requires 0 <= i < n => (i + 1) * 86_400_000)
  }

  lemma MidnightIsDue(i: nat)
    requires i < 501
    ensures Due(FORGOTTEN, 43_286_400_000, (i + 1) * 86_400_000)
  {
    MidnightOccurs(i + 1);
  }

  lemma TooManyMidnights()
    ensures !AtMostDue(FORGOTTEN, 43_286_400_000, 500)
  {
    var list := Midnights(501);
    forall u | u in list
      ensures Due(FORGOTTEN, 43_286_400_000, u)
    {
      var i: nat :| i < 501 && u == list[i];
      MidnightIsDue(i);
    }
    assert AllDue(FORGOTTEN, 43_286_400_000, list);
  }

  /** Its latest occurrence is not reported, and the plan judges the one before by its grace instead. */
  lemma AfterFiveHundredAndOneDaysTheLatestIsMissed(due: seq<int>, plan: Plan)
    requires PlannedFrom(FORGOTTEN, 43_286_400_000, due, plan)
    ensures |due| == 500 && !Latest(FORGOTTEN, 43_286_400_000, due[499])
    ensures !(forall u :: Reports(plan, u) <==> Due(FORGOTTEN, 43_286_400_000, u))
  {
    TooManyMidnights();
    PastTheLimit(FORGOTTEN, 43_286_400_000, due, plan);
    EverythingIsReportedExactlyUpToTheLimit(FORGOTTEN, 43_286_400_000, due, plan);
  }

  /**
   * A paused or stopped machine has what came due reported, every occurrence up to the limit, and none queued; one
   * not yet started, none at all.
   */
  lemma OtherStatesQueueNothing(machine: Machine, now: int, due: seq<int>, plan: Plan)
    requires machine.schedule.zone.Some? && PlannedFrom(machine, now, due, plan)
    requires machine.state != Running
    ensures plan.queue == []
    ensures machine.state.Paused? || machine.state.Stopped? ==>
              && ((forall u :: Reports(plan, u) <==> Due(machine, now, u)) <==> AtMostDue(machine, now, 500))
              && forall s | s in plan.skip ::
                  s.reason == if machine.state.Paused? then MachinePaused else MachineStopped
    ensures machine.state.Draft? || machine.state.Ready? ==> plan.skip == []
  {
    if machine.state.Paused? || machine.state.Stopped? {
      EverythingIsReportedExactlyUpToTheLimit(machine, now, due, plan);
    }
  }

  lemma MultipleOfAMinute(moment: int, minutes: int)
    requires moment == minutes * 60_000
    ensures moment % 60_000 == 0 && moment / 60_000 * 60_000 == moment
  {
  }

  lemma SlotOnTheMinute(schedule: Schedule, d: int)
    requires schedule.zone.Some? && forall w :: schedule.zone.value(w) % 60 == 0
    ensures SlotMoment(schedule, d) % 60_000 == 0
  {
    MultipleOfAMinute(Wanted(schedule, d), d * 1440 + schedule.hour * 60 + schedule.minute);
    MomentKeepsToTheMinute(schedule.zone.value, Wanted(schedule, d));
  }

  lemma OccursOnTheMinute(schedule: Schedule, u: int)
    requires schedule.zone.Some? && forall w :: schedule.zone.value(w) % 60 == 0
    requires Occurs(schedule, u)
    ensures u % 60_000 == 0
  {
    var d :| IsSlot(schedule, d, u);
    SlotOnTheMinute(schedule, d);
  }

  /** Where offsets are whole minutes, two occurrences of a schedule share a key only if they are the same moment. */
  lemma KeyNamesOneOccurrence(machine: Machine, now: int, later: int, u: int, v: int)
    requires machine.schedule.zone.Some? && forall w :: machine.schedule.zone.value(w) % 60 == 0
    requires Occurs(machine.schedule, u) && Occurs(machine.schedule, v)
    ensures Entry(machine, now, u).occurrenceKey == Entry(machine, later, v).occurrenceKey <==> u == v
  {
    OccursOnTheMinute(machine.schedule, u);
    OccursOnTheMinute(machine.schedule, v);
  }

  // ----- one check after another -----

  lemma SameLast(a: seq<int>, b: seq<int>, restOfA: seq<int>, restOfB: seq<int>)
    requires a != [] && b != [] && Increasing(a) && Increasing(b)
    requires restOfA == a[..|a| - 1] && restOfB == b[..|b| - 1]
    requires forall u :: u in a <==> u in b
    ensures a[|a| - 1] == b[|b| - 1]
    ensures forall u :: u in restOfA <==> u in restOfB
  {
    LatestIsLargest(a);
    LatestIsLargest(b);
    assert a[|a| - 1] in a && b[|b| - 1] in b;
    assert a[|a| - 1] in b && b[|b| - 1] in a;
    forall u
      ensures u in restOfA <==> u in restOfB
    {
      BelowTheLast(a, u);
      BelowTheLast(b, u);
    }
  }

  lemma {:induction false} SameMembersSameList(a: seq<int>, b: seq<int>)
    requires Increasing(a) && Increasing(b)
    requires forall u :: u in a <==> u in b
    ensures a == b
  {
    assert a != [] ==> a[0] in a && a[0] in b;
    assert b != [] ==> b[0] in b && b[0] in a;
    if a == [] {
    } else {
      var restOfA, restOfB := a[..|a| - 1], b[..|b| - 1];
      SameLast(a, b, restOfA, restOfB);
      assert a == restOfA + [a[|a| - 1]] && b == restOfB + [b[|b| - 1]];
      SameMembersSameList(restOfA, restOfB);
    }
  }

  lemma {:induction false} FirstOfThem(some: seq<int>, all: seq<int>)
    requires Increasing(some) && Increasing(all)
    requires forall u | u in some :: u in all
    requires forall u | u in all && u !in some :: forall v | v in some :: v < u
    ensures some <= all
  {
    assert some != [] ==> some[0] in some && some[0] in all;
    if all == [] {
    } else {
      var n := |all| - 1;
      assert all[n] in all;
      LatestIsLargest(all);
      if all[n] in some {
        SameMembersSameList(some, all);
      } else {
        forall u | u in some
          ensures u in all[..n]
        {
          BelowTheLast(all, u);
        }
        FirstOfThem(some, all[..n]);
      }
    }
  }

  lemma WindowsInOrder(schedule: Schedule, a: int, b: int, c: int, early: seq<int>, late: seq<int>)
    requires schedule.zone.Some? && Selects(schedule, a, b, 500, early) && Selects(schedule, b, c, 500, late)
    ensures Increasing(early + late)
  {
    var both := early + late;
    forall i, j | 0 <= i < j < |both|
      ensures both[i] < both[j]
    {
      if i < |early| <= j {
        assert both[i] in early && both[j] in late;
      }
    }
  }

  /**
   * Checking up to b and then from b up to c, each short of its limit, finds what one check up to c would have
   * found: none lost, none doubled, and more than one check could read where it would have stopped at its limit.
   */
  lemma ChecksJoin(schedule: Schedule, a: int, b: int, c: int, early: seq<int>, late: seq<int>, whole: seq<int>)
    requires schedule.zone.Some? && a <= b <= c
    requires Collects(schedule, a, b, 500, early) && |early| < 500
    requires Collects(schedule, b, c, 500, late) && |late| < 500
    requires Collects(schedule, a, c, 500, whole)
    ensures whole <= early + late
    ensures |whole| < 500 ==> whole == early + late
  {
    var both := early + late;
    WindowsInOrder(schedule, a, b, c, early, late);
    assert forall u :: u in both <==> a < u <= c && Occurs(schedule, u);
    if |whole| < 500 {
      SameMembersSameList(both, whole);
    } else {
      LatestIsLargest(whole);
      FirstOfThem(whole, both);
    }
  }

  lemma ReportsOfAState(machine: Machine, now: int, due: seq<int>)
    ensures var plan := PlanFor(machine, now, due);
            SkippedAt(plan) + QueuedAt(plan) == if machine.state.Draft? || machine.state.Ready? then [] else due
  {
    if !(machine.state.Draft? || machine.state.Ready?) {
      PlanIsWhatCameDue(machine, now, due);
    }
  }

  /** So a machine checked at b and again at c reports what it would have reported, checked at c alone. */
  lemma TwoChecksReportAsOne(
      machine: Machine, b: int, c: int, early: seq<int>, late: seq<int>, whole: seq<int>, p: Plan, q: Plan, r: Plan)
    requires machine.schedule.zone.Some? && machine.lastCheckedAt <= b <= c
    requires PlannedFrom(machine, b, early, p) && |early| < 500
    requires PlannedFrom(machine.(lastCheckedAt := b), c, late, q) && |late| < 500
    requires PlannedFrom(machine, c, whole, r)
    ensures SkippedAt(r) + QueuedAt(r) <= (SkippedAt(p) + QueuedAt(p)) + (SkippedAt(q) + QueuedAt(q))
    ensures |whole| < 500 ==>
              SkippedAt(r) + QueuedAt(r) == (SkippedAt(p) + QueuedAt(p)) + (SkippedAt(q) + QueuedAt(q))
  {
    ChecksJoin(machine.schedule, machine.lastCheckedAt, b, c, early, late, whole);
    ReportsOfAState(machine, b, early);
    ReportsOfAState(machine.(lastCheckedAt := b), c, late);
    ReportsOfAState(machine, c, whole);
  }

  /** Two checks together report everything exactly when neither window holds more than 500 occurrences. */
  lemma TwoChecksReportEverythingExactlyWhen(
      machine: Machine, b: int, c: int, early: seq<int>, late: seq<int>, p: Plan, q: Plan)
    requires machine.schedule.zone.Some? && machine.lastCheckedAt <= b <= c
    requires machine.state.Running? || machine.state.Paused? || machine.state.Stopped?
    requires PlannedFrom(machine, b, early, p) && PlannedFrom(machine.(lastCheckedAt := b), c, late, q)
    ensures (forall u :: Reports(p, u) || Reports(q, u) <==> Due(machine, c, u))
       <==> AtMostDue(machine, b, 500) && AtMostDue(machine.(lastCheckedAt := b), c, 500)
  {
    var second := machine.(lastCheckedAt := b);
    EverythingIsReportedExactlyUpToTheLimit(machine, b, early, p);
    EverythingIsReportedExactlyUpToTheLimit(second, c, late, q);
    TheFirstAreReported(machine, b, early, p);
    TheFirstAreReported(second, c, late, q);
    assert forall u :: Due(machine, c, u) <==> Due(machine, b, u) || Due(second, c, u);
    assert forall u :: !(Due(machine, b, u) && Due(second, c, u));
  }

  // ----- many machines -----

  function Joined(plans: seq<Plan>): Plan {
    if plans == [] then Plan([], [])
    else
      var before, last := Joined(plans[..|plans| - 1]), plans[|plans| - 1];
      Plan(before.queue + last.queue, before.skip + last.skip)
  }

  /** The plans of the first machines, each as planned from what came due for it. */
  ghost predicate EachPlanned(machines: seq<Machine>, now: int, due: seq<seq<int>>, each: seq<Plan>) {
    && |each| == |due| <= |machines|
    && forall i | 0 <= i < |each| :: Acceptable(machines[i].schedule) && Planned(machines[i], now, due[i], each[i])
  }

  lemma JoinedOneMore(each: seq<Plan>, plan: Plan)
    ensures Joined(each + [plan]) == Plan(Joined(each).queue + plan.queue, Joined(each).skip + plan.skip)
  {
    assert (each + [plan])[..|each|] == each;
  }

  lemma OneMorePlanned(
      machines: seq<Machine>, now: int, due: seq<seq<int>>, each: seq<Plan>, came: seq<int>, plan: Plan)
    requires EachPlanned(machines, now, due, each) && |each| < |machines|
    requires Acceptable(machines[|each|].schedule) && Planned(machines[|each|], now, came, plan)
    ensures EachPlanned(machines, now, due + [came], each + [plan])
  {
    var moreDue, more := due + [came], each + [plan];
    forall i | 0 <= i < |more|
      ensures Acceptable(machines[i].schedule) && Planned(machines[i], now, moreDue[i], more[i])
    {
      assert i < |each| ==> moreDue[i] == due[i] && more[i] == each[i];
      assert i == |each| ==> moreDue[i] == came && more[i] == plan;
    }
  }

  /** Each machine's own plan, one after another; one schedule that is refused refuses them all. */
  method PlanRuns(machines: seq<Machine>, now: int)
    returns (r: Result<Plan>, ghost each: seq<Plan>, ghost due: seq<seq<int>>)
    requires forall m: Machine | m in machines && m.schedule.zone.Some? :: Earthly(m.schedule.zone.value)
    ensures r.Success? <==> forall m: Machine | m in machines :: Acceptable(m.schedule)
    ensures r.Failure? ==> r.problem == InvalidInput
    ensures r.Success? ==> EachPlanned(machines, now, due, each) && |each| == |machines| && r.value == Joined(each)
  {
    var plan := Plan([], []);
    each, due := [], [];
    for i := 0 to |machines|
      invariant EachPlanned(machines, now, due, each) && |each| == i
      invariant plan == Joined(each)
    {
      var one;
      ghost var came;
      assert machines[i] in machines;
      one, came := PlanMachine(machines[i], now);
      if one.Failure? {
        return Failure(one.problem), each, due;
      }
      OneMorePlanned(machines, now, due, each, came, one.value);
      JoinedOneMore(each, one.value);
      plan := Plan(plan.queue + one.value.queue, plan.skip + one.value.skip);
      each, due := each + [one.value], due + [came];
    }
    return Success(plan), each, due;
  }
}
