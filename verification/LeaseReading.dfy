/**
 * The record as it is read back: events that have committed, by the moment their transactions began
 * (packages/db/src/read-events.ts). Epochs are read in order. A run's final report is not always read last.
 */
module LeaseReading {
  import opened Results
  import opened RunQueue
  import opened Stamps
  import opened LeaseProtocol

  function Read(s: State): seq<Stamped<Stored>> {
    ReadBack(s.inserts, s.committed)
  }

  // ----- epochs -----

  /** An epoch is used only by transactions that begin after it was granted, as a node cannot know it before. */
  ghost predicate UsedAfterGrant(s: State) {
    forall i, k :: 0 <= i < |s.inserts| && 0 <= k < |s.grants| && FencedFor(s.inserts[i].event, s.grants[k].run)
                   && s.inserts[i].event.leaseEpoch == s.grants[k].epoch ==>
      s.grants[k].at < s.inserts[i].at
  }

  lemma LaterEpochIsStampedLater(s: State, i: nat, j: nat, run: RunId)
    requires Inv(s) && UsedAfterGrant(s) && i < |s.inserts| && j < |s.inserts|
    requires FencedFor(s.inserts[i].event, run) && FencedFor(s.inserts[j].event, run)
    requires s.inserts[i].event.leaseEpoch < s.inserts[j].event.leaseEpoch
    ensures s.inserts[i].at < s.inserts[j].at
  {
    assert Reached(s.runs, s.inserts[j].event);
    assert WasGranted(s.grants, run, s.inserts[j].event.leaseEpoch);
    var k :| 0 <= k < |s.grants| && s.grants[k].run == run && s.grants[k].epoch == s.inserts[j].event.leaseEpoch;
    assert s.inserts[i].at <= s.grants[k].at;
  }

  /**
   * However late the transactions commit, a run's fenced events are read in the order of their epochs: what a node
   * wrote under a lease it lost is read before all that was written under the next.
   */
  lemma EpochsAreReadInOrder(actions: seq<Action>, a: nat, b: nat, run: RunId)
    requires UsedAfterGrant(After(EMPTY, actions))
    requires a < b < |Read(After(EMPTY, actions))|
    requires FencedFor(Read(After(EMPTY, actions))[a].event, run)
        && FencedFor(Read(After(EMPTY, actions))[b].event, run)
    ensures Read(After(EMPTY, actions))[a].event.leaseEpoch <= Read(After(EMPTY, actions))[b].event.leaseEpoch
  {
    var s := After(EMPTY, actions);
    EveryInterleaving(actions);
    var i, j := ReadInOrder(s.inserts, s.committed, a, b);
    if s.inserts[j].event.leaseEpoch < s.inserts[i].event.leaseEpoch {
      LaterEpochIsStampedLater(s, j, i, run);
    }
  }

  // ----- the final report -----

  /** No fenced event of the run is read after its final report. */
  ghost predicate FinalReadLast(record: seq<Stamped<Stored>>, run: RunId) {
    forall a, b :: 0 <= a < b < |record| && FencedFor(record[a].event, run) && IsFinal(record[a].event) ==>
      !FencedFor(record[b].event, run)
  }

  /** The i-th insert is the run's final report, in the record. */
  predicate IsFinalReport(s: State, i: nat, run: RunId) {
    i in s.committed && i < |s.inserts| && FencedFor(s.inserts[i].event, run) && IsFinal(s.inserts[i].event)
  }

  /** A fenced event of the run in the record, stamped after the i-th, or in the same moment and inserted later. */
  predicate Overtakes(s: State, i: nat, j: nat, run: RunId)
    requires i < |s.inserts|
  {
    j in s.committed && j < |s.inserts| && FencedFor(s.inserts[j].event, run) && ReadsBefore(s.inserts, i, j)
  }

  lemma OvertakenIsNotLast(s: State, i: nat, j: nat, run: RunId)
    requires IsFinalReport(s, i, run) && Overtakes(s, i, j, run)
    ensures !FinalReadLast(Read(s), run)
  {
    IsReadAtItsPlace(s.inserts, s.committed, i);
    IsReadAtItsPlace(s.inserts, s.committed, j);
    PlacesAreInOrder(s.inserts, s.committed, i, j);
  }

  lemma ReadLastExactlyWhen(s: State, i: nat, run: RunId)
    requires Inv(s) && IsFinalReport(s, i, run)
    ensures FinalReadLast(Read(s), run) <==> forall j: nat :: !Overtakes(s, i, j, run)
  {
    var record := Read(s);
    if j: nat :| Overtakes(s, i, j, run) {
      OvertakenIsNotLast(s, i, j, run);
    } else {
      forall a, b | 0 <= a < b < |record| && FencedFor(record[a].event, run) && IsFinal(record[a].event)
        ensures !FencedFor(record[b].event, run)
      {
        var i', j := ReadInOrder(s.inserts, s.committed, a, b);
        assert i' == i;
        assert !Overtakes(s, i, j, run);
      }
    }
  }

  /**
   * In every run of the protocol: as the record is read back, a run's final report is its last fenced event exactly
   * when no fenced event of the run is stamped after the report's transaction began.
   */
  lemma FinalIsReadLastExactlyWhen(actions: seq<Action>, i: nat, run: RunId)
    requires IsFinalReport(After(EMPTY, actions), i, run)
    ensures var s := After(EMPTY, actions);
            FinalReadLast(Read(s), run) <==> forall j: nat :: !Overtakes(s, i, j, run)
  {
    EveryInterleaving(actions);
    ReadLastExactlyWhen(After(EMPTY, actions), i, run);
  }

  // ----- for good -----

  /** An insert that is in the record or can still come into it, once its run is closed. */
  predicate MayBeRead(s: State, j: nat)
    requires j < |s.inserts|
  {
    j in s.committed || !s.inserts[j].event.kind.Reported?
  }

  ghost predicate MayOvertake(s: State, i: nat, j: nat, run: RunId)
    requires i < |s.inserts|
  {
    j < |s.inserts| && MayBeRead(s, j) && FencedFor(s.inserts[j].event, run) && ReadsBefore(s.inserts, i, j)
  }

  /** What a step can add to the record of a closed run. */
  lemma ClosedRunsGainAppends(s: State, a: Action, run: RunId)
    requires Inv(s) && run in s.runs && s.runs[run].state == Closed
    ensures s.committed <= Next(s, a).committed
    ensures forall j ::
        j in Next(s, a).committed && j !in s.committed && FencedFor(Next(s, a).inserts[j].event, run) ==>
              !Next(s, a).inserts[j].event.kind.Reported?
  {
    if Succeeds(s, a) && a.CommitReport? {
      assert ReportsUnder(s.runs, s.inserts, s.committed, s.clock, a.run, s.reporting[a.run]);
    }
  }

  /** Between the two states the run gained nothing but the commits of appends it had already inserted. */
  ghost predicate OnlyAppends(s: State, s': State, run: RunId) {
    && s.inserts <= s'.inserts && s.committed <= s'.committed
    && NoneInserted(s'.inserts, |s.inserts|, run)
    && forall j: nat | j < |s.inserts| && j in s'.committed && FencedFor(s.inserts[j].event, run) :: MayBeRead(s, j)
  }

  lemma OnlyAppendsNext(s: State, before: State, a: Action, run: RunId)
    requires Inv(before) && run in before.runs && before.runs[run].state == Closed && OnlyAppends(s, before, run)
    requires before.inserts <= Next(before, a).inserts && NoneInserted(Next(before, a).inserts, |before.inserts|, run)
    ensures OnlyAppends(s, Next(before, a), run)
  {
    var s' := Next(before, a);
    ClosedRunsGainAppends(before, a, run);
    forall j: nat | j < |s.inserts| && j in s'.committed && FencedFor(s.inserts[j].event, run)
      ensures MayBeRead(s, j)
    {
      assert s'.inserts[j] == before.inserts[j] == s.inserts[j];
    }
    forall j | |s.inserts| <= j < |s'.inserts|
      ensures !FencedFor(s'.inserts[j].event, run)
    {
      assert j < |before.inserts| ==> s'.inserts[j] == before.inserts[j];
    }
  }

  lemma {:induction false} OnlyAppendsFollow(s: State, later: seq<Action>, run: RunId)
    requires Inv(s) && run in s.runs && s.runs[run].state == Closed
    ensures OnlyAppends(s, After(s, later), run)
  {
    if later != [] {
      var n := |later| - 1;
      OnlyAppendsFollow(s, later[..n], run);
      ClosedStays(s, later[..n], run);
      ClosedStep(After(s, later[..n]), later[n], run);
      OnlyAppendsNext(s, After(s, later[..n]), later[n], run);
    }
  }

  /**
   * From the moment a final report is in the record: it is read last in every continuation exactly when none of the
   * run's fenced events already inserted, committed or not, is stamped after the report's transaction began.
   */
  lemma ReadLastForGoodExactlyWhen(before: seq<Action>, i: nat, run: RunId)
    requires IsFinalReport(After(EMPTY, before), i, run)
    ensures var s := After(EMPTY, before);
            (forall later :: FinalReadLast(Read(After(s, later)), run)) <==> forall j: nat :: !MayOvertake(s, i, j, run)
  {
    var s := After(EMPTY, before);
    EveryInterleaving(before);
    if j: nat :| MayOvertake(s, i, j, run) {
      CommitsAndOvertakes(s, i, j, run);
    } else {
      forall later
        ensures FinalReadLast(Read(After(s, later)), run)
      {
        NothingOvertakes(s, later, i, run);
      }
    }
  }

  lemma CommitsAndOvertakes(s: State, i: nat, j: nat, run: RunId)
    requires IsFinalReport(s, i, run) && MayOvertake(s, i, j, run)
    ensures exists later :: !FinalReadLast(Read(After(s, later)), run)
  {
    var later := if j in s.committed then [] else [CommitAppend(j)];
    if j !in s.committed {
      AfterPush(s, [], CommitAppend(j));
      assert [] + [CommitAppend(j)] == later;
    }
    OvertakenIsNotLast(After(s, later), i, j, run);
  }

  lemma NothingOvertakes(s: State, later: seq<Action>, i: nat, run: RunId)
    requires Inv(s) && IsFinalReport(s, i, run)
    requires forall j: nat :: !MayOvertake(s, i, j, run)
    ensures FinalReadLast(Read(After(s, later)), run)
  {
    OnlyAppendsFollow(s, later, run);
    ClosedStays(s, later, run);
    forall j: nat
      ensures !Overtakes(After(s, later), i, j, run)
    {
      assert !MayOvertake(s, i, j, run);
    }
    ReadLastExactlyWhen(After(s, later), i, run);
  }

  // ----- a report that nothing interrupts -----

  function Uninterrupted(lease: Lease, report: Report, now: int, begunAt: int): seq<Action> {
    [TakeRow(lease, report, now, begunAt), InsertReport(lease.runId), CommitReport(lease.runId)]
  }

  lemma AfterUninterrupted(s: State, lease: Lease, report: Report, now: int, begunAt: int)
    requires Succeeds(s, TakeRow(lease, report, now, begunAt)) && report.Final()
    requires Fence(s.runs, s.runs[lease.runId].machineId, lease.runId, lease.leaseEpoch, begunAt)
    ensures var s' := After(s, Uninterrupted(lease, report, now, begunAt));
            && s'.inserts == s.inserts + [ReportOf(s.runs, lease.runId, Reporting(lease, report, begunAt, None))]
            && s'.committed == s.committed + {|s.inserts|}
  {
    var a := Uninterrupted(lease, report, now, begunAt);
    AfterPush(s, [], a[0]);
    AfterPush(s, a[..1], a[1]);
    AfterPush(s, a[..2], a[2]);
    assert a[..1] == [] + [a[0]] && a[..2] == a[..1] + [a[1]] && a == a[..2] + [a[2]];
  }

  /**
   * A final report between whose statements nothing comes is read last exactly when none of the run's fenced events
   * in the record is stamped after its transaction began: it need only have begun before one of them.
   */
  lemma UninterruptedIsReadLastExactlyWhen(actions: seq<Action>, lease: Lease, report: Report, now: int, begunAt: int)
    requires var s := After(EMPTY, actions);
             && Succeeds(s, TakeRow(lease, report, now, begunAt)) && report.Final()
             && Fence(s.runs, s.runs[lease.runId].machineId, lease.runId, lease.leaseEpoch, begunAt)
    ensures var s := After(EMPTY, actions);
            var s' := After(s, Uninterrupted(lease, report, now, begunAt));
            && IsFinalReport(s', |s.inserts|, lease.runId)
            && (FinalReadLast(Read(s'), lease.runId) <==>
                forall j :: 0 <= j < |s.inserts| && j in s.committed && FencedFor(s.inserts[j].event, lease.runId) ==>
                  s.inserts[j].at <= begunAt)
  {
    var s, rest := After(EMPTY, actions), Uninterrupted(lease, report, now, begunAt);
    AfterUninterrupted(s, lease, report, now, begunAt);
    AfterAppend(EMPTY, actions, rest);
    EveryInterleaving(actions);
    FinalIsReadLastExactlyWhen(actions + rest, |s.inserts|, lease.runId);
    var s' := After(s, rest);
    forall j: nat
      ensures Overtakes(s', |s.inserts|, j, lease.runId)
         <==> && j < |s.inserts| && j in s.committed && FencedFor(s.inserts[j].event, lease.runId)
              && s.inserts[j].at > begunAt
    {
      assert j < |s.inserts| ==> s'.inserts[j] == s.inserts[j];
    }
  }

  // ----- the runs in which it is not -----

  /** From the report's insert to its commit: time passes, an append begins, and both commit. */
  function Overtaking(s: State, run: RunId, name: string, stamp: int): seq<Action>
    requires run in s.runs && s.clock <= stamp
  {
    [Tick(stamp - s.clock), Append(s.runs[run].machineId, name, run, s.runs[run].leaseEpoch, stamp),
     CommitAppend(|s.inserts|), CommitReport(run)]
  }

  lemma AfterFour(s: State, a: seq<Action>)
    requires |a| == 4
    ensures After(s, a) == Next(Next(Next(Next(s, a[0]), a[1]), a[2]), a[3])
  {
    AfterPush(s, [], a[0]);
    AfterPush(s, a[..1], a[1]);
    AfterPush(s, a[..2], a[2]);
    AfterPush(s, a[..3], a[3]);
    assert a[..1] == [] + [a[0]] && a[..2] == a[..1] + [a[1]] && a[..3] == a[..2] + [a[2]] && a == a[..3] + [a[3]];
  }

  /**
   * Wherever a final report has been inserted and not committed, an append of its run that begins now passes the
   * fence, as long as the lease lasts, and is read after the report.
   */
  lemma AnyOpenReportCanBeOvertaken(actions: seq<Action>, run: RunId, name: string, stamp: int)
    requires var s := After(EMPTY, actions);
             && run in s.runs && run in s.reporting && s.reporting[run].place.Some? && s.reporting[run].report.Final()
             && s.clock <= stamp && s.reporting[run].begunAt <= stamp
             && s.runs[run].leaseExpiresAt.Some? && stamp < s.runs[run].leaseExpiresAt.value
    ensures var s := After(EMPTY, actions);
            var s' := After(s, Overtaking(s, run, name, stamp));
            && IsFinalReport(s', s.reporting[run].place.value, run)
            && Overtakes(s', s.reporting[run].place.value, |s.inserts|, run)
            && !FinalReadLast(Read(s'), run)
  {
    var s := After(EMPTY, actions);
    EveryInterleaving(actions);
    AfterFour(s, Overtaking(s, run, name, stamp));
    var place := s.reporting[run].place.value;
    assert ReportsUnder(s.runs, s.inserts, s.committed, s.clock, run, s.reporting[run]);
    OvertakenIsNotLast(After(s, Overtaking(s, run, name, stamp)), place, |s.inserts|, run);
  }

  const LEASE := Lease("r", "n", 1)

  /** A run is queued and claimed, and its node has written its final report but not yet committed it. */
  const REPORTING: seq<Action> := [
    Queue("r", "m", "k", 0), Claim("r", "n", 0, 100), Tick(10), TakeRow(LEASE, RunFinished, 10, 10), InsertReport("r")]

  const LEASED := Run("m", "k", 0, Leased, Some("n"), Some(100), 1)

  lemma ReportIsOpen()
    ensures var s := After(EMPTY, REPORTING);
            && s.runs == map["r" := LEASED] && s.clock == 10 && |s.inserts| == 1
            && s.reporting == map["r" := Reporting(LEASE, RunFinished, 10, Some(0))]
  {
    assert "k"[0] == 'k';
    var queued := Next(EMPTY, Queue("r", "m", "k", 0));
    assert queued.runs == map["r" := Run("m", "k", 0, Queued, None, None, 0)];
    var claimed := Next(queued, Claim("r", "n", 0, 100));
    assert claimed.runs == map["r" := LEASED];
    var taken := Next(claimed.(clock := 10), TakeRow(LEASE, RunFinished, 10, 10));
    assert taken.reporting == map["r" := Reporting(LEASE, RunFinished, 10, None)];
    AfterFour(EMPTY, REPORTING[..4]);
    AfterPush(EMPTY, REPORTING[..4], InsertReport("r"));
    assert REPORTING == REPORTING[..4] + [InsertReport("r")];
  }

  /** A refusal written while the final report commits is read after it, though the run is closed behind the report. */
  lemma AnAppendIsReadAfterTheFinalReport()
    ensures var open := After(EMPTY, REPORTING);
            && "r" in open.runs && open.clock <= 11
            && var s := After(open, Overtaking(open, "r", "trade.refused", 11));
               && IsFinalReport(s, 0, "r") && "r" in s.runs && s.runs["r"].state == Closed
               && !FinalReadLast(Read(s), "r")
  {
    ReportIsOpen();
    EveryInterleaving(REPORTING);
    AnyOpenReportCanBeOvertaken(REPORTING, "r", "trade.refused", 11);
    var s := After(After(EMPTY, REPORTING), Overtaking(After(EMPTY, REPORTING), "r", "trade.refused", 11));
    EveryInterleaving(REPORTING + Overtaking(After(EMPTY, REPORTING), "r", "trade.refused", 11));
    AfterAppend(EMPTY, REPORTING, Overtaking(After(EMPTY, REPORTING), "r", "trade.refused", 11));
  }

  /** A run is queued and claimed, and a refusal of a trade is in the record, stamped at 11. */
  const REFUSED: seq<Action> := [
    Queue("r", "m", "k", 0), Claim("r", "n", 0, 100), Tick(11), Append("m", "trade.refused", "r", 1, 11),
    CommitAppend(0)]

  lemma RefusalIsWritten()
    ensures var s := After(EMPTY, REFUSED);
            && s.runs == map["r" := LEASED] && s.clock == 11 && s.reporting == map[] && s.committed == {0}
            && s.inserts == [Entry(Stored("m", NodeEvent("trade.refused"), Some("r"), 1), 11)]
  {
    assert "k"[0] == 'k';
    var queued := Next(EMPTY, Queue("r", "m", "k", 0));
    assert queued.runs == map["r" := Run("m", "k", 0, Queued, None, None, 0)];
    var claimed := Next(queued, Claim("r", "n", 0, 100));
    assert claimed.runs == map["r" := LEASED];
    AfterFour(EMPTY, REFUSED[..4]);
    AfterPush(EMPTY, REFUSED[..4], CommitAppend(0));
    assert REFUSED == REFUSED[..4] + [CommitAppend(0)];
  }

  /**
   * A final report that begins at 10 and takes the row after that is read before the refusal, interrupted by nobody.
   */
  lemma AnEarlierAppendIsReadAfterTheFinalReport()
    ensures var s := After(After(EMPTY, REFUSED), Uninterrupted(LEASE, RunFinished, 10, 10));
            IsFinalReport(s, 1, "r") && !FinalReadLast(Read(s), "r")
  {
    RefusalIsWritten();
    UninterruptedIsReadLastExactlyWhen(REFUSED, LEASE, RunFinished, 10, 10);
    assert FencedFor(After(EMPTY, REFUSED).inserts[0].event, "r");
  }
}
