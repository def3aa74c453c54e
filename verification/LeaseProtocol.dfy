/**
 * What every interleaving of the queue's statements keeps, whatever the clocks of the nodes say. A report is three
 * statements of one transaction that has its run's row locked: claims, renewals, finishing and other reports of the
 * run stay out, and appends, which only read the row, do not.
 */
module LeaseProtocol {
  import opened Results
  import opened RunQueue
  import opened Stamps

  /** One granted lease, and the database's moment of it. */
  datatype Grant = Grant(run: RunId, epoch: nat, node: NodeId, at: int)

  /** The two tables with the transactions on them, the database's clock, and the history of what claims returned. */
  datatype State = State(
    runs: Runs,
    inserts: Inserts,
    committed: set<nat>,
    reporting: map<RunId, Reporting>,
    clock: int,
    grants: seq<Grant>)

  /** One statement each, with the clock readings it used; `begunAt` is the moment its transaction began. */
  datatype Action =
    | Tick(passed: nat)
    | Queue(id: RunId, machineId: MachineId, occurrenceKey: string, dueAt: int)
    | Claim(run: RunId, node: NodeId, now: int, until: int)
    | Renew(lease: Lease, until: int)
    | Finish(lease: Lease)
    | Append(machineId: MachineId, name: string, run: RunId, epoch: nat, begunAt: int)
    | Unfenced(machineId: MachineId, kind: Kind, begunAt: int)
    | CommitAppend(place: nat)
    | TakeRow(lease: Lease, report: Report, now: int, begunAt: int)
    | InsertReport(run: RunId)
    | CommitReport(run: RunId)
    | RollBack(run: RunId)

  const EMPTY := State(map[], [], {}, map[], 0, [])

  predicate Succeeds(s: State, a: Action) {
    match a
    case Tick(_) => true
    case Queue(id, machineId, key, _) =>
      id !in s.runs && !Blank(key) && forall q :: q in s.runs ==> !SameOccurrence(s.runs[q], machineId, key)
    case Claim(run, _, now, _) => run in s.runs && run !in s.reporting && Claimable(s.runs[run], now)
    case Renew(lease, _) => lease.runId !in s.reporting && Renewable(s.runs, lease)
    case Finish(lease) => lease.runId !in s.reporting && HeldBy(s.runs, lease)
    case Append(machineId, _, run, epoch, begunAt) =>
      begunAt <= s.clock && Fence(s.runs, machineId, run, epoch, begunAt)
    case Unfenced(_, kind, begunAt) => begunAt <= s.clock && (kind.OwnerEvent? || kind.ChainOutcome?)
    case CommitAppend(place) => place < |s.inserts| && !s.inserts[place].event.kind.Reported?
    case TakeRow(lease, _, now, begunAt) =>
      begunAt <= s.clock && lease.runId !in s.reporting && HeldNow(s.runs, lease, now)
    case InsertReport(run) =>
      && run in s.runs && run in s.reporting && s.reporting[run].place.None?
      && Fence(s.runs, s.runs[run].machineId, run, s.reporting[run].lease.leaseEpoch, s.reporting[run].begunAt)
    case CommitReport(run) => run in s.runs && run in s.reporting && s.reporting[run].place.Some?
    case RollBack(run) => run in s.reporting
  }

  function Done(s: State, a: Action): State
    requires Succeeds(s, a)
  {
    match a
    case Tick(passed) => s.(clock := s.clock + passed)
    case Queue(id, machineId, key, dueAt) =>
      s.(runs := s.runs[id := Run(machineId, key, dueAt, Queued, None, None, 0)])
    case Claim(run, node, _, until) =>
      s.(runs := s.runs[run := ClaimedBy(s.runs[run], node, until)],
         grants := s.grants + [Grant(run, s.runs[run].leaseEpoch + 1, node, s.clock)])
    case Renew(lease, until) =>
      s.(runs := s.runs[lease.runId := s.runs[lease.runId].(leaseExpiresAt := Some(until))])
    case Finish(lease) => s.(runs := s.runs[lease.runId := ClosedRun(s.runs[lease.runId])])
    case Append(machineId, name, run, epoch, begunAt) =>
      s.(inserts := s.inserts + [Entry(Stored(machineId, NodeEvent(name), Some(run), epoch), begunAt)])
    case Unfenced(machineId, kind, begunAt) =>
      var newest := NewestEpoch(s.inserts, s.committed, machineId);
      s.(inserts := s.inserts + [Entry(Stored(machineId, kind, None, newest), begunAt)])
    case CommitAppend(place) => s.(committed := s.committed + {place})
    case TakeRow(lease, report, _, begunAt) =>
      s.(reporting := s.reporting[lease.runId := Reporting(lease, report, begunAt, None)])
    case InsertReport(run) =>
      s.(inserts := s.inserts + [ReportOf(s.runs, run, s.reporting[run])],
         reporting := s.reporting[run := s.reporting[run].(place := Some(|s.inserts|))])
    case CommitReport(run) =>
      s.(committed := s.committed + {s.reporting[run].place.value},
         runs := if s.reporting[run].report.Final() then s.runs[run := ClosedRun(s.runs[run])] else s.runs,
         reporting := s.reporting - {run})
    case RollBack(run) => s.(reporting := s.reporting - {run})
  }

  /** A statement that does not succeed changes nothing. */
  function Next(s: State, a: Action): State {
    if Succeeds(s, a) then Done(s, a) else s
  }

  function After(s: State, actions: seq<Action>): State {
    if actions == [] then s
    else Next(After(s, actions[..|actions| - 1]), actions[|actions| - 1])
  }

  lemma AfterPush(s: State, actions: seq<Action>, a: Action)
    ensures After(s, actions + [a]) == Next(After(s, actions), a)
  {
    assert (actions + [a])[..|actions|] == actions;
  }

  lemma {:induction false} AfterAppend(s: State, first: seq<Action>, rest: seq<Action>)
    ensures After(s, first + rest) == After(After(s, first), rest)
  {
    if rest == [] {
      assert first + rest == first;
    } else {
      var n := |rest| - 1;
      AfterAppend(s, first, rest[..n]);
      assert (first + rest)[..|first| + n] == first + rest[..n];
    }
  }

  // ----- the invariant -----

  /** The table's own constraint: a lease is all or nothing, and only a leased run has one. */
  predicate RowComplete(run: Run) {
    match run.state
    case Queued => run.leasedBy.None? && run.leaseExpiresAt.None? && run.leaseEpoch == 0
    case Leased => run.leasedBy.Some? && run.leaseExpiresAt.Some? && run.leaseEpoch > 0
    case Closed => run.leasedBy.None? && run.leaseExpiresAt.None? && run.leaseEpoch > 0
  }

  ghost predicate RowsComplete(runs: Runs) {
    forall q :: q in runs ==> RowComplete(runs[q])
  }

  ghost predicate OneRunPerOccurrence(runs: Runs) {
    forall p, q :: p in runs && q in runs && p != q ==>
      !SameOccurrence(runs[q], runs[p].machineId, runs[p].occurrenceKey)
  }

  predicate WasGranted(grants: seq<Grant>, run: RunId, epoch: nat) {
    exists i :: 0 <= i < |grants| && grants[i].run == run && grants[i].epoch == epoch
  }

  /** Every epoch a run has reached was granted once, to one node, and grants come in epoch order. */
  ghost predicate GrantsRecorded(runs: Runs, grants: seq<Grant>) {
    && (forall i :: 0 <= i < |grants| ==>
          grants[i].run in runs && 0 < grants[i].epoch <= runs[grants[i].run].leaseEpoch)
    && (forall i, j :: 0 <= i < j < |grants| && grants[i].run == grants[j].run ==> grants[i].epoch < grants[j].epoch)
    && (forall q, e: nat :: q in runs && 0 < e <= runs[q].leaseEpoch ==> WasGranted(grants, q, e))
  }

  /** The node on the row is the node its current epoch was granted to. */
  ghost predicate HolderWasGranted(runs: Runs, grants: seq<Grant>) {
    forall q, i :: q in runs && runs[q].leasedBy.Some? && 0 <= i < |grants|
                   && grants[i].run == q && grants[i].epoch == runs[q].leaseEpoch ==>
      grants[i].node == runs[q].leasedBy.value
  }

  predicate FencedFor(event: Stored, run: RunId) {
    event.run == Some(run)
  }

  predicate IsFinal(event: Stored) {
    event.kind.Reported? && event.kind.report.Final()
  }

  /** A fenced event is one of its run's machine, under an epoch the run has reached. */
  predicate Reached(runs: Runs, event: Stored) {
    event.run.Some? ==>
      && event.run.value in runs
      && event.machineId == runs[event.run.value].machineId
      && 0 < event.leaseEpoch <= runs[event.run.value].leaseEpoch
  }

  ghost predicate AllReached(runs: Runs, inserts: Inserts) {
    forall i :: 0 <= i < |inserts| ==> Reached(runs, inserts[i].event)
  }

  /** Fenced events of one run are inserted in the order of their epochs. */
  ghost predicate EpochsInOrder(inserts: Inserts) {
    forall i, j ::
        0 <= i < j < |inserts| && inserts[i].event.run.Some? && inserts[i].event.run == inserts[j].event.run ==>
      inserts[i].event.leaseEpoch <= inserts[j].event.leaseEpoch
  }

  /** Nothing is stamped after now, nor after a later epoch of its run was granted. */
  ghost predicate StampsPast(inserts: Inserts, grants: seq<Grant>, clock: int) {
    && (forall i :: 0 <= i < |inserts| ==> inserts[i].at <= clock)
    && (forall k :: 0 <= k < |grants| ==> grants[k].at <= clock)
    && (forall i, k :: 0 <= i < |inserts| && 0 <= k < |grants| && FencedFor(inserts[i].event, grants[k].run)
                       && inserts[i].event.leaseEpoch < grants[k].epoch ==>
          inserts[i].at <= grants[k].at)
  }

  /** A report's transaction holds the lease it reports under for as long as it has the row locked. */
  predicate ReportsUnder(runs: Runs, inserts: Inserts, committed: set<nat>, clock: int, run: RunId, r: Reporting) {
    && r.lease.runId == run
    && Renewable(runs, r.lease)
    && r.begunAt <= clock
    && (r.place.Some? ==>
          && r.place.value < |inserts|
          && r.place.value !in committed
          && inserts[r.place.value] == ReportOf(runs, run, r))
  }

  ghost predicate ReportersHold(
      runs: Runs, inserts: Inserts, committed: set<nat>, clock: int, reporting: map<RunId, Reporting>)
  {
    forall q :: q in reporting ==> ReportsUnder(runs, inserts, committed, clock, q, reporting[q])
  }

  /** A run has at most one final report in the record, and is closed behind it. */
  ghost predicate FinalsClose(runs: Runs, inserts: Inserts, committed: set<nat>) {
    && (forall i :: i in committed ==> i < |inserts|)
    && (forall i :: i in committed && IsFinal(inserts[i].event) ==>
          && inserts[i].event.run.Some?
          && inserts[i].event.run.value in runs
          && runs[inserts[i].event.run.value].state == Closed)
    && (forall i, j :: i in committed && j in committed && i != j
                       && IsFinal(inserts[i].event) && IsFinal(inserts[j].event) ==>
          inserts[i].event.run != inserts[j].event.run)
  }

  ghost predicate Inv(s: State) {
    && RowsComplete(s.runs)
    && OneRunPerOccurrence(s.runs)
    && GrantsRecorded(s.runs, s.grants)
    && HolderWasGranted(s.runs, s.grants)
    && AllReached(s.runs, s.inserts)
    && EpochsInOrder(s.inserts)
    && StampsPast(s.inserts, s.grants, s.clock)
    && ReportersHold(s.runs, s.inserts, s.committed, s.clock, s.reporting)
    && FinalsClose(s.runs, s.inserts, s.committed)
  }

  // ----- claims -----

  /** The row of a claimed run. */
  ghost predicate Claims(runs: Runs, q: RunId, row: Run, node: NodeId) {
    && q in runs && runs[q].state != Closed
    && row.machineId == runs[q].machineId && row.occurrenceKey == runs[q].occurrenceKey
    && row.leaseEpoch == runs[q].leaseEpoch + 1 && row.leasedBy == Some(node)
    && row.state != Closed && RowComplete(row)
  }

  lemma ClaimRecordsItsGrant(runs: Runs, grants: seq<Grant>, run: RunId, row: Run, node: NodeId, at: int)
    requires GrantsRecorded(runs, grants) && Claims(runs, run, row, node)
    ensures GrantsRecorded(runs[run := row], grants + [Grant(run, row.leaseEpoch, node, at)])
  {
    var runs', grants' := runs[run := row], grants + [Grant(run, row.leaseEpoch, node, at)];
    forall q, e: nat | q in runs' && 0 < e <= runs'[q].leaseEpoch
      ensures WasGranted(grants', q, e)
    {
      if q == run && e == row.leaseEpoch {
        assert grants'[|grants|].run == q && grants'[|grants|].epoch == e;
      } else {
        assert WasGranted(grants, q, e);
        var i :| 0 <= i < |grants| && grants[i].run == q && grants[i].epoch == e;
        assert grants'[i] == grants[i];
      }
    }
  }

  lemma ClaimKeepsHolders(runs: Runs, grants: seq<Grant>, run: RunId, row: Run, node: NodeId, at: int)
    requires GrantsRecorded(runs, grants) && HolderWasGranted(runs, grants) && Claims(runs, run, row, node)
    ensures HolderWasGranted(runs[run := row], grants + [Grant(run, row.leaseEpoch, node, at)])
  {
  }

  lemma ClaimKeepsStamps(inserts: Inserts, grants: seq<Grant>, clock: int, grant: Grant)
    requires StampsPast(inserts, grants, clock) && grant.at == clock
    ensures StampsPast(inserts, grants + [grant], clock)
  {
  }

  /** A run that nobody reports on may change its row, as long as its epoch does not fall and it stays closed. */
  lemma RowReplaced(s: State, run: RunId, row: Run)
    requires Inv(s) && run in s.runs && run !in s.reporting && RowComplete(row)
    requires row.machineId == s.runs[run].machineId && row.occurrenceKey == s.runs[run].occurrenceKey
    requires s.runs[run].leaseEpoch <= row.leaseEpoch && (s.runs[run].state == Closed ==> row.state == Closed)
    ensures var runs := s.runs[run := row];
            && RowsComplete(runs) && OneRunPerOccurrence(runs) && AllReached(runs, s.inserts)
            && ReportersHold(runs, s.inserts, s.committed, s.clock, s.reporting)
            && FinalsClose(runs, s.inserts, s.committed)
  {
  }

  lemma ClaimKeepsInv(s: State, a: Action)
    requires Inv(s) && a.Claim? && Succeeds(s, a)
    ensures Inv(Done(s, a))
  {
    var row := ClaimedBy(s.runs[a.run], a.node, a.until);
    var grant := Grant(a.run, row.leaseEpoch, a.node, s.clock);
    assert Done(s, a) == s.(runs := s.runs[a.run := row], grants := s.grants + [grant]);
    ClaimRecordsItsGrant(s.runs, s.grants, a.run, row, a.node, s.clock);
    ClaimKeepsHolders(s.runs, s.grants, a.run, row, a.node, s.clock);
    ClaimKeepsStamps(s.inserts, s.grants, s.clock, grant);
    RowReplaced(s, a.run, row);
  }

  // ----- rows -----

  lemma GrantsStay(runs: Runs, runs': Runs, grants: seq<Grant>)
    requires GrantsRecorded(runs, grants) && runs.Keys <= runs'.Keys
    requires forall q :: q in runs' ==> runs'[q].leaseEpoch == if q in runs then runs[q].leaseEpoch else 0
    ensures GrantsRecorded(runs', grants)
  {
  }

  lemma QueueKeepsInv(s: State, a: Action)
    requires Inv(s) && a.Queue? && Succeeds(s, a)
    ensures Inv(Done(s, a))
  {
    GrantsStay(s.runs, Done(s, a).runs, s.grants);
  }

  /** Renewing and finishing change one row, and neither its epoch nor its occurrence. */
  lemma RowKeepsInv(s: State, a: Action)
    requires Inv(s) && (a.Renew? || a.Finish?) && Succeeds(s, a)
    ensures Inv(Done(s, a))
  {
    var run := a.lease.runId;
    assert RowComplete(s.runs[run]);
    var row := if a.Renew? then s.runs[run].(leaseExpiresAt := Some(a.until)) else ClosedRun(s.runs[run]);
    GrantsStay(s.runs, s.runs[run := row], s.grants);
    RowReplaced(s, run, row);
  }

  // ----- inserts -----

  /** An event that names no run, or names one under its current epoch. */
  ghost predicate Insertable(s: State, entry: Stamped<Stored>) {
    && entry.at <= s.clock
    && (entry.event.run.Some? ==>
          && entry.event.run.value in s.runs
          && entry.event.machineId == s.runs[entry.event.run.value].machineId
          && 0 < entry.event.leaseEpoch == s.runs[entry.event.run.value].leaseEpoch)
  }

  lemma InsertKeepsEpochs(s: State, entry: Stamped<Stored>)
    requires Inv(s) && Insertable(s, entry)
    ensures AllReached(s.runs, s.inserts + [entry])
    ensures EpochsInOrder(s.inserts + [entry])
    ensures StampsPast(s.inserts + [entry], s.grants, s.clock)
  {
    forall i | 0 <= i < |s.inserts| && s.inserts[i].event.run.Some? && s.inserts[i].event.run == entry.event.run
      ensures s.inserts[i].event.leaseEpoch <= entry.event.leaseEpoch
    {
      assert Reached(s.runs, s.inserts[i].event);
    }
  }

  lemma InsertKeepsReports(s: State, entry: Stamped<Stored>)
    requires Inv(s)
    ensures ReportersHold(s.runs, s.inserts + [entry], s.committed, s.clock, s.reporting)
    ensures FinalsClose(s.runs, s.inserts + [entry], s.committed)
  {
    var inserts := s.inserts + [entry];
    assert forall i :: 0 <= i < |s.inserts| ==> inserts[i] == s.inserts[i];
    forall q | q in s.reporting
      ensures ReportsUnder(s.runs, inserts, s.committed, s.clock, q, s.reporting[q])
    {
      assert ReportsUnder(s.runs, s.inserts, s.committed, s.clock, q, s.reporting[q]);
    }
  }

  lemma WriteKeepsInv(s: State, a: Action)
    requires Inv(s) && (a.Append? || a.Unfenced?) && Succeeds(s, a)
    ensures Inv(Done(s, a))
  {
    var entry := Done(s, a).inserts[|s.inserts|];
    if a.Append? {
      assert RowComplete(s.runs[a.run]);
    }
    InsertKeepsEpochs(s, entry);
    InsertKeepsReports(s, entry);
  }

  lemma CommitAppendKeepsInv(s: State, a: Action)
    requires Inv(s) && a.CommitAppend? && Succeeds(s, a)
    ensures Inv(Done(s, a))
  {
    forall q | q in s.reporting
      ensures ReportsUnder(s.runs, s.inserts, s.committed + {a.place}, s.clock, q, s.reporting[q])
    {
      assert ReportsUnder(s.runs, s.inserts, s.committed, s.clock, q, s.reporting[q]);
    }
  }

  // ----- reports -----

  lemma TakeRowKeepsInv(s: State, a: Action)
    requires Inv(s) && a.TakeRow? && Succeeds(s, a)
    ensures Inv(Done(s, a))
  {
  }

  lemma InsertReportKeepsInv(s: State, a: Action)
    requires Inv(s) && a.InsertReport? && Succeeds(s, a)
    ensures Inv(Done(s, a))
  {
    var mine := s.reporting[a.run];
    assert ReportsUnder(s.runs, s.inserts, s.committed, s.clock, a.run, mine);
    assert RowComplete(s.runs[a.run]);
    var entry := ReportOf(s.runs, a.run, mine);
    InsertKeepsEpochs(s, entry);
    InsertKeepsReports(s, entry);
    assert |s.inserts| !in s.committed;
    assert ReportsUnder(s.runs, s.inserts + [entry], s.committed, s.clock, a.run, mine.(place := Some(|s.inserts|)));
  }

  lemma ReportJoinsTheRecord(runs: Runs, runs': Runs, inserts: Inserts, committed: set<nat>, place: nat, run: RunId)
    requires FinalsClose(runs, inserts, committed)
    requires place < |inserts| && FencedFor(inserts[place].event, run) && run in runs && runs[run].state == Leased
    requires runs' == if IsFinal(inserts[place].event) then runs[run := ClosedRun(runs[run])] else runs
    ensures FinalsClose(runs', inserts, committed + {place})
  {
    forall i | i in committed && IsFinal(inserts[i].event)
      ensures inserts[i].event.run != Some(run)
    {
      assert runs[inserts[i].event.run.value].state == Closed;
    }
  }

  lemma OtherReportersHold(s: State, run: RunId, runs: Runs)
    requires Inv(s) && Succeeds(s, CommitReport(run)) && runs == Done(s, CommitReport(run)).runs
    ensures ReportersHold(runs, s.inserts, s.committed + {s.reporting[run].place.value}, s.clock, s.reporting - {run})
  {
    var place := s.reporting[run].place.value;
    assert ReportsUnder(s.runs, s.inserts, s.committed, s.clock, run, s.reporting[run]);
    forall q | q in s.reporting && q != run
      ensures ReportsUnder(runs, s.inserts, s.committed + {place}, s.clock, q, s.reporting[q])
    {
      assert ReportsUnder(s.runs, s.inserts, s.committed, s.clock, q, s.reporting[q]);
      assert runs[q] == s.runs[q];
    }
  }

  lemma ClosingKeepsRows(runs: Runs, grants: seq<Grant>, inserts: Inserts, run: RunId)
    requires RowsComplete(runs) && OneRunPerOccurrence(runs) && AllReached(runs, inserts)
    requires GrantsRecorded(runs, grants) && HolderWasGranted(runs, grants)
    requires run in runs && runs[run].state == Leased
    ensures var closed := runs[run := ClosedRun(runs[run])];
            && RowsComplete(closed) && OneRunPerOccurrence(closed) && AllReached(closed, inserts)
            && GrantsRecorded(closed, grants) && HolderWasGranted(closed, grants)
  {
    assert RowComplete(runs[run]);
    GrantsStay(runs, runs[run := ClosedRun(runs[run])], grants);
  }

  lemma CommitReportKeepsInv(s: State, a: Action)
    requires Inv(s) && a.CommitReport? && Succeeds(s, a)
    ensures Inv(Done(s, a))
  {
    var mine := s.reporting[a.run];
    assert ReportsUnder(s.runs, s.inserts, s.committed, s.clock, a.run, mine);
    ReportJoinsTheRecord(s.runs, Done(s, a).runs, s.inserts, s.committed, mine.place.value, a.run);
    OtherReportersHold(s, a.run, Done(s, a).runs);
    ClosingKeepsRows(s.runs, s.grants, s.inserts, a.run);
  }

  lemma StepKeepsInv(s: State, a: Action)
    requires Inv(s)
    ensures Inv(Next(s, a))
  {
    if Succeeds(s, a) {
      match a
      case Tick(_) =>
      case Queue(_, _, _, _) => QueueKeepsInv(s, a);
      case Claim(_, _, _, _) => ClaimKeepsInv(s, a);
      case Renew(_, _) => RowKeepsInv(s, a);
      case Finish(_) => RowKeepsInv(s, a);
      case Append(_, _, _, _, _) => WriteKeepsInv(s, a);
      case Unfenced(_, _, _) => WriteKeepsInv(s, a);
      case CommitAppend(_) => CommitAppendKeepsInv(s, a);
      case TakeRow(_, _, _, _) => TakeRowKeepsInv(s, a);
      case InsertReport(_) => InsertReportKeepsInv(s, a);
      case CommitReport(_) => CommitReportKeepsInv(s, a);
      case RollBack(_) =>
    }
  }

  /**
   * Under every interleaving and all clock readings: one run per occurrence, each epoch of a run granted to one node,
   * fenced events inserted in epoch order, a report's transaction holding its lease to the end, and one final report
   * a run, behind which the run is closed.
   */
  lemma {:induction false} EveryInterleaving(actions: seq<Action>)
    ensures Inv(After(EMPTY, actions))
  {
    if actions != [] {
      EveryInterleaving(actions[..|actions| - 1]);
      StepKeepsInv(After(EMPTY, actions[..|actions| - 1]), actions[|actions| - 1]);
    }
  }

  // ----- what it means for nodes -----

  /** Two nodes are never granted the same epoch of a run. */
  lemma OneNodePerEpoch(actions: seq<Action>, i: nat, j: nat)
    requires i < |After(EMPTY, actions).grants| && j < |After(EMPTY, actions).grants|
    requires After(EMPTY, actions).grants[i].run == After(EMPTY, actions).grants[j].run
    requires After(EMPTY, actions).grants[i].epoch == After(EMPTY, actions).grants[j].epoch
    ensures i == j
  {
    EveryInterleaving(actions);
    var grants := After(EMPTY, actions).grants;
    assert forall a, b :: 0 <= a < b < |grants| && grants[a].run == grants[b].run ==>
        grants[a].epoch != grants[b].epoch;
  }

  /** A run reports its end at most once. */
  lemma OneFinalReport(actions: seq<Action>, i: nat, j: nat)
    requires i in After(EMPTY, actions).committed && j in After(EMPTY, actions).committed
    ensures var s := After(EMPTY, actions);
            && i < |s.inserts| && j < |s.inserts|
            && (IsFinal(s.inserts[i].event) && IsFinal(s.inserts[j].event) ==>
                  (s.inserts[i].event.run == s.inserts[j].event.run <==> i == j))
  {
    EveryInterleaving(actions);
  }

  /**
   * When a report lands, its node still holds the run under the lease it reports with, and nobody was granted the
   * run since: between the check and the commit, no claim gets past the row's lock.
   */
  lemma ReportLandsUnderItsLease(actions: seq<Action>, run: RunId)
    requires Succeeds(After(EMPTY, actions), CommitReport(run))
    ensures var s := After(EMPTY, actions);
            var lease := s.reporting[run].lease;
            && lease.runId == run && Renewable(s.runs, lease)
            && (forall k :: 0 <= k < |s.grants| && s.grants[k].run == run ==> s.grants[k].epoch <= lease.leaseEpoch)
            && (forall k :: 0 <= k < |s.grants| && s.grants[k].run == run && s.grants[k].epoch == lease.leaseEpoch ==>
                  s.grants[k].node == lease.nodeId)
  {
    EveryInterleaving(actions);
    var s := After(EMPTY, actions);
    assert ReportsUnder(s.runs, s.inserts, s.committed, s.clock, run, s.reporting[run]);
  }

  /** The statements that act on one run's row, or insert under its lease. */
  predicate ActsOn(a: Action, run: RunId) {
    match a
    case Queue(id, _, _, _) => id == run
    case Claim(r, _, _, _) => r == run
    case Renew(lease, _) => lease.runId == run
    case Finish(lease) => lease.runId == run
    case Append(_, _, r, _, _) => r == run
    case TakeRow(lease, _, _, _) => lease.runId == run
    case InsertReport(r) => r == run
    case CommitReport(r) => r == run
    case RollBack(r) => r == run
    case _ => false
  }

  /** Nothing fenced for the run is inserted behind the first `n` inserts. */
  ghost predicate NoneInserted(inserts: Inserts, n: nat, run: RunId) {
    forall i :: n <= i < |inserts| ==> !FencedFor(inserts[i].event, run)
  }

  lemma ClosedIsRefused(s: State, a: Action, run: RunId)
    requires Inv(s) && run in s.runs && s.runs[run].state == Closed && ActsOn(a, run)
    ensures !Succeeds(s, a)
  {
    assert RowComplete(s.runs[run]);
    if run in s.reporting {
      assert ReportsUnder(s.runs, s.inserts, s.committed, s.clock, run, s.reporting[run]);
    }
  }

  lemma OthersLeaveItAlone(s: State, a: Action, run: RunId)
    requires run in s.runs && !ActsOn(a, run) && Succeeds(s, a)
    ensures run in Done(s, a).runs && Done(s, a).runs[run] == s.runs[run]
    ensures s.inserts <= Done(s, a).inserts && NoneInserted(Done(s, a).inserts, |s.inserts|, run)
  {
  }

  lemma ClosedStep(s: State, a: Action, run: RunId)
    requires Inv(s) && run in s.runs && s.runs[run].state == Closed
    ensures run in Next(s, a).runs && Next(s, a).runs[run] == s.runs[run]
    ensures s.inserts <= Next(s, a).inserts && NoneInserted(Next(s, a).inserts, |s.inserts|, run)
  {
    if ActsOn(a, run) {
      ClosedIsRefused(s, a, run);
    } else if Succeeds(s, a) {
      OthersLeaveItAlone(s, a, run);
    }
  }

  lemma {:induction false} ClosedStays(s: State, actions: seq<Action>, run: RunId)
    requires Inv(s) && run in s.runs && s.runs[run].state == Closed
    ensures Inv(After(s, actions))
    ensures run in After(s, actions).runs && After(s, actions).runs[run] == s.runs[run]
    ensures s.inserts <= After(s, actions).inserts && NoneInserted(After(s, actions).inserts, |s.inserts|, run)
  {
    if actions != [] {
      var n := |actions| - 1;
      ClosedStays(s, actions[..n], run);
      StepKeepsInv(After(s, actions[..n]), actions[n]);
      ClosedStep(After(s, actions[..n]), actions[n], run);
    }
  }

  /** Once a run is closed, by a final report or by finishing, no statement about it ever succeeds again. */
  lemma ClosedForever(s: State, actions: seq<Action>, run: RunId)
    requires Inv(s) && run in s.runs && s.runs[run].state == Closed
    ensures Inv(After(s, actions))
    ensures run in After(s, actions).runs && After(s, actions).runs[run] == s.runs[run]
    ensures s.inserts <= After(s, actions).inserts && NoneInserted(After(s, actions).inserts, |s.inserts|, run)
    ensures forall n :: 0 <= n < |actions| && ActsOn(actions[n], run) ==> !Succeeds(After(s, actions[..n]), actions[n])
  {
    ClosedStays(s, actions, run);
    forall n | 0 <= n < |actions| && ActsOn(actions[n], run)
      ensures !Succeeds(After(s, actions[..n]), actions[n])
    {
      ClosedStays(s, actions[..n], run);
      ClosedIsRefused(After(s, actions[..n]), actions[n], run);
    }
  }

  /**
   * After a recorded final report no statement about the run succeeds, in any continuation, and no fenced event of
   * it is inserted. One inserted before, whose transaction is still open, may be committed yet.
   */
  lemma FinalReportSealsTheRun(before: seq<Action>, later: seq<Action>, i: nat)
    requires i in After(EMPTY, before).committed
    ensures var s := After(EMPTY, before);
            && i < |s.inserts|
            && (IsFinal(s.inserts[i].event) ==>
                  && s.inserts[i].event.run.Some?
                  && (forall n :: 0 <= n < |later| && ActsOn(later[n], s.inserts[i].event.run.value) ==>
                        !Succeeds(After(s, later[..n]), later[n]))
                  && s.inserts <= After(s, later).inserts
                  && NoneInserted(After(s, later).inserts, |s.inserts|, s.inserts[i].event.run.value))
  {
    EveryInterleaving(before);
    var s := After(EMPTY, before);
    if IsFinal(s.inserts[i].event) {
      ClosedForever(s, later, s.inserts[i].event.run.value);
    }
  }

  // ----- a run is closed with its outcome -----

  ghost predicate HasReported(s: State, run: RunId) {
    exists i :: i in s.committed && i < |s.inserts| && IsFinal(s.inserts[i].event) && FencedFor(s.inserts[i].event, run)
  }

  ghost predicate FinishedAt(s: State, actions: seq<Action>, run: RunId, n: int) {
    0 <= n < |actions| && actions[n].Finish? && actions[n].lease.runId == run
      && Succeeds(After(s, actions[..n]), actions[n])
  }

  ghost predicate Finished(s: State, actions: seq<Action>, run: RunId) {
    exists n :: FinishedAt(s, actions, run, n)
  }

  lemma FinishedEarlier(actions: seq<Action>, run: RunId)
    requires actions != [] && Finished(EMPTY, actions[..|actions| - 1], run)
    ensures Finished(EMPTY, actions, run)
  {
    var init := actions[..|actions| - 1];
    var m :| FinishedAt(EMPTY, init, run, m);
    assert init[..m] == actions[..m] && init[m] == actions[m];
    assert FinishedAt(EMPTY, actions, run, m);
  }

  lemma FinishedStaysClosed(actions: seq<Action>, run: RunId, n: int)
    requires FinishedAt(EMPTY, actions, run, n)
    ensures run in After(EMPTY, actions).runs && After(EMPTY, actions).runs[run].state == Closed
  {
    var upTo, rest := actions[..n + 1], actions[n + 1..];
    assert upTo[..n] == actions[..n] && actions == upTo + rest;
    EveryInterleaving(upTo);
    AfterAppend(EMPTY, upTo, rest);
    ClosedStays(After(EMPTY, upTo), rest, run);
  }

  lemma OnlyAReportCloses(s: State, a: Action, run: RunId)
    requires run in Next(s, a).runs && Next(s, a).runs[run].state == Closed
    requires run in s.runs ==> s.runs[run].state != Closed
    requires !(a.Finish? && a.lease.runId == run && Succeeds(s, a))
    ensures a == CommitReport(run) && Succeeds(s, a) && s.reporting[run].report.Final()
  {
  }

  lemma StepClosesWithAnOutcome(s: State, a: Action, run: RunId)
    requires Inv(s) && run in Next(s, a).runs && Next(s, a).runs[run].state == Closed
    requires run in s.runs && s.runs[run].state == Closed ==> HasReported(s, run)
    requires !(a.Finish? && a.lease.runId == run && Succeeds(s, a))
    ensures HasReported(Next(s, a), run)
  {
    var s' := Next(s, a);
    if run in s.runs && s.runs[run].state == Closed {
      var i :| i in s.committed && i < |s.inserts| && IsFinal(s.inserts[i].event) && FencedFor(s.inserts[i].event, run);
      assert i in s'.committed && i < |s'.inserts| && s'.inserts[i] == s.inserts[i];
    } else {
      OnlyAReportCloses(s, a, run);
      var place := s.reporting[run].place.value;
      assert ReportsUnder(s.runs, s.inserts, s.committed, s.clock, run, s.reporting[run]);
      assert place in s'.committed && IsFinal(s'.inserts[place].event) && FencedFor(s'.inserts[place].event, run);
    }
  }

  lemma {:induction false} ClosedHasAnOutcome(actions: seq<Action>, run: RunId)
    requires run in After(EMPTY, actions).runs && After(EMPTY, actions).runs[run].state == Closed
    requires !Finished(EMPTY, actions, run)
    ensures HasReported(After(EMPTY, actions), run)
  {
    if actions != [] {
      var n := |actions| - 1;
      var before := After(EMPTY, actions[..n]);
      EveryInterleaving(actions[..n]);
      if run in before.runs && before.runs[run].state == Closed {
        if Finished(EMPTY, actions[..n], run) {
          FinishedEarlier(actions, run);
        }
        ClosedHasAnOutcome(actions[..n], run);
      }
      assert !FinishedAt(EMPTY, actions, run, n);
      StepClosesWithAnOutcome(before, actions[n], run);
    }
  }

  /** In every run: a run is closed exactly when its final report is in the record or its node finished it. */
  lemma ClosedExactlyWhenReportedOrFinished(actions: seq<Action>, run: RunId)
    requires run in After(EMPTY, actions).runs
    ensures After(EMPTY, actions).runs[run].state == Closed
       <==> HasReported(After(EMPTY, actions), run) || Finished(EMPTY, actions, run)
  {
    EveryInterleaving(actions);
    if Finished(EMPTY, actions, run) {
      var n :| FinishedAt(EMPTY, actions, run, n);
      FinishedStaysClosed(actions, run, n);
    } else if After(EMPTY, actions).runs[run].state == Closed {
      ClosedHasAnOutcome(actions, run);
    }
  }

  // ----- stale leases -----

  lemma EpochOnlyRises(s: State, a: Action, run: RunId)
    requires run in s.runs
    ensures run in Next(s, a).runs && s.runs[run].leaseEpoch <= Next(s, a).runs[run].leaseEpoch
  {
  }

  /** What a node tries with a lease it was given. */
  predicate Uses(a: Action, lease: Lease) {
    match a
    case Renew(l, _) => l == lease
    case Finish(l) => l == lease
    case TakeRow(l, _, _, _) => l == lease
    case Append(_, _, run, epoch, _) => run == lease.runId && epoch == lease.leaseEpoch
    case _ => false
  }

  lemma StaleIsRefused(s: State, a: Action, lease: Lease)
    requires lease.runId in s.runs && lease.leaseEpoch < s.runs[lease.runId].leaseEpoch && Uses(a, lease)
    ensures !Succeeds(s, a)
  {
  }

  lemma {:induction false} StaleStays(s: State, actions: seq<Action>, run: RunId, epoch: int)
    requires run in s.runs && epoch < s.runs[run].leaseEpoch
    ensures run in After(s, actions).runs && epoch < After(s, actions).runs[run].leaseEpoch
  {
    if actions != [] {
      var n := |actions| - 1;
      StaleStays(s, actions[..n], run, epoch);
      EpochOnlyRises(After(s, actions[..n]), actions[n], run);
    }
  }

  /** A node whose run was claimed again is refused everything it tries under its old epoch, for good. */
  lemma StaleLeaseIsRefusedForever(s: State, actions: seq<Action>, lease: Lease)
    requires lease.runId in s.runs && lease.leaseEpoch < s.runs[lease.runId].leaseEpoch
    ensures lease.runId in After(s, actions).runs && lease.leaseEpoch < After(s, actions).runs[lease.runId].leaseEpoch
    ensures forall n :: 0 <= n < |actions| && Uses(actions[n], lease) ==> !Succeeds(After(s, actions[..n]), actions[n])
  {
    StaleStays(s, actions, lease.runId, lease.leaseEpoch);
    forall n | 0 <= n < |actions| && Uses(actions[n], lease)
      ensures !Succeeds(After(s, actions[..n]), actions[n])
    {
      StaleStays(s, actions[..n], lease.runId, lease.leaseEpoch);
      StaleIsRefused(After(s, actions[..n]), actions[n], lease);
    }
  }

  /** Only the node an epoch was granted to can renew, finish or report under it. */
  lemma OnlyTheGranteeActs(actions: seq<Action>, lease: Lease, i: nat)
    requires i < |After(EMPTY, actions).grants|
    requires After(EMPTY, actions).grants[i].run == lease.runId
        && After(EMPTY, actions).grants[i].epoch == lease.leaseEpoch
    requires HeldBy(After(EMPTY, actions).runs, lease)
    ensures After(EMPTY, actions).grants[i].node == lease.nodeId
  {
    EveryInterleaving(actions);
  }

  /** Every fenced event was written under an epoch that was granted to exactly one node. */
  lemma FencedEventsNameAGrant(actions: seq<Action>, i: nat)
    requires i < |After(EMPTY, actions).inserts| && After(EMPTY, actions).inserts[i].event.run.Some?
    ensures var s := After(EMPTY, actions);
            WasGranted(s.grants, s.inserts[i].event.run.value, s.inserts[i].event.leaseEpoch)
  {
    EveryInterleaving(actions);
    assert Reached(After(EMPTY, actions).runs, After(EMPTY, actions).inserts[i].event);
  }
}
