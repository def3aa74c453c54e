/**
 * The statements of RunQueue are the steps of LeaseProtocol: tables that are only touched through them have
 * come there by a run of the protocol, so that what is proved of every run holds of the tables.
 */
module LeaseSteps {
  import opened Results
  import opened RunQueue
  import opened LeaseProtocol
  import opened LeaseReading
  import opened Stamps

  /** The tables are where these actions lead. */
  ghost predicate Follows(t: Tables, actions: seq<Action>)
    reads t
  {
    var s := After(EMPTY, actions);
    t.runs == s.runs && t.inserts == s.inserts && t.committed == s.committed && t.reporting == s.reporting
  }

  method Start() returns (t: Tables)
    ensures fresh(t) && Follows(t, [])
  {
    t := new Tables();
  }

  /** Time passes without the tables. */
  lemma WaitingSteps(t: Tables, actions: seq<Action>, passed: nat)
    requires Follows(t, actions)
    ensures Follows(t, actions + [Tick(passed)])
    ensures After(EMPTY, actions + [Tick(passed)]).clock == After(EMPTY, actions).clock + passed
  {
    AfterPush(EMPTY, actions, Tick(passed));
  }

  method QueueSteps(
      t: Tables, ghost actions: seq<Action>, id: RunId, machineId: MachineId, occurrenceKey: string, dueAt: int)
    returns (r: Result<(RunId, bool)>, ghost more: seq<Action>)
    requires Follows(t, actions) && id !in t.runs
    modifies t
    ensures more == actions + [Queue(id, machineId, occurrenceKey, dueAt)] && Follows(t, more)
    ensures r.Success? && r.value.1 <==> Succeeds(After(EMPTY, actions), Queue(id, machineId, occurrenceKey, dueAt))
  {
    more := actions + [Queue(id, machineId, occurrenceKey, dueAt)];
    AfterPush(EMPTY, actions, Queue(id, machineId, occurrenceKey, dueAt));
    r := t.QueueRun(id, machineId, occurrenceKey, dueAt);
  }

  /** A claim that finds a run is the step that grants its next epoch; one that finds none is no step. */
  method ClaimSteps(
      t: Tables, ghost actions: seq<Action>, nodeId: NodeId, now: int, leaseSeconds: int, locked: set<RunId>)
    returns (r: Result<Option<Lease>>, ghost more: seq<Action>)
    requires Follows(t, actions)
    modifies t
    ensures Follows(t, more)
    ensures r.Success? && r.value.Some? ==>
              var lease, before := r.value.value, After(EMPTY, actions);
              var claim := Claim(lease.runId, nodeId, now, now + leaseSeconds * 1000);
              && more == actions + [claim] && Succeeds(before, claim)
              && lease.leaseEpoch >= 0
              && After(EMPTY, more).grants
                  == before.grants + [Grant(lease.runId, lease.leaseEpoch, nodeId, before.clock)]
    ensures !(r.Success? && r.value.Some?) ==> more == actions
  {
    r := t.ClaimDueRun(nodeId, now, leaseSeconds, locked);
    more := actions;
    if r.Success? && r.value.Some? {
      ghost var claim := Claim(r.value.value.runId, nodeId, now, now + leaseSeconds * 1000);
      AfterPush(EMPTY, actions, claim);
      more := actions + [claim];
    }
  }

  method RenewSteps(t: Tables, ghost actions: seq<Action>, lease: Lease, now: int, leaseSeconds: int)
    returns (r: Result<int>, ghost more: seq<Action>)
    requires Follows(t, actions) && lease.runId !in t.reporting
    modifies t
    ensures more == actions + [Renew(lease, now + leaseSeconds * 1000)] && Follows(t, more)
    ensures r.Success? <==> Succeeds(After(EMPTY, actions), Renew(lease, now + leaseSeconds * 1000))
  {
    more := actions + [Renew(lease, now + leaseSeconds * 1000)];
    AfterPush(EMPTY, actions, Renew(lease, now + leaseSeconds * 1000));
    r := t.RenewLease(lease, now, leaseSeconds);
  }

  method FinishSteps(t: Tables, ghost actions: seq<Action>, lease: Lease)
    returns (r: Result<()>, ghost more: seq<Action>)
    requires Follows(t, actions) && lease.runId !in t.reporting
    modifies t
    ensures more == actions + [Finish(lease)] && Follows(t, more)
    ensures r.Success? <==> Succeeds(After(EMPTY, actions), Finish(lease))
  {
    more := actions + [Finish(lease)];
    AfterPush(EMPTY, actions, Finish(lease));
    r := t.FinishRun(lease);
  }

  lemma AfterFenced(
      actions: seq<Action>, machineId: MachineId, name: string, runId: RunId, leaseEpoch: nat, begunAt: int)
    requires begunAt <= After(EMPTY, actions).clock
    ensures var s, append := After(EMPTY, actions), Append(machineId, name, runId, leaseEpoch, begunAt);
            var entry := Entry(Stored(machineId, NodeEvent(name), Some(runId), leaseEpoch), begunAt);
            && (Succeeds(s, append) <==> Fence(s.runs, machineId, runId, leaseEpoch, begunAt))
            && After(EMPTY, actions + [append])
            == if Succeeds(s, append) then s.(inserts := s.inserts + [entry]) else s
  {
    AfterPush(EMPTY, actions, Append(machineId, name, runId, leaseEpoch, begunAt));
  }

  method AppendSteps(
      t: Tables, ghost actions: seq<Action>, machineId: MachineId, name: string, runId: RunId, leaseEpoch: int,
      begunAt: int)
    returns (r: Result<nat>, ghost more: seq<Action>)
    requires Follows(t, actions) && begunAt <= After(EMPTY, actions).clock
    modifies t
    ensures Follows(t, more)
    ensures leaseEpoch < 0 ==> more == actions && r == Failure(InvalidInput)
    ensures leaseEpoch >= 0 ==>
              var append := Append(machineId, name, runId, leaseEpoch, begunAt);
              more == actions + [append] && (r.Success? <==> Succeeds(After(EMPTY, actions), append))
  {
    more := actions;
    if leaseEpoch >= 0 {
      AfterFenced(actions, machineId, name, runId, leaseEpoch, begunAt);
      more := actions + [Append(machineId, name, runId, leaseEpoch, begunAt)];
    }
    r := t.AppendEvent(machineId, NodeEvent(name), runId, leaseEpoch, begunAt);
  }

  lemma AfterUnfenced(actions: seq<Action>, machineId: MachineId, kind: Kind, begunAt: int, newest: nat)
    requires (kind.OwnerEvent? || kind.ChainOutcome?) && begunAt <= After(EMPTY, actions).clock
    requires newest == NewestEpoch(After(EMPTY, actions).inserts, After(EMPTY, actions).committed, machineId)
    ensures var s := After(EMPTY, actions);
            var entry := Entry(Stored(machineId, kind, None, newest), begunAt);
            After(EMPTY, actions + [Unfenced(machineId, kind, begunAt)]) == s.(inserts := s.inserts + [entry])
  {
    AfterPush(EMPTY, actions, Unfenced(machineId, kind, begunAt));
  }

  method OwnerSteps(t: Tables, ghost actions: seq<Action>, machineId: MachineId, kind: Kind, begunAt: int)
    returns (place: nat, ghost more: seq<Action>)
    requires Follows(t, actions) && (kind.OwnerEvent? || kind.ChainOutcome?) && begunAt <= After(EMPTY, actions).clock
    modifies t
    ensures more == actions + [Unfenced(machineId, kind, begunAt)] && Follows(t, more)
    ensures place < |t.inserts| && t.inserts[place].at == begunAt && t.inserts[place].event.kind == kind
  {
    ghost var newest := NewestEpoch(t.inserts, t.committed, machineId);
    AfterUnfenced(actions, machineId, kind, begunAt, newest);
    more := actions + [Unfenced(machineId, kind, begunAt)];
    place := t.AppendOwnerEvent(machineId, kind, begunAt);
  }

  method CommitAppendSteps(t: Tables, ghost actions: seq<Action>, place: nat) returns (ghost more: seq<Action>)
    requires Follows(t, actions) && place < |t.inserts| && !t.inserts[place].event.kind.Reported?
    modifies t
    ensures more == actions + [CommitAppend(place)] && Follows(t, more)
  {
    more := actions + [CommitAppend(place)];
    AfterPush(EMPTY, actions, CommitAppend(place));
    t.CommitAppend(place);
  }

  method TakeRowSteps(t: Tables, ghost actions: seq<Action>, lease: Lease, report: Report, now: int, begunAt: int)
    returns (r: Result<MachineId>, ghost more: seq<Action>)
    requires Follows(t, actions) && lease.runId !in t.reporting && begunAt <= After(EMPTY, actions).clock
    modifies t
    ensures more == actions + [TakeRow(lease, report, now, begunAt)] && Follows(t, more)
    ensures r.Success? <==> Succeeds(After(EMPTY, actions), TakeRow(lease, report, now, begunAt))
    ensures r.Success? ==> t.reporting == old(t.reporting)[lease.runId := Reporting(lease, report, begunAt, None)]
  {
    more := actions + [TakeRow(lease, report, now, begunAt)];
    AfterPush(EMPTY, actions, TakeRow(lease, report, now, begunAt));
    r := t.TakeRow(lease, report, now, begunAt);
  }

  lemma OpenReportHoldsItsRow(actions: seq<Action>, run: RunId)
    requires run in After(EMPTY, actions).reporting
    ensures var s := After(EMPTY, actions);
            run in s.runs && s.runs[run].leaseEpoch == s.reporting[run].lease.leaseEpoch
  {
    EveryInterleaving(actions);
    var s := After(EMPTY, actions);
    assert ReportsUnder(s.runs, s.inserts, s.committed, s.clock, run, s.reporting[run]);
  }

  /** Refused by the fence, the insert is no step and the transaction is undone. */
  method InsertReportSteps(t: Tables, ghost actions: seq<Action>, runId: RunId)
    returns (r: Result<nat>, ghost more: seq<Action>)
    requires Follows(t, actions) && runId in t.reporting && t.reporting[runId].place.None?
    modifies t
    ensures r.Success? <==> Succeeds(After(EMPTY, actions), InsertReport(runId))
    ensures more == actions + [if r.Success? then InsertReport(runId) else RollBack(runId)] && Follows(t, more)
  {
    OpenReportHoldsItsRow(actions, runId);
    r := t.InsertReport(runId);
    ghost var a := if r.Success? then InsertReport(runId) else RollBack(runId);
    more := actions + [a];
    AfterPush(EMPTY, actions, a);
  }

  method CommitReportSteps(t: Tables, ghost actions: seq<Action>, runId: RunId) returns (ghost more: seq<Action>)
    requires Follows(t, actions) && runId in t.reporting && t.reporting[runId].place.Some?
    modifies t
    ensures more == actions + [CommitReport(runId)] && Follows(t, more)
    ensures Succeeds(After(EMPTY, actions), CommitReport(runId))
  {
    OpenReportHoldsItsRow(actions, runId);
    more := actions + [CommitReport(runId)];
    AfterPush(EMPTY, actions, CommitReport(runId));
    t.CommitReport(runId);
  }

  method RollBackSteps(t: Tables, ghost actions: seq<Action>, runId: RunId) returns (ghost more: seq<Action>)
    requires Follows(t, actions) && runId in t.reporting
    modifies t
    ensures more == actions + [RollBack(runId)] && Follows(t, more)
  {
    more := actions + [RollBack(runId)];
    AfterPush(EMPTY, actions, RollBack(runId));
    t.RollBack(runId);
  }

  /** A report that nothing interrupts is its three steps one after another, or ends where it is refused. */
  method ReportSteps(t: Tables, ghost actions: seq<Action>, lease: Lease, now: int, begunAt: int, report: Report)
    returns (r: Result<()>, ghost more: seq<Action>)
    requires Follows(t, actions) && lease.runId !in t.reporting && begunAt <= After(EMPTY, actions).clock
    modifies t
    ensures Follows(t, more)
    ensures r.Success? ==> more == actions + Uninterrupted(lease, report, now, begunAt)
    ensures r.Failure? ==> t.inserts == old(t.inserts) && t.committed == old(t.committed) && t.runs == old(t.runs)
  {
    ghost var taken, inserted;
    var held;
    var appended;
    held, taken := TakeRowSteps(t, actions, lease, report, now, begunAt);
    if held.Failure? {
      return Failure(held.problem), taken;
    }
    AfterPush(EMPTY, actions, TakeRow(lease, report, now, begunAt));
    appended, inserted := InsertReportSteps(t, taken, lease.runId);
    AfterPush(EMPTY, taken, if appended.Success? then InsertReport(lease.runId) else RollBack(lease.runId));
    if appended.Failure? {
      return Failure(appended.problem), inserted;
    }
    more := CommitReportSteps(t, inserted, lease.runId);
    assert more == actions + Uninterrupted(lease, report, now, begunAt);
    return Success(()), more;
  }

  /**
   * So of tables reached through the statements alone: rows are complete, an occurrence has one run, a run has at
   * most one final report in the record and is closed behind it, and that report is the last of the run's fenced
   * events to be read exactly when none of them is stamped after the report's transaction began.
   */
  lemma TablesKeepTheProtocol(t: Tables, actions: seq<Action>)
    requires Follows(t, actions)
    ensures forall q :: q in t.runs ==> RowComplete(t.runs[q])
    ensures forall p, q :: p in t.runs && q in t.runs && p != q ==>
              !SameOccurrence(t.runs[q], t.runs[p].machineId, t.runs[p].occurrenceKey)
    ensures FinalsClose(t.runs, t.inserts, t.committed)
    ensures ReadBack(t.inserts, t.committed) == Read(After(EMPTY, actions))
    ensures var s := After(EMPTY, actions);
            forall i, q :: IsFinalReport(s, i, q) ==>
              (FinalReadLast(Read(s), q) <==> forall j: nat :: !Overtakes(s, i, j, q))
  {
    EveryInterleaving(actions);
    var s := After(EMPTY, actions);
    forall i, q | IsFinalReport(s, i, q)
      ensures FinalReadLast(Read(s), q) <==> forall j: nat :: !Overtakes(s, i, j, q)
    {
      FinalIsReadLastExactlyWhen(actions, i, q);
    }
  }
}
