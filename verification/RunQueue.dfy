/**
 * The run queue and the fenced record (packages/db/src/runs.ts, packages/db/src/record.ts), as the rows
 * each statement reads and writes. Every clock reading is an argument.
 */
module RunQueue {
  import opened Results
  import opened Stamps

  type RunId = string
  type NodeId = string
  type MachineId = string

  datatype RunState = Queued | Leased | Closed

  datatype Run = Run(
    machineId: MachineId,
    occurrenceKey: string,
    dueAt: int,
    state: RunState,
    leasedBy: Option<NodeId>,
    leaseExpiresAt: Option<int>,
    leaseEpoch: nat)

  /** What a node may say about a run it holds. */
  datatype Report = RunStarted | RunSkipped | RunFinished {
    predicate Final() {
      RunSkipped? || RunFinished?
    }
  }

  datatype Kind =
    | Reported(report: Report)
    | NodeEvent(name: string)
    | OwnerEvent(name: string)
    | ChainOutcome(name: string)

  /** An event with the epoch it was written under; `run` is the run whose lease permitted it, if one did. */
  datatype Stored = Stored(machineId: MachineId, kind: Kind, run: Option<RunId>, leaseEpoch: nat)

  datatype Lease = Lease(runId: RunId, nodeId: NodeId, leaseEpoch: int)

  type Runs = map<RunId, Run>

  /** What has been inserted, in the order it was, each with the moment its transaction began. */
  type Inserts = seq<Stamped<Stored>>

  /** A report's transaction from the moment it has the run's row locked: `place` is its insert, once it has made it. */
  datatype Reporting = Reporting(lease: Lease, report: Report, begunAt: int, place: Option<nat>)

  /** What `trim` removes: the white space and line terminators of section 12 of ECMA-262. */
  predicate WhiteSpace(c: char) {
    || '\t' <= c <= '\r' || c == ' ' || c == '\U{A0}' || c == '\U{1680}' || '\U{2000}' <= c <= '\U{200A}'
    || c == '\U{2028}' || c == '\U{2029}' || c == '\U{202F}' || c == '\U{205F}' || c == '\U{3000}' || c == '\U{FEFF}'
  }

  predicate Blank(text: string) {
    forall i :: 0 <= i < |text| ==> WhiteSpace(text[i])
  }

  predicate SameOccurrence(run: Run, machineId: MachineId, occurrenceKey: string) {
    run.machineId == machineId && run.occurrenceKey == occurrenceKey
  }

  predicate Expired(run: Run, now: int) {
    run.leaseExpiresAt.Some? && run.leaseExpiresAt.value <= now
  }

  predicate Claimable(run: Run, now: int) {
    run.dueAt <= now && (run.state == Queued || (run.state == Leased && Expired(run, now)))
  }

  function ClaimedBy(run: Run, nodeId: NodeId, until: int): Run {
    run.(state := Leased, leasedBy := Some(nodeId), leaseExpiresAt := Some(until), leaseEpoch := run.leaseEpoch + 1)
  }

  function ClosedRun(run: Run): Run {
    run.(state := Closed, leasedBy := None, leaseExpiresAt := None)
  }

  predicate HeldBy(runs: Runs, lease: Lease) {
    && lease.runId in runs
    && runs[lease.runId].leasedBy == Some(lease.nodeId)
    && runs[lease.runId].leaseEpoch == lease.leaseEpoch
  }

  predicate Renewable(runs: Runs, lease: Lease) {
    HeldBy(runs, lease) && runs[lease.runId].state == Leased
  }

  predicate HeldNow(runs: Runs, lease: Lease, now: int) {
    && Renewable(runs, lease)
    && runs[lease.runId].leaseExpiresAt.Some? && runs[lease.runId].leaseExpiresAt.value > now
  }

  /** The condition inside the insert: the run is this machine's, at exactly this epoch, and has not run out. */
  predicate Fence(runs: Runs, machineId: MachineId, runId: RunId, leaseEpoch: int, now: int) {
    && runId in runs
    && runs[runId].machineId == machineId
    && runs[runId].leaseEpoch == leaseEpoch
    && runs[runId].leaseExpiresAt.Some? && runs[runId].leaseExpiresAt.value > now
  }

  function ReportOf(runs: Runs, run: RunId, r: Reporting): Stamped<Stored>
    requires run in runs
  {
    Entry(Stored(runs[run].machineId, Reported(r.report), Some(run), runs[run].leaseEpoch), r.begunAt)
  }

  /** The newest epoch that the machine's committed events carry. */
  function NewestEpoch(inserts: Inserts, committed: set<nat>, machineId: MachineId): (newest: nat)
    ensures forall i :: 0 <= i < |inserts| && i in committed && inserts[i].event.machineId == machineId ==>
              inserts[i].event.leaseEpoch <= newest
    ensures newest == 0
         || exists i :: 0 <= i < |inserts| && i in committed && inserts[i].event.machineId == machineId
                        && inserts[i].event.leaseEpoch == newest
  {
    if inserts == [] then 0
    else
      var n := |inserts| - 1;
      var rest := NewestEpoch(inserts[..n], committed, machineId);
      var last := inserts[n].event;
      if n in committed && last.machineId == machineId && last.leaseEpoch > rest then last.leaseEpoch else rest
  }

  /**
   * The two tables, and the statements that touch them. An insert is in `inserts` when its statement returns and
   * in the record when its transaction has committed. `reporting` holds the transactions with a run's row locked:
   * claims pass such a row over, and whatever else updates it waits.
   */
  class Tables {
    var runs: Runs
    var inserts: Inserts
    var committed: set<nat>
    var reporting: map<RunId, Reporting>

    constructor ()
      ensures runs == map[] && inserts == [] && committed == {} && reporting == map[]
    {
      runs := map[];
      inserts := [];
      committed := {};
      reporting := map[];
    }

    /** `id` is the id made for the row; an occurrence already queued keeps the row it has. */
    method QueueRun(id: RunId, machineId: MachineId, occurrenceKey: string, dueAt: int)
      returns (r: Result<(RunId, bool)>)
      requires id !in runs
      modifies this`runs
      ensures Blank(occurrenceKey) ==> r == Failure(InvalidInput) && runs == old(runs)
      ensures !Blank(occurrenceKey) ==>
                && r.Success?
                && (r.value.1 <==>
                    forall q :: q in old(runs) ==> !SameOccurrence(old(runs)[q], machineId, occurrenceKey))
                && (r.value.1 ==>
                      && r.value.0 == id
                      && runs == old(runs)[id := Run(machineId, occurrenceKey, dueAt, Queued, None, None, 0)])
                && (!r.value.1 ==>
                      && runs == old(runs)
                      && r.value.0 in runs && SameOccurrence(runs[r.value.0], machineId, occurrenceKey))
    {
      if Blank(occurrenceKey) {
        return Failure(InvalidInput);
      }
      if q :| q in runs && SameOccurrence(runs[q], machineId, occurrenceKey) {
        return Success((q, false));
      }
      runs := runs[id := Run(machineId, occurrenceKey, dueAt, Queued, None, None, 0)];
      return Success((id, true));
    }

    /**
     * The earliest due run that is free and whose row nobody has locked: no report, and none of the claims made
     * at the same moment, whose rows are `locked`.
     */
    method ClaimDueRun(nodeId: NodeId, now: int, leaseSeconds: int, locked: set<RunId>)
      returns (r: Result<Option<Lease>>)
      modifies this`runs
      ensures r.Failure? <==> leaseSeconds <= 0
      ensures r.Failure? ==> r.problem == InvalidInput && runs == old(runs)
      ensures r == Success(None) ==>
                && runs == old(runs)
                && forall q :: q in runs && q !in locked && q !in reporting ==> !Claimable(runs[q], now)
      ensures r == Success(None) ==>
                forall q :: q in runs && q !in locked && q !in reporting && runs[q].dueAt <= now ==>
                  && runs[q].state != Queued
                  && (runs[q].state == Leased && runs[q].leaseExpiresAt.Some? ==> runs[q].leaseExpiresAt.value > now)
      ensures r.Success? && r.value.Some? ==>
                && r.value.value.runId in old(runs)
                && var row := old(runs)[r.value.value.runId];
                   && row.dueAt <= now
                   && (row.state == Queued
                       || (row.state == Leased && row.leaseExpiresAt.Some? && row.leaseExpiresAt.value <= now))
      ensures r.Success? && r.value.Some? ==>
                var lease := r.value.value;
                && lease.runId in old(runs) && lease.runId !in locked && lease.runId !in reporting
                && Claimable(old(runs)[lease.runId], now)
                && (forall q :: q in old(runs) && q !in locked && q !in reporting && Claimable(old(runs)[q], now) ==>
                      old(runs)[lease.runId].dueAt <= old(runs)[q].dueAt)
                && runs == old(runs)[lease.runId :=
                     ClaimedBy(old(runs)[lease.runId], nodeId, now + leaseSeconds * 1000)]
                && lease.nodeId == nodeId && lease.leaseEpoch == runs[lease.runId].leaseEpoch
    {
      if leaseSeconds <= 0 {
        return Failure(InvalidInput);
      }
      var left := set q | q in runs && q !in locked && q !in reporting && Claimable(runs[q], now);
      if left == {} {
        assert forall q :: q in runs && q !in locked && q !in reporting && Claimable(runs[q], now) ==> q in left;
        return Success(None);
      }
      var best :| best in left;
      left := left - {best};
      while left != {}
        invariant best in runs && best !in locked && best !in reporting && Claimable(runs[best], now)
        invariant forall q :: q in left ==> q in runs
        invariant forall q :: q in runs && q !in locked && q !in reporting && Claimable(runs[q], now) && q !in left ==>
                    runs[best].dueAt <= runs[q].dueAt
        invariant forall q :: q in left ==> q !in locked && q !in reporting && Claimable(runs[q], now)
        decreases |left|
      {
        var q :| q in left;
        left := left - {q};
        if runs[q].dueAt < runs[best].dueAt {
          best := q;
        }
      }
      var claimed := ClaimedBy(runs[best], nodeId, now + leaseSeconds * 1000);
      runs := runs[best := claimed];
      return Success(Some(Lease(best, nodeId, claimed.leaseEpoch)));
    }

    /** Once no report has the row locked. */
    method RenewLease(lease: Lease, now: int, leaseSeconds: int) returns (r: Result<int>)
      requires lease.runId !in reporting
      modifies this`runs
      ensures r.Success? <==> Renewable(old(runs), lease)
      ensures r.Success? ==>
                && r.value == now + leaseSeconds * 1000
                && runs == old(runs)[lease.runId := old(runs)[lease.runId].(leaseExpiresAt := Some(r.value))]
      ensures r.Failure? ==> r.problem == Conflict && runs == old(runs)
    {
      if !Renewable(runs, lease) {
        return Failure(Conflict);
      }
      var until := now + leaseSeconds * 1000;
      runs := runs[lease.runId := runs[lease.runId].(leaseExpiresAt := Some(until))];
      return Success(until);
    }

    /** Once no report has the row locked. */
    method FinishRun(lease: Lease) returns (r: Result<()>)
      requires lease.runId !in reporting
      modifies this`runs
      ensures r.Success? <==> HeldBy(old(runs), lease)
      ensures runs == if r.Success? then old(runs)[lease.runId := ClosedRun(old(runs)[lease.runId])] else old(runs)
      ensures r.Failure? ==> r.problem == Conflict
    {
      if !HeldBy(runs, lease) {
        return Failure(Conflict);
      }
      runs := runs[lease.runId := ClosedRun(runs[lease.runId])];
      return Success(());
    }

    /**
     * The fence is asked at the moment the transaction began, which is also the event's stamp. It reads the run's
     * row without locking it. The place of the insert stands for the id that is returned.
     */
    method AppendEvent(machineId: MachineId, kind: Kind, runId: RunId, leaseEpoch: int, begunAt: int)
      returns (r: Result<nat>)
      modifies this`inserts
      ensures r.Success? <==> leaseEpoch >= 0 && Fence(runs, machineId, runId, leaseEpoch, begunAt)
      ensures r.Success? ==>
                && r.value == |old(inserts)|
                && inserts == old(inserts) + [Entry(Stored(machineId, kind, Some(runId), leaseEpoch), begunAt)]
      ensures r.Failure? ==> inserts == old(inserts) && r.problem == if leaseEpoch < 0 then InvalidInput else Conflict
    {
      if leaseEpoch < 0 {
        return Failure(InvalidInput);
      }
      if !Fence(runs, machineId, runId, leaseEpoch, begunAt) {
        return Failure(Conflict);
      }
      inserts := inserts + [Entry(Stored(machineId, kind, Some(runId), leaseEpoch), begunAt)];
      return Success(|inserts| - 1);
    }

    /** An owner's action, and what the chain did: no lease is asked for, and the newest epoch is borrowed. */
    method AppendOwnerEvent(machineId: MachineId, kind: Kind, begunAt: int) returns (place: nat)
      modifies this`inserts
      ensures place == |old(inserts)|
      ensures inserts
           == old(inserts)
             + [Entry(Stored(machineId, kind, None, NewestEpoch(old(inserts), committed, machineId)), begunAt)]
    {
      place := |inserts|;
      inserts := inserts + [Entry(Stored(machineId, kind, None, NewestEpoch(inserts, committed, machineId)), begunAt)];
    }

    /** The transaction of an append commits: at once when it is that one statement, later when it holds more. */
    method CommitAppend(place: nat)
      requires place < |inserts| && !inserts[place].event.kind.Reported?
      modifies this`committed
      ensures committed == old(committed) + {place}
    {
      committed := committed + {place};
    }

    // ----- the three statements of a report, and its end -----

    /** The lease is checked and the run's row locked, once no other report has it locked. */
    method TakeRow(lease: Lease, report: Report, now: int, begunAt: int) returns (r: Result<MachineId>)
      requires lease.runId !in reporting
      modifies this`reporting
      ensures r.Success? <==> HeldNow(runs, lease, now)
      ensures r.Success? ==>
                && r.value == runs[lease.runId].machineId
                && reporting == old(reporting)[lease.runId := Reporting(lease, report, begunAt, None)]
      ensures r.Failure? ==> r.problem == Conflict && reporting == old(reporting)
    {
      if !HeldNow(runs, lease, now) {
        return Failure(Conflict);
      }
      reporting := reporting[lease.runId := Reporting(lease, report, begunAt, None)];
      return Success(runs[lease.runId].machineId);
    }

    /** The report is appended through the same fence as any event; refused there, the transaction is undone. */
    method InsertReport(runId: RunId) returns (r: Result<nat>)
      requires runId in runs && runId in reporting && reporting[runId].place.None?
      requires reporting[runId].lease.leaseEpoch == runs[runId].leaseEpoch
      modifies this`inserts, this`reporting
      ensures r.Success? <==>
                Fence(runs, runs[runId].machineId, runId, runs[runId].leaseEpoch, old(reporting)[runId].begunAt)
      ensures r.Success? ==>
                && r.value == |old(inserts)|
                && inserts == old(inserts) + [ReportOf(runs, runId, old(reporting)[runId])]
                && reporting == old(reporting)[runId := old(reporting)[runId].(place := Some(r.value))]
      ensures r.Failure? ==>
                r.problem == Conflict && inserts == old(inserts) && reporting == old(reporting) - {runId}
    {
      var mine := reporting[runId];
      r := AppendEvent(runs[runId].machineId, Reported(mine.report), runId, mine.lease.leaseEpoch, mine.begunAt);
      if r.Failure? {
        reporting := reporting - {runId};
        return;
      }
      reporting := reporting[runId := mine.(place := Some(r.value))];
    }

    /** A final report closes its run, and the transaction commits: both are seen by others together. */
    method CommitReport(runId: RunId)
      requires runId in runs && runId in reporting && reporting[runId].place.Some?
      modifies this`runs, this`committed, this`reporting
      ensures committed == old(committed) + {old(reporting)[runId].place.value}
      ensures runs == if old(reporting)[runId].report.Final() then old(runs)[runId := ClosedRun(old(runs)[runId])]
          else old(runs)
      ensures reporting == old(reporting) - {runId}
    {
      var mine := reporting[runId];
      if mine.report.Final() {
        runs := runs[runId := ClosedRun(runs[runId])];
      }
      committed := committed + {mine.place.value};
      reporting := reporting - {runId};
    }

    /** The transaction is undone, or its connection is lost: the row is free, and its insert is never read. */
    method RollBack(runId: RunId)
      requires runId in reporting
      modifies this`reporting
      ensures reporting == old(reporting) - {runId}
    {
      reporting := reporting - {runId};
    }

    /**
     * A report from beginning to end, when nothing comes between its statements: the lease is checked, the event
     * appended and a final report closes the run, or nothing happens.
     */
    method ReportRun(lease: Lease, now: int, begunAt: int, aboutRun: RunId, report: Report) returns (r: Result<()>)
      requires lease.runId !in reporting
      modifies this
      ensures r.Success? <==>
                && aboutRun == lease.runId
                && HeldNow(old(runs), lease, now)
                && Fence(old(runs), old(runs)[lease.runId].machineId, lease.runId, lease.leaseEpoch, begunAt)
      ensures r.Success? ==>
                && inserts == old(inserts) + [Entry(Stored(old(runs)[lease.runId].machineId, Reported(report),
                                                           Some(lease.runId), lease.leaseEpoch), begunAt)]
                && committed == old(committed) + {|old(inserts)|}
                && runs == if report.Final() then old(runs)[lease.runId := ClosedRun(old(runs)[lease.runId])]
                    else old(runs)
      ensures r.Failure? ==> inserts == old(inserts) && committed == old(committed) && runs == old(runs)
      ensures r.Failure? ==> r.problem == if aboutRun != lease.runId then InvalidInput else Conflict
      ensures reporting == old(reporting)
    {
      if aboutRun != lease.runId {
        return Failure(InvalidInput);
      }
      var held := TakeRow(lease, report, now, begunAt);
      if held.Failure? {
        return Failure(held.problem);
      }
      var appended := InsertReport(lease.runId);
      if appended.Failure? {
        return Failure(appended.problem);
      }
      CommitReport(lease.runId);
      return Success(());
    }
  }
}
