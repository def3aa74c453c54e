/**
 * What each statement of the queue asks of a run's row, field by field, and how long a lease keeps other nodes
 * away (packages/db/src/runs.ts, packages/db/src/record.ts).
 */
module LeaseTerms {
  import opened Results
  import opened RunQueue
  import opened LeaseProtocol

  // ----- what a statement asks of the row -----

  /** A run is claimed once it is due, when it is queued, or leased with an expiry that has come. */
  lemma ClaimSucceedsExactlyWhen(s: State, run: RunId, node: NodeId, now: int, until: int)
    requires Inv(s)
    ensures Succeeds(s, Claim(run, node, now, until)) <==>
              && run in s.runs && run !in s.reporting
              && s.runs[run].dueAt <= now
              && match s.runs[run].state
                 case Queued => true
                 case Leased => s.runs[run].leaseExpiresAt.value <= now
                 case Closed => false
  {
    if run in s.runs {
      assert RowComplete(s.runs[run]);
    }
  }

  /** A claimed row is its node's until the moment asked for, under the next epoch; all else on it stays. */
  lemma ClaimTakesTheRow(s: State, run: RunId, node: NodeId, now: int, until: int)
    requires Succeeds(s, Claim(run, node, now, until))
    ensures var before, after := s.runs[run], Next(s, Claim(run, node, now, until)).runs[run];
            && after.state == Leased && after.leasedBy == Some(node) && after.leaseExpiresAt == Some(until)
            && after.leaseEpoch == before.leaseEpoch + 1
            && after.machineId == before.machineId && after.occurrenceKey == before.occurrenceKey
            && after.dueAt == before.dueAt
  {
  }

  /** Holding a lease is being the node on a leased row under its epoch. Renewing and reporting ask for that. */
  lemma HolderSucceedsExactlyWhen(s: State, lease: Lease, report: Report, now: int, begunAt: int, until: int)
    requires Inv(s)
    ensures Succeeds(s, Renew(lease, until)) <==> Succeeds(s, Finish(lease))
    ensures Succeeds(s, Renew(lease, until)) <==>
              && lease.runId in s.runs && lease.runId !in s.reporting
              && s.runs[lease.runId].state == Leased
              && s.runs[lease.runId].leasedBy.value == lease.nodeId
              && s.runs[lease.runId].leaseEpoch == lease.leaseEpoch
    ensures Succeeds(s, TakeRow(lease, report, now, begunAt)) <==>
              && Succeeds(s, Renew(lease, until))
              && begunAt <= s.clock
              && now < s.runs[lease.runId].leaseExpiresAt.value
  {
    if lease.runId in s.runs {
      assert RowComplete(s.runs[lease.runId]);
    }
  }

  /** The fence of an append: the run is the machine's, leased under that very epoch, and not yet run out. */
  lemma AppendSucceedsExactlyWhen(
      s: State, machineId: MachineId, name: string, run: RunId, epoch: nat, begunAt: int)
    requires Inv(s)
    ensures Succeeds(s, Append(machineId, name, run, epoch, begunAt)) <==>
              && begunAt <= s.clock
              && run in s.runs
              && s.runs[run].machineId == machineId
              && s.runs[run].state == Leased
              && s.runs[run].leaseEpoch == epoch
              && begunAt < s.runs[run].leaseExpiresAt.value
  {
    if run in s.runs {
      assert RowComplete(s.runs[run]);
    }
  }

  /** An open report is refused at its insert only when the lease had run out as its transaction began. */
  lemma ReportIsInsertedExactlyWhen(s: State, run: RunId)
    requires Inv(s) && run in s.reporting && s.reporting[run].place.None?
    ensures run in s.runs && s.runs[run].leaseExpiresAt.Some?
    ensures Succeeds(s, InsertReport(run)) <==> s.reporting[run].begunAt < s.runs[run].leaseExpiresAt.value
  {
    assert ReportsUnder(s.runs, s.inserts, s.committed, s.clock, run, s.reporting[run]);
    assert RowComplete(s.runs[run]);
  }

  // ----- how long a lease lasts -----

  /** The statements that set a run's expiry: a claim of it, and a renewal. */
  predicate SetsExpiry(a: Action, run: RunId) {
    (a.Claim? && a.run == run) || (a.Renew? && a.lease.runId == run)
  }

  predicate SetsExpiryAt(s: State, actions: seq<Action>, run: RunId, n: int) {
    0 <= n < |actions| && SetsExpiry(actions[n], run) && Succeeds(After(s, actions[..n]), actions[n])
  }

  /** The lease on the row, its node, epoch and expiry, or the run is closed. */
  predicate SameLease(row: Run, later: Run) {
    || later.state == Closed
    || (&& later.state == row.state && later.leasedBy == row.leasedBy
        && later.leaseEpoch == row.leaseEpoch && later.leaseExpiresAt == row.leaseExpiresAt && later.dueAt == row.dueAt)
  }

  lemma StepKeepsTheLease(s: State, a: Action, run: RunId)
    requires Inv(s) && run in s.runs && !(SetsExpiry(a, run) && Succeeds(s, a))
    ensures run in Next(s, a).runs && SameLease(s.runs[run], Next(s, a).runs[run])
  {
    assert RowComplete(s.runs[run]);
  }

  /** Nothing but claiming and renewing moves the lease on a row, and nothing but closing takes it away. */
  lemma {:induction false} LeaseStays(s: State, actions: seq<Action>, run: RunId)
    requires Inv(s) && run in s.runs
    requires forall n :: !SetsExpiryAt(s, actions, run, n)
    ensures Inv(After(s, actions))
    ensures run in After(s, actions).runs && SameLease(s.runs[run], After(s, actions).runs[run])
  {
    if actions != [] {
      var n := |actions| - 1;
      forall m
        ensures !SetsExpiryAt(s, actions[..n], run, m)
      {
        assert 0 <= m < n ==> actions[..n][..m] == actions[..m];
        assert !SetsExpiryAt(s, actions, run, m);
      }
      LeaseStays(s, actions[..n], run);
      assert !SetsExpiryAt(s, actions, run, n);
      StepKeepsInv(After(s, actions[..n]), actions[n]);
      StepKeepsTheLease(After(s, actions[..n]), actions[n], run);
    }
  }

  lemma SettingTheExpiry(s: State, a: Action, run: RunId)
    requires Inv(s) && SetsExpiry(a, run) && Succeeds(s, a)
    ensures run in Next(s, a).runs
    ensures Next(s, a).runs[run].state == Leased && Next(s, a).runs[run].leaseExpiresAt == Some(a.until)
  {
  }

  /**
   * In every run: once a claim or a renewal has given a lease until some moment, and no later one has, the run can be
   * claimed exactly when that moment has come on the claimant's clock, the run is due and still leased, and no report
   * has its row locked. Until then no claim succeeds, whoever makes it.
   */
  lemma ClaimedAgainExactlyWhenRunOut(
      actions: seq<Action>, later: seq<Action>, a: Action, run: RunId, node: NodeId, now: int, until: int)
    requires SetsExpiry(a, run) && Succeeds(After(EMPTY, actions), a)
    requires forall n :: !SetsExpiryAt(After(EMPTY, actions + [a]), later, run, n)
    ensures var s := After(After(EMPTY, actions + [a]), later);
            && run in s.runs
            && (Succeeds(s, Claim(run, node, now, until)) <==>
                a.until <= now && s.runs[run].dueAt <= now && s.runs[run].state == Leased && run !in s.reporting)
  {
    AfterPush(EMPTY, actions, a);
    EveryInterleaving(actions);
    EveryInterleaving(actions + [a]);
    SettingTheExpiry(After(EMPTY, actions), a, run);
    LeaseStays(After(EMPTY, actions + [a]), later, run);
    ClaimSucceedsExactlyWhen(After(After(EMPTY, actions + [a]), later), run, node, now, until);
  }

  // ----- what ends a run, and what names one -----

  /** Saying that a run started leaves it open; saying that it was skipped or finished closes it. */
  lemma ReportClosesExactlyWhen(s: State, run: RunId)
    requires Inv(s) && Succeeds(s, CommitReport(run))
    ensures run in Next(s, CommitReport(run)).runs
    ensures Next(s, CommitReport(run)).runs[run].state == Closed
       <==> s.reporting[run].report == RunSkipped || s.reporting[run].report == RunFinished
  {
    assert ReportsUnder(s.runs, s.inserts, s.committed, s.clock, run, s.reporting[run]);
  }

  function TrimStart(text: string): string {
    if text == [] || !WhiteSpace(text[0]) then text else TrimStart(text[1..])
  }

  function TrimEnd(text: string): string {
    if text == [] || !WhiteSpace(text[|text| - 1]) then text else TrimEnd(text[..|text| - 1])
  }

  lemma {:induction false} TrimStartLeavesNothing(text: string)
    ensures TrimStart(text) == [] <==> Blank(text)
    ensures TrimStart(text) != [] ==> !WhiteSpace(TrimStart(text)[0])
  {
    if text != [] && WhiteSpace(text[0]) {
      TrimStartLeavesNothing(text[1..]);
      assert forall i :: 1 <= i < |text| ==> text[i] == text[1..][i - 1];
    }
  }

  lemma {:induction false} TrimEndKeepsTheStart(text: string)
    requires text != [] && !WhiteSpace(text[0])
    ensures TrimEnd(text) != []
  {
    if WhiteSpace(text[|text| - 1]) {
      TrimEndKeepsTheStart(text[..|text| - 1]);
    }
  }

  /** A key is blank exactly when trimming it leaves nothing. */
  lemma BlankExactlyWhenTrimmedAway(key: string)
    ensures Blank(key) <==> TrimEnd(TrimStart(key)) == []
  {
    TrimStartLeavesNothing(key);
    if TrimStart(key) != [] {
      TrimEndKeepsTheStart(TrimStart(key));
    }
  }

  /** Spaces, tabs and line ends are white space; letters, digits and the marks of a moment are not. */
  lemma WhiteSpaceIsNotText(c: char)
    ensures c in {' ', '\t', '\n', '\r'} ==> WhiteSpace(c)
    ensures '!' <= c <= '~' ==> !WhiteSpace(c)
  {
  }
}
