/**
 * The transactions of Ledger's rows are runs of LedgerProtocol: a waiting transaction takes the lock, reads,
 * has others write without the lock meanwhile, writes and commits. What is proved of every run holds of a
 * record that is only touched through them.
 */
module LedgerSteps {
  import opened Results
  import opened Record
  import opened Budgets
  import opened MachineBudgets
  import opened BudgetLaws
  import opened Ledger
  import opened Stamps
  import opened LedgerProtocol

  // ----- what others write meanwhile -----

  function ClockAfter(clock: int, entries: seq<Entry>): int {
    if entries == [] then clock else entries[|entries| - 1].at
  }

  /** Events that need no lock, stamped as time goes on. */
  ghost predicate WrittenMeanwhile(clock: int, entries: seq<Entry>) {
    forall i :: 0 <= i < |entries| ==> LockFree(entries[i].event) && ClockAfter(clock, entries[..i]) <= entries[i].at
  }

  function Meanwhile(clock: int, entries: seq<Entry>): seq<Action>
    requires WrittenMeanwhile(clock, entries)
  {
    if entries == [] then []
    else
      var n := |entries| - 1;
      BeforeTheLast(clock, entries);
      Meanwhile(clock, entries[..n])
        + [Tick(entries[n].at - ClockAfter(clock, entries[..n])), Outside(entries[n].event)]
  }

  lemma RunTwo(s: State, a: Action, b: Action)
    ensures Run(s, [a, b]) == Next(Next(s, a), b)
  {
    RunOne(s, a);
    RunPush(s, [a], b);
    assert [a] + [b] == [a, b];
  }

  lemma OneWrittenMeanwhile(s: State, actions: seq<Action>, record: seq<Entry>, clock: int, entry: Entry)
    requires Run(s, actions) == s.(record := record, clock := clock)
    requires LockFree(entry.event) && clock <= entry.at
    ensures Run(s, actions + [Tick(entry.at - clock), Outside(entry.event)])
         == s.(record := Insert(record, entry), clock := entry.at)
  {
    var before := s.(record := record, clock := clock);
    RunTwo(before, Tick(entry.at - clock), Outside(entry.event));
    assert Next(before, Tick(entry.at - clock)) == before.(clock := entry.at);
    assert entry == Entry(entry.event, entry.at);
    RunAppend(s, actions, [Tick(entry.at - clock), Outside(entry.event)]);
  }

  lemma BeforeTheLast(clock: int, entries: seq<Entry>)
    requires entries != [] && WrittenMeanwhile(clock, entries)
    ensures WrittenMeanwhile(clock, entries[..|entries| - 1])
  {
    var n := |entries| - 1;
    assert forall i | 0 <= i < n :: entries[..n][..i] == entries[..i];
  }

  lemma {:induction false} MeanwhileRuns(s: State, entries: seq<Entry>)
    requires WrittenMeanwhile(s.clock, entries)
    ensures Run(s, Meanwhile(s.clock, entries))
         == s.(record := InsertAll(s.record, entries), clock := ClockAfter(s.clock, entries))
  {
    if entries != [] {
      var n := |entries| - 1;
      BeforeTheLast(s.clock, entries);
      MeanwhileRuns(s, entries[..n]);
      OneWrittenMeanwhile(s, Meanwhile(s.clock, entries[..n]), InsertAll(s.record, entries[..n]),
                          ClockAfter(s.clock, entries[..n]), entries[n]);
    }
  }

  // ----- a transaction under the lock -----

  function Transaction(c: Client, clock: int, meanwhile: seq<Entry>, leaseHeld: bool): seq<Action>
    requires WrittenMeanwhile(clock, meanwhile)
  {
    [TakeLock(c), ReadRecord(c)] + Meanwhile(clock, meanwhile) + [Write(c, leaseHeld), Commit(c)]
  }

  ghost predicate ReadyToLock(s: State, c: Client, request: Request, begunAt: int) {
    && c in s.phases && s.phases[c] == Waiting(request, begunAt)
    && s.lock.None? && Admissible(request)
  }

  lemma LocksAndReads(s: State, c: Client, request: Request, begunAt: int)
    requires ReadyToLock(s, c, request, begunAt)
    ensures Run(s, [TakeLock(c), ReadRecord(c)])
         == s.(lock := Some(c), phases := s.phases[c := Decided(request, begunAt, s.record)])
  {
    RunTwo(s, TakeLock(c), ReadRecord(c));
    assert s.phases[c := Locked(request, begunAt)][c := Decided(request, begunAt, s.record)]
        == s.phases[c := Decided(request, begunAt, s.record)];
  }

  lemma WritesAndCommits(s: State, c: Client, request: Request, begunAt: int, snapshot: seq<Entry>, leaseHeld: bool)
    requires c in s.phases && s.phases[c] == Decided(request, begunAt, snapshot) && Admissible(request)
    ensures var accepted := Accepts(request, snapshot, s.budgetMint, leaseHeld);
            var s' := Run(s, [Write(c, leaseHeld), Commit(c)]);
            && s'.record == (if accepted then Insert(s.record, Entry(EventOf(request), begunAt)) else s.record)
            && c in s'.phases && s'.phases[c] == Done(accepted) && s'.lock.None?
            && s'.budgetMint == s.budgetMint && s'.clock == s.clock
            && s'.acceptances == if accepted && request.Reserve? then
                                   s.acceptances + [Acceptance(request.trade, Place(s.record, begunAt))]
                                 else s.acceptances
  {
    RunTwo(s, Write(c, leaseHeld), Commit(c));
  }

  lemma TransactionRuns(s: State, c: Client, request: Request, begunAt: int, meanwhile: seq<Entry>, leaseHeld: bool)
    requires ReadyToLock(s, c, request, begunAt) && WrittenMeanwhile(s.clock, meanwhile)
    ensures var accepted := Accepts(request, s.record, s.budgetMint, leaseHeld);
            var s' := Run(s, Transaction(c, s.clock, meanwhile, leaseHeld));
            && s'.record == (if accepted then Insert(InsertAll(s.record, meanwhile), Entry(EventOf(request), begunAt))
                             else InsertAll(s.record, meanwhile))
            && c in s'.phases && s'.phases[c] == Done(accepted) && s'.lock.None?
            && s'.budgetMint == s.budgetMint
  {
    var first, last := [TakeLock(c), ReadRecord(c)], [Write(c, leaseHeld), Commit(c)];
    var between := Meanwhile(s.clock, meanwhile);
    LocksAndReads(s, c, request, begunAt);
    MeanwhileRuns(Run(s, first), meanwhile);
    RunAppend(s, first, between);
    WritesAndCommits(Run(s, first + between), c, request, begunAt, s.record, leaseHeld);
    RunAppend(s, first + between, last);
  }

  // ----- the methods -----

  /** The rows are where these actions lead. */
  ghost predicate Follows(rows: MachineRows, actions: seq<Action>)
    reads rows
  {
    && rows.known
    && rows.record == Run(Start(rows.budgetMint), actions).record
    && Run(Start(rows.budgetMint), actions).budgetMint == rows.budgetMint
  }

  ghost predicate NowIs(mint: Option<Mint>, actions: seq<Action>, now: int) {
    Run(Start(mint), actions).clock == now
  }

  method ReserveSteps(
      rows: MachineRows, ghost actions: seq<Action>, ghost c: Client, trade: TradeToReserve, begunAt: int, now: int,
      meanwhile: seq<Entry>, leaseHeld: bool)
    returns (r: Result<Reservation>, ghost more: seq<Action>)
    requires Follows(rows, actions) && NowIs(rows.budgetMint, actions, now)
    requires ReadyToLock(Run(Start(rows.budgetMint), actions), c, Reserve(trade), begunAt)
        && WrittenMeanwhile(now, meanwhile)
    modifies rows
    ensures more == actions + Transaction(c, now, meanwhile, leaseHeld) && Follows(rows, more)
    ensures var s' := Run(Start(rows.budgetMint), more); c in s'.phases && s'.phases[c] == Done(r.Success?)
  {
    more := actions + Transaction(c, now, meanwhile, leaseHeld);
    ghost var s := Run(Start(rows.budgetMint), actions);
    TransactionRuns(s, c, Reserve(trade), begunAt, meanwhile, leaseHeld);
    RunAppend(Start(rows.budgetMint), actions, Transaction(c, now, meanwhile, leaseHeld));
    r := rows.ReserveForTrade(trade, begunAt, meanwhile, leaseHeld);
  }

  lemma NoneSubmitted(record: seq<Entry>, tradeId: TradeId)
    ensures FirstSubmission(Events(record), tradeId, None) <==> !AlreadySubmitted(record, tradeId)
  {
  }

  method SubmitSteps(
      rows: MachineRows, ghost actions: seq<Action>, ghost c: Client, tradeId: TradeId, submission: Submission,
      begunAt: int,
      now: int, meanwhile: seq<Entry>, leaseHeld: bool)
    returns (r: Result<string>, ghost more: seq<Action>)
    requires Follows(rows, actions) && NowIs(rows.budgetMint, actions, now)
    requires ReadyToLock(Run(Start(rows.budgetMint), actions), c, Submit(tradeId, submission), begunAt)
    requires WrittenMeanwhile(now, meanwhile)
    modifies rows
    ensures more == actions + Transaction(c, now, meanwhile, leaseHeld) && Follows(rows, more)
    ensures var s' := Run(Start(rows.budgetMint), more); c in s'.phases && s'.phases[c] == Done(r.Success?)
  {
    more := actions + Transaction(c, now, meanwhile, leaseHeld);
    ghost var s := Run(Start(rows.budgetMint), actions);
    TransactionRuns(s, c, Submit(tradeId, submission), begunAt, meanwhile, leaseHeld);
    RunAppend(Start(rows.budgetMint), actions, Transaction(c, now, meanwhile, leaseHeld));
    NoneSubmitted(rows.record, tradeId);
    r := rows.RecordSubmission(tradeId, submission, begunAt, meanwhile, leaseHeld);
  }

  method SettleSteps(
      rows: MachineRows, ghost actions: seq<Action>, tradeId: TradeId, inputAmount: nat, outputAmount: nat,
      feeLamports: nat,
      now: int)
    returns (r: Result<TradeId>, ghost more: seq<Action>)
    requires Follows(rows, actions) && NowIs(rows.budgetMint, actions, now)
    modifies rows
    ensures r.Success?
    ensures more == actions + [Outside(Completed(tradeId, inputAmount, outputAmount, feeLamports))]
        && Follows(rows, more)
  {
    more := actions + [Outside(Completed(tradeId, inputAmount, outputAmount, feeLamports))];
    RunPush(Start(rows.budgetMint), actions, Outside(Completed(tradeId, inputAmount, outputAmount, feeLamports)));
    r := rows.SettleTrade(tradeId, inputAmount, outputAmount, feeLamports, now);
  }

  method ReleaseSteps(rows: MachineRows, ghost actions: seq<Action>, tradeId: TradeId, now: int)
    returns (r: Result<TradeId>, ghost more: seq<Action>)
    requires Follows(rows, actions) && NowIs(rows.budgetMint, actions, now)
    modifies rows
    ensures r.Success?
    ensures more == actions + [Outside(Failed(tradeId))] && Follows(rows, more)
  {
    more := actions + [Outside(Failed(tradeId))];
    RunPush(Start(rows.budgetMint), actions, Outside(Failed(tradeId)));
    r := rows.ReleaseTrade(tradeId, now);
  }

  /** So of a record reached through them: it is in order, no trade has two submissions, and the grant is kept. */
  lemma RecordKeepsTheProtocol(rows: MachineRows, actions: seq<Action>)
    requires Follows(rows, actions)
    ensures Sorted(rows.record) && OnePerTrade(rows.record)
    ensures BooksOf(rows.record, rows.budgetMint).budget.WithinGrant()
  {
    EveryRunIsSafe(rows.budgetMint, actions);
  }
}
