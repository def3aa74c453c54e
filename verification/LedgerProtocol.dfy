/**
 * Every interleaving of the transactions on one machine: reservations, submissions and funding take the
 * row lock in turn, outcomes are written at any moment without it, and the clock runs on
 * (packages/db/src/ledger.ts, packages/db/src/owner-machines.ts).
 */
module LedgerProtocol {
  import opened Results
  import opened Record
  import opened Budgets
  import opened MachineBudgets
  import opened BudgetLaws
  import opened Ledger
  import opened Stamps

  /** One transaction. Its name is never used again. */
  type Client = nat

  datatype Request =
    | Reserve(trade: TradeToReserve)
    | Submit(tradeId: TradeId, submission: Submission)
    | Fund(granted: int)

  datatype Phase =
    | Waiting(request: Request, begunAt: int)
    | Locked(request: Request, begunAt: int)
    | Decided(request: Request, begunAt: int, snapshot: seq<Entry>)
    | Answered(accepted: bool)
    | Done(accepted: bool)

  /** An accepted reservation, and the place its intent was given in the record. */
  datatype Acceptance = Acceptance(trade: TradeToReserve, place: nat)

  /** `acceptances` and `answers` are history: what reservers were told, and how many of them were. */
  datatype State = State(
    budgetMint: Option<Mint>,
    record: seq<Entry>,
    clock: int,
    lock: Option<Client>,
    phases: map<Client, Phase>,
    acceptances: seq<Acceptance>,
    answers: nat)

  datatype Action =
    | Tick(passed: nat)
    | Begin(client: Client, request: Request)
    | TakeLock(client: Client)
    | ReadRecord(client: Client)
    | Write(client: Client, leaseHeld: bool)
    | Commit(client: Client)
    | Outside(event: Event)

  function Start(budgetMint: Option<Mint>): State {
    State(budgetMint, [], 0, None, map[], [], 0)
  }

  /** What is refused without a transaction. */
  predicate Admissible(request: Request) {
    match request
    case Reserve(trade) => Screened(trade).Success?
    case Submit(_, _) => true
    case Fund(granted) => granted > 0
  }

  predicate AlreadySubmitted(record: seq<Entry>, tradeId: TradeId) {
    exists i :: 0 <= i < |record| && record[i].event.Submitted? && record[i].event.tradeId == tradeId
  }

  function EventOf(request: Request): Event
    requires Admissible(request)
  {
    match request
    case Reserve(trade) => IntentOf(trade)
    case Submit(tradeId, submission) => Submitted(tradeId, submission.signature, submission.lastValidBlockHeight)
    case Fund(granted) => LimitsChanged(BUDGET_GRANTED, granted)
  }

  /** Whether the transaction writes, decided from the snapshot it read and the fence at its append. */
  ghost predicate Accepts(request: Request, snapshot: seq<Entry>, budgetMint: Option<Mint>, leaseHeld: bool)
    requires Admissible(request)
  {
    match request
    case Reserve(trade) => Judge(trade, budgetMint, FreeOf(BooksOf(snapshot, budgetMint)), leaseHeld).Success?
    case Submit(tradeId, _) => !AlreadySubmitted(snapshot, tradeId) && leaseHeld
    case Fund(_) => true
  }

  ghost predicate Enabled(s: State, a: Action) {
    match a
    case Tick(_) => true
    case Begin(c, request) => c !in s.phases && Admissible(request)
    case TakeLock(c) => c in s.phases && s.phases[c].Waiting? && s.lock.None?
    case ReadRecord(c) => c in s.phases && s.phases[c].Locked?
    case Write(c, _) => c in s.phases && s.phases[c].Decided? && Admissible(s.phases[c].request)
    case Commit(c) => c in s.phases && s.phases[c].Answered?
    case Outside(event) => LockFree(event)
  }

  ghost function Written(s: State, c: Client, leaseHeld: bool): State
    requires c in s.phases && s.phases[c].Decided? && Admissible(s.phases[c].request)
  {
    var request, begunAt := s.phases[c].request, s.phases[c].begunAt;
    var accepted := Accepts(request, s.phases[c].snapshot, s.budgetMint, leaseHeld);
    s.(phases := s.phases[c := Answered(accepted)],
       record := if accepted then Insert(s.record, Entry(EventOf(request), begunAt)) else s.record,
       acceptances := if accepted && request.Reserve? then
                        s.acceptances + [Acceptance(request.trade, Place(s.record, begunAt))]
                      else s.acceptances,
       answers := if request.Reserve? then s.answers + 1 else s.answers)
  }

  /** One step; an action that is not enabled leaves the state as it is. */
  ghost function Next(s: State, a: Action): State {
    if !Enabled(s, a) then s
    else
      match a
      case Tick(passed) => s.(clock := s.clock + passed)
      case Begin(c, request) => s.(phases := s.phases[c := Waiting(request, s.clock)])
      case TakeLock(c) => s.(lock := Some(c), phases := s.phases[c := Locked(s.phases[c].request, s.phases[c].begunAt)])
      case ReadRecord(c) => s.(phases := s.phases[c := Decided(s.phases[c].request, s.phases[c].begunAt, s.record)])
      case Write(c, leaseHeld) => Written(s, c, leaseHeld)
      case Commit(c) => s.(lock := None, phases := s.phases[c := Done(s.phases[c].accepted)])
      case Outside(event) => s.(record := Insert(s.record, Entry(event, s.clock)))
  }

  ghost function Run(s: State, actions: seq<Action>): State {
    if actions == [] then s
    else Next(Run(s, actions[..|actions| - 1]), actions[|actions| - 1])
  }

  lemma RunPush(s: State, actions: seq<Action>, a: Action)
    ensures Run(s, actions + [a]) == Next(Run(s, actions), a)
  {
    assert (actions + [a])[..|actions|] == actions;
  }

  lemma {:induction false} RunAppend(s: State, first: seq<Action>, rest: seq<Action>)
    ensures Run(s, first + rest) == Run(Run(s, first), rest)
    decreases |rest|
  {
    if rest == [] {
      assert first + rest == first;
    } else {
      var init, last := rest[..|rest| - 1], rest[|rest| - 1];
      RunAppend(s, first, init);
      RunPush(s, first + init, last);
      RunPush(Run(s, first), init, last);
      assert rest == init + [last] && first + rest == (first + init) + [last];
    }
  }

  lemma RunOne(s: State, a: Action)
    ensures Run(s, [a]) == Next(s, a)
  {
    assert Run(s, []) == s;
    RunPush(s, [], a);
    assert [] + [a] == [a];
  }

  lemma RunFour(s: State, a: seq<Action>)
    requires |a| == 4
    ensures Run(s, a) == Next(Next(Next(Next(s, a[0]), a[1]), a[2]), a[3])
  {
    assert Run(s, []) == s;
    RunPush(s, [], a[0]);
    RunPush(s, a[..1], a[1]);
    RunPush(s, a[..2], a[2]);
    RunPush(s, a[..3], a[3]);
    assert a[..1] == [] + [a[0]] && a[..2] == a[..1] + [a[1]] && a[..3] == a[..2] + [a[2]] && a == a[..3] + [a[3]];
  }

  // ----- what every interleaving keeps -----

  predicate HoldsLock(phase: Phase) {
    phase.Locked? || phase.Decided? || phase.Answered?
  }

  /** The record has grown from a snapshot by events that need no lock. */
  predicate GrownWithoutLock(snapshot: seq<Entry>, record: seq<Entry>) {
    && |snapshot| <= |record|
    && record[..|snapshot|] == snapshot
    && forall i :: |snapshot| <= i < |record| ==> LockFree(record[i].event)
  }

  ghost predicate OnePerTrade(record: seq<Entry>) {
    forall i, j :: 0 <= i < j < |record| && record[i].event.Submitted? && record[j].event.Submitted? ==>
      record[i].event.tradeId != record[j].event.tradeId
  }

  ghost predicate InOrder(s: State) {
    && Sorted(s.record)
    && (forall i :: 0 <= i < |s.record| ==> s.record[i].at <= s.clock)
    && (forall c :: c in s.phases && (s.phases[c].Waiting? || s.phases[c].Locked? || s.phases[c].Decided?) ==>
          s.phases[c].begunAt <= s.clock)
  }

  ghost predicate Exclusive(s: State) {
    && (s.lock.Some? ==> s.lock.value in s.phases)
    && forall c :: c in s.phases ==> (HoldsLock(s.phases[c]) <==> s.lock == Some(c))
  }

  ghost predicate Current(s: State) {
    forall c :: c in s.phases && s.phases[c].Decided? ==> GrownWithoutLock(s.phases[c].snapshot, s.record)
  }

  ghost predicate Asked(s: State) {
    forall c :: c in s.phases && (s.phases[c].Waiting? || s.phases[c].Locked? || s.phases[c].Decided?) ==>
      Admissible(s.phases[c].request)
  }

  ghost predicate Safe(s: State) {
    InOrder(s) && Exclusive(s) && Current(s) && Asked(s) && OnePerTrade(s.record)
  }

  lemma InsertOnce(record: seq<Entry>, entry: Entry)
    requires OnePerTrade(record)
    requires entry.event.Submitted? ==> !AlreadySubmitted(record, entry.event.tradeId)
    ensures OnePerTrade(Insert(record, entry))
  {
    var place, longer := Place(record, entry.at), Insert(record, entry);
    forall i, j | 0 <= i < j < |longer| && longer[i].event.Submitted? && longer[j].event.Submitted?
      ensures longer[i].event.tradeId != longer[j].event.tradeId
    {
      var i' := if i < place then i else i - 1;
      var j' := if j < place then j else j - 1;
      assert i != place ==> longer[i] == record[i'];
      assert j != place ==> longer[j] == record[j'];
    }
  }

  lemma SnapshotKnowsSubmissions(snapshot: seq<Entry>, record: seq<Entry>, tradeId: TradeId)
    requires GrownWithoutLock(snapshot, record)
    requires AlreadySubmitted(record, tradeId)
    ensures AlreadySubmitted(snapshot, tradeId)
  {
    var i :| 0 <= i < |record| && record[i].event.Submitted? && record[i].event.tradeId == tradeId;
    assert i < |snapshot| && snapshot[i] == record[i];
  }

  lemma OutsideKeepsSafe(s: State, event: Event)
    requires Safe(s) && LockFree(event)
    ensures Safe(Next(s, Outside(event)))
  {
    InsertAtEnd(s.record, Entry(event, s.clock));
    InsertOnce(s.record, Entry(event, s.clock));
  }

  lemma InsertKeepsStamps(record: seq<Entry>, entry: Entry, clock: int)
    requires Sorted(record) && entry.at <= clock
    requires forall i :: 0 <= i < |record| ==> record[i].at <= clock
    ensures Sorted(Insert(record, entry))
    ensures forall i :: 0 <= i < |Insert(record, entry)| ==> Insert(record, entry)[i].at <= clock
  {
    InsertKeepsOrder(record, entry);
  }

  lemma WriteKeepsOrder(s: State, c: Client, leaseHeld: bool)
    requires InOrder(s) && Enabled(s, Write(c, leaseHeld))
    ensures InOrder(Next(s, Write(c, leaseHeld)))
  {
    var s' := Next(s, Write(c, leaseHeld));
    assert Sorted(s'.record) && forall i :: 0 <= i < |s'.record| ==> s'.record[i].at <= s'.clock by {
      if s'.record != s.record {
        InsertKeepsStamps(s.record, Entry(EventOf(s.phases[c].request), s.phases[c].begunAt), s.clock);
      }
    }
  }

  /** No write adds a second submission: what the snapshot lacks, the record still lacks. */
  lemma WriteKeepsOnePerTrade(s: State, c: Client, leaseHeld: bool)
    requires Safe(s) && Enabled(s, Write(c, leaseHeld))
    ensures OnePerTrade(Next(s, Write(c, leaseHeld)).record)
  {
    var request, snapshot := s.phases[c].request, s.phases[c].snapshot;
    if Accepts(request, snapshot, s.budgetMint, leaseHeld) {
      if request.Submit? && AlreadySubmitted(s.record, request.tradeId) {
        SnapshotKnowsSubmissions(snapshot, s.record, request.tradeId);
      }
      InsertOnce(s.record, Entry(EventOf(request), s.phases[c].begunAt));
    }
  }

  lemma WriteKeepsSafe(s: State, c: Client, leaseHeld: bool)
    requires Safe(s) && Enabled(s, Write(c, leaseHeld))
    ensures Safe(Next(s, Write(c, leaseHeld)))
  {
    WriteKeepsOrder(s, c, leaseHeld);
    WriteKeepsOnePerTrade(s, c, leaseHeld);
  }

  lemma StepKeepsSafe(s: State, a: Action)
    requires Safe(s)
    ensures Safe(Next(s, a))
  {
    if Enabled(s, a) {
      match a
      case Write(c, leaseHeld) => WriteKeepsSafe(s, c, leaseHeld);
      case Outside(event) => OutsideKeepsSafe(s, event);
      case _ =>
    }
  }

  /**
   * In every reachable state at most one transaction is past the lock, what it read is the record but for
   * lock-free events, no trade has two submissions, and the replayed budget commits no more than the grant.
   */
  lemma {:induction false} EveryRunIsSafe(budgetMint: Option<Mint>, actions: seq<Action>)
    ensures Safe(Run(Start(budgetMint), actions))
    ensures Run(Start(budgetMint), actions).budgetMint == budgetMint
    ensures BooksOf(Run(Start(budgetMint), actions).record, budgetMint).budget.WithinGrant()
  {
    if actions != [] {
      EveryRunIsSafe(budgetMint, actions[..|actions| - 1]);
      StepKeepsSafe(Run(Start(budgetMint), actions[..|actions| - 1]), actions[|actions| - 1]);
    }
  }

  // ----- accepted reservations -----

  /** The write lands last: nothing in the record is stamped after its transaction began. */
  ghost predicate LandsLast(s: State, a: Action) {
    a.Write? && Enabled(s, a) ==>
      forall i :: 0 <= i < |s.record| ==> s.record[i].at <= s.phases[a.client].begunAt
  }

  ghost predicate AlwaysLandsLast(s: State, actions: seq<Action>) {
    forall n :: 0 <= n < |actions| ==> LandsLast(Run(s, actions[..n]), actions[n])
  }

  /** Each accepted intent is in the record where it was put, and fitted what was free there. */
  ghost predicate AcceptancesFit(s: State) {
    forall k :: 0 <= k < |s.acceptances| ==>
      var a := s.acceptances[k];
      && a.place < |s.record|
      && Screened(a.trade).Success?
      && s.record[a.place].event == IntentOf(a.trade)
      && Cost(a.trade, s.budgetMint) <= FreeOf(BooksOf(s.record[..a.place], s.budgetMint))
  }

  lemma GrowingKeepsAcceptances(s: State, s': State, entry: Entry)
    requires AcceptancesFit(s)
    requires s'.record == s.record + [entry] && s'.acceptances == s.acceptances && s'.budgetMint == s.budgetMint
    ensures AcceptancesFit(s')
  {
    forall k | 0 <= k < |s.acceptances|
      ensures s'.record[..s.acceptances[k].place] == s.record[..s.acceptances[k].place]
    {
    }
  }

  /** What is free when an accepted reservation is written is enough for it. */
  lemma AcceptedStillFits(s: State, c: Client, trade: TradeToReserve, leaseHeld: bool)
    requires Safe(s) && Enabled(s, Write(c, leaseHeld)) && s.phases[c].request == Reserve(trade)
    requires Accepts(Reserve(trade), s.phases[c].snapshot, s.budgetMint, leaseHeld)
    ensures Screened(trade).Success? && Cost(trade, s.budgetMint) <= FreeOf(BooksOf(s.record, s.budgetMint))
  {
    var snapshot := s.phases[c].snapshot;
    var meanwhile := s.record[|snapshot|..];
    assert s.record == snapshot + meanwhile;
    AcceptedAtTheEndIsHeld(snapshot, meanwhile, trade, s.budgetMint, s.phases[c].begunAt);
  }

  lemma AcceptedWriteFits(s: State, c: Client, leaseHeld: bool)
    requires Safe(s) && AcceptancesFit(s) && Enabled(s, Write(c, leaseHeld)) && LandsLast(s, Write(c, leaseHeld))
    ensures AcceptancesFit(Next(s, Write(c, leaseHeld)))
  {
    var request, snapshot := s.phases[c].request, s.phases[c].snapshot;
    if Accepts(request, snapshot, s.budgetMint, leaseHeld) {
      var entry := Entry(EventOf(request), s.phases[c].begunAt);
      InsertAtEnd(s.record, entry);
      GrowingKeepsAcceptances(s, s.(record := s.record + [entry]), entry);
      if request.Reserve? {
        AcceptedStillFits(s, c, request.trade, leaseHeld);
        assert (s.record + [entry])[..|s.record|] == s.record;
      }
    }
  }

  lemma StepKeepsAcceptances(s: State, a: Action)
    requires Safe(s) && AcceptancesFit(s) && LandsLast(s, a)
    ensures AcceptancesFit(Next(s, a))
  {
    if Enabled(s, a) {
      match a
      case Write(c, leaseHeld) => AcceptedWriteFits(s, c, leaseHeld);
      case Outside(event) =>
        InsertAtEnd(s.record, Entry(event, s.clock));
        GrowingKeepsAcceptances(s, Next(s, a), Entry(event, s.clock));
      case _ =>
    }
  }

  lemma {:induction false} AcceptancesFitInEveryRun(budgetMint: Option<Mint>, actions: seq<Action>)
    requires AlwaysLandsLast(Start(budgetMint), actions)
    ensures AcceptancesFit(Run(Start(budgetMint), actions))
  {
    if actions != [] {
      var n := |actions| - 1;
      forall k | 0 <= k < n
        ensures LandsLast(Run(Start(budgetMint), actions[..n][..k]), actions[..n][k])
      {
        assert actions[..n][..k] == actions[..k];
      }
      AcceptancesFitInEveryRun(budgetMint, actions[..n]);
      EveryRunIsSafe(budgetMint, actions[..n]);
      StepKeepsAcceptances(Run(Start(budgetMint), actions[..n]), actions[n]);
    }
  }

  lemma HeldOnwards(record: seq<Entry>, from: nat, id: TradeId, budgetMint: Option<Mint>)
    requires from <= |record| && id in BooksOf(record[..from], budgetMint).held
    requires forall i :: from <= i < |record| ==> !IsOutcomeOf(record[i].event, id)
    ensures id in BooksOf(record, budgetMint).held
    ensures BooksOf(record, budgetMint).held[id] == BooksOf(record[..from], budgetMint).held[id]
  {
    assert record == record[..from] + record[from..];
    BooksAppend(record[..from], record[from..], budgetMint);
    HeldUntilItsOutcome(BooksOf(record[..from], budgetMint), Events(record[from..]), id, budgetMint);
  }

  lemma IntentThatFitsIsHeld(books: Books, trade: TradeToReserve, budgetMint: Option<Mint>)
    requires Balanced(books) && Screened(trade).Success?
    requires trade.tradeId !in books.held && Cost(trade, budgetMint) <= FreeOf(books)
    ensures var after := After(books, IntentOf(trade), budgetMint);
            && trade.tradeId in after.held
            && after.held[trade.tradeId].reserved == Cost(trade, budgetMint)
            && FreeOf(after) == FreeOf(books) - Cost(trade, budgetMint)
  {
    StepKeepsBalance(books, IntentOf(trade), budgetMint);
  }

  lemma HeldFromItsPlace(record: seq<Entry>, place: nat, trade: TradeToReserve, budgetMint: Option<Mint>)
    requires place < |record| && Screened(trade).Success? && record[place].event == IntentOf(trade)
    requires Cost(trade, budgetMint) <= FreeOf(BooksOf(record[..place], budgetMint))
    requires trade.tradeId !in BooksOf(record[..place], budgetMint).held
    requires forall i :: place < i < |record| ==> !IsOutcomeOf(record[i].event, trade.tradeId)
    ensures trade.tradeId in BooksOf(record, budgetMint).held
    ensures BooksOf(record, budgetMint).held[trade.tradeId].reserved == Cost(trade, budgetMint)
  {
    assert record[..place + 1] == record[..place] + [record[place]];
    BooksPush(record[..place], record[place], budgetMint);
    IntentThatFitsIsHeld(BooksOf(record[..place], budgetMint), trade, budgetMint);
    HeldOnwards(record, place + 1, trade.tradeId, budgetMint);
  }

  /**
   * When no transaction is overtaken by a later stamp, every accepted reservation whose trade was not
   * already open is held on replay for exactly what was answered, until an outcome of its own is read.
   */
  lemma AcceptedReservationsAreHeld(budgetMint: Option<Mint>, actions: seq<Action>, k: nat)
    requires AlwaysLandsLast(Start(budgetMint), actions)
    requires k < |Run(Start(budgetMint), actions).acceptances|
    ensures var s := Run(Start(budgetMint), actions);
            var a := s.acceptances[k];
            && a.place < |s.record|
            && Screened(a.trade).Success?
            && (&& a.trade.tradeId !in BooksOf(s.record[..a.place], budgetMint).held
                && (forall i :: a.place < i < |s.record| ==> !IsOutcomeOf(s.record[i].event, a.trade.tradeId))
                ==> && a.trade.tradeId in BooksOf(s.record, budgetMint).held
                    && BooksOf(s.record, budgetMint).held[a.trade.tradeId].reserved == Cost(a.trade, budgetMint))
  {
    AcceptancesFitInEveryRun(budgetMint, actions);
    EveryRunIsSafe(budgetMint, actions);
    var s := Run(Start(budgetMint), actions);
    var a := s.acceptances[k];
    if a.trade.tradeId !in BooksOf(s.record[..a.place], budgetMint).held
       && forall i :: a.place < i < |s.record| ==> !IsOutcomeOf(s.record[i].event, a.trade.tradeId) {
      HeldFromItsPlace(s.record, a.place, a.trade, budgetMint);
    }
  }

  // ----- with no condition on the order -----

  predicate Stands(record: seq<Entry>, trade: TradeToReserve, p: int) {
    0 <= p < |record| && Screened(trade).Success? && record[p].event == IntentOf(trade)
  }

  ghost predicate AcceptanceStands(s: State, k: nat)
    requires k < |s.acceptances|
  {
    exists p :: Stands(s.record, s.acceptances[k].trade, p)
  }

  /** Each accepted intent is somewhere in the record. */
  ghost predicate AcceptancesStand(s: State) {
    forall k: nat | k < |s.acceptances| :: AcceptanceStands(s, k)
  }

  lemma InsertKeepsStanding(record: seq<Entry>, entry: Entry, trade: TradeToReserve, p: int)
    requires Stands(record, trade, p)
    ensures Stands(Insert(record, entry), trade, if p < Place(record, entry.at) then p else p + 1)
  {
  }

  lemma StepKeepsStanding(s: State, a: Action, k: nat)
    requires AcceptancesStand(s) && k < |Next(s, a).acceptances|
    ensures AcceptanceStands(Next(s, a), k)
  {
    var s' := Next(s, a);
    if k < |s.acceptances| {
      assert AcceptanceStands(s, k);
      var p :| Stands(s.record, s.acceptances[k].trade, p);
      if s'.record == s.record {
        assert Stands(s'.record, s'.acceptances[k].trade, p);
      } else {
        var entry := if a.Outside? then Entry(a.event, s.clock)
                     else Entry(EventOf(s.phases[a.client].request), s.phases[a.client].begunAt);
        InsertKeepsStanding(s.record, entry, s.acceptances[k].trade, p);
      }
    } else {
      assert Stands(s'.record, s'.acceptances[k].trade, s'.acceptances[k].place);
    }
  }

  lemma StepKeepsAllStanding(s: State, a: Action)
    requires AcceptancesStand(s)
    ensures AcceptancesStand(Next(s, a))
  {
    forall k: nat | k < |Next(s, a).acceptances|
      ensures AcceptanceStands(Next(s, a), k)
    {
      StepKeepsStanding(s, a, k);
    }
  }

  lemma {:induction false} AcceptancesStandInEveryRun(budgetMint: Option<Mint>, actions: seq<Action>)
    ensures AcceptancesStand(Run(Start(budgetMint), actions))
  {
    if actions != [] {
      AcceptancesStandInEveryRun(budgetMint, actions[..|actions| - 1]);
      StepKeepsAllStanding(Run(Start(budgetMint), actions[..|actions| - 1]), actions[|actions| - 1]);
    }
  }

  /**
   * In every run, overtaken or not: an accepted reservation whose trade no other event names stands in the
   * record, and is held on replay exactly when it fits what is free where it stands.
   */
  lemma HeldExactlyWhenItFitsInEveryRun(budgetMint: Option<Mint>, actions: seq<Action>, k: nat) returns (p: nat)
    requires k < |Run(Start(budgetMint), actions).acceptances|
    ensures var s := Run(Start(budgetMint), actions);
            var trade := s.acceptances[k].trade;
            && Stands(s.record, trade, p)
            && ((forall i :: 0 <= i < |s.record| && i != p ==> !NamesTrade(s.record[i].event, trade.tradeId)) ==>
                  (trade.tradeId in BooksOf(s.record, budgetMint).held
                   <==> Cost(trade, budgetMint) <= FreeOf(BooksOf(s.record[..p], budgetMint))))
  {
    AcceptancesStandInEveryRun(budgetMint, actions);
    var s := Run(Start(budgetMint), actions);
    var trade := s.acceptances[k].trade;
    assert AcceptanceStands(s, k);
    var q :| Stands(s.record, trade, q);
    p := q;
    if forall i :: 0 <= i < |s.record| && i != p ==> !NamesTrade(s.record[i].event, trade.tradeId) {
      NotOpenBefore(s.record, p, trade.tradeId, budgetMint);
      HeldExactlyWhenItFits(s.record, p, trade, budgetMint);
    }
  }

  /** No write of a transaction that began before `stamp`: what is inserted is read after what is stamped then. */
  ghost predicate LandsBehind(s: State, a: Action, stamp: int) {
    a.Write? && Enabled(s, a) ==> stamp <= s.phases[a.client].begunAt
  }

  ghost predicate AlwaysLandsBehind(s: State, actions: seq<Action>, stamp: int) {
    forall n :: 0 <= n < |actions| ==> LandsBehind(Run(s, actions[..n]), actions[n], stamp)
  }

  lemma StepLandsBehind(s: State, a: Action, p: nat)
    requires Safe(s) && p < |s.record| && LandsBehind(s, a, s.record[p].at)
    ensures p < |Next(s, a).record| && Next(s, a).record[..p + 1] == s.record[..p + 1]
  {
    if Enabled(s, a) && a.Write? {
      PlaceSplits(s.record, s.phases[a.client].begunAt);
    } else if Enabled(s, a) && a.Outside? {
      PlaceSplits(s.record, s.clock);
    }
  }

  lemma {:induction false} RunLandsBehind(s: State, actions: seq<Action>, p: nat)
    requires Safe(s) && p < |s.record| && AlwaysLandsBehind(s, actions, s.record[p].at)
    ensures var s' := Run(s, actions);
            Safe(s') && s'.budgetMint == s.budgetMint && p < |s'.record| && s'.record[..p + 1] == s.record[..p + 1]
  {
    if actions != [] {
      var n := |actions| - 1;
      assert forall k | 0 <= k < n :: actions[..n][..k] == actions[..k] && actions[..n][k] == actions[k];
      RunLandsBehind(s, actions[..n], p);
      var before := Run(s, actions[..n]);
      assert before.record[..p + 1][p] == s.record[..p + 1][p];
      StepKeepsSafe(before, actions[n]);
      StepLandsBehind(before, actions[n], p);
    }
  }

  /**
   * In every run: a reservation that fits where it stands, its trade not open before it, stays held for its
   * cost until its own outcome, as long as no transaction that began before it is written after it. What else
   * is overtaken, and by what, does not matter.
   */
  lemma StaysHeldUnlessOvertaken(
      budgetMint: Option<Mint>, actions: seq<Action>, later: seq<Action>, trade: TradeToReserve, p: nat)
    requires var s := Run(Start(budgetMint), actions);
             && Stands(s.record, trade, p)
             && trade.tradeId !in BooksOf(s.record[..p], budgetMint).held
             && Cost(trade, budgetMint) <= FreeOf(BooksOf(s.record[..p], budgetMint))
             && AlwaysLandsBehind(s, later, s.record[p].at)
    ensures var s' := Run(Run(Start(budgetMint), actions), later);
            && Stands(s'.record, trade, p)
            && ((forall i :: p < i < |s'.record| ==> !IsOutcomeOf(s'.record[i].event, trade.tradeId)) ==>
                  && trade.tradeId in BooksOf(s'.record, budgetMint).held
                  && BooksOf(s'.record, budgetMint).held[trade.tradeId].reserved == Cost(trade, budgetMint))
  {
    var s := Run(Start(budgetMint), actions);
    EveryRunIsSafe(budgetMint, actions);
    RunLandsBehind(s, later, p);
    var s' := Run(s, later);
    assert s'.record[..p] == s'.record[..p + 1][..p] == s.record[..p];
    assert s'.record[p] == s'.record[..p + 1][p] == s.record[p];
    if forall i :: p < i < |s'.record| ==> !IsOutcomeOf(s'.record[i].event, trade.tradeId) {
      HeldFromItsPlace(s'.record, p, trade, budgetMint);
    }
  }

  /**
   * For one reservation among transactions overtaken at will: if it is accepted, its own write lands last and
   * its trade was not open, it is held for its cost until its own outcome, as long as no transaction that began
   * before it is written after it.
   */
  lemma AcceptedIsHeldUnlessOvertaken(
      budgetMint: Option<Mint>, actions: seq<Action>, c: Client, leaseHeld: bool, trade: TradeToReserve,
      later: seq<Action>)
    requires var s := Run(Start(budgetMint), actions);
             && Enabled(s, Write(c, leaseHeld)) && s.phases[c].request == Reserve(trade)
             && Accepts(Reserve(trade), s.phases[c].snapshot, budgetMint, leaseHeld)
             && LandsLast(s, Write(c, leaseHeld))
             && trade.tradeId !in BooksOf(s.record, budgetMint).held
             && AlwaysLandsBehind(Next(s, Write(c, leaseHeld)), later, s.phases[c].begunAt)
    ensures var p := |Run(Start(budgetMint), actions).record|;
            var s' := Run(Run(Start(budgetMint), actions + [Write(c, leaseHeld)]), later);
            && Stands(s'.record, trade, p)
            && ((forall i :: p < i < |s'.record| ==> !IsOutcomeOf(s'.record[i].event, trade.tradeId)) ==>
                  && trade.tradeId in BooksOf(s'.record, budgetMint).held
                  && BooksOf(s'.record, budgetMint).held[trade.tradeId].reserved == Cost(trade, budgetMint))
  {
    var s := Run(Start(budgetMint), actions);
    var entry := Entry(IntentOf(trade), s.phases[c].begunAt);
    EveryRunIsSafe(budgetMint, actions);
    AcceptedStillFits(s, c, trade, leaseHeld);
    InsertAtEnd(s.record, entry);
    RunPush(Start(budgetMint), actions, Write(c, leaseHeld));
    var written := Next(s, Write(c, leaseHeld));
    assert written.record == s.record + [entry] && written.record[..|s.record|] == s.record;
    StaysHeldUnlessOvertaken(budgetMint, actions + [Write(c, leaseHeld)], later, trade, |s.record|);
  }
}
