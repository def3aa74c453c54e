/**
 * Any number of reservations racing for one budget: the lock settles how many are admitted
 * (packages/db/src/ledger.ts).
 */
module LedgerRaces {
  import opened Arithmetic
  import opened Results
  import opened Record
  import opened Budgets
  import opened MachineBudgets
  import opened BudgetLaws
  import opened Ledger
  import opened Stamps
  import opened LedgerProtocol

  // ----- racing reservations -----

  type Racers = map<Client, TradeToReserve>

  /** Each racing transaction asks for a fresh trade of its own, all at the same cost. */
  ghost predicate Racing(trades: Racers, cost: nat, s: State) {
    && cost > 0
    && (forall c :: c in trades ==>
          && c !in s.phases
          && Screened(trades[c]).Success?
          && Cost(trades[c], s.budgetMint) == cost
          && trades[c].tradeId !in BooksOf(s.record, s.budgetMint).held)
    && (forall c, d :: c in trades && d in trades && c != d ==> trades[c].tradeId != trades[d].tradeId)
  }

  /** Nothing happens but the racers' own steps and the clock; every racer's lease is good. */
  predicate RaceOnly(trades: Racers, a: Action) {
    match a
    case Tick(_) => true
    case Begin(c, request) => c in trades && request == Reserve(trades[c])
    case TakeLock(c) => c in trades
    case ReadRecord(c) => c in trades
    case Write(c, leaseHeld) => c in trades && leaseHeld
    case Commit(c) => c in trades
    case Outside(_) => false
  }

  predicate HasAnswer(s: State, c: Client) {
    c in s.phases && (s.phases[c].Answered? || s.phases[c].Done?)
  }

  /** The intent of some racer that has its answer. */
  ghost predicate AskedByRacer(trades: Racers, s: State, event: Event) {
    event.Intended? &&
    exists c :: c in trades && HasAnswer(s, c) && Screened(trades[c]).Success? && event == IntentOf(trades[c])
  }

  predicate RacerPhase(trades: Racers, s0: State, s: State, c: Client)
    requires c in trades && c in s.phases
  {
    var phase := s.phases[c];
    || HasAnswer(s, c)
    || (phase.request == Reserve(trades[c]) && s0.clock <= phase.begunAt
        && (phase.Decided? ==> phase.snapshot == s.record))
  }

  /** What the race has not touched, and what it added at the end: racers' intents, each once. */
  ghost predicate RaceRecord(trades: Racers, s0: State, s: State) {
    && |s0.record| <= |s.record|
    && s.record[..|s0.record|] == s0.record
    && s.budgetMint == s0.budgetMint
    && s0.clock <= s.clock
    && (forall c :: c in trades && c in s.phases ==> RacerPhase(trades, s0, s, c))
    && (forall i :: |s0.record| <= i < |s.record| ==> AskedByRacer(trades, s, s.record[i].event))
    && (forall i, j :: |s0.record| <= i < j < |s.record| ==> s.record[i].event.tradeId != s.record[j].event.tradeId)
  }

  /** `n` times the cost, added up. */
  function Together(n: nat, cost: nat): nat {
    if n == 0 then 0 else Together(n - 1, cost) + cost
  }

  lemma {:induction false} TogetherIsProduct(n: nat, cost: nat)
    ensures Together(n, cost) == n * cost
  {
    if n > 0 {
      TogetherIsProduct(n - 1, cost);
      assert n * cost == (n - 1) * cost + cost;
    }
  }

  ghost predicate RaceCount(cost: nat, s0: State, s: State)
    requires cost > 0
  {
    var free := FreeOf(BooksOf(s0.record, s0.budgetMint));
    var admitted := |s.record| - |s0.record|;
    && |s.acceptances| - |s0.acceptances| == admitted
    && 0 <= s.answers - s0.answers
    && 0 <= admitted
    && Together(admitted, cost) <= free
    && admitted == Min(s.answers - s0.answers, free / cost)
  }

  // ----- arithmetic of shares -----

  /** Admitting one more when it fits, and not otherwise, follows the quotient. */
  lemma NextShare(free: nat, cost: nat, admitted: nat, answered: nat)
    requires cost > 0 && Together(admitted, cost) <= free
    requires admitted == Min(answered, free / cost)
    ensures cost <= free - Together(admitted, cost) ==> admitted + 1 == Min(answered + 1, free / cost)
    ensures cost > free - Together(admitted, cost) ==> admitted == Min(answered + 1, free / cost)
  {
    TogetherIsProduct(admitted + 1, cost);
    QuotientIsLargest(free, cost, admitted + 1);
  }

  // ----- the books of a race -----

  ghost predicate EqualIntents(entries: seq<Entry>, cost: nat, budgetMint: Option<Mint>, held: set<TradeId>) {
    && (forall i :: 0 <= i < |entries| ==>
          && entries[i].event.Intended?
          && Wanted(budgetMint, entries[i].event.inputMint, entries[i].event.inputAmount,
                    OrZero(entries[i].event.feeAllowance)) == cost
          && entries[i].event.tradeId !in held)
    && (forall i, j :: 0 <= i < j < |entries| ==> entries[i].event.tradeId != entries[j].event.tradeId)
  }

  lemma IntentTakesItsCost(books: Books, event: Event, budgetMint: Option<Mint>)
    requires Balanced(books) && event.Intended? && event.tradeId !in books.held
    ensures var cost := Wanted(budgetMint, event.inputMint, event.inputAmount, OrZero(event.feeAllowance));
            var after := After(books, event, budgetMint);
            && after.held.Keys <= books.held.Keys + {event.tradeId}
            && (cost <= FreeOf(books) ==> FreeOf(after) == FreeOf(books) - cost)
  {
    StepKeepsBalance(books, event, budgetMint);
  }

  ghost predicate AllTaken(books: Books, after: Books, entries: seq<Entry>, spent: nat)
    requires Balanced(books) && Balanced(after)
  {
    && FreeOf(after) == FreeOf(books) - spent
    && forall id :: id in after.held ==>
         id in books.held
         || exists i :: 0 <= i < |entries| && entries[i].event.Intended? && entries[i].event.tradeId == id
  }

  lemma OneMoreIntent(books: Books, before: Books, entries: seq<Entry>, spent: nat, cost: nat, budgetMint: Option<Mint>)
    requires Balanced(books) && Balanced(before)
    requires entries != [] && EqualIntents(entries, cost, budgetMint, books.held.Keys)
    requires AllTaken(books, before, entries[..|entries| - 1], spent) && spent + cost <= FreeOf(books)
    ensures AllTaken(books, After(before, entries[|entries| - 1].event, budgetMint), entries, spent + cost)
  {
    var event := entries[|entries| - 1].event;
    assert event.tradeId !in before.held;
    IntentTakesItsCost(before, event, budgetMint);
    var after := After(before, event, budgetMint);
    forall id | id in after.held
      ensures id in books.held
           || exists i :: 0 <= i < |entries| && entries[i].event.Intended? && entries[i].event.tradeId == id
    {
      if id !in books.held && id in before.held {
        var i :| 0 <= i < |entries[..|entries| - 1]| && entries[..|entries| - 1][i].event.Intended?
                 && entries[..|entries| - 1][i].event.tradeId == id;
        assert entries[i].event.tradeId == id;
      }
    }
  }

  lemma LastIsReplayed(books: Books, entries: seq<Entry>, budgetMint: Option<Mint>)
    requires Balanced(books) && entries != []
    ensures var n := |entries| - 1;
            ReplayFrom(books, Events(entries), budgetMint)
            == After(ReplayFrom(books, Events(entries[..n]), budgetMint), entries[n].event, budgetMint)
  {
    var n := |entries| - 1;
    assert Events(entries) == Events(entries[..n]) + [entries[n].event];
    ReplayPush(books, Events(entries[..n]), entries[n].event, budgetMint);
  }

  /** Fresh intents of equal cost, in whatever order they are read, each take their cost while they fit. */
  lemma {:induction false} EqualIntentsAllFit(books: Books, cost: nat, entries: seq<Entry>, budgetMint: Option<Mint>)
    requires Balanced(books)
    requires EqualIntents(entries, cost, budgetMint, books.held.Keys)
    requires Together(|entries|, cost) <= FreeOf(books)
    ensures AllTaken(books, ReplayFrom(books, Events(entries), budgetMint), entries, Together(|entries|, cost))
  {
    if entries != [] {
      var n := |entries| - 1;
      EqualIntentsAllFit(books, cost, entries[..n], budgetMint);
      OneMoreIntent(books, ReplayFrom(books, Events(entries[..n]), budgetMint), entries, Together(n, cost), cost,
        budgetMint);
      LastIsReplayed(books, entries, budgetMint);
    }
  }

  lemma AddedAreEqualIntents(trades: Racers, cost: nat, s0: State, s: State, added: seq<Entry>)
    requires Racing(trades, cost, s0) && RaceRecord(trades, s0, s)
    requires added == s.record[|s0.record|..]
    ensures EqualIntents(added, cost, s.budgetMint, BooksOf(s0.record, s0.budgetMint).held.Keys)
  {
    forall i | 0 <= i < |added|
      ensures added[i].event.Intended?
      ensures Wanted(s.budgetMint, added[i].event.inputMint, added[i].event.inputAmount,
                     OrZero(added[i].event.feeAllowance)) == cost
      ensures added[i].event.tradeId !in BooksOf(s0.record, s0.budgetMint).held
    {
      assert AskedByRacer(trades, s, s.record[|s0.record| + i].event);
    }
  }

  lemma RaceLeaves(trades: Racers, cost: nat, s0: State, s: State)
    requires Racing(trades, cost, s0) && RaceRecord(trades, s0, s) && RaceCount(cost, s0, s)
    ensures FreeOf(BooksOf(s.record, s.budgetMint))
         == FreeOf(BooksOf(s0.record, s0.budgetMint)) - Together(|s.record| - |s0.record|, cost)
  {
    var added := s.record[|s0.record|..];
    AddedAreEqualIntents(trades, cost, s0, s, added);
    assert s.record == s0.record + added;
    EqualIntentsLeave(s0.record, cost, added, s0.budgetMint);
  }

  lemma EqualIntentsLeave(record: seq<Entry>, cost: nat, added: seq<Entry>, budgetMint: Option<Mint>)
    requires EqualIntents(added, cost, budgetMint, BooksOf(record, budgetMint).held.Keys)
    requires Together(|added|, cost) <= FreeOf(BooksOf(record, budgetMint))
    ensures FreeOf(BooksOf(record + added, budgetMint)) == FreeOf(BooksOf(record, budgetMint)) - Together(|added|, cost)
  {
    BooksAppend(record, added, budgetMint);
    EqualIntentsAllFit(BooksOf(record, budgetMint), cost, added, budgetMint);
  }

  // ----- every step of the race -----

  lemma StillAsked(trades: Racers, s: State, s': State, event: Event)
    requires AskedByRacer(trades, s, event)
    requires forall c :: HasAnswer(s, c) ==> HasAnswer(s', c)
    ensures AskedByRacer(trades, s', event)
  {
    var c :| c in trades && HasAnswer(s, c) && Screened(trades[c]).Success? && event == IntentOf(trades[c]);
    assert HasAnswer(s', c);
  }

  /** Steps other than a write leave the record alone. */
  lemma QuietStep(trades: Racers, s0: State, s: State, a: Action)
    requires Safe(s) && RaceRecord(trades, s0, s)
    requires RaceOnly(trades, a) && !a.Write?
    ensures RaceRecord(trades, s0, Next(s, a))
    ensures Next(s, a).record == s.record && Next(s, a).acceptances == s.acceptances && Next(s, a).answers == s.answers
  {
    var s' := Next(s, a);
    assert forall c :: HasAnswer(s, c) ==> HasAnswer(s', c);
    forall i | |s0.record| <= i < |s'.record|
      ensures AskedByRacer(trades, s', s'.record[i].event)
    {
      StillAsked(trades, s, s', s.record[i].event);
    }
  }

  lemma {:induction false} PlacedAfter(record: seq<Entry>, n: nat, at: int)
    requires n <= |record| && forall i :: 0 <= i < n ==> record[i].at <= at
    ensures n <= Place(record, at)
  {
    if record != [] && record[|record| - 1].at > at {
      PlacedAfter(record[..|record| - 1], n, at);
    }
  }

  lemma NewcomerIsDifferent(trades: Racers, cost: nat, s0: State, s: State, c: Client)
    requires Racing(trades, cost, s0) && RaceRecord(trades, s0, s)
    requires c in trades && c in s.phases && s.phases[c].Decided?
    ensures forall i :: |s0.record| <= i < |s.record| ==> s.record[i].event.tradeId != trades[c].tradeId
  {
    forall i | |s0.record| <= i < |s.record|
      ensures s.record[i].event.tradeId != trades[c].tradeId
    {
      assert AskedByRacer(trades, s, s.record[i].event);
      var d :| d in trades && HasAnswer(s, d) && Screened(trades[d]).Success?
          && s.record[i].event == IntentOf(trades[d]);
      assert d != c;
    }
  }

  lemma StillEachOnce(record: seq<Entry>, base: nat, place: nat, entry: Entry)
    requires base <= place <= |record|
    requires forall i :: base <= i < |record| ==> record[i].event.Intended?
    requires forall i, j :: base <= i < j < |record| ==> record[i].event.tradeId != record[j].event.tradeId
    requires entry.event.Intended?
    requires forall i :: base <= i < |record| ==> record[i].event.tradeId != entry.event.tradeId
    ensures var longer := record[..place] + [entry] + record[place..];
            forall i, j :: base <= i < j < |longer| ==>
              longer[i].event.Intended? && longer[j].event.Intended?
                && longer[i].event.tradeId != longer[j].event.tradeId
  {
    var longer := record[..place] + [entry] + record[place..];
    forall i, j | base <= i < j < |longer|
      ensures longer[i].event.Intended? && longer[j].event.Intended?
          && longer[i].event.tradeId != longer[j].event.tradeId
    {
      var i' := if i < place then i else i - 1;
      var j' := if j < place then j else j - 1;
      assert i != place ==> longer[i] == record[i'];
      assert j != place ==> longer[j] == record[j'];
    }
  }

  lemma StillAllAsked(trades: Racers, s: State, s': State, base: nat, place: nat, entry: Entry)
    requires base <= place <= |s.record|
    requires s'.record == s.record[..place] + [entry] + s.record[place..]
    requires forall i :: base <= i < |s.record| ==> AskedByRacer(trades, s, s.record[i].event)
    requires forall d :: HasAnswer(s, d) ==> HasAnswer(s', d)
    requires AskedByRacer(trades, s', entry.event)
    ensures forall i :: base <= i < |s'.record| ==> AskedByRacer(trades, s', s'.record[i].event)
  {
    forall i | base <= i < |s'.record|
      ensures AskedByRacer(trades, s', s'.record[i].event)
    {
      if i != place {
        StillAsked(trades, s, s', s.record[if i < place then i else i - 1].event);
      }
    }
  }

  lemma AcceptedRacer(trades: Racers, cost: nat, s0: State, s: State, s': State, c: Client)
    requires Safe(s0) && Safe(s) && Racing(trades, cost, s0) && RaceRecord(trades, s0, s)
    requires c in trades && c in s.phases && s.phases[c].Decided? && s.phases[c].request == Reserve(trades[c])
    requires s'.record == Insert(s.record, Entry(IntentOf(trades[c]), s.phases[c].begunAt))
    requires s'.phases == s.phases[c := Answered(true)] && s'.budgetMint == s.budgetMint && s'.clock == s.clock
    ensures RaceRecord(trades, s0, s')
  {
    var base, at := |s0.record|, s.phases[c].begunAt;
    var place, entry := Place(s.record, at), Entry(IntentOf(trades[c]), at);
    assert RacerPhase(trades, s0, s, c);
    assert forall i :: 0 <= i < base ==> s.record[i] == s0.record[i];
    PlacedAfter(s.record, base, at);
    NewcomerIsDifferent(trades, cost, s0, s, c);
    assert HasAnswer(s', c);
    StillAllAsked(trades, s, s', base, place, entry);
    StillEachOnce(s.record, base, place, entry);
    assert s'.record[..base] == s.record[..base];
    NobodyElseDecided(trades, s0, s, c);
  }

  lemma NobodyElseDecided(trades: Racers, s0: State, s: State, c: Client)
    requires Safe(s) && RaceRecord(trades, s0, s)
    requires c in trades && c in s.phases && s.phases[c].Decided?
    ensures forall d :: d in trades && d in s.phases && d != c ==> !s.phases[d].Decided? && RacerPhase(trades, s0, s, d)
  {
    assert s.lock == Some(c);
  }

  lemma RefusedRacer(trades: Racers, s0: State, s: State, c: Client)
    requires Safe(s) && RaceRecord(trades, s0, s)
    requires c in trades && Enabled(s, Write(c, true))
    requires !Accepts(s.phases[c].request, s.phases[c].snapshot, s.budgetMint, true)
    ensures RaceRecord(trades, s0, Next(s, Write(c, true)))
  {
    var s' := Next(s, Write(c, true));
    assert forall d :: HasAnswer(s, d) ==> HasAnswer(s', d);
    forall i | |s0.record| <= i < |s'.record|
      ensures AskedByRacer(trades, s', s'.record[i].event)
    {
      StillAsked(trades, s, s', s.record[i].event);
    }
  }

  /** What a racer's write does to the numbers, told by whether its cost fits what is free. */
  lemma RacerWrites(trade: TradeToReserve, s: State, c: Client, free: nat)
    requires c in s.phases && s.phases[c].Decided? && Screened(trade).Success? && s.phases[c].request == Reserve(trade)
    requires free == FreeOf(BooksOf(s.phases[c].snapshot, s.budgetMint))
    ensures var s', fits := Written(s, c, true), if Cost(trade, s.budgetMint) <= free then 1 else 0;
            && s'.answers == s.answers + 1
            && |s'.acceptances| == |s.acceptances| + fits
            && |s'.record| == |s.record| + fits
  {
  }

  lemma RacerCounted(trade: TradeToReserve, cost: nat, s0: State, s: State, c: Client)
    requires cost > 0 && RaceCount(cost, s0, s)
    requires c in s.phases && s.phases[c].Decided? && Screened(trade).Success? && s.phases[c].request == Reserve(trade)
    requires s.phases[c].snapshot == s.record && Cost(trade, s.budgetMint) == cost
    requires FreeOf(BooksOf(s.record, s.budgetMint))
          == FreeOf(BooksOf(s0.record, s0.budgetMint)) - Together(|s.record| - |s0.record|, cost)
    ensures RaceCount(cost, s0, Written(s, c, true))
  {
    var free := FreeOf(BooksOf(s0.record, s0.budgetMint));
    RacerWrites(trade, s, c, FreeOf(BooksOf(s.record, s.budgetMint)));
    NextShare(free, cost, |s.record| - |s0.record|, s.answers - s0.answers);
    CountMoves(cost, free, s0, s, Written(s, c, true), FreeOf(BooksOf(s.record, s.budgetMint)));
  }

  lemma CountMoves(cost: nat, free: nat, s0: State, s: State, s': State, left: nat)
    requires cost > 0 && RaceCount(cost, s0, s) && free == FreeOf(BooksOf(s0.record, s0.budgetMint))
    requires left == free - Together(|s.record| - |s0.record|, cost)
    requires var fits := if cost <= left then 1 else 0;
             && s'.answers == s.answers + 1
             && |s'.acceptances| == |s.acceptances| + fits
             && |s'.record| == |s.record| + fits
             && |s.record| - |s0.record| + fits == Min(s.answers - s0.answers + 1, free / cost)
    ensures RaceCount(cost, s0, s')
  {
  }

  lemma RaceStep(trades: Racers, cost: nat, s0: State, s: State, a: Action)
    requires Safe(s0) && Safe(s) && Racing(trades, cost, s0)
    requires RaceRecord(trades, s0, s) && RaceCount(cost, s0, s)
    requires RaceOnly(trades, a)
    ensures RaceRecord(trades, s0, Next(s, a)) && RaceCount(cost, s0, Next(s, a))
  {
    if !a.Write? {
      QuietStep(trades, s0, s, a);
    } else if Enabled(s, a) {
      var c := a.client;
      assert RacerPhase(trades, s0, s, c);
      RaceLeaves(trades, cost, s0, s);
      RacerCounted(trades[c], cost, s0, s, c);
      if Accepts(s.phases[c].request, s.phases[c].snapshot, s.budgetMint, true) {
        AcceptedRacer(trades, cost, s0, s, Written(s, c, true), c);
      } else {
        RefusedRacer(trades, s0, s, c);
      }
    }
  }

  lemma {:induction false} RaceKeepsCount(trades: Racers, cost: nat, s0: State, actions: seq<Action>)
    requires Safe(s0) && Racing(trades, cost, s0)
    requires forall i :: 0 <= i < |actions| ==> RaceOnly(trades, actions[i])
    ensures Safe(Run(s0, actions)) && RaceRecord(trades, s0, Run(s0, actions)) && RaceCount(cost, s0, Run(s0, actions))
  {
    if actions == [] {
      QuotientIsLargest(FreeOf(BooksOf(s0.record, s0.budgetMint)), cost, 0);
    } else {
      var n := |actions| - 1;
      RaceKeepsCount(trades, cost, s0, actions[..n]);
      StepKeepsSafe(Run(s0, actions[..n]), actions[n]);
      RaceStep(trades, cost, s0, Run(s0, actions[..n]), actions[n]);
    }
  }

  /**
   * Racing reservations of one cost, from any safe state nobody else disturbs: under every interleaving,
   * once n of them have been answered exactly min(n, available / cost) were admitted.
   */
  lemma RacersShareTheBudget(trades: Racers, cost: nat, s0: State, actions: seq<Action>)
    requires Safe(s0) && Racing(trades, cost, s0)
    requires forall i :: 0 <= i < |actions| ==> RaceOnly(trades, actions[i])
    ensures Safe(Run(s0, actions)) && RaceRecord(trades, s0, Run(s0, actions)) && RaceCount(cost, s0, Run(s0, actions))
    ensures var s := Run(s0, actions);
            |s.acceptances| - |s0.acceptances|
            == Min(s.answers - s0.answers, FreeOf(BooksOf(s0.record, s0.budgetMint)) / cost)
  {
    RaceKeepsCount(trades, cost, s0, actions);
  }
}
