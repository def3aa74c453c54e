/** What the budget promises over a whole record (packages/runtime/src/machine-budget.ts). */
module BudgetLaws {
  import opened Results
  import opened Record
  import opened Budgets
  import opened MachineBudgets

  // ----- spending is bounded by the grant and what came back -----

  /** What an event settles: the real cost, capped at what its trade holds. */
  function SettledBy(books: Books, event: Event): nat {
    if (event.Completed? || event.Simulated?) && event.tradeId in books.held then
      var spent := event.inputAmount + if event.Completed? then event.feeLamports else OrZero(event.feeAllowance);
      Min(spent, books.held[event.tradeId].reserved)
    else 0
  }

  /** What an event brings home in the budget's own currency. */
  function BroughtBackBy(books: Books, event: Event, budgetMint: Option<Mint>): nat {
    if (event.Completed? || event.Simulated?) && event.tradeId in books.held && budgetMint.Some?
       && books.held[event.tradeId].outputMint == budgetMint.value then
      if event.Completed? then event.outputAmount else event.quotedOutputAmount
    else 0
  }

  ghost function TotalSettled(events: seq<Event>, budgetMint: Option<Mint>): nat {
    if events == [] then 0
    else
      var n := |events| - 1;
      TotalSettled(events[..n], budgetMint) + SettledBy(Replay(events[..n], budgetMint), events[n])
  }

  ghost function TotalBroughtBack(events: seq<Event>, budgetMint: Option<Mint>): nat {
    if events == [] then 0
    else
      var n := |events| - 1;
      TotalBroughtBack(events[..n], budgetMint) + BroughtBackBy(Replay(events[..n], budgetMint), events[n], budgetMint)
  }

  /** What the books settle after an event: the cost added, what came back taken off, never below zero. */
  function SettledAfter(books: Books, event: Event, budgetMint: Option<Mint>): nat {
    var moved := books.budget.settled + SettledBy(books, event) - BroughtBackBy(books, event, budgetMint);
    if moved < 0 then 0 else moved
  }

  lemma CompletionSettles(books: Books, event: Event, budgetMint: Option<Mint>)
    requires Balanced(books) && event.Completed? && event.tradeId in books.held
    ensures After(books, event, budgetMint).budget.settled == SettledAfter(books, event, budgetMint)
  {
    CloseMoves(books, event.tradeId, event.inputAmount + event.feeLamports, event.outputAmount, budgetMint);
  }

  lemma SimulationSettles(books: Books, event: Event, budgetMint: Option<Mint>)
    requires Balanced(books) && event.Simulated? && event.tradeId in books.held
    ensures After(books, event, budgetMint).budget.settled == SettledAfter(books, event, budgetMint)
  {
    CloseMoves(books, event.tradeId, event.inputAmount + OrZero(event.feeAllowance), event.quotedOutputAmount,
      budgetMint);
  }

  /** One event moves the settled figure by its cost less what it brought back, never below zero. */
  lemma SettledMoves(books: Books, event: Event, budgetMint: Option<Mint>)
    requires Balanced(books)
    ensures After(books, event, budgetMint).budget.settled == SettledAfter(books, event, budgetMint)
  {
    if event.Completed? && event.tradeId in books.held {
      CompletionSettles(books, event, budgetMint);
    } else if event.Simulated? && event.tradeId in books.held {
      SimulationSettles(books, event, budgetMint);
    } else {
      StepKeepsBalance(books, event, budgetMint);
    }
  }

  lemma {:induction false} SettledCoversSpending(events: seq<Event>, budgetMint: Option<Mint>)
    ensures TotalSettled(events, budgetMint)
         <= Replay(events, budgetMint).budget.settled + TotalBroughtBack(events, budgetMint)
  {
    if events != [] {
      var n := |events| - 1;
      SettledCoversSpending(events[..n], budgetMint);
      assert events == events[..n] + [events[n]];
      ReplayPush(OPENING, events[..n], events[n], budgetMint);
      SettledMoves(Replay(events[..n], budgetMint), events[n], budgetMint);
    }
  }

  /** Over any record, trades never settle more than the final grant plus everything they brought home. */
  lemma SpendingWithinGrant(events: seq<Event>, budgetMint: Option<Mint>)
    ensures TotalSettled(events, budgetMint)
         <= Replay(events, budgetMint).budget.granted + TotalBroughtBack(events, budgetMint)
  {
    SettledCoversSpending(events, budgetMint);
  }

  // ----- a trade ends once -----

  lemma OnlyItsIntentOpensATrade(books: Books, event: Event, tradeId: TradeId, budgetMint: Option<Mint>)
    requires Balanced(books)
    requires tradeId !in books.held && !IsIntentOf(event, tradeId)
    ensures tradeId !in After(books, event, budgetMint).held
  {
    StepKeepsBalance(books, event, budgetMint);
  }

  lemma {:induction false} ClosedStaysClosed(
      books: Books, events: seq<Event>, tradeId: TradeId, budgetMint: Option<Mint>)
    requires Balanced(books)
    requires tradeId !in books.held
    requires forall i :: 0 <= i < |events| ==> !IsIntentOf(events[i], tradeId)
    ensures tradeId !in ReplayFrom(books, events, budgetMint).held
  {
    if events != [] {
      var n := |events| - 1;
      ClosedStaysClosed(books, events[..n], tradeId, budgetMint);
      OnlyItsIntentOpensATrade(ReplayFrom(books, events[..n], budgetMint), events[n], tradeId, budgetMint);
    }
  }

  lemma OutcomeOfClosedTradeIsIgnored(books: Books, event: Event, budgetMint: Option<Mint>)
    requires Balanced(books)
    requires IsOutcome(event) && event.tradeId !in books.held
    ensures After(books, event, budgetMint) == books
  {
  }

  /** A second outcome for a trade, with no new intent for it in between, changes nothing wherever it appears. */
  lemma SecondOutcomeChangesNothing(
      before: seq<Event>, first: Event, between: seq<Event>, second: Event, rest: seq<Event>, budgetMint: Option<Mint>)
    requires IsOutcome(first) && IsOutcomeOf(second, first.tradeId)
    requires forall i :: 0 <= i < |between| ==> !IsIntentOf(between[i], first.tradeId)
    ensures Replay(before + [first] + between + [second] + rest, budgetMint)
         == Replay(before + [first] + between + rest, budgetMint)
  {
    var ended := Replay(before + [first], budgetMint);
    ReplayPush(OPENING, before, first, budgetMint);
    StepKeepsBalance(Replay(before, budgetMint), first, budgetMint);
    assert first.tradeId !in ended.held;
    ClosedStaysClosed(ended, between, first.tradeId, budgetMint);
    ReplayAppend(OPENING, before + [first], between, budgetMint);
    var there := before + [first] + between;
    OutcomeOfClosedTradeIsIgnored(Replay(there, budgetMint), second, budgetMint);
    ReplayPush(OPENING, there, second, budgetMint);
    ReplayAppend(OPENING, there + [second], rest, budgetMint);
    ReplayAppend(OPENING, there, rest, budgetMint);
  }

  // ----- a repeated intent -----

  /**
   * The documentation says a repeated event for the same trade changes nothing. For an intent that holds
   * exactly while its trade is still open or could not be paid for: after an outcome it reserves again.
   */
  lemma IntentIsIgnoredExactlyWhen(books: Books, event: Event, budgetMint: Option<Mint>)
    requires Balanced(books)
    requires event.Intended?
    ensures After(books, event, budgetMint) == books
       <==> || event.tradeId in books.held
            || Wanted(budgetMint, event.inputMint, event.inputAmount, OrZero(event.feeAllowance)) > FreeOf(books)
  {
    StepKeepsBalance(books, event, budgetMint);
    if event.tradeId !in books.held
       && Wanted(budgetMint, event.inputMint, event.inputAmount, OrZero(event.feeAllowance)) <= FreeOf(books) {
      assert event.tradeId in After(books, event, budgetMint).held;
    }
  }

  const GRANT_100 := LimitsChanged(BUDGET_GRANTED, 100)
  const INTENT_40 := Intended("t", "usd", "sol", 40, None)
  const OUTCOME_40 := Completed("t", 40, 7, 0)

  /** From books that can pay for it, the one trade opens and settles at its cost. */
  lemma TradeSpends(events: seq<Event>, settled: nat)
    requires settled + 40 <= 100 && Replay(events, Some("usd")) == Books(Budget(100, 0, settled), map[])
    ensures Replay(events + [INTENT_40] + [OUTCOME_40], Some("usd")) == Books(Budget(100, 0, settled + 40), map[])
  {
    var mint, open := Some("usd"), OpenTrade(40, "usd", "sol");
    ReplayPush(OPENING, events, INTENT_40, mint);
    ReplayPush(OPENING, events + [INTENT_40], OUTCOME_40, mint);
    assert Step(Books(Budget(100, 0, settled), map[]), INTENT_40, mint)
        == Success(Books(Budget(100, 40, settled), map["t" := open]));
    assert map["t" := open] - {"t"} == map[];
    assert Step(Books(Budget(100, 40, settled), map["t" := open]), OUTCOME_40, mint)
        == Success(Books(Budget(100, 0, settled + 40), map[]));
  }

  /** A record of one finished trade; reading its intent and outcome again spends the money again. */
  lemma RepeatedIntentSpendsAgain()
    ensures var once := [GRANT_100, INTENT_40, OUTCOME_40];
            && Replay(once, Some("usd")).budget == Budget(100, 0, 40)
            && Replay(once + once[1..], Some("usd")).budget == Budget(100, 0, 80)
  {
    var once := [GRANT_100, INTENT_40, OUTCOME_40];
    ReplayPush(OPENING, [], GRANT_100, Some("usd"));
    assert [] + [GRANT_100] == [GRANT_100];
    TradeSpends([GRANT_100], 0);
    assert [GRANT_100] + [INTENT_40] + [OUTCOME_40] == once;
    TradeSpends(once, 40);
    assert once + [INTENT_40] + [OUTCOME_40] == once + once[1..];
  }

  // ----- what may be written without the lock -----

  /** Neither a grant nor an intent: the events written by anyone, at any moment, without the machine's lock. */
  predicate LockFree(event: Event) {
    !IsGrant(event) && !event.Intended? && !event.Submitted?
  }

  lemma OutcomeFrees(books: Books, event: Event, budgetMint: Option<Mint>)
    requires Balanced(books)
    requires IsOutcome(event) && event.tradeId in books.held
    ensures var next := After(books, event, budgetMint);
            && next.held == books.held - {event.tradeId}
            && next.budget.granted == books.budget.granted
            && FreeOf(books) <= FreeOf(next)
  {
    match event
    case Simulated(id, inputAmount, quoted, fee) =>
      CloseMoves(books, id, inputAmount + OrZero(fee), quoted, budgetMint);
    case Completed(id, inputAmount, outputAmount, fee) =>
      CloseMoves(books, id, inputAmount + fee, outputAmount, budgetMint);
    case Failed(id) => LetGoMoves(books, id);
    case Refused(id) => LetGoMoves(books, id);
  }

  /** Such an event only ever frees money and only ever closes trades. */
  lemma LockFreeOnlyFrees(books: Books, event: Event, budgetMint: Option<Mint>)
    requires Balanced(books)
    requires LockFree(event)
    ensures var next := After(books, event, budgetMint);
            && FreeOf(books) <= FreeOf(next)
            && next.budget.granted == books.budget.granted
            && next.held.Keys <= books.held.Keys
            && forall id :: id in books.held && !IsOutcomeOf(event, id) ==>
                id in next.held && next.held[id] == books.held[id]
  {
    if IsOutcome(event) && event.tradeId in books.held {
      OutcomeFrees(books, event, budgetMint);
    } else {
      assert After(books, event, budgetMint) == books;
    }
  }

  /** So a snapshot read before any number of them is a lower bound on what is available after. */
  lemma {:induction false} StaleSnapshotIsALowerBound(books: Books, events: seq<Event>, budgetMint: Option<Mint>)
    requires Balanced(books)
    requires forall i :: 0 <= i < |events| ==> LockFree(events[i])
    ensures var later := ReplayFrom(books, events, budgetMint);
            && FreeOf(books) <= FreeOf(later)
            && later.budget.granted == books.budget.granted
            && later.held.Keys <= books.held.Keys
  {
    if events != [] {
      var n := |events| - 1;
      StaleSnapshotIsALowerBound(books, events[..n], budgetMint);
      LockFreeOnlyFrees(ReplayFrom(books, events[..n], budgetMint), events[n], budgetMint);
    }
  }

  lemma OnlyItsOutcomeClosesATrade(books: Books, event: Event, tradeId: TradeId, budgetMint: Option<Mint>)
    requires Balanced(books)
    requires tradeId in books.held && !IsOutcomeOf(event, tradeId)
    ensures var next := After(books, event, budgetMint);
            tradeId in next.held && next.held[tradeId] == books.held[tradeId]
  {
    StepKeepsBalance(books, event, budgetMint);
  }

  /** A held trade stays held, with the same amount, until one of its own outcomes is read. */
  lemma {:induction false} HeldUntilItsOutcome(
      books: Books, events: seq<Event>, tradeId: TradeId, budgetMint: Option<Mint>)
    requires Balanced(books)
    requires tradeId in books.held
    requires forall i :: 0 <= i < |events| ==> !IsOutcomeOf(events[i], tradeId)
    ensures var later := ReplayFrom(books, events, budgetMint);
            tradeId in later.held && later.held[tradeId] == books.held[tradeId]
  {
    if events != [] {
      var n := |events| - 1;
      HeldUntilItsOutcome(books, events[..n], tradeId, budgetMint);
      OnlyItsOutcomeClosesATrade(ReplayFrom(books, events[..n], budgetMint), events[n], tradeId, budgetMint);
    }
  }

  // ----- repeated events -----

  /** The k-th event of a record is an intent that fits where it is read, and no outcome of its trade follows. */
  ghost predicate OpensAt(record: seq<Event>, k: int, tradeId: TradeId, budgetMint: Option<Mint>) {
    && 0 <= k < |record| && IsIntentOf(record[k], tradeId)
    && Fits(Replay(record[..k], budgetMint), record[k], budgetMint)
    && forall j :: k < j < |record| ==> !IsOutcomeOf(record[j], tradeId)
  }

  ghost predicate Fits(books: Books, intent: Event, budgetMint: Option<Mint>)
    requires Balanced(books) && intent.Intended?
  {
    Wanted(budgetMint, intent.inputMint, intent.inputAmount, OrZero(intent.feeAllowance)) <= FreeOf(books)
  }

  ghost predicate IsOpen(record: seq<Event>, tradeId: TradeId, budgetMint: Option<Mint>) {
    exists k :: OpensAt(record, k, tradeId, budgetMint)
  }

  lemma IntentThatFitsOpens(books: Books, intent: Event, budgetMint: Option<Mint>)
    requires Balanced(books) && intent.Intended?
    ensures intent.tradeId in After(books, intent, budgetMint).held
       <==> intent.tradeId in books.held || Fits(books, intent, budgetMint)
  {
    StepKeepsBalance(books, intent, budgetMint);
  }

  lemma OpenIsHeld(record: seq<Event>, k: int, tradeId: TradeId, budgetMint: Option<Mint>)
    requires OpensAt(record, k, tradeId, budgetMint)
    ensures tradeId in Replay(record, budgetMint).held
  {
    var upTo := record[..k + 1];
    ReplayPush(OPENING, record[..k], record[k], budgetMint);
    assert upTo == record[..k] + [record[k]] && record == upTo + record[k + 1..];
    IntentThatFitsOpens(Replay(record[..k], budgetMint), record[k], budgetMint);
    ReplayAppend(OPENING, upTo, record[k + 1..], budgetMint);
    HeldUntilItsOutcome(Replay(upTo, budgetMint), record[k + 1..], tradeId, budgetMint);
  }

  lemma StillOpen(record: seq<Event>, event: Event, tradeId: TradeId, budgetMint: Option<Mint>)
    requires IsOpen(record, tradeId, budgetMint) && !IsOutcomeOf(event, tradeId)
    ensures IsOpen(record + [event], tradeId, budgetMint)
  {
    var k :| OpensAt(record, k, tradeId, budgetMint);
    assert (record + [event])[..k] == record[..k];
    assert OpensAt(record + [event], k, tradeId, budgetMint);
  }

  lemma {:induction false} HeldIsOpen(record: seq<Event>, tradeId: TradeId, budgetMint: Option<Mint>)
    requires tradeId in Replay(record, budgetMint).held
    ensures IsOpen(record, tradeId, budgetMint)
  {
    var n := |record| - 1;
    var before, last := record[..n], record[n];
    assert record == before + [last];
    ReplayPush(OPENING, before, last, budgetMint);
    if tradeId in Replay(before, budgetMint).held {
      HeldIsOpen(before, tradeId, budgetMint);
      if IsOutcomeOf(last, tradeId) {
        OutcomeFrees(Replay(before, budgetMint), last, budgetMint);
        assert false;
      }
      StillOpen(before, last, tradeId, budgetMint);
    } else {
      if !IsIntentOf(last, tradeId) {
        OnlyItsIntentOpensATrade(Replay(before, budgetMint), last, tradeId, budgetMint);
        assert false;
      }
      IntentThatFitsOpens(Replay(before, budgetMint), last, budgetMint);
      assert OpensAt(record, n, tradeId, budgetMint);
    }
  }

  /** A trade is held on replay exactly when an intent of it that fitted has had no outcome since. */
  lemma OpenExactlyWhenHeld(record: seq<Event>, tradeId: TradeId, budgetMint: Option<Mint>)
    ensures tradeId in Replay(record, budgetMint).held <==> IsOpen(record, tradeId, budgetMint)
  {
    if tradeId in Replay(record, budgetMint).held {
      HeldIsOpen(record, tradeId, budgetMint);
    } else if IsOpen(record, tradeId, budgetMint) {
      var k :| OpensAt(record, k, tradeId, budgetMint);
      OpenIsHeld(record, k, tradeId, budgetMint);
    }
  }

  lemma IgnoredExactlyWhenBooksStay(record: seq<Event>, event: Event, budgetMint: Option<Mint>)
    ensures (forall rest :: Replay(record + [event] + rest, budgetMint) == Replay(record + rest, budgetMint))
       <==> After(Replay(record, budgetMint), event, budgetMint) == Replay(record, budgetMint)
  {
    ReplayPush(OPENING, record, event, budgetMint);
    if After(Replay(record, budgetMint), event, budgetMint) == Replay(record, budgetMint) {
      forall rest: seq<Event>
        ensures Replay(record + [event] + rest, budgetMint) == Replay(record + rest, budgetMint)
      {
        ReplayAppend(OPENING, record + [event], rest, budgetMint);
        ReplayAppend(OPENING, record, rest, budgetMint);
      }
    } else {
      assert record + [event] + [] == record + [event] && record + [] == record;
    }
  }

  /**
   * The documentation says that a repeated event of a trade changes nothing. Read again at any later point, it
   * changes no replay, whatever follows, exactly when: an outcome finds that no intent of its trade has opened it
   * since; an intent finds its trade open, or not enough money.
   */
  lemma RepeatIsIgnoredExactlyWhen(record: seq<Event>, i: nat, budgetMint: Option<Mint>)
    requires i < |record| && (record[i].Intended? || IsOutcome(record[i]))
    ensures (forall rest :: Replay(record + [record[i]] + rest, budgetMint) == Replay(record + rest, budgetMint))
       <==> if IsOutcome(record[i]) then !exists k :: i < k && OpensAt(record, k, record[i].tradeId, budgetMint)
            else || IsOpen(record, record[i].tradeId, budgetMint)
                 || !Fits(Replay(record, budgetMint), record[i], budgetMint)
  {
    var event, books := record[i], Replay(record, budgetMint);
    IgnoredExactlyWhenBooksStay(record, event, budgetMint);
    OpenExactlyWhenHeld(record, event.tradeId, budgetMint);
    if event.Intended? {
      IntentIsIgnoredExactlyWhen(books, event, budgetMint);
    } else {
      if event.tradeId in books.held {
        OutcomeFrees(books, event, budgetMint);
        var k :| OpensAt(record, k, event.tradeId, budgetMint);
        assert i < k;
      }
    }
  }

  // ----- the grant -----

  function Larger(a: nat, b: nat): nat {
    if a < b then b else a
  }

  /**
   * An owner's grant takes effect at once, lower or higher, but never below what is spent or held. It moves nothing
   * else, and what it leaves free is what it exceeds them by.
   */
  lemma GrantTakesEffect(record: seq<Event>, to: nat, budgetMint: Option<Mint>)
    ensures var before := Replay(record, budgetMint);
            var after := Replay(record + [LimitsChanged("budgetGranted", to)], budgetMint);
            && after.budget.granted == Larger(to, before.budget.reserved + before.budget.settled)
            && after.budget.reserved == before.budget.reserved && after.budget.settled == before.budget.settled
            && after.held == before.held
            && FreeOf(after) == Larger(to, before.budget.reserved + before.budget.settled)
                                - before.budget.reserved - before.budget.settled
  {
    ReplayPush(OPENING, record, LimitsChanged("budgetGranted", to), budgetMint);
  }

  /** The k-th event of a record is an owner's grant. */
  predicate GrantsAt(record: seq<Event>, k: int) {
    0 <= k < |record| && record[k].LimitsChanged? && record[k].limit == "budgetGranted"
  }

  lemma OthersKeepTheGrant(books: Books, event: Event, budgetMint: Option<Mint>)
    requires Balanced(books)
    requires !(event.LimitsChanged? && event.limit == "budgetGranted")
    ensures After(books, event, budgetMint).budget.granted == books.budget.granted
  {
    if IsOutcome(event) && event.tradeId in books.held {
      OutcomeFrees(books, event, budgetMint);
    }
  }

  /** Before an owner grants anything there is nothing to spend. */
  lemma {:induction false} NothingIsGrantedUnasked(record: seq<Event>, budgetMint: Option<Mint>)
    requires forall k :: !GrantsAt(record, k)
    ensures Replay(record, budgetMint).budget.granted == 0
  {
    if record != [] {
      var n := |record| - 1;
      assert forall k :: GrantsAt(record[..n], k) ==> GrantsAt(record, k);
      NothingIsGrantedUnasked(record[..n], budgetMint);
      assert !GrantsAt(record, n);
      OthersKeepTheGrant(Replay(record[..n], budgetMint), record[n], budgetMint);
    }
  }

  /** The grant on replay is the owner's last one, or what was spent and held when it was read, if that was more. */
  lemma {:induction false} GrantIsTheLastOne(record: seq<Event>, k: nat, budgetMint: Option<Mint>)
    requires GrantsAt(record, k) && forall j :: k < j ==> !GrantsAt(record, j)
    ensures var before := Replay(record[..k], budgetMint).budget;
            Replay(record, budgetMint).budget.granted == Larger(record[k].to, before.reserved + before.settled)
  {
    var n := |record| - 1;
    assert record == record[..n] + [record[n]];
    if k == n {
      GrantTakesEffect(record[..n], record[n].to, budgetMint);
    } else {
      assert forall j :: k < j && GrantsAt(record[..n], j) ==> GrantsAt(record, j);
      assert record[..n][..k] == record[..k];
      GrantIsTheLastOne(record[..n], k, budgetMint);
      assert !GrantsAt(record, n);
      ReplayPush(OPENING, record[..n], record[n], budgetMint);
      OthersKeepTheGrant(Replay(record[..n], budgetMint), record[n], budgetMint);
    }
  }

  // ----- what an intent holds -----

  /** The most a trade can cost: its input and its fee when it spends the budget's currency, and nothing otherwise. */
  function MostItCosts(budgetMint: Option<Mint>, inputMint: Mint, inputAmount: nat, fee: Option<nat>): nat {
    match budgetMint
    case Some(mint) => if inputMint != mint then 0 else if fee.Some? then inputAmount + fee.value else inputAmount
    case None => if fee.Some? then inputAmount + fee.value else inputAmount
  }

  /**
   * An intent of a trade that is not open holds the most it can cost, if that much is neither spent nor held, and
   * remembers which way the trade runs; else it changes nothing. A sale always fits.
   */
  lemma IntentHoldsTheMostItCosts(
      books: Books, id: TradeId, input: Mint, output: Mint, amount: nat, fee: Option<nat>, budgetMint: Option<Mint>)
    requires Balanced(books)
    ensures var after := After(books, Intended(id, input, output, amount, fee), budgetMint);
            var most := MostItCosts(budgetMint, input, amount, fee);
            if id in books.held || books.budget.reserved + books.budget.settled + most > books.budget.granted then
              after == books
            else
              && after.held == books.held[id := OpenTrade(most, input, output)]
              && after.budget == books.budget.(reserved := books.budget.reserved + most)
    ensures budgetMint.Some? && input != budgetMint.value ==>
              books.budget.reserved + books.budget.settled + MostItCosts(budgetMint, input, amount, fee)
              <= books.budget.granted
  {
  }
}
