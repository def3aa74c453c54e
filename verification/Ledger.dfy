/**
 * Reservations under the machine's row lock, and everyone else writing without it
 * (packages/db/src/ledger.ts, packages/db/src/read-events.ts).
 *
 * The record is kept in the order it is read back: by the moment an event is stamped with, which the
 * database takes from the start of the writing transaction, and by arrival within one moment. So a
 * transaction that waited for the lock writes at an earlier place than the events stamped meanwhile.
 */
module Ledger {
  import opened Results
  import opened Record
  import opened Stamps
  import opened Budgets
  import opened MachineBudgets
  import opened BudgetLaws

  type Entry = Stamped<Event>

  function Events(record: seq<Entry>): (events: seq<Event>)
    ensures |events| == |record|
    ensures forall i :: 0 <= i < |record| ==> events[i] == record[i].event
  {
    seq(|record|, i requires 0 <= i < |record| => record[i].event)
  }

  // ----- what each transaction asks and how it is judged -----

  datatype TradeToReserve =
    TradeToReserve(tradeId: TradeId, inputMint: Mint, outputMint: Mint, inputAmount: int, feeAllowance: int)

  datatype Reservation = Reservation(tradeId: TradeId, reserved: nat, remaining: nat)

  /** What is refused before the transaction begins. */
  function Screened(trade: TradeToReserve): Result<()> {
    if trade.inputAmount <= 0 then Failure(InvalidAmount)
    else if trade.feeAllowance < 0 then Failure(InvalidAmount)
    else Success(())
  }

  function IntentOf(trade: TradeToReserve): Event
    requires Screened(trade).Success?
  {
    Intended(trade.tradeId, trade.inputMint, trade.outputMint, trade.inputAmount, Some(trade.feeAllowance))
  }

  function Cost(trade: TradeToReserve, budgetMint: Option<Mint>): nat
    requires Screened(trade).Success?
  {
    Wanted(budgetMint, trade.inputMint, trade.inputAmount, trade.feeAllowance)
  }

  /** The check made on the snapshot, and then the fence that the append itself carries. */
  function Judge(trade: TradeToReserve, budgetMint: Option<Mint>, free: nat, leaseHeld: bool): Result<Reservation>
    requires Screened(trade).Success?
  {
    var wanted := Cost(trade, budgetMint);
    if wanted > free then Failure(LimitExceeded)
    else if !leaseHeld then Failure(Conflict)
    else Success(Reservation(trade.tradeId, wanted, free - wanted))
  }

  ghost function BooksOf(record: seq<Entry>, budgetMint: Option<Mint>): (books: Books)
    ensures Balanced(books)
  {
    Replay(Events(record), budgetMint)
  }

  lemma BooksPush(record: seq<Entry>, entry: Entry, budgetMint: Option<Mint>)
    ensures BooksOf(record + [entry], budgetMint) == After(BooksOf(record, budgetMint), entry.event, budgetMint)
  {
    assert Events(record + [entry]) == Events(record) + [entry.event];
    ReplayPush(OPENING, Events(record), entry.event, budgetMint);
  }

  lemma BooksAppend(record: seq<Entry>, rest: seq<Entry>, budgetMint: Option<Mint>)
    ensures BooksOf(record + rest, budgetMint) == ReplayFrom(BooksOf(record, budgetMint), Events(rest), budgetMint)
  {
    assert Events(record + rest) == Events(record) + Events(rest);
    ReplayAppend(OPENING, Events(record), Events(rest), budgetMint);
  }

  predicate NamesTrade(event: Event, tradeId: TradeId) {
    IsIntentOf(event, tradeId) || IsOutcomeOf(event, tradeId)
  }

  // ----- the write of an accepted reservation, wherever it lands -----

  /** An accepted intent that is read last is held, for exactly what was answered, unless its trade was already open. */
  lemma AcceptedAtTheEndIsHeld(
      snapshot: seq<Entry>, meanwhile: seq<Entry>, trade: TradeToReserve, budgetMint: Option<Mint>, at: int)
    requires Screened(trade).Success?
    requires forall i :: 0 <= i < |meanwhile| ==> LockFree(meanwhile[i].event)
    requires Judge(trade, budgetMint, FreeOf(BooksOf(snapshot, budgetMint)), true).Success?
    ensures Cost(trade, budgetMint) <= FreeOf(BooksOf(snapshot + meanwhile, budgetMint))
    ensures var before := BooksOf(snapshot + meanwhile, budgetMint);
            var after := BooksOf(snapshot + meanwhile + [Entry(IntentOf(trade), at)], budgetMint);
            trade.tradeId !in before.held ==>
              && trade.tradeId in after.held
              && after.held[trade.tradeId].reserved == Cost(trade, budgetMint)
              && FreeOf(after) == FreeOf(before) - Cost(trade, budgetMint)
  {
    BooksAppend(snapshot, meanwhile, budgetMint);
    StaleSnapshotIsALowerBound(BooksOf(snapshot, budgetMint), Events(meanwhile), budgetMint);
    BooksPush(snapshot + meanwhile, Entry(IntentOf(trade), at), budgetMint);
    StepKeepsBalance(BooksOf(snapshot + meanwhile, budgetMint), IntentOf(trade), budgetMint);
  }

  /**
   * Wherever an intent stands in a record, if its trade is not open before it and nothing after it names the
   * trade, it is held on replay exactly when it fits what is free where it stands, and then for its whole cost.
   */
  lemma {:induction false} HeldExactlyWhenItFits(
      record: seq<Entry>, p: nat, trade: TradeToReserve, budgetMint: Option<Mint>)
    requires p < |record| && Screened(trade).Success? && record[p].event == IntentOf(trade)
    requires trade.tradeId !in BooksOf(record[..p], budgetMint).held
    requires forall i :: p < i < |record| ==> !NamesTrade(record[i].event, trade.tradeId)
    ensures trade.tradeId in BooksOf(record, budgetMint).held
       <==> Cost(trade, budgetMint) <= FreeOf(BooksOf(record[..p], budgetMint))
    ensures trade.tradeId in BooksOf(record, budgetMint).held ==>
              BooksOf(record, budgetMint).held[trade.tradeId].reserved == Cost(trade, budgetMint)
  {
    var first, rest := record[..p + 1], record[p + 1..];
    assert first == record[..p] + [record[p]] && record == first + rest;
    BooksPush(record[..p], record[p], budgetMint);
    BooksAppend(first, rest, budgetMint);
    OpenedExactlyWhenItFits(BooksOf(record[..p], budgetMint), trade, budgetMint);
    if Cost(trade, budgetMint) <= FreeOf(BooksOf(record[..p], budgetMint)) {
      HeldUntilItsOutcome(BooksOf(first, budgetMint), Events(rest), trade.tradeId, budgetMint);
    } else {
      ClosedStaysClosed(BooksOf(first, budgetMint), Events(rest), trade.tradeId, budgetMint);
    }
  }

  lemma OpenedExactlyWhenItFits(books: Books, trade: TradeToReserve, budgetMint: Option<Mint>)
    requires Balanced(books) && Screened(trade).Success? && trade.tradeId !in books.held
    ensures var after := After(books, IntentOf(trade), budgetMint);
            && (trade.tradeId in after.held <==> Cost(trade, budgetMint) <= FreeOf(books))
            && (trade.tradeId in after.held ==> after.held[trade.tradeId].reserved == Cost(trade, budgetMint))
  {
    StepKeepsBalance(books, IntentOf(trade), budgetMint);
  }

  /** A trade that no other event names is not open before its intent. */
  lemma NotOpenBefore(record: seq<Entry>, p: nat, tradeId: TradeId, budgetMint: Option<Mint>)
    requires p <= |record|
    requires forall i :: 0 <= i < p ==> !NamesTrade(record[i].event, tradeId)
    ensures tradeId !in BooksOf(record[..p], budgetMint).held
  {
    ClosedStaysClosed(OPENING, Events(record[..p]), tradeId, budgetMint);
  }

  /** At the moment it is inserted, whatever was answered: a fresh intent is held exactly when it fits at its place. */
  lemma {:induction false} HeldExactlyWhenItFitsAtItsPlace(
      record: seq<Entry>, trade: TradeToReserve, budgetMint: Option<Mint>, at: int)
    requires Screened(trade).Success?
    requires forall i :: 0 <= i < |record| ==> !NamesTrade(record[i].event, trade.tradeId)
    ensures trade.tradeId in BooksOf(Insert(record, Entry(IntentOf(trade), at)), budgetMint).held
       <==> Cost(trade, budgetMint) <= FreeOf(BooksOf(record[..Place(record, at)], budgetMint))
  {
    var p, longer := Place(record, at), Insert(record, Entry(IntentOf(trade), at));
    NotOpenBefore(record, p, trade.tradeId, budgetMint);
    assert longer[..p] == record[..p];
    assert forall i | p < i < |longer| :: longer[i] == record[i - 1];
    HeldExactlyWhenItFits(longer, p, trade, budgetMint);
  }

  // ----- the transactions as methods over the record -----

  datatype Submission = Submission(signature: string, lastValidBlockHeight: nat)

  /** The first submission of a trade in the record, as the scan finds it. */
  ghost predicate FirstSubmission(events: seq<Event>, tradeId: TradeId, found: Option<Submission>) {
    match found
    case None => forall i :: 0 <= i < |events| ==> !(events[i].Submitted? && events[i].tradeId == tradeId)
    case Some(submission) =>
      exists i :: && 0 <= i < |events|
                  && events[i] == Submitted(tradeId, submission.signature, submission.lastValidBlockHeight)
                  && forall j :: 0 <= j < i ==> !(events[j].Submitted? && events[j].tradeId == tradeId)
  }

  method SubmissionOf(events: seq<Event>, tradeId: TradeId) returns (found: Option<Submission>)
    ensures FirstSubmission(events, tradeId, found)
  {
    for i := 0 to |events|
      invariant forall j :: 0 <= j < i ==> !(events[j].Submitted? && events[j].tradeId == tradeId)
    {
      if events[i].Submitted? && events[i].tradeId == tradeId {
        return Some(Submission(events[i].signature, events[i].lastValidBlockHeight));
      }
    }
    return None;
  }

  /** A trade that spends nothing, or allows less than nothing for its fee, is refused outright, and no other. */
  lemma ScreenedExactlyWhen(trade: TradeToReserve)
    ensures Screened(trade).Success? <==> trade.inputAmount > 0 && trade.feeAllowance >= 0
    ensures Screened(trade).Failure? ==> Screened(trade).problem == InvalidAmount
  {
  }

  /**
   * Which answer a reservation gets from the books it is judged by: too much is refused as such whether the lease is
   * held or not, and what is granted is the most the trade can cost.
   */
  lemma JudgedExactlyAs(books: Books, trade: TradeToReserve, budgetMint: Option<Mint>, leaseHeld: bool)
    requires Balanced(books) && Screened(trade).Success?
    ensures var most := MostItCosts(budgetMint, trade.inputMint, trade.inputAmount, Some(trade.feeAllowance));
            var answer := Judge(trade, budgetMint, FreeOf(books), leaseHeld);
            && (answer == Failure(LimitExceeded) <==>
                books.budget.reserved + books.budget.settled + most > books.budget.granted)
            && (answer == Failure(Conflict) <==>
                books.budget.reserved + books.budget.settled + most <= books.budget.granted && !leaseHeld)
            && (answer.Failure? ==> answer.problem == LimitExceeded || answer.problem == Conflict)
            && (answer.Success? ==> answer.value.tradeId == trade.tradeId && answer.value.reserved == most)
  {
  }

  /**
   * The answer tells what is held for the trade and what is left, as the snapshot's replay has them once the intent
   * is read, exactly when the trade was not open in it or holds nothing.
   */
  lemma AnswerTellsWhatIsLeftExactlyWhen(books: Books, trade: TradeToReserve, budgetMint: Option<Mint>)
    requires Balanced(books) && Screened(trade).Success?
    requires Judge(trade, budgetMint, FreeOf(books), true).Success?
    ensures var answer := Judge(trade, budgetMint, FreeOf(books), true).value;
            var after := After(books, IntentOf(trade), budgetMint);
            && trade.tradeId in after.held
            && (answer.remaining == FreeOf(after) <==> trade.tradeId !in books.held || answer.reserved == 0)
            && (trade.tradeId !in books.held ==> answer.reserved == after.held[trade.tradeId].reserved)
  {
    IntentHoldsTheMostItCosts(
      books, trade.tradeId, trade.inputMint, trade.outputMint, trade.inputAmount, Some(trade.feeAllowance), budgetMint);
  }

  const AGAIN := TradeToReserve("t", "usd", "sol", 40, 0)

  /** A trade that already holds 40 of 100 and reserves again is told that 20 are left, where 60 are. */
  lemma ReservingAgainUnderstatesWhatIsLeft()
    ensures var books := Replay([GRANT_100, INTENT_40], Some("usd"));
            && FreeOf(After(books, IntentOf(AGAIN), Some("usd"))) == 60
            && Judge(AGAIN, Some("usd"), FreeOf(books), true) == Success(Reservation("t", 40, 20))
  {
    var mint := Some("usd");
    ReplayPush(OPENING, [], GRANT_100, mint);
    ReplayPush(OPENING, [GRANT_100], INTENT_40, mint);
    assert [] + [GRANT_100] == [GRANT_100] && [GRANT_100] + [INTENT_40] == [GRANT_100, INTENT_40];
    assert Step(OPENING, GRANT_100, mint) == Success(Books(Budget(100, 0, 0), map[]));
    var open := map["t" := OpenTrade(40, "usd", "sol")];
    assert Step(Books(Budget(100, 0, 0), map[]), INTENT_40, mint) == Success(Books(Budget(100, 40, 0), open));
  }

  /** One machine's rows: whether it exists, the currency of its budget, and its record. */
  class MachineRows {
    const known: bool
    const budgetMint: Option<Mint>
    var record: seq<Entry>

    constructor (known: bool, budgetMint: Option<Mint>)
      ensures this.known == known && this.budgetMint == budgetMint && record == []
    {
      this.known := known;
      this.budgetMint := budgetMint;
      record := [];
    }

    /**
     * `meanwhile` is what others write between this transaction's read and its append, which the lock
     * does not prevent; `leaseHeld` is the answer of the fence inside the append.
     */
    method ReserveForTrade(trade: TradeToReserve, begunAt: int, meanwhile: seq<Entry>, leaseHeld: bool)
      returns (r: Result<Reservation>)
      modifies this
      ensures Screened(trade).Failure? ==> r == Failure(InvalidAmount) && record == old(record)
      ensures Screened(trade).Success? && !known ==> r == Failure(NotFound) && record == old(record)
      ensures Screened(trade).Success? && known ==>
                && r == Judge(trade, budgetMint, FreeOf(BooksOf(old(record), budgetMint)), leaseHeld)
                && record == if r.Success? then
                               Insert(InsertAll(old(record), meanwhile), Entry(IntentOf(trade), begunAt))
                             else InsertAll(old(record), meanwhile)
    {
      if trade.inputAmount <= 0 {
        return Failure(InvalidAmount);
      }
      if trade.feeAllowance < 0 {
        return Failure(InvalidAmount);
      }
      if !known {
        return Failure(NotFound);
      }
      var folded := FoldBudget(Events(record), budgetMint);
      var budget := folded.value;
      record := InsertAll(record, meanwhile);
      var wanted := if SpendsBudget(budgetMint, trade.inputMint) then trade.inputAmount + trade.feeAllowance else 0;
      if wanted > budget.available {
        return Failure(LimitExceeded);
      }
      if !leaseHeld {
        return Failure(Conflict);
      }
      record := Insert(record, Entry(IntentOf(trade), begunAt));
      return Success(Reservation(trade.tradeId, wanted, budget.available - wanted));
    }

    method RecordSubmission(
        tradeId: TradeId, submission: Submission, begunAt: int, meanwhile: seq<Entry>, leaseHeld: bool)
      returns (r: Result<string>)
      modifies this
      ensures !known ==> r == Failure(NotFound) && record == old(record)
      ensures known ==>
                && (r.Success? <==> leaseHeld && FirstSubmission(Events(old(record)), tradeId, None))
                && (r.Success? ==> r.value == submission.signature)
                && (r.Failure? ==> r.problem == Conflict)
                && record == if r.Success? then
                               Insert(InsertAll(old(record), meanwhile),
                                      Entry(Submitted(tradeId, submission.signature, submission.lastValidBlockHeight),
                                        begunAt))
                             else InsertAll(old(record), meanwhile)
    {
      if !known {
        return Failure(NotFound);
      }
      var already := SubmissionOf(Events(record), tradeId);
      record := InsertAll(record, meanwhile);
      if already.Some? {
        return Failure(Conflict);
      }
      if !leaseHeld {
        return Failure(Conflict);
      }
      record := Insert(record,
        Entry(Submitted(tradeId, submission.signature, submission.lastValidBlockHeight), begunAt));
      return Success(submission.signature);
    }

    /**
     * Settling and releasing take no lock: what the chain did is written down whoever holds the run. An
     * amount the record has no way to write is refused before anything is written.
     */
    method SettleTrade(tradeId: TradeId, inputAmount: int, outputAmount: int, feeLamports: int, now: int)
      returns (r: Result<TradeId>)
      modifies this
      ensures r.Success? <==> inputAmount >= 0 && outputAmount >= 0 && feeLamports >= 0
      ensures r.Success? ==>
                && r.value == tradeId
                && record == Insert(old(record), Entry(Completed(tradeId, inputAmount, outputAmount, feeLamports), now))
      ensures r.Failure? ==> r.problem == InvalidInput && record == old(record)
    {
      if inputAmount < 0 || outputAmount < 0 || feeLamports < 0 {
        return Failure(InvalidInput);
      }
      record := Insert(record, Entry(Completed(tradeId, inputAmount, outputAmount, feeLamports), now));
      return Success(tradeId);
    }

    method ReleaseTrade(tradeId: TradeId, now: int) returns (r: Result<TradeId>)
      modifies this
      ensures r == Success(tradeId) && record == Insert(old(record), Entry(Failed(tradeId), now))
    {
      record := Insert(record, Entry(Failed(tradeId), now));
      return Success(tradeId);
    }
  }
}
