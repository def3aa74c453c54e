/** A machine's budget, folded from its events (packages/runtime/src/machine-budget.ts). */
module MachineBudgets {
  import opened Results
  import opened Record
  import opened Budgets

  /** What an unfinished trade holds, and which way it runs. */
  datatype OpenTrade = OpenTrade(reserved: nat, inputMint: Mint, outputMint: Mint)

  /** The two variables of the fold. */
  datatype Books = Books(budget: Budget, held: map<TradeId, OpenTrade>)

  datatype MachineBudget = MachineBudget(budget: Budget, available: nat, openTrades: nat)

  const OPENING := Books(CreateBudget(0), map[])

  function SpendsBudget(budgetMint: Option<Mint>, inputMint: Mint): bool {
    budgetMint.None? || inputMint == budgetMint.value
  }

  /** The most a trade could cost the budget. */
  function Wanted(budgetMint: Option<Mint>, inputMint: Mint, inputAmount: nat, fee: nat): nat {
    if SpendsBudget(budgetMint, inputMint) then inputAmount + fee else 0
  }

  function Min(a: int, b: int): int {
    if a < b then a else b
  }

  // ----- the fold, one event at a time, with every refusal the budget operations can raise -----

  function Close(books: Books, tradeId: TradeId, spent: nat, gotBack: nat, budgetMint: Option<Mint>): Result<Books>
    requires tradeId in books.held
  {
    var open := books.held[tradeId];
    var settled :- if open.reserved > 0 then
                     Settle(books.budget, open.reserved, if spent > open.reserved then open.reserved else spent)
                   else Success(books.budget);
    var credited :- if budgetMint.Some? && open.outputMint == budgetMint.value then Credit(settled, gotBack)
                    else Success(settled);
    Success(Books(credited, books.held - {tradeId}))
  }

  function Open(books: Books, event: Event, budgetMint: Option<Mint>): Result<Books>
    requires event.Intended?
  {
    if event.tradeId in books.held then
      Success(books)
    else
      var wanted := Wanted(budgetMint, event.inputMint, event.inputAmount, OrZero(event.feeAllowance));
      var free :- Available(books.budget);
      if wanted > free then
        Success(books)
      else
        var budget :- if wanted > 0 then Reserve(books.budget, wanted) else Success(books.budget);
        Success(Books(budget, books.held[event.tradeId := OpenTrade(wanted, event.inputMint, event.outputMint)]))
  }

  function LetGo(books: Books, tradeId: TradeId): Result<Books>
    requires tradeId in books.held
  {
    var open := books.held[tradeId];
    var budget :- if open.reserved > 0 then Release(books.budget, open.reserved) else Success(books.budget);
    Success(Books(budget, books.held - {tradeId}))
  }

  function Step(books: Books, event: Event, budgetMint: Option<Mint>): Result<Books> {
    match event
    case LimitsChanged(limit, to) =>
      if limit != BUDGET_GRANTED then
        Success(books)
      else
        var committed :- BaseUnitsOf(books.budget.reserved + books.budget.settled);
        Success(books.(budget := books.budget.(granted := if to < committed then committed else to)))
    case Intended(_, _, _, _, _) => Open(books, event, budgetMint)
    case Simulated(tradeId, inputAmount, quoted, fee) =>
      if tradeId !in books.held then Success(books)
      else Close(books, tradeId, inputAmount + OrZero(fee), quoted, budgetMint)
    case Completed(tradeId, inputAmount, outputAmount, fee) =>
      if tradeId !in books.held then Success(books)
      else Close(books, tradeId, inputAmount + fee, outputAmount, budgetMint)
    case Failed(tradeId) => if tradeId !in books.held then Success(books) else LetGo(books, tradeId)
    case Refused(tradeId) => if tradeId !in books.held then Success(books) else LetGo(books, tradeId)
    case _ => Success(books)
  }

  // ----- what the books keep -----

  ghost function HeldSum(held: map<TradeId, OpenTrade>): nat {
    if held == map[] then 0
    else
      var id :| id in held;
      held[id].reserved + HeldSum(held - {id})
  }

  lemma {:induction false} HeldSumWithout(held: map<TradeId, OpenTrade>, id: TradeId)
    requires id in held
    ensures HeldSum(held) == held[id].reserved + HeldSum(held - {id})
    decreases |held|
  {
    var first :| first in held && HeldSum(held) == held[first].reserved + HeldSum(held - {first});
    if first != id {
      HeldSumWithout(held - {first}, id);
      HeldSumWithout(held - {id}, first);
      assert held - {first} - {id} == held - {id} - {first};
    }
  }

  lemma HeldSumWith(held: map<TradeId, OpenTrade>, id: TradeId, open: OpenTrade)
    requires id !in held
    ensures HeldSum(held[id := open]) == HeldSum(held) + open.reserved
  {
    HeldSumWithout(held[id := open], id);
    assert held[id := open] - {id} == held;
  }

  /** What is reserved is exactly what open trades hold, and nothing is committed beyond the grant. */
  ghost predicate Balanced(books: Books) {
    books.budget.reserved == HeldSum(books.held) && books.budget.WithinGrant()
  }

  /** Closing a trade frees what it held, settles its cost up to that, and credits what it brought home. */
  lemma CloseMoves(books: Books, tradeId: TradeId, spent: nat, gotBack: nat, budgetMint: Option<Mint>)
    requires Balanced(books) && tradeId in books.held
    ensures var closed := Close(books, tradeId, spent, gotBack, budgetMint);
            && closed.Success?
            && Balanced(closed.value)
            && closed.value.held == books.held - {tradeId}
            && closed.value.budget.granted == books.budget.granted
            && closed.value.budget.reserved == books.budget.reserved - books.held[tradeId].reserved
            && var back := if budgetMint == Some(books.held[tradeId].outputMint) then gotBack else 0;
               var moved := books.budget.settled + Min(spent, books.held[tradeId].reserved) - back;
               closed.value.budget.settled == if moved < 0 then 0 else moved
  {
    HeldSumWithout(books.held, tradeId);
  }

  lemma LetGoMoves(books: Books, tradeId: TradeId)
    requires Balanced(books) && tradeId in books.held
    ensures var closed := LetGo(books, tradeId);
            && closed.Success?
            && Balanced(closed.value)
            && closed.value.held == books.held - {tradeId}
            && closed.value.budget == books.budget.(reserved := books.budget.reserved - books.held[tradeId].reserved)
  {
    HeldSumWithout(books.held, tradeId);
  }

  lemma OpenMoves(books: Books, event: Event, budgetMint: Option<Mint>)
    requires Balanced(books) && event.Intended?
    ensures Open(books, event, budgetMint).Success?
    ensures Balanced(Open(books, event, budgetMint).value)
  {
    if event.tradeId !in books.held {
      var wanted := Wanted(budgetMint, event.inputMint, event.inputAmount, OrZero(event.feeAllowance));
      HeldSumWith(books.held, event.tradeId, OpenTrade(wanted, event.inputMint, event.outputMint));
    }
  }

  /** From balanced books no operation of the fold is ever refused, whatever the event. */
  lemma StepKeepsBalance(books: Books, event: Event, budgetMint: Option<Mint>)
    requires Balanced(books)
    ensures Step(books, event, budgetMint).Success?
    ensures Balanced(Step(books, event, budgetMint).value)
  {
    if event.Intended? {
      OpenMoves(books, event, budgetMint);
    } else if IsOutcome(event) && event.tradeId in books.held {
      match event
      case Simulated(id, inputAmount, quoted, fee) =>
        CloseMoves(books, id, inputAmount + OrZero(fee), quoted, budgetMint);
      case Completed(id, inputAmount, outputAmount, fee) =>
        CloseMoves(books, id, inputAmount + fee, outputAmount, budgetMint);
      case Failed(id) => LetGoMoves(books, id);
      case Refused(id) => LetGoMoves(books, id);
    }
  }

  /** The books after a record, from any balanced opening. */
  ghost function ReplayFrom(opening: Books, events: seq<Event>, budgetMint: Option<Mint>): (books: Books)
    requires Balanced(opening)
    ensures Balanced(books)
  {
    if events == [] then opening
    else
      var before := ReplayFrom(opening, events[..|events| - 1], budgetMint);
      StepKeepsBalance(before, events[|events| - 1], budgetMint);
      Step(before, events[|events| - 1], budgetMint).value
  }

  ghost function Replay(events: seq<Event>, budgetMint: Option<Mint>): (books: Books)
    ensures Balanced(books)
  {
    ReplayFrom(OPENING, events, budgetMint)
  }

  ghost function After(books: Books, event: Event, budgetMint: Option<Mint>): (next: Books)
    requires Balanced(books)
    ensures Balanced(next)
  {
    StepKeepsBalance(books, event, budgetMint);
    Step(books, event, budgetMint).value
  }

  lemma ReplayPush(opening: Books, events: seq<Event>, event: Event, budgetMint: Option<Mint>)
    requires Balanced(opening)
    ensures ReplayFrom(opening, events + [event], budgetMint)
         == After(ReplayFrom(opening, events, budgetMint), event, budgetMint)
  {
    assert (events + [event])[..|events|] == events;
  }

  lemma {:induction false} ReplayAppend(opening: Books, first: seq<Event>, rest: seq<Event>, budgetMint: Option<Mint>)
    requires Balanced(opening)
    ensures ReplayFrom(opening, first + rest, budgetMint)
         == ReplayFrom(ReplayFrom(opening, first, budgetMint), rest, budgetMint)
    decreases |rest|
  {
    if rest == [] {
      assert first + rest == first;
    } else {
      var n := |rest| - 1;
      ReplayAppend(opening, first, rest[..n], budgetMint);
      assert first + rest == (first + rest[..n]) + [rest[n]];
      ReplayPush(opening, first + rest[..n], rest[n], budgetMint);
    }
  }

  ghost function FreeOf(books: Books): nat
    requires Balanced(books)
  {
    books.budget.granted - books.budget.reserved - books.budget.settled
  }

  // ----- the loop itself -----

  /** The body of the loop: reassigns the budget and updates the map, or throws where an operation does. */
  method FoldOne(start: Budget, open: map<TradeId, OpenTrade>, event: Event, budgetMint: Option<Mint>)
    returns (r: Result<Books>)
    ensures r == Step(Books(start, open), event, budgetMint)
  {
    var budget, held := start, open;
    match event {
      case LimitsChanged(limit, to) =>
        if limit == BUDGET_GRANTED {
          var committed := BaseUnitsOf(budget.reserved + budget.settled).value;
          budget := budget.(granted := if to < committed then committed else to);
        }
      case Intended(tradeId, inputMint, outputMint, inputAmount, feeAllowance) =>
        if tradeId !in held {
          var wanted := Wanted(budgetMint, inputMint, inputAmount, OrZero(feeAllowance));
          var free :- Available(budget);
          if wanted <= free {
            if wanted > 0 {
              budget :- Reserve(budget, wanted);
            }
            held := held[tradeId := OpenTrade(wanted, inputMint, outputMint)];
          }
        }
      case Simulated(tradeId, inputAmount, quotedOutputAmount, feeAllowance) =>
        if tradeId in held {
          var trade := held[tradeId];
          if trade.reserved > 0 {
            var spent := BaseUnitsOf(inputAmount + OrZero(feeAllowance)).value;
            budget :- Settle(budget, trade.reserved, if spent > trade.reserved then trade.reserved else spent);
          }
          if budgetMint.Some? && trade.outputMint == budgetMint.value {
            budget := Credit(budget, quotedOutputAmount).value;
          }
          held := held - {tradeId};
        }
      case Completed(tradeId, inputAmount, outputAmount, feeLamports) =>
        if tradeId in held {
          var trade := held[tradeId];
          if trade.reserved > 0 {
            var spent := BaseUnitsOf(inputAmount + feeLamports).value;
            budget :- Settle(budget, trade.reserved, if spent > trade.reserved then trade.reserved else spent);
          }
          if budgetMint.Some? && trade.outputMint == budgetMint.value {
            budget := Credit(budget, outputAmount).value;
          }
          held := held - {tradeId};
        }
      case Failed(tradeId) =>
        if tradeId in held {
          if held[tradeId].reserved > 0 {
            budget :- Release(budget, held[tradeId].reserved);
          }
          held := held - {tradeId};
        }
      case Refused(tradeId) =>
        if tradeId in held {
          if held[tradeId].reserved > 0 {
            budget :- Release(budget, held[tradeId].reserved);
          }
          held := held - {tradeId};
        }
      case _ =>
    }
    return Success(Books(budget, held));
  }

  /**
   * The whole loop: it returns what the replay says, and never a failure that one of the budget
   * operations inside it could have thrown.
   */
  method FoldBudget(events: seq<Event>, budgetMint: Option<Mint>) returns (r: Result<MachineBudget>)
    ensures var books := Replay(events, budgetMint);
            r == Success(MachineBudget(books.budget, FreeOf(books), |books.held|))
  {
    var books := OPENING;
    for i := 0 to |events|
      invariant books == Replay(events[..i], budgetMint)
    {
      assert events[..i + 1] == events[..i] + [events[i]];
      ReplayPush(OPENING, events[..i], events[i], budgetMint);
      StepKeepsBalance(books, events[i], budgetMint);
      var next := FoldOne(books.budget, books.held, events[i], budgetMint);
      books := next.value;
    }
    assert events[..|events|] == events;
    var free := Available(books.budget).value;
    return Success(MachineBudget(books.budget, free, |books.held|));
  }
}
