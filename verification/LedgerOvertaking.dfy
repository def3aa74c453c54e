/**
 * Two runs in which an accepted reservation holds nothing on replay, because a transaction is read back at the
 * moment it began (packages/db/src/ledger.ts, packages/db/src/schema/events.ts).
 */
module LedgerOvertaking {
  import opened Results
  import opened Record
  import opened Budgets
  import opened MachineBudgets
  import opened BudgetLaws
  import opened Ledger
  import opened Stamps
  import opened LedgerProtocol

  // ----- transactions served whole -----

  /** What is left for a transaction that has begun and then runs undisturbed. */
  function Turn(c: Client): seq<Action> {
    [TakeLock(c), ReadRecord(c), Write(c, true), Commit(c)]
  }

  function Served(c: Client, request: Request): seq<Action> {
    [Begin(c, request)] + Turn(c)
  }

  /** A waiting transaction that takes its turn on a free lock, judged by the record it then reads. */
  lemma TakesItsTurn(s: State, c: Client)
    requires c in s.phases && s.phases[c].Waiting? && s.lock.None? && Admissible(s.phases[c].request)
    ensures var request, begunAt := s.phases[c].request, s.phases[c].begunAt;
            var accepted := Accepts(request, s.record, s.budgetMint, true);
            var s' := Run(s, Turn(c));
            && s'.record == (if accepted then Insert(s.record, Entry(EventOf(request), begunAt)) else s.record)
            && s'.phases == s.phases[c := Done(accepted)]
            && s'.lock == None && s'.clock == s.clock && s'.budgetMint == s.budgetMint
            && s'.acceptances == if accepted && request.Reserve? then
                                   s.acceptances + [Acceptance(request.trade, Place(s.record, begunAt))]
                                 else s.acceptances
  {
    var request, begunAt := s.phases[c].request, s.phases[c].begunAt;
    var s1 := s.(lock := Some(c), phases := s.phases[c := Locked(request, begunAt)]);
    var s2 := s1.(phases := s.phases[c := Decided(request, begunAt, s.record)]);
    assert Next(s, TakeLock(c)) == s1;
    assert Next(s1, ReadRecord(c)) == s2;
    assert Next(s2, Write(c, true)) == Written(s2, c, true);
    RunFour(s, Turn(c));
  }

  /** A transaction nobody interleaves with. */
  lemma ServedAlone(s: State, c: Client, request: Request)
    requires c !in s.phases && s.lock.None? && Admissible(request)
    ensures var accepted := Accepts(request, s.record, s.budgetMint, true);
            var s' := Run(s, Served(c, request));
            && s'.record == (if accepted then Insert(s.record, Entry(EventOf(request), s.clock)) else s.record)
            && s'.phases == s.phases[c := Done(accepted)]
            && s'.lock == None && s'.clock == s.clock && s'.budgetMint == s.budgetMint
            && s'.acceptances == if accepted && request.Reserve? then
                                   s.acceptances + [Acceptance(request.trade, Place(s.record, s.clock))]
                                 else s.acceptances
  {
    var s1 := s.(phases := s.phases[c := Waiting(request, s.clock)]);
    RunAppend(s, [Begin(c, request)], Turn(c));
    RunOne(s, Begin(c, request));
    assert Next(s, Begin(c, request)) == s1;
    TakesItsTurn(s1, c);
  }

  function AskingFor(id: TradeId, amount: int): TradeToReserve {
    TradeToReserve(id, "usd", "sol", amount, 0)
  }

  // ----- a reservation that is overtaken -----

  function Asking(id: TradeId): TradeToReserve {
    AskingFor(id, 60)
  }

  const FUNDED := Entry(LimitsChanged(BUDGET_GRANTED, 100), 0)
  const FIRST := Entry(IntentOf(Asking("first")), 0)
  const LATE := Entry(IntentOf(Asking("late")), 0)
  const RELEASED := Entry(Failed("first"), 1)
  const NEXT := Entry(IntentOf(Asking("next")), 1)

  /** Transaction 2 begins, and before it has the lock the first trade lets go of its money. */
  const OVERTAKEN: seq<Action> := [Begin(2, Reserve(Asking("late"))), Tick(1), Outside(Failed("first"))]

  lemma EarlyBooks()
    ensures BooksOf([], None) == OPENING
    ensures BooksOf([FUNDED], None) == Books(Budget(100, 0, 0), map[])
    ensures BooksOf([FUNDED, FIRST], None) == Books(Budget(100, 60, 0), map["first" := OpenTrade(60, "usd", "sol")])
  {
    BooksPush([], FUNDED, None);
    BooksPush([FUNDED], FIRST, None);
    assert [] + [FUNDED] == [FUNDED];
    assert [FUNDED] + [FIRST] == [FUNDED, FIRST];
  }

  /** What each of the later events makes of the books before it. */
  lemma LateBooks()
    ensures BooksOf([FUNDED, FIRST, RELEASED], None) == Books(Budget(100, 0, 0), map[])
    ensures BooksOf([FUNDED, FIRST, LATE], None) == BooksOf([FUNDED, FIRST], None)
    ensures BooksOf([FUNDED, FIRST, LATE, RELEASED], None) == Books(Budget(100, 0, 0), map[])
  {
    EarlyBooks();
    BooksPush([FUNDED, FIRST], RELEASED, None);
    BooksPush([FUNDED, FIRST], LATE, None);
    BooksPush([FUNDED, FIRST, LATE], RELEASED, None);
    assert [FUNDED, FIRST] + [RELEASED] == [FUNDED, FIRST, RELEASED];
    assert [FUNDED, FIRST] + [LATE] == [FUNDED, FIRST, LATE];
    assert [FUNDED, FIRST, LATE] + [RELEASED] == [FUNDED, FIRST, LATE, RELEASED];
    assert map["first" := OpenTrade(60, "usd", "sol")] - {"first"} == map[];
  }

  lemma FinalBooks()
    ensures BooksOf([FUNDED, FIRST, LATE, RELEASED, NEXT], None)
         == Books(Budget(100, 60, 0), map["next" := OpenTrade(60, "usd", "sol")])
  {
    LateBooks();
    BooksPush([FUNDED, FIRST, LATE, RELEASED], NEXT, None);
    assert [FUNDED, FIRST, LATE, RELEASED] + [NEXT] == [FUNDED, FIRST, LATE, RELEASED, NEXT];
  }

  lemma OvertakenBegin(s: State)
    requires s.record == [FUNDED, FIRST] && s.clock == 0 && s.lock.None? && 2 !in s.phases
    ensures Run(s, OVERTAKEN) == s.(record := [FUNDED, FIRST, RELEASED], clock := 1,
                                    phases := s.phases[2 := Waiting(Reserve(Asking("late")), 0)])
  {
    var a := OVERTAKEN;
    var s1 := s.(phases := s.phases[2 := Waiting(Reserve(Asking("late")), 0)]);
    var s2 := s1.(clock := 1);
    assert Next(s, a[0]) == s1;
    assert Next(s1, a[1]) == s2;
    InsertAtEnd(s2.record, RELEASED);
    RunOne(s, a[0]);
    RunPush(s, [a[0]], a[1]);
    RunPush(s, [a[0], a[1]], a[2]);
    assert [a[0]] + [a[1]] == [a[0], a[1]] && [a[0], a[1]] + [a[2]] == a;
  }

  lemma OvertakenPlace()
    ensures Place([FUNDED, FIRST, RELEASED], 0) == 2
    ensures Insert([FUNDED, FIRST, RELEASED], LATE) == [FUNDED, FIRST, LATE, RELEASED]
    ensures Place([FUNDED, FIRST, LATE, RELEASED], 1) == 4
    ensures Insert([FUNDED, FIRST, LATE, RELEASED], NEXT) == [FUNDED, FIRST, LATE, RELEASED, NEXT]
  {
    assert [FUNDED, FIRST, RELEASED][..2] == [FUNDED, FIRST];
    InsertAtEnd([FUNDED, FIRST, LATE, RELEASED], NEXT);
  }

  const FIRST_SERVED: seq<Action> := Served(0, Fund(100)) + Served(1, Reserve(Asking("first")))
  const LATE_SERVED: seq<Action> := FIRST_SERVED + OVERTAKEN + Turn(2)

  /** A state between transactions: the lock is free, and these trades were accepted. */
  ghost predicate Between(s: State, record: seq<Entry>, clock: int, clients: set<Client>, accepted: seq<TradeId>) {
    && s.record == record && s.clock == clock && s.lock.None? && s.budgetMint == None
    && s.phases.Keys == clients
    && |s.acceptances| == |accepted|
    && forall k :: 0 <= k < |accepted| ==> s.acceptances[k].trade == Asking(accepted[k])
  }

  lemma FundedIsServed()
    ensures Between(Run(Start(None), Served(0, Fund(100))), [FUNDED], 0, {0}, [])
  {
    EarlyBooks();
    ServedAlone(Start(None), 0, Fund(100));
    InsertAtEnd([], FUNDED);
  }

  /** Between transactions one more is served, and accepted for the record as it stands. */
  lemma OneMoreIsServed(
      s: State, record: seq<Entry>, clock: int, clients: set<Client>, accepted: seq<TradeId>, c: Client, id: TradeId)
    requires Between(s, record, clock, clients, accepted) && c !in clients
    requires Accepts(Reserve(Asking(id)), record, None, true)
    ensures Between(Run(s, Served(c, Reserve(Asking(id)))), Insert(record, Entry(IntentOf(Asking(id)), clock)), clock,
                    clients + {c}, accepted + [id])
  {
    ServedAlone(s, c, Reserve(Asking(id)));
  }

  lemma FirstIsServed()
    ensures Between(Run(Start(None), FIRST_SERVED), [FUNDED, FIRST], 0, {0, 1}, ["first"])
  {
    FundedIsServed();
    EarlyBooks();
    OneMoreIsServed(Run(Start(None), Served(0, Fund(100))), [FUNDED], 0, {0}, [], 1, "first");
    InsertAtEnd([FUNDED], FIRST);
    RunAppend(Start(None), Served(0, Fund(100)), Served(1, Reserve(Asking("first"))));
  }

  lemma LateIsServed()
    ensures Between(Run(Start(None), LATE_SERVED), [FUNDED, FIRST, LATE, RELEASED], 1, {0, 1, 2}, ["first", "late"])
  {
    FirstIsServed();
    var s := Run(Start(None), FIRST_SERVED);
    OvertakenBegin(s);
    var begun := Run(s, OVERTAKEN);
    TakesItsTurn(begun, 2);
    LateBooks();
    OvertakenPlace();
    assert Accepts(Reserve(Asking("late")), begun.record, None, true);
    RunAppend(Start(None), FIRST_SERVED, OVERTAKEN);
    RunAppend(Start(None), FIRST_SERVED + OVERTAKEN, Turn(2));
  }

  lemma NextIsServed()
    ensures Between(Run(Start(None), LATE_SERVED + Served(3, Reserve(Asking("next")))),
                    [FUNDED, FIRST, LATE, RELEASED, NEXT], 1, {0, 1, 2, 3}, ["first", "late", "next"])
  {
    LateIsServed();
    var s := Run(Start(None), LATE_SERVED);
    LateBooks();
    OneMoreIsServed(s, [FUNDED, FIRST, LATE, RELEASED], 1, {0, 1, 2}, ["first", "late"], 3, "next");
    OvertakenPlace();
    RunAppend(Start(None), LATE_SERVED, Served(3, Reserve(Asking("next"))));
  }

  /**
   * Without the ordering condition the promise fails. A reservation that began before another trade let go
   * is accepted from a snapshot in which the money is free, but is read back at its earlier place, where it
   * is not: the replayed budget holds nothing for it and lets a further trade spend the same money.
   */
  lemma AnOvertakenReservationIsLost() returns (actions: seq<Action>)
    ensures var s := Run(Start(None), actions);
            && |s.acceptances| == 3
            && s.acceptances[1].trade == Asking("late") && s.acceptances[2].trade == Asking("next")
            && (forall i :: 0 <= i < |s.record| ==>
                  !IsOutcomeOf(s.record[i].event, "late") && !IsOutcomeOf(s.record[i].event, "next"))
            && "late" !in BooksOf(s.record, None).held
            && Cost(Asking("late"), None) + Cost(Asking("next"), None) > BooksOf(s.record, None).budget.granted
  {
    actions := LATE_SERVED + Served(3, Reserve(Asking("next")));
    NextIsServed();
    FinalBooks();
  }

  // ----- a reservation that was not overtaken, and is lost later -----

  const Y := Entry(IntentOf(AskingFor("y", 30)), 0)
  const OVERTAKES := Entry(IntentOf(AskingFor("late", 40)), 1)
  const X := Entry(IntentOf(AskingFor("x", 60)), 2)
  const Y_FAILED := Entry(Failed("y"), 3)

  /** Transaction 2 begins and waits; x begins after it, is served, and is read last. */
  const X_SERVED: seq<Action> :=
    Served(0, Fund(100)) + Served(1, Reserve(AskingFor("y", 30)))
    + [Tick(1), Begin(2, Reserve(AskingFor("late", 40))), Tick(1)] + Served(3, Reserve(AskingFor("x", 60)))

  /** Then y lets go of its money, and transaction 2 takes its turn. */
  const OVERTAKEN_LATER: seq<Action> := [Tick(1), Outside(Failed("y"))] + Turn(2)

  lemma BooksOfX()
    ensures BooksOf([FUNDED, Y], None) == Books(Budget(100, 30, 0), map["y" := OpenTrade(30, "usd", "sol")])
    ensures BooksOf([FUNDED, Y, X], None)
         == Books(Budget(100, 90, 0), map["y" := OpenTrade(30, "usd", "sol"), "x" := OpenTrade(60, "usd", "sol")])
    ensures BooksOf([FUNDED, Y, X, Y_FAILED], None)
         == Books(Budget(100, 60, 0), map["x" := OpenTrade(60, "usd", "sol")])
  {
    EarlyBooks();
    BooksPush([FUNDED], Y, None);
    BooksPush([FUNDED, Y], X, None);
    BooksPush([FUNDED, Y, X], Y_FAILED, None);
    assert [FUNDED] + [Y] == [FUNDED, Y] && [FUNDED, Y] + [X] == [FUNDED, Y, X];
    assert [FUNDED, Y, X] + [Y_FAILED] == [FUNDED, Y, X, Y_FAILED];
    assert map["y" := OpenTrade(30, "usd", "sol"), "x" := OpenTrade(60, "usd", "sol")] - {"y"}
        == map["x" := OpenTrade(60, "usd", "sol")];
  }

  /** Read before x, the late intent leaves too little for it. */
  lemma BooksPastX()
    ensures BooksOf([FUNDED, Y, OVERTAKES, X], None)
         == Books(Budget(100, 70, 0), map["y" := OpenTrade(30, "usd", "sol"), "late" := OpenTrade(40, "usd", "sol")])
  {
    BooksOfX();
    BooksPush([FUNDED, Y], OVERTAKES, None);
    BooksPush([FUNDED, Y, OVERTAKES], X, None);
    assert [FUNDED, Y] + [OVERTAKES] == [FUNDED, Y, OVERTAKES]
        && [FUNDED, Y, OVERTAKES] + [X] == [FUNDED, Y, OVERTAKES, X];
  }

  lemma BooksWithoutX()
    ensures BooksOf([FUNDED, Y, OVERTAKES, X, Y_FAILED], None)
         == Books(Budget(100, 40, 0), map["late" := OpenTrade(40, "usd", "sol")])
  {
    BooksPastX();
    BooksPush([FUNDED, Y, OVERTAKES, X], Y_FAILED, None);
    assert [FUNDED, Y, OVERTAKES, X] + [Y_FAILED] == [FUNDED, Y, OVERTAKES, X, Y_FAILED];
    assert map["y" := OpenTrade(30, "usd", "sol"), "late" := OpenTrade(40, "usd", "sol")] - {"y"}
        == map["late" := OpenTrade(40, "usd", "sol")];
  }

  /** What matters of a state while transaction 2 waits. */
  ghost predicate WhileLateWaits(s: State, record: seq<Entry>, clock: int) {
    && s.record == record && s.clock == clock && s.lock.None? && s.budgetMint == None
    && 2 in s.phases && s.phases[2] == Waiting(Reserve(AskingFor("late", 40)), 1)
  }

  lemma LateBeginsToWait(s: State)
    requires s.record == [FUNDED, Y] && s.clock == 0 && s.lock.None? && s.budgetMint == None && s.phases.Keys == {0, 1}
    ensures var s' := Run(s, [Tick(1), Begin(2, Reserve(AskingFor("late", 40))), Tick(1)]);
            WhileLateWaits(s', [FUNDED, Y], 2) && s'.phases.Keys == {0, 1, 2} && s'.acceptances == s.acceptances
  {
    var a := [Tick(1), Begin(2, Reserve(AskingFor("late", 40))), Tick(1)];
    RunOne(s, a[0]);
    RunPush(s, [a[0]], a[1]);
    RunPush(s, [a[0], a[1]], a[2]);
    assert [a[0]] + [a[1]] == [a[0], a[1]] && [a[0], a[1]] + [a[2]] == a;
  }

  lemma YIsServed()
    ensures var s := Run(Start(None), Served(0, Fund(100)) + Served(1, Reserve(AskingFor("y", 30))));
            && s.record == [FUNDED, Y] && s.clock == 0 && s.lock.None? && s.budgetMint == None
            && s.phases.Keys == {0, 1} && |s.acceptances| == 1
  {
    FundedIsServed();
    EarlyBooks();
    var s := Run(Start(None), Served(0, Fund(100)));
    assert Accepts(Reserve(AskingFor("y", 30)), s.record, None, true);
    ServedAlone(s, 1, Reserve(AskingFor("y", 30)));
    InsertAtEnd([FUNDED], Y);
    RunAppend(Start(None), Served(0, Fund(100)), Served(1, Reserve(AskingFor("y", 30))));
  }

  lemma XIsServedFrom(s: State)
    requires WhileLateWaits(s, [FUNDED, Y], 2) && s.phases.Keys == {0, 1, 2}
    ensures var s' := Run(s, Served(3, Reserve(AskingFor("x", 60))));
            && WhileLateWaits(s', [FUNDED, Y, X], 2)
            && s'.acceptances == s.acceptances + [Acceptance(AskingFor("x", 60), 2)]
  {
    BooksOfX();
    assert Accepts(Reserve(AskingFor("x", 60)), s.record, None, true);
    ServedAlone(s, 3, Reserve(AskingFor("x", 60)));
    InsertAtEnd([FUNDED, Y], X);
  }

  lemma XIsServed()
    ensures var s := Run(Start(None), X_SERVED);
            && WhileLateWaits(s, [FUNDED, Y, X], 2)
            && |s.acceptances| == 2 && s.acceptances[1] == Acceptance(AskingFor("x", 60), 2)
  {
    var first := Served(0, Fund(100)) + Served(1, Reserve(AskingFor("y", 30)));
    var waits := [Tick(1), Begin(2, Reserve(AskingFor("late", 40))), Tick(1)];
    YIsServed();
    LateBeginsToWait(Run(Start(None), first));
    RunAppend(Start(None), first, waits);
    XIsServedFrom(Run(Start(None), first + waits));
    RunAppend(Start(None), first + waits, Served(3, Reserve(AskingFor("x", 60))));
  }

  lemma YLetsGo(s: State)
    requires WhileLateWaits(s, [FUNDED, Y, X], 2)
    ensures WhileLateWaits(Run(s, [Tick(1), Outside(Failed("y"))]), [FUNDED, Y, X, Y_FAILED], 3)
  {
    InsertAtEnd([FUNDED, Y, X], Y_FAILED);
    RunOne(s, Tick(1));
    RunPush(s, [Tick(1)], Outside(Failed("y")));
    assert [Tick(1)] + [Outside(Failed("y"))] == [Tick(1), Outside(Failed("y"))];
  }

  lemma LateTakesItsTurn(s: State)
    requires WhileLateWaits(s, [FUNDED, Y, X, Y_FAILED], 3)
    ensures Run(s, Turn(2)).record == [FUNDED, Y, OVERTAKES, X, Y_FAILED]
  {
    BooksOfX();
    assert Accepts(Reserve(AskingFor("late", 40)), s.record, None, true);
    TakesItsTurn(s, 2);
    assert [FUNDED, Y, X, Y_FAILED][..3] == [FUNDED, Y, X] && [FUNDED, Y, X][..2] == [FUNDED, Y];
    assert Place([FUNDED, Y], 1) == 2 && Place([FUNDED, Y, X], 1) == 2 && Place([FUNDED, Y, X, Y_FAILED], 1) == 2;
  }

  /**
   * And landing last does not keep a reservation. x is accepted, is read last, fits what is free there and is
   * held; then a transaction that began before it is written before it, and on replay x holds nothing, although
   * nothing has ended it, and the money it was promised reads as free.
   */
  lemma AHeldReservationIsLostLater()
    ensures var s := Run(Start(None), X_SERVED);
            && |s.acceptances| == 2 && s.acceptances[1] == Acceptance(AskingFor("x", 60), 2)
            && s.record == [FUNDED, Y, X]
            && "x" in BooksOf(s.record, None).held
    ensures var later := Run(Run(Start(None), X_SERVED), OVERTAKEN_LATER);
            && (forall i :: 0 <= i < |later.record| ==> !IsOutcomeOf(later.record[i].event, "x"))
            && "x" !in BooksOf(later.record, None).held
            && FreeOf(BooksOf(later.record, None)) == 60
  {
    XIsServed();
    BooksOfX();
    var s := Run(Start(None), X_SERVED);
    YLetsGo(s);
    LateTakesItsTurn(Run(s, [Tick(1), Outside(Failed("y"))]));
    RunAppend(s, [Tick(1), Outside(Failed("y"))], Turn(2));
    BooksWithoutX();
  }
}
