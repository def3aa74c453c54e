/**
 * A machine's float and the sweep of its profit (packages/runtime/src/machine-float.ts,
 * packages/rules/src/float.ts). What the account holds is measured by the caller and passed in.
 */
module MachineFloats {
  import opened Arithmetic
  import opened Results
  import opened Record
  import opened Budgets
  import opened MachineBudgets
  import opened BudgetLaws
  import opened MachinePnls

  const DEFAULT_SWEEP_THRESHOLD_BPS := 200
  const BPS := 10_000

  datatype SweepDecision = SweepDecision(sweep: bool, amount: int, threshold: int)

  datatype MachineFloat = MachineFloat(
    target: int,
    value: int,
    basis: int,
    position: int,
    surplus: int,
    deficit: int,
    banked: int,
    flat: bool,
    sweep: SweepDecision,
    simulated: bool)

  // ----- the rule -----

  /** `thresholdBps` is absent when the owner gave none, or gave something that is not a whole number. */
  function SweepThreshold(target: int, thresholdBps: Option<int>): (threshold: int)
  {
    var asked := if thresholdBps.Some? then thresholdBps.value else 0;
    var bps := if asked > DEFAULT_SWEEP_THRESHOLD_BPS then asked else DEFAULT_SWEEP_THRESHOLD_BPS;
    if target > 0 then Truncated(target * bps, BPS) else 0
  }

  function SweepDue(target: int, value: int, flat: bool, thresholdBps: Option<int>): SweepDecision {
    var threshold := SweepThreshold(target, thresholdBps);
    var no := SweepDecision(false, 0, threshold);
    if target <= 0 then no
    else if !flat then no
    else
      var surplus := value - target;
      if surplus <= 0 then no
      else if surplus < threshold then no
      else SweepDecision(true, surplus, threshold)
  }

  /** An owner may raise the threshold and never lower it: two in a hundred of the float, rounded down. */
  lemma ThresholdIsAFloor(target: int, thresholdBps: Option<int>)
    ensures SweepThreshold(target, None) <= SweepThreshold(target, thresholdBps)
    ensures 0 <= SweepThreshold(target, thresholdBps)
    ensures target > 0 && thresholdBps.Some? && thresholdBps.value >= DEFAULT_SWEEP_THRESHOLD_BPS ==>
              var asked := SweepThreshold(target, thresholdBps);
              asked * BPS <= target * thresholdBps.value < (asked + 1) * BPS
  {
    if target > 0 {
      var asked := if thresholdBps.Some? then thresholdBps.value else 0;
      var bps := if asked > DEFAULT_SWEEP_THRESHOLD_BPS then asked else DEFAULT_SWEEP_THRESHOLD_BPS;
      MulMonotone(DEFAULT_SWEEP_THRESHOLD_BPS, bps, target);
      QuotientMonotone(target * DEFAULT_SWEEP_THRESHOLD_BPS, target * bps, BPS);
      QuotientIsLargest(target * DEFAULT_SWEEP_THRESHOLD_BPS, BPS, 0);
      QuotientBounds(target * bps, BPS);
    }
  }

  // ----- the vault -----

  function SweepIds(events: seq<Event>): set<string> {
    if events == [] then {}
    else
      var last := events[|events| - 1];
      SweepIds(events[..|events| - 1]) + if last.SweepCompleted? then {last.sweepId} else {}
  }

  /** The first landing of every sweep, added up. */
  function Banked(events: seq<Event>): nat {
    if events == [] then 0
    else
      var before, last := events[..|events| - 1], events[|events| - 1];
      Banked(before) + if last.SweepCompleted? && last.sweepId !in SweepIds(before) then last.amount else 0
  }

  method BankedFrom(events: seq<Event>) returns (banked: nat)
    ensures banked == Banked(events)
  {
    var counted: set<string> := {};
    banked := 0;
    for i := 0 to |events|
      invariant counted == SweepIds(events[..i]) && banked == Banked(events[..i])
    {
      assert events[..i + 1][..i] == events[..i];
      if events[i].SweepCompleted? {
        if events[i].sweepId !in counted {
          counted := counted + {events[i].sweepId};
          banked := banked + events[i].amount;
        }
      }
    }
    assert events[..|events|] == events;
  }

  /** A landed sweep adds its amount the first time its id is read, and nothing ever again. */
  lemma SweepIsBankedOnce(events: seq<Event>, sweepId: string, amount: nat)
    ensures Banked(events + [SweepCompleted(sweepId, amount)])
         == Banked(events) + if sweepId in SweepIds(events) then 0 else amount
  {
    assert (events + [SweepCompleted(sweepId, amount)])[..|events|] == events;
  }

  /** The i-th event is where the sweep of this id is read to have landed first. */
  predicate FirstLanding(events: seq<Event>, id: string, i: int) {
    && 0 <= i < |events| && events[i].SweepCompleted? && events[i].sweepId == id
    && forall j | 0 <= j < i :: !(events[j].SweepCompleted? && events[j].sweepId == id)
  }

  lemma {:induction false} SweepIdsAreThoseRead(events: seq<Event>, i: nat)
    requires i < |events| && events[i].SweepCompleted?
    ensures events[i].sweepId in SweepIds(events)
  {
    if i < |events| - 1 {
      SweepIdsAreThoseRead(events[..|events| - 1], i);
    }
  }

  lemma {:induction false} SweepIdsAreThoseThatLanded(events: seq<Event>, id: string)
    ensures id in SweepIds(events) <==> exists i :: FirstLanding(events, id, i)
  {
    if events != [] {
      var n := |events| - 1;
      SweepIdsAreThoseThatLanded(events[..n], id);
      assert forall i | i < n :: FirstLanding(events, id, i) <==> FirstLanding(events[..n], id, i);
      if events[n].SweepCompleted? && events[n].sweepId == id && id !in SweepIds(events[..n]) {
        NotLanded(events[..n], id);
        assert FirstLanding(events, id, n);
      }
    }
  }

  lemma NotLanded(events: seq<Event>, id: string)
    requires id !in SweepIds(events)
    ensures forall j | 0 <= j < |events| :: !(events[j].SweepCompleted? && events[j].sweepId == id)
  {
    forall j | 0 <= j < |events| && events[j].SweepCompleted?
      ensures events[j].sweepId in SweepIds(events)
    {
      SweepIdsAreThoseRead(events, j);
    }
  }

  /** The amount of each sweep that landed, by its id, where it landed first. */
  ghost predicate AreFirstAmounts(events: seq<Event>, amounts: map<string, nat>) {
    && (forall id :: id in amounts <==> exists i :: FirstLanding(events, id, i))
    && forall id, i | id in amounts && FirstLanding(events, id, i) :: amounts[id] == events[i].amount
  }

  ghost function LandedAt(events: seq<Event>, id: string): (i: int)
    requires id in SweepIds(events)
    ensures FirstLanding(events, id, i)
  {
    SweepIdsAreThoseThatLanded(events, id);
    var i :| FirstLanding(events, id, i);
    i
  }

  ghost function FirstAmounts(events: seq<Event>): map<string, nat> {
    map id | id in SweepIds(events) :: events[LandedAt(events, id)].amount
  }

  lemma FirstAmountsAre(events: seq<Event>)
    ensures AreFirstAmounts(events, FirstAmounts(events))
  {
    forall id
      ensures id in FirstAmounts(events) <==> exists i :: FirstLanding(events, id, i)
    {
      SweepIdsAreThoseThatLanded(events, id);
    }
  }

  ghost function Total(amounts: map<string, nat>): nat {
    if amounts == map[] then 0
    else
      var id :| id in amounts;
      amounts[id] + Total(amounts - {id})
  }

  lemma {:induction false} TotalWithout(amounts: map<string, nat>, id: string)
    requires id in amounts
    ensures Total(amounts) == amounts[id] + Total(amounts - {id})
    decreases |amounts|
  {
    var first :| first in amounts && Total(amounts) == amounts[first] + Total(amounts - {first});
    if first != id {
      TotalWithout(amounts - {first}, id);
      TotalWithout(amounts - {id}, first);
      assert amounts - {first} - {id} == amounts - {id} - {first};
    }
  }

  lemma FirstAmountsBefore(events: seq<Event>, amounts: map<string, nat>, fewer: map<string, nat>)
    requires events != [] && AreFirstAmounts(events, amounts)
    requires var n := |events| - 1; events[n].SweepCompleted? && FirstLanding(events, events[n].sweepId, n)
    requires fewer == amounts - {events[|events| - 1].sweepId}
    ensures AreFirstAmounts(events[..|events| - 1], fewer)
  {
    var n := |events| - 1;
    forall id
      ensures id in fewer <==> exists i :: FirstLanding(events[..n], id, i)
    {
      if i :| FirstLanding(events[..n], id, i) {
        assert FirstLanding(events, id, i);
      }
      if id in fewer {
        var i :| FirstLanding(events, id, i);
        assert FirstLanding(events[..n], id, i);
      }
    }
    assert forall id, i | FirstLanding(events[..n], id, i) :: FirstLanding(events, id, i);
  }

  lemma FirstAmountsSame(events: seq<Event>, amounts: map<string, nat>, before: seq<Event>)
    requires events != [] && AreFirstAmounts(events, amounts) && before == events[..|events| - 1]
    requires var last := events[|events| - 1];
             last.SweepCompleted? ==> exists i :: FirstLanding(before, last.sweepId, i)
    ensures AreFirstAmounts(before, amounts)
  {
    forall id
      ensures id in amounts <==> exists i :: FirstLanding(before, id, i)
    {
      if i :| FirstLanding(before, id, i) {
        assert FirstLanding(events, id, i);
      }
      if id in amounts {
        var i :| FirstLanding(events, id, i);
        assert i < |before| ==> FirstLanding(before, id, i);
      }
    }
    assert forall id, i | FirstLanding(before, id, i) :: FirstLanding(events, id, i);
  }

  lemma {:induction false} BankedIsTheirTotal(events: seq<Event>, amounts: map<string, nat>)
    requires AreFirstAmounts(events, amounts)
    ensures Banked(events) == Total(amounts)
  {
    forall id
      ensures id in amounts <==> id in SweepIds(events)
    {
      SweepIdsAreThoseThatLanded(events, id);
    }
    if events != [] {
      var n := |events| - 1;
      var last := events[n];
      if last.SweepCompleted? && last.sweepId !in SweepIds(events[..n]) {
        NotLanded(events[..n], last.sweepId);
        assert FirstLanding(events, last.sweepId, n);
        FirstAmountsBefore(events, amounts, amounts - {last.sweepId});
        BankedIsTheirTotal(events[..n], amounts - {last.sweepId});
        TotalWithout(amounts, last.sweepId);
      } else {
        if last.SweepCompleted? {
          SweepIdsAreThoseThatLanded(events[..n], last.sweepId);
        }
        FirstAmountsSame(events, amounts, events[..n]);
        BankedIsTheirTotal(events[..n], amounts);
      }
    }
  }

  /** Over any record the vault holds, for each id whose sweep landed, the amount it landed with first: each id once. */
  lemma VaultIsTheFirstLandings(events: seq<Event>)
    ensures Banked(events) == Total(FirstAmounts(events))
    ensures AreFirstAmounts(events, FirstAmounts(events))
  {
    FirstAmountsAre(events);
    BankedIsTheirTotal(events, FirstAmounts(events));
  }

  lemma {:induction false} KnownSweepsAddNothing(events: seq<Event>, again: seq<Event>)
    requires forall i :: 0 <= i < |again| && again[i].SweepCompleted? ==> again[i].sweepId in SweepIds(events)
    ensures Banked(events + again) == Banked(events) && SweepIds(events + again) == SweepIds(events)
  {
    if again == [] {
      assert events + again == events;
    } else {
      var n := |again| - 1;
      KnownSweepsAddNothing(events, again[..n]);
      assert (events + again)[..|events| + n] == events + again[..n];
    }
  }

  /** Reading the record again from the beginning banks nothing more. */
  lemma VaultReadsTheSameTwice(events: seq<Event>)
    ensures Banked(events + events) == Banked(events)
  {
    forall i | 0 <= i < |events| && events[i].SweepCompleted?
      ensures events[i].sweepId in SweepIds(events)
    {
      SweepIdsAreThoseRead(events, i);
    }
    KnownSweepsAddNothing(events, events);
  }

  // ----- the float -----

  function NoFloat(thresholdBps: Option<int>): MachineFloat {
    MachineFloat(0, 0, 0, 0, 0, 0, 0, true, SweepDue(0, 0, true, thresholdBps), false)
  }

  ghost function FloatOf(
      events: seq<Event>, budgetMint: Option<Mint>, holding: int, thresholdBps: Option<int>): MachineFloat
  {
    if budgetMint.None? then NoFloat(thresholdBps)
    else
      var books := Replay(events, budgetMint);
      var tally := Fold(events, budgetMint.value);
      var target, value := books.budget.granted, holding + tally.pnl.basis;
      var flat := tally.pnl.position == 0 && books.held == map[];
      var above := value - target;
      MachineFloat(target, value, tally.pnl.basis, tally.pnl.position,
                   if above > 0 then above else 0, if above < 0 then -above else 0,
                   Banked(events), flat, SweepDue(target, value, flat, thresholdBps), tally.pnl.simulated)
  }

  method FloatFrom(events: seq<Event>, budgetMint: Option<Mint>, holding: int, thresholdBps: Option<int>)
    returns (float: MachineFloat)
    ensures float == FloatOf(events, budgetMint, holding, thresholdBps)
  {
    if budgetMint.None? {
      return NoFloat(thresholdBps);
    }
    var folded := FoldBudget(events, budgetMint);
    var budget := folded.value;
    var pnl := FoldPnl(events, budgetMint);
    var banked := BankedFrom(events);
    var value := holding + pnl.basis;
    var flat := pnl.position == 0 && budget.openTrades == 0;
    var above := value - budget.budget.granted;
    return MachineFloat(budget.budget.granted, value, pnl.basis, pnl.position,
                        if above > 0 then above else 0, if above < 0 then -above else 0,
                        banked, flat, SweepDue(budget.budget.granted, value, flat, thresholdBps), pnl.simulated);
  }

  // ----- what the float says -----

  /** The owner's threshold in basis points, never below two in a hundred. */
  function AtLeastTwoPercent(thresholdBps: Option<int>): int {
    if thresholdBps.Some? && thresholdBps.value > 200 then thresholdBps.value else 200
  }

  /** The threshold is that share of the float, rounded down; without a float there is none. */
  lemma ThresholdIsItsShare(target: int, thresholdBps: Option<int>)
    ensures target <= 0 ==> SweepThreshold(target, thresholdBps) == 0
    ensures target > 0 ==>
              var threshold := SweepThreshold(target, thresholdBps);
              threshold * 10_000 <= target * AtLeastTwoPercent(thresholdBps) < (threshold + 1) * 10_000
  {
    if target > 0 {
      MulMonotone(0, AtLeastTwoPercent(thresholdBps), target);
      QuotientBounds(target * AtLeastTwoPercent(thresholdBps), 10_000);
    }
  }

  lemma ReachesTheThreshold(surplus: int, threshold: int, share: int)
    requires threshold * 10_000 <= share < (threshold + 1) * 10_000
    ensures surplus >= threshold <==> share < (surplus + 1) * 10_000
  {
  }

  lemma SweepIsDueExactlyWhen(target: int, value: int, flat: bool, thresholdBps: Option<int>)
    ensures var sweep := SweepDue(target, value, flat, thresholdBps);
            && (sweep.sweep <==>
                && target > 0 && flat && value > target
                && target * AtLeastTwoPercent(thresholdBps) < (value - target + 1) * 10_000)
            && sweep.amount == (if sweep.sweep then value - target else 0)
            && sweep.threshold == SweepThreshold(target, thresholdBps)
  {
    ThresholdIsItsShare(target, thresholdBps);
    if target > 0 {
      ReachesTheThreshold(value - target, SweepThreshold(target, thresholdBps),
        target * AtLeastTwoPercent(thresholdBps));
    }
  }

  /**
   * The float's line is the grant; its value is what the account holds and what the position cost; it is above or
   * below the line by one of the two, never both. It is flat when nothing is held and no trade is open.
   */
  lemma FloatTells(events: seq<Event>, mint: Mint, holding: int, thresholdBps: Option<int>)
    ensures var float := FloatOf(events, Some(mint), holding, thresholdBps);
            && float.target == Replay(events, Some(mint)).budget.granted
            && float.value == holding + float.basis
            && float.basis == Fold(events, mint).pnl.basis && float.position == Fold(events, mint).pnl.position
            && float.surplus - float.deficit == float.value - float.target
            && float.surplus >= 0 && float.deficit >= 0 && (float.surplus == 0 || float.deficit == 0)
            && (float.flat <==> float.position == 0 && forall id :: id !in Replay(events, Some(mint)).held)
            && float.banked == Banked(events) && float.simulated == Fold(events, mint).pnl.simulated
  {
    var held := Replay(events, Some(mint)).held;
    assert held == map[] <==> forall id :: id !in held;
  }

  /**
   * A sweep is due exactly when the machine has a float, holds nothing, has no trade in flight, and is above its line
   * by the threshold: two in a hundred of the float or the owner's larger share of it, rounded down. The whole surplus
   * is swept.
   */
  lemma SweptExactlyWhen(events: seq<Event>, mint: Mint, holding: int, thresholdBps: Option<int>)
    ensures var float := FloatOf(events, Some(mint), holding, thresholdBps);
            && (float.sweep.sweep <==>
                && float.target > 0 && float.position == 0
                && (forall id :: !IsOpen(events, id, Some(mint)))
                && float.surplus > 0
                && float.target * AtLeastTwoPercent(thresholdBps) < (float.surplus + 1) * 10_000)
            && float.sweep.amount == (if float.sweep.sweep then float.surplus else 0)
  {
    var float := FloatOf(events, Some(mint), holding, thresholdBps);
    FloatTells(events, mint, holding, thresholdBps);
    SweepIsDueExactlyWhen(float.target, float.value, float.flat, thresholdBps);
    forall id
      ensures id in Replay(events, Some(mint)).held <==> IsOpen(events, id, Some(mint))
    {
      OpenExactlyWhenHeld(events, id, Some(mint));
    }
  }

  /** Without a currency there is no float, and nothing is swept. */
  lemma NoCurrencyNoSweep(events: seq<Event>, holding: int, thresholdBps: Option<int>)
    ensures var float := FloatOf(events, None, holding, thresholdBps);
            && float.target == float.value == float.basis == float.position == float.surplus == float.deficit == 0
            && float.banked == 0 && float.flat && !float.simulated && !float.sweep.sweep && float.sweep.amount == 0
  {
  }

  /** A sweep moves nothing the two folds count. */
  lemma SweepLeavesTheFolds(events: seq<Event>, budgetMint: Mint, sweepId: string, amount: nat)
    ensures Replay(events + [SweepCompleted(sweepId, amount)], Some(budgetMint)) == Replay(events, Some(budgetMint))
    ensures Fold(events + [SweepCompleted(sweepId, amount)], budgetMint) == Fold(events, budgetMint)
  {
    ReplayPush(OPENING, events, SweepCompleted(sweepId, amount), Some(budgetMint));
    FoldPush(FRESH, events, SweepCompleted(sweepId, amount), budgetMint);
  }

  /**
   * When nothing is stranded, a due sweep is exactly what the account holds above the float: at least the
   * threshold, never the principal. Once it has landed, the account is on its line, no further sweep is due,
   * and account and vault together hold what they held.
   */
  lemma SweepTakesOnlyProfit(
      events: seq<Event>, budgetMint: Mint, holding: int, thresholdBps: Option<int>, sweepId: string)
    requires NothingStranded(events, budgetMint)
    requires FloatOf(events, Some(budgetMint), holding, thresholdBps).sweep.sweep
    requires sweepId !in SweepIds(events)
    ensures var before := FloatOf(events, Some(budgetMint), holding, thresholdBps);
            var amount := before.sweep.amount;
            && amount == holding - before.target
            && 0 < amount <= holding
            && amount >= SweepThreshold(before.target, None)
            && amount >= before.sweep.threshold
            && var swept := events + [SweepCompleted(sweepId, amount)];
               var after := FloatOf(swept, Some(budgetMint), holding - amount, thresholdBps);
               && after.target == before.target
               && after.value == after.target == holding - amount
               && after.surplus == after.deficit == 0
               && !after.sweep.sweep
               && (holding - amount) + after.banked == holding + before.banked
  {
    var before := FloatOf(events, Some(budgetMint), holding, thresholdBps);
    CashIsConserved(events, budgetMint);
    BasisIsLeftExactlyWhenStranded(events, budgetMint);
    ThresholdIsAFloor(before.target, thresholdBps);
    SweepLeavesTheFolds(events, budgetMint, sweepId, before.sweep.amount);
    SweepIsBankedOnce(events, sweepId, before.sweep.amount);
  }

  /**
   * A due sweep leaves the account on its line exactly when nothing is stranded, and takes it below exactly
   * when some buy paid, delivered nothing, and has been followed by no position since.
   */
  lemma SweepTakesPrincipalExactlyWhenStranded(
      events: seq<Event>, budgetMint: Mint, holding: int, thresholdBps: Option<int>)
    requires FloatOf(events, Some(budgetMint), holding, thresholdBps).sweep.sweep
    ensures var float := FloatOf(events, Some(budgetMint), holding, thresholdBps);
            && (holding - float.sweep.amount == float.target <==> NothingStranded(events, budgetMint))
            && (holding - float.sweep.amount < float.target <==> exists i :: Strands(events, budgetMint, i))
  {
    CashIsConserved(events, budgetMint);
    BasisIsLeftExactlyWhenStranded(events, budgetMint);
  }

  const GRANT := LimitsChanged(BUDGET_GRANTED, 100)
  const INTENT := Intended("t", "usd", "sol", 10, None)
  const EMPTY_BUY := Completed("t", 10, 0, 0)

  const OPENED := map["t" := OpenTrade(10, "usd", "sol")]

  lemma IntentOpens(mint: Option<Mint>)
    requires mint == Some("usd")
    ensures MachineBudgets.Step(Books(Budget(100, 0, 0), map[]), INTENT, mint)
         == Success(Books(Budget(100, 10, 0), OPENED))
  {
  }

  lemma EmptyBuyCloses(mint: Option<Mint>)
    requires mint == Some("usd")
    ensures MachineBudgets.Step(Books(Budget(100, 10, 0), OPENED), EMPTY_BUY, mint)
         == Success(Books(Budget(100, 0, 10), map[]))
  {
    assert OPENED - {"t"} == map[];
  }

  lemma EmptyBuyBooks()
    ensures Replay([GRANT, INTENT, EMPTY_BUY], Some("usd")) == Books(Budget(100, 0, 10), map[])
  {
    var mint := Some("usd");
    ReplayPush(OPENING, [], GRANT, mint);
    ReplayPush(OPENING, [GRANT], INTENT, mint);
    ReplayPush(OPENING, [GRANT, INTENT], EMPTY_BUY, mint);
    assert [] + [GRANT] == [GRANT] && [GRANT] + [INTENT] == [GRANT, INTENT];
    assert [GRANT, INTENT] + [EMPTY_BUY] == [GRANT, INTENT, EMPTY_BUY];
    assert MachineBudgets.Step(OPENING, GRANT, mint) == Success(Books(Budget(100, 0, 0), map[]));
    IntentOpens(mint);
    EmptyBuyCloses(mint);
  }

  lemma EmptyBuyTally()
    ensures var pnl := Fold([GRANT, INTENT, EMPTY_BUY], "usd").pnl;
            pnl.position == 0 && pnl.basis == 10
  {
    FoldPush(FRESH, [], GRANT, "usd");
    FoldPush(FRESH, [GRANT], INTENT, "usd");
    FoldPush(FRESH, [GRANT, INTENT], EMPTY_BUY, "usd");
    assert [] + [GRANT] == [GRANT] && [GRANT] + [INTENT] == [GRANT, INTENT];
    assert [GRANT, INTENT] + [EMPTY_BUY] == [GRANT, INTENT, EMPTY_BUY];
  }

  /** With a buy that delivered nothing, the same rule sweeps money that is not profit. */
  lemma EmptyBuySweepsPrincipal()
    ensures var float := FloatOf([GRANT, INTENT, EMPTY_BUY], Some("usd"), 100, None);
            && float.target == 100
            && float.sweep.sweep && float.sweep.amount == 10
            && 100 - float.sweep.amount < float.target
  {
    EmptyBuyBooks();
    EmptyBuyTally();
    assert SweepThreshold(100, None) == 2;
  }
}
