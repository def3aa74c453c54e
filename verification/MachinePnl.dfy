/** Whether a machine has made money, folded from its record (packages/runtime/src/machine-pnl.ts). */
module MachinePnls {
  import opened Arithmetic
  import opened Results
  import opened Record

  datatype Pnl = Pnl(
    realised: int,
    position: int,
    basis: int,
    feesLamports: int,
    trades: nat,
    roundTrips: nat,
    wins: nat,
    losses: nat,
    simulated: bool)

  datatype Legs = Legs(inputMint: Mint, outputMint: Mint)

  /** The variables of the loop. */
  datatype Tally = Tally(pnl: Pnl, intents: map<TradeId, Legs>, counted: set<TradeId>)

  const NOTHING := Pnl(0, 0, 0, 0, 0, 0, 0, 0, false)
  const FRESH := Tally(NOTHING, map[], {})

  /** Division of whole numbers as the source does it, towards zero. */
  function Truncated(n: int, d: int): int
    requires d > 0
  {
    if n >= 0 then n / d else -((-n) / d)
  }

  predicate IsDone(event: Event) {
    event.Completed? || event.Simulated?
  }

  function Spent(event: Event): nat
    requires IsDone(event)
  {
    event.inputAmount
  }

  function Got(event: Event): nat
    requires IsDone(event)
  {
    if event.Completed? then event.outputAmount else event.quotedOutputAmount
  }

  function Fee(event: Event): nat
    requires IsDone(event)
  {
    if event.Completed? then event.feeLamports else 0
  }

  // ----- one trade -----

  function CarriedAway(pnl: Pnl, spent: nat): int {
    var sold := if spent > pnl.position then pnl.position else spent;
    if pnl.position > 0 then Truncated(pnl.basis * sold, pnl.position) else 0
  }

  function Bought(pnl: Pnl, spent: nat, got: nat): Pnl {
    pnl.(basis := pnl.basis + spent, position := pnl.position + got)
  }

  function Sold(pnl: Pnl, spent: nat, got: nat): Pnl {
    var sold := if spent > pnl.position then pnl.position else spent;
    var cost := CarriedAway(pnl, spent);
    var gain := got - cost;
    pnl.(realised := pnl.realised + gain,
         basis := pnl.basis - cost,
         position := pnl.position - sold,
         roundTrips := pnl.roundTrips + 1,
         wins := pnl.wins + if gain > 0 then 1 else 0,
         losses := pnl.losses + if gain < 0 then 1 else 0)
  }

  predicate Counts(tally: Tally, event: Event) {
    IsDone(event) && event.tradeId in tally.intents && event.tradeId !in tally.counted
  }

  predicate IsBuy(tally: Tally, event: Event, budgetMint: Mint) {
    Counts(tally, event) && tally.intents[event.tradeId].inputMint == budgetMint
  }

  predicate IsSale(tally: Tally, event: Event, budgetMint: Mint) {
    && Counts(tally, event)
    && tally.intents[event.tradeId].inputMint != budgetMint
    && tally.intents[event.tradeId].outputMint == budgetMint
  }

  function Step(tally: Tally, event: Event, budgetMint: Mint): Tally {
    if event.Intended? then
      if event.tradeId in tally.intents then tally
      else tally.(intents := tally.intents[event.tradeId := Legs(event.inputMint, event.outputMint)])
    else if !Counts(tally, event) then tally
    else
      var noted := tally.pnl.(trades := tally.pnl.trades + 1,
                              feesLamports := tally.pnl.feesLamports + Fee(event),
                              simulated := tally.pnl.simulated || event.Simulated?);
      Tally(
        if IsBuy(tally, event, budgetMint) then Bought(noted, Spent(event), Got(event))
        else if IsSale(tally, event, budgetMint) then Sold(noted, Spent(event), Got(event))
        else noted,
        tally.intents,
        tally.counted + {event.tradeId})
  }

  function FoldFrom(tally: Tally, events: seq<Event>, budgetMint: Mint): Tally {
    if events == [] then tally
    else Step(FoldFrom(tally, events[..|events| - 1], budgetMint), events[|events| - 1], budgetMint)
  }

  function Fold(events: seq<Event>, budgetMint: Mint): Tally {
    FoldFrom(FRESH, events, budgetMint)
  }

  lemma FoldPush(tally: Tally, events: seq<Event>, event: Event, budgetMint: Mint)
    ensures FoldFrom(tally, events + [event], budgetMint)
         == Step(FoldFrom(tally, events, budgetMint), event, budgetMint)
  {
    assert (events + [event])[..|events|] == events;
  }

  lemma {:induction false} FoldAppend(tally: Tally, first: seq<Event>, rest: seq<Event>, budgetMint: Mint)
    ensures FoldFrom(tally, first + rest, budgetMint) == FoldFrom(FoldFrom(tally, first, budgetMint), rest, budgetMint)
    decreases |rest|
  {
    if rest == [] {
      assert first + rest == first;
    } else {
      var n := |rest| - 1;
      FoldAppend(tally, first, rest[..n], budgetMint);
      assert first + rest == (first + rest[..n]) + [rest[n]];
      FoldPush(tally, first + rest[..n], rest[n], budgetMint);
    }
  }

  /** One trade counted for the first time. */
  method CountTrade(before: Pnl, event: Event, legs: Legs, mint: Mint) returns (pnl: Pnl)
    requires IsDone(event)
    ensures var noted := before.(trades := before.trades + 1,
                                 feesLamports := before.feesLamports + Fee(event),
                                 simulated := before.simulated || event.Simulated?);
            pnl == if legs.inputMint == mint then Bought(noted, Spent(event), Got(event))
                   else if legs.outputMint == mint then Sold(noted, Spent(event), Got(event))
                   else noted
  {
    var spent, got := Spent(event), Got(event);
    pnl := before.(trades := before.trades + 1,
                   feesLamports := before.feesLamports + Fee(event),
                   simulated := before.simulated || event.Simulated?);
    if legs.inputMint == mint {
      pnl := pnl.(basis := pnl.basis + spent, position := pnl.position + got);
    } else if legs.outputMint == mint {
      var sold := if spent > pnl.position then pnl.position else spent;
      var cost := if pnl.position > 0 then Truncated(pnl.basis * sold, pnl.position) else 0;
      var gain := got - cost;
      pnl := pnl.(realised := pnl.realised + gain, basis := pnl.basis - cost, position := pnl.position - sold,
                  roundTrips := pnl.roundTrips + 1);
      if gain > 0 {
        pnl := pnl.(wins := pnl.wins + 1);
      }
      if gain < 0 {
        pnl := pnl.(losses := pnl.losses + 1);
      }
    }
  }

  /** The loop of the source; without a budget currency it never starts. */
  method FoldPnl(events: seq<Event>, budgetMint: Option<Mint>) returns (pnl: Pnl)
    ensures pnl == if budgetMint.None? then NOTHING else Fold(events, budgetMint.value).pnl
  {
    if budgetMint.None? {
      return NOTHING;
    }
    var mint := budgetMint.value;
    var intents: map<TradeId, Legs> := map[];
    var counted: set<TradeId> := {};
    pnl := NOTHING;
    for i := 0 to |events|
      invariant Tally(pnl, intents, counted) == Fold(events[..i], mint)
    {
      var event := events[i];
      FoldPush(FRESH, events[..i], event, mint);
      assert events[..i + 1] == events[..i] + [event];
      if event.Intended? {
        if event.tradeId !in intents {
          intents := intents[event.tradeId := Legs(event.inputMint, event.outputMint)];
        }
      } else if IsDone(event) {
        if event.tradeId in intents && event.tradeId !in counted {
          counted := counted + {event.tradeId};
          pnl := CountTrade(pnl, event, intents[event.tradeId], mint);
        }
      }
    }
    assert events[..|events|] == events;
  }

  // ----- averaged cost never runs out -----

  ghost predicate Solvent(pnl: Pnl) {
    pnl.position >= 0 && pnl.basis >= 0
  }

  /** A sale carries away a share of the basis, all of it when it closes the position and never more. */
  lemma SaleCarriesItsShare(pnl: Pnl, spent: nat)
    requires Solvent(pnl)
    ensures 0 <= CarriedAway(pnl, spent) <= pnl.basis
    ensures 0 < pnl.position <= spent ==> CarriedAway(pnl, spent) == pnl.basis
  {
    if pnl.position > 0 {
      var sold := if spent > pnl.position then pnl.position else spent;
      MulMonotone(0, pnl.basis, sold);
      MulMonotone(sold, pnl.position, pnl.basis);
      QuotientIsLargest(pnl.basis * sold, pnl.position, 0);
      QuotientIs(pnl.basis * pnl.position, pnl.position, pnl.basis);
      QuotientMonotone(pnl.basis * sold, pnl.basis * pnl.position, pnl.position);
    }
  }

  lemma StepStaysSolvent(tally: Tally, event: Event, budgetMint: Mint)
    requires Solvent(tally.pnl)
    ensures Solvent(Step(tally, event, budgetMint).pnl)
  {
    if IsSale(tally, event, budgetMint) {
      SaleCarriesItsShare(tally.pnl, Spent(event));
    }
  }

  // ----- conservation -----

  ghost function BuyCosts(events: seq<Event>, budgetMint: Mint): nat {
    if events == [] then 0
    else
      var n := |events| - 1;
      BuyCosts(events[..n], budgetMint)
      + if IsBuy(Fold(events[..n], budgetMint), events[n], budgetMint) then Spent(events[n]) else 0
  }

  ghost function SaleProceeds(events: seq<Event>, budgetMint: Mint): nat {
    if events == [] then 0
    else
      var n := |events| - 1;
      SaleProceeds(events[..n], budgetMint)
      + if IsSale(Fold(events[..n], budgetMint), events[n], budgetMint) then Got(events[n]) else 0
  }

  /**
   * After any record, what sales brought in less what buys cost is the realised profit less what the open
   * position cost, and neither the position nor its cost is negative, whatever the division rounded away.
   */
  lemma {:induction false} CashIsConserved(events: seq<Event>, budgetMint: Mint)
    ensures var pnl := Fold(events, budgetMint).pnl;
            && Solvent(pnl)
            && SaleProceeds(events, budgetMint) - BuyCosts(events, budgetMint) == pnl.realised - pnl.basis
  {
    if events != [] {
      CashIsConserved(events[..|events| - 1], budgetMint);
      StepStaysSolvent(Fold(events[..|events| - 1], budgetMint), events[|events| - 1], budgetMint);
    }
  }

  /** Every buy that counts delivers something. */
  ghost predicate BuysDeliver(events: seq<Event>, budgetMint: Mint) {
    forall i :: 0 <= i < |events| && IsBuy(Fold(events[..i], budgetMint), events[i], budgetMint) ==> Got(events[i]) > 0
  }

  lemma StepFlat(tally: Tally, event: Event, budgetMint: Mint)
    requires Solvent(tally.pnl) && (tally.pnl.position == 0 ==> tally.pnl.basis == 0)
    requires IsBuy(tally, event, budgetMint) ==> Got(event) > 0
    ensures var pnl := Step(tally, event, budgetMint).pnl; pnl.position == 0 ==> pnl.basis == 0
  {
    if IsSale(tally, event, budgetMint) {
      SaleCarriesItsShare(tally.pnl, Spent(event));
    }
  }

  /** Then holding nothing means having nothing at cost. */
  lemma {:induction false} FlatMeansNoBasis(events: seq<Event>, budgetMint: Mint)
    requires BuysDeliver(events, budgetMint)
    ensures var pnl := Fold(events, budgetMint).pnl; pnl.position == 0 ==> pnl.basis == 0
  {
    if events != [] {
      var n := |events| - 1;
      assert forall i :: 0 <= i < n ==> events[..n][..i] == events[..i];
      FlatMeansNoBasis(events[..n], budgetMint);
      CashIsConserved(events[..n], budgetMint);
      StepFlat(Fold(events[..n], budgetMint), events[n], budgetMint);
    }
  }

  /** The i-th event is a counted buy that paid and delivered nothing, and the machine has held nothing since. */
  ghost predicate Strands(events: seq<Event>, budgetMint: Mint, i: int) {
    && 0 <= i < |events|
    && IsBuy(Fold(events[..i], budgetMint), events[i], budgetMint)
    && Spent(events[i]) > 0 && Got(events[i]) == 0
    && forall k | i < k <= |events| :: Fold(events[..k], budgetMint).pnl.position == 0
  }

  ghost predicate NothingStranded(events: seq<Event>, budgetMint: Mint) {
    forall i :: !Strands(events, budgetMint, i)
  }

  lemma StrandedBefore(events: seq<Event>, budgetMint: Mint, i: int)
    requires events != [] && i < |events| - 1
    ensures Strands(events, budgetMint, i)
       <==> Strands(events[..|events| - 1], budgetMint, i) && Fold(events, budgetMint).pnl.position == 0
  {
    var n := |events| - 1;
    assert events[..n + 1] == events;
    assert forall k | 0 <= k <= n :: events[..n][..k] == events[..k];
  }

  lemma StrandedLast(events: seq<Event>, budgetMint: Mint)
    requires events != []
    ensures var n := |events| - 1;
            Strands(events, budgetMint, n)
            <==> && IsBuy(Fold(events[..n], budgetMint), events[n], budgetMint)
                 && Spent(events[n]) > 0 && Got(events[n]) == 0
                 && Fold(events, budgetMint).pnl.position == 0
  {
    assert events[..|events|] == events;
  }

  /** How one event can leave a basis without a position: by an empty buy, or by leaving one that was there. */
  lemma StepStrands(tally: Tally, event: Event, budgetMint: Mint)
    requires Solvent(tally.pnl) && Step(tally, event, budgetMint).pnl.position == 0
    ensures var empty := IsBuy(tally, event, budgetMint) && Spent(event) > 0 && Got(event) == 0;
            Step(tally, event, budgetMint).pnl.basis > 0
            <==> empty || (tally.pnl.position == 0 && tally.pnl.basis > 0)
  {
    if IsSale(tally, event, budgetMint) {
      SaleCarriesItsShare(tally.pnl, Spent(event));
    }
  }

  /** A machine that holds nothing has a basis left exactly when a buy delivered nothing and nothing was held since. */
  lemma {:induction false} BasisIsLeftExactlyWhenStranded(events: seq<Event>, budgetMint: Mint)
    requires Fold(events, budgetMint).pnl.position == 0
    ensures Fold(events, budgetMint).pnl.basis > 0 <==> !NothingStranded(events, budgetMint)
  {
    if events != [] {
      var n := |events| - 1;
      var before := Fold(events[..n], budgetMint);
      CashIsConserved(events[..n], budgetMint);
      StepStrands(before, events[n], budgetMint);
      StrandedLast(events, budgetMint);
      forall i | i < n
        ensures Strands(events, budgetMint, i) <==> Strands(events[..n], budgetMint, i)
      {
        StrandedBefore(events, budgetMint, i);
      }
      if before.pnl.position == 0 {
        BasisIsLeftExactlyWhenStranded(events[..n], budgetMint);
      } else {
        assert events[..n][..n] == events[..n];
        assert NothingStranded(events[..n], budgetMint);
      }
      StrandedSomewhere(events, budgetMint);
    }
  }

  lemma StrandedSomewhere(events: seq<Event>, budgetMint: Mint)
    requires events != []
    requires forall i | i < |events| - 1 ::
               Strands(events, budgetMint, i) <==> Strands(events[..|events| - 1], budgetMint, i)
    ensures !NothingStranded(events, budgetMint)
       <==> Strands(events, budgetMint, |events| - 1) || !NothingStranded(events[..|events| - 1], budgetMint)
  {
    var n := |events| - 1;
    if i :| Strands(events[..n], budgetMint, i) {
      assert i < n && Strands(events, budgetMint, i);
    }
  }

  /** Buys that deliver strand nothing. */
  lemma DeliveringBuysStrandNothing(events: seq<Event>, budgetMint: Mint)
    requires BuysDeliver(events, budgetMint)
    ensures NothingStranded(events, budgetMint)
  {
  }

  /** A buy that delivered nothing leaves a cost that no position carries. */
  lemma EmptyBuyLeavesBasis()
    ensures var pnl := Fold([Intended("t", "usd", "sol", 10, None), Completed("t", 10, 0, 0)], "usd").pnl;
            pnl.position == 0 && pnl.basis == 10
  {
    var intent, empty := Intended("t", "usd", "sol", 10, None), Completed("t", 10, 0, 0);
    FoldPush(FRESH, [], intent, "usd");
    FoldPush(FRESH, [intent], empty, "usd");
    assert [] + [intent] == [intent] && [intent] + [empty] == [intent, empty];
  }

  // ----- reading the record again -----

  lemma {:induction false} IntentsAreThoseIntended(events: seq<Event>, budgetMint: Mint, id: TradeId)
    ensures id in Fold(events, budgetMint).intents <==> exists i :: 0 <= i < |events| && IsIntentOf(events[i], id)
  {
    if events != [] {
      var n := |events| - 1;
      IntentsAreThoseIntended(events[..n], budgetMint, id);
      if i :| 0 <= i < n && IsIntentOf(events[..n][i], id) {
        assert IsIntentOf(events[i], id);
      }
    }
  }

  predicate IsDoneOf(event: Event, id: TradeId) {
    IsDone(event) && event.tradeId == id
  }

  /** A trade counts exactly when some outcome of it comes after an intent of it. */
  ghost predicate FollowsItsIntent(events: seq<Event>, id: TradeId) {
    exists i, j :: 0 <= i < j < |events| && IsIntentOf(events[i], id) && IsDoneOf(events[j], id)
  }

  lemma {:induction false} CountedAreThoseThatFollow(events: seq<Event>, budgetMint: Mint, id: TradeId)
    ensures id in Fold(events, budgetMint).counted <==> FollowsItsIntent(events, id)
  {
    if events != [] {
      var n := |events| - 1;
      CountedAreThoseThatFollow(events[..n], budgetMint, id);
      IntentsAreThoseIntended(events[..n], budgetMint, id);
      if FollowsItsIntent(events[..n], id) {
        var i, j :| 0 <= i < j < n && IsIntentOf(events[..n][i], id) && IsDoneOf(events[..n][j], id);
        assert IsIntentOf(events[i], id) && IsDoneOf(events[j], id);
      }
      if IsDoneOf(events[n], id) && id in Fold(events[..n], budgetMint).intents {
        var i :| 0 <= i < n && IsIntentOf(events[..n][i], id);
        assert IsIntentOf(events[i], id) && IsDoneOf(events[n], id);
      }
    }
  }

  lemma StepTallies(tally: Tally, event: Event, budgetMint: Mint)
    ensures var next := Step(tally, event, budgetMint);
            && tally.intents.Keys <= next.intents.Keys
            && next.counted == (if Counts(tally, event) then tally.counted + {event.tradeId} else tally.counted)
            && next.pnl.trades == tally.pnl.trades + (if Counts(tally, event) then 1 else 0)
  {
  }

  lemma {:induction false} TradesNeverFall(tally: Tally, events: seq<Event>, budgetMint: Mint)
    ensures tally.intents.Keys <= FoldFrom(tally, events, budgetMint).intents.Keys
    ensures tally.counted <= FoldFrom(tally, events, budgetMint).counted
    ensures tally.pnl.trades <= FoldFrom(tally, events, budgetMint).pnl.trades
  {
    if events != [] {
      var n := |events| - 1;
      TradesNeverFall(tally, events[..n], budgetMint);
      StepTallies(FoldFrom(tally, events[..n], budgetMint), events[n], budgetMint);
    }
  }

  /** A pass that meets only intents it knows and outcomes it has counted, or never will, changes nothing. */
  lemma {:induction false} KnownEventsChangeNothing(tally: Tally, events: seq<Event>, budgetMint: Mint)
    requires forall i :: 0 <= i < |events| && events[i].Intended? ==> events[i].tradeId in tally.intents
    requires forall i :: 0 <= i < |events| ==> !Counts(tally, events[i])
    ensures FoldFrom(tally, events, budgetMint) == tally
  {
    if events != [] {
      KnownEventsChangeNothing(tally, events[..|events| - 1], budgetMint);
    }
  }

  /** A trade counted along the way was counted with one more trade. */
  lemma {:induction false} CountingAddsATrade(tally: Tally, events: seq<Event>, budgetMint: Mint, id: TradeId)
    requires id !in tally.counted
    ensures var after := FoldFrom(tally, events, budgetMint);
            id in after.counted ==> tally.pnl.trades < after.pnl.trades
  {
    if events != [] {
      var n := |events| - 1;
      CountingAddsATrade(tally, events[..n], budgetMint, id);
      TradesNeverFall(tally, events[..n], budgetMint);
      StepTallies(FoldFrom(tally, events[..n], budgetMint), events[n], budgetMint);
    }
  }

  lemma {:induction false} OutcomeIsCountedByThen(tally: Tally, events: seq<Event>, budgetMint: Mint, i: nat)
    requires i < |events| && Counts(tally, events[i])
    ensures events[i].tradeId in FoldFrom(tally, events, budgetMint).counted
  {
    var n := |events| - 1;
    TradesNeverFall(tally, events[..n], budgetMint);
    StepTallies(FoldFrom(tally, events[..n], budgetMint), events[n], budgetMint);
    if i < n {
      OutcomeIsCountedByThen(tally, events[..n], budgetMint, i);
    }
  }

  /** And a pass that meets an outcome still to be counted adds a trade. */
  lemma UncountedOutcomeIsCounted(tally: Tally, events: seq<Event>, budgetMint: Mint, i: nat)
    requires i < |events| && Counts(tally, events[i])
    ensures tally.pnl.trades < FoldFrom(tally, events, budgetMint).pnl.trades
  {
    OutcomeIsCountedByThen(tally, events, budgetMint, i);
    CountingAddsATrade(tally, events, budgetMint, events[i].tradeId);
  }

  /**
   * The record may be read again from the beginning, and the answer must not change. It does not exactly
   * when every trade that was both intended and finished has an outcome after its intent.
   */
  lemma ReadingTwiceIsReadingOnce(events: seq<Event>, budgetMint: Mint)
    ensures Fold(events + events, budgetMint).pnl == Fold(events, budgetMint).pnl
       <==> forall i, j | 0 <= i < |events| && 0 <= j < |events| && events[i].Intended?
         && IsDoneOf(events[j], events[i].tradeId) ::
              FollowsItsIntent(events, events[i].tradeId)
  {
    var once := Fold(events, budgetMint);
    FoldAppend(FRESH, events, events, budgetMint);
    forall id
      ensures id in once.intents <==> exists i :: 0 <= i < |events| && IsIntentOf(events[i], id)
      ensures id in once.counted <==> FollowsItsIntent(events, id)
    {
      IntentsAreThoseIntended(events, budgetMint, id);
      CountedAreThoseThatFollow(events, budgetMint, id);
    }
    if j :| 0 <= j < |events| && Counts(once, events[j]) {
      UncountedOutcomeIsCounted(once, events, budgetMint, j);
      var i :| 0 <= i < |events| && IsIntentOf(events[i], events[j].tradeId);
      assert events[i].Intended? && IsDoneOf(events[j], events[i].tradeId);
    } else {
      forall i | 0 <= i < |events| && events[i].Intended?
        ensures events[i].tradeId in once.intents
      {
        assert IsIntentOf(events[i], events[i].tradeId);
      }
      KnownEventsChangeNothing(once, events, budgetMint);
      forall i, j | 0 <= i < |events| && 0 <= j < |events| && events[i].Intended?
          && IsDoneOf(events[j], events[i].tradeId)
        ensures FollowsItsIntent(events, events[i].tradeId)
      {
        assert !Counts(once, events[j]);
      }
    }
  }

  /** A record whose outcome comes before its intent: read once the trade does not count, read twice it does. */
  lemma OutcomeBeforeItsIntentCountsTheSecondTime()
    ensures var events := [Completed("t", 10, 5, 0), Intended("t", "usd", "sol", 10, None)];
            && Fold(events, "usd").pnl == NOTHING
            && Fold(events + events, "usd").pnl.basis == 10
  {
    var outcome, intent := Completed("t", 10, 5, 0), Intended("t", "usd", "sol", 10, None);
    var events := [outcome, intent];
    FoldPush(FRESH, [], outcome, "usd");
    FoldPush(FRESH, [outcome], intent, "usd");
    assert [] + [outcome] == [outcome] && [outcome] + [intent] == events;
    FoldPush(FRESH, events, outcome, "usd");
    FoldPush(FRESH, events + [outcome], intent, "usd");
    assert events + [outcome] + [intent] == events + events;
  }
}
