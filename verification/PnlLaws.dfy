/**
 * What a machine's profit is made of, trade by trade (packages/runtime/src/machine-pnl.ts): which trades count and
 * which way they run, what a sale cost, and how the numbers add up over a record.
 */
module PnlLaws {
  import opened Arithmetic
  import opened Results
  import opened Record
  import opened MachinePnls

  // ----- which trades count, read off the record -----

  /** Some intent of the trade is read before the i-th event. */
  predicate IntendedBefore(events: seq<Event>, id: TradeId, i: int)
    requires i <= |events|
  {
    exists k :: 0 <= k < i && events[k].Intended? && events[k].tradeId == id
  }

  /** The i-th event is an outcome with numbers, of a trade intended before it. */
  predicate FinishesAt(events: seq<Event>, id: TradeId, i: int) {
    && 0 <= i < |events| && (events[i].Completed? || events[i].Simulated?) && events[i].tradeId == id
    && IntendedBefore(events, id, i)
  }

  /** And the first such outcome of its trade: this one counts. */
  predicate CountsAt(events: seq<Event>, i: int) {
    && 0 <= i < |events| && (events[i].Completed? || events[i].Simulated?)
    && FinishesAt(events, events[i].tradeId, i)
    && forall j | 0 <= j < i :: !FinishesAt(events, events[i].tradeId, j)
  }

  /** The k-th event is the first intent of its trade. */
  predicate FirstIntent(events: seq<Event>, id: TradeId, k: int) {
    && 0 <= k < |events| && events[k].Intended? && events[k].tradeId == id
    && !IntendedBefore(events, id, k)
  }

  /** A trade counted at the i-th event whose first intent spends the currency. */
  ghost predicate BuysAt(events: seq<Event>, i: int, mint: Mint) {
    CountsAt(events, i)
    && exists k :: 0 <= k < i && FirstIntent(events, events[i].tradeId, k) && events[k].inputMint == mint
  }

  /** One whose first intent spends something else for it. */
  ghost predicate SellsAt(events: seq<Event>, i: int, mint: Mint) {
    CountsAt(events, i)
    && exists k :: 0 <= k < i && FirstIntent(events, events[i].tradeId, k)
                   && events[k].inputMint != mint && events[k].outputMint == mint
  }

  lemma IntentsBefore(events: seq<Event>, i: nat, mint: Mint, id: TradeId)
    requires i <= |events|
    ensures id in Fold(events[..i], mint).intents <==> IntendedBefore(events, id, i)
  {
    IntentsAreThoseIntended(events[..i], mint, id);
    if IntendedBefore(events, id, i) {
      var k :| 0 <= k < i && events[k].Intended? && events[k].tradeId == id;
      assert IsIntentOf(events[..i][k], id);
    }
  }

  lemma OutcomesBefore(events: seq<Event>, i: nat, mint: Mint, id: TradeId)
    requires i <= |events|
    ensures id in Fold(events[..i], mint).counted <==> exists j :: 0 <= j < i && FinishesAt(events, id, j)
  {
    CountedAreThoseThatFollow(events[..i], mint, id);
    if FollowsItsIntent(events[..i], id) {
      var k, j :| 0 <= k < j < i && IsIntentOf(events[..i][k], id) && IsDoneOf(events[..i][j], id);
      assert events[k].Intended? && events[k].tradeId == id;
      assert FinishesAt(events, id, j);
    }
    if j :| 0 <= j < i && FinishesAt(events, id, j) {
      var k :| 0 <= k < j && events[k].Intended? && events[k].tradeId == id;
      assert IsIntentOf(events[..i][k], id) && IsDoneOf(events[..i][j], id);
    }
  }

  lemma CountsExactlyAt(events: seq<Event>, i: nat, mint: Mint)
    requires i < |events|
    ensures Counts(Fold(events[..i], mint), events[i]) <==> CountsAt(events, i)
  {
    if IsDone(events[i]) {
      IntentsBefore(events, i, mint, events[i].tradeId);
      OutcomesBefore(events, i, mint, events[i].tradeId);
    }
  }

  /** The way a trade runs is the way its first intent says. */
  lemma {:induction false} LegsAreTheFirstIntents(events: seq<Event>, i: nat, mint: Mint, id: TradeId, k: nat)
    requires k < i <= |events| && FirstIntent(events, id, k)
    ensures id in Fold(events[..i], mint).intents
    ensures Fold(events[..i], mint).intents[id] == Legs(events[k].inputMint, events[k].outputMint)
  {
    assert events[..i][..i - 1] == events[..i - 1];
    IntentsBefore(events, i - 1, mint, id);
    if k < i - 1 {
      LegsAreTheFirstIntents(events, i - 1, mint, id, k);
    }
  }

  lemma {:induction false} SomeIntentIsFirst(events: seq<Event>, id: TradeId, i: nat) returns (k: nat)
    requires i <= |events| && IntendedBefore(events, id, i)
    ensures k < i && FirstIntent(events, id, k)
  {
    var m: nat :| m < i && events[m].Intended? && events[m].tradeId == id;
    if IntendedBefore(events, id, m) {
      k := SomeIntentIsFirst(events, id, m);
    } else {
      k := m;
    }
  }

  lemma OneIsFirst(events: seq<Event>, id: TradeId, k: int, l: int)
    requires FirstIntent(events, id, k) && FirstIntent(events, id, l)
    ensures k == l
  {
    assert events[k].Intended? && events[k].tradeId == id && events[l].Intended? && events[l].tradeId == id;
  }

  lemma RunsAsItsFirstIntent(events: seq<Event>, i: nat, mint: Mint)
    requires i < |events|
    ensures IsBuy(Fold(events[..i], mint), events[i], mint) <==> BuysAt(events, i, mint)
    ensures IsSale(Fold(events[..i], mint), events[i], mint) <==> SellsAt(events, i, mint)
  {
    CountsExactlyAt(events, i, mint);
    if CountsAt(events, i) {
      var id := events[i].tradeId;
      var k := SomeIntentIsFirst(events, id, i);
      LegsAreTheFirstIntents(events, i, mint, id, k);
      forall l | 0 <= l < i && FirstIntent(events, id, l)
        ensures l == k
      {
        OneIsFirst(events, id, k, l);
      }
    }
  }

  // ----- what one trade does -----

  function SpentAt(events: seq<Event>, i: int): nat
    requires 0 <= i < |events| && (events[i].Completed? || events[i].Simulated?)
  {
    events[i].inputAmount
  }

  /** What it brought: measured for a real trade, quoted for one on paper. */
  function GotAt(events: seq<Event>, i: int): nat
    requires 0 <= i < |events| && (events[i].Completed? || events[i].Simulated?)
  {
    if events[i].Completed? then events[i].outputAmount else events[i].quotedOutputAmount
  }

  /** A trade on paper pays no fee. */
  function FeeAt(events: seq<Event>, i: int): nat
    requires 0 <= i < |events| && (events[i].Completed? || events[i].Simulated?)
  {
    if events[i].Completed? then events[i].feeLamports else 0
  }

  /** The profit as it stands before the i-th event. */
  ghost function PnlBefore(events: seq<Event>, i: nat, mint: Mint): Pnl
    requires i <= |events|
  {
    Fold(events[..i], mint).pnl
  }

  /** What the i-th event carried away of the basis. */
  ghost function CostAt(events: seq<Event>, i: nat, mint: Mint): int
    requires i < |events|
  {
    PnlBefore(events, i, mint).basis - PnlBefore(events, i + 1, mint).basis
  }

  lemma FoldAt(events: seq<Event>, i: nat, mint: Mint)
    requires i < |events|
    ensures Fold(events[..i + 1], mint) == Step(Fold(events[..i], mint), events[i], mint)
    ensures Solvent(PnlBefore(events, i, mint))
  {
    assert events[..i + 1][..i] == events[..i];
    CashIsConserved(events[..i], mint);
  }

  /** A buy moves what it paid into the basis and what it brought into the position, and realises nothing. */
  lemma BuyMoves(events: seq<Event>, i: nat, mint: Mint)
    requires i < |events| && BuysAt(events, i, mint)
    ensures var before, after := PnlBefore(events, i, mint), PnlBefore(events, i + 1, mint);
            && after.basis == before.basis + SpentAt(events, i)
            && after.position == before.position + GotAt(events, i)
            && after.realised == before.realised
            && after.roundTrips == before.roundTrips && after.wins == before.wins && after.losses == before.losses
  {
    FoldAt(events, i, mint);
    RunsAsItsFirstIntent(events, i, mint);
  }

  lemma ShareBounds(basis: int, sold: int, position: int)
    requires basis >= 0 && 0 <= sold <= position && position > 0
    ensures var cost := Truncated(basis * sold, position);
            cost * position <= basis * sold < (cost + 1) * position
  {
    MulMonotone(0, basis, sold);
    QuotientBounds(basis * sold, position);
  }

  /**
   * A sale sells what it spent, or the whole position if that is less. Its cost is the basis' share of what it sold,
   * rounded down; what it brought above that is the gain, and a gain wins, a loss loses.
   */
  lemma SaleMoves(events: seq<Event>, i: nat, mint: Mint)
    requires i < |events| && SellsAt(events, i, mint)
    ensures var before, after := PnlBefore(events, i, mint), PnlBefore(events, i + 1, mint);
            var sold, cost, got := before.position - after.position, CostAt(events, i, mint), GotAt(events, i);
            && (SpentAt(events, i) <= before.position ==> sold == SpentAt(events, i))
            && (SpentAt(events, i) >= before.position ==> sold == before.position)
            && (before.position > 0 ==>
                  cost * before.position <= before.basis * sold < (cost + 1) * before.position)
            && (before.position == 0 ==> cost == 0)
            && after.realised == before.realised + got - cost
            && after.roundTrips == before.roundTrips + 1
            && after.wins == before.wins + (if got > cost then 1 else 0)
            && after.losses == before.losses + (if got < cost then 1 else 0)
  {
    FoldAt(events, i, mint);
    RunsAsItsFirstIntent(events, i, mint);
    var before := PnlBefore(events, i, mint);
    if before.position > 0 {
      var spent := SpentAt(events, i);
      ShareBounds(before.basis, if spent > before.position then before.position else spent, before.position);
    }
  }

  /** Any other event moves neither money nor the position. */
  lemma OtherEventsMoveNothing(events: seq<Event>, i: nat, mint: Mint)
    requires i < |events| && !BuysAt(events, i, mint) && !SellsAt(events, i, mint)
    ensures var before, after := PnlBefore(events, i, mint), PnlBefore(events, i + 1, mint);
            after == before.(trades := after.trades, feesLamports := after.feesLamports, simulated := after.simulated)
  {
    FoldAt(events, i, mint);
    RunsAsItsFirstIntent(events, i, mint);
  }

  /** Every counted trade, whichever way it runs, adds one to the trades and its fee to the fees. */
  lemma TradeIsNoted(events: seq<Event>, i: nat, mint: Mint)
    requires i < |events|
    ensures var before, after := PnlBefore(events, i, mint), PnlBefore(events, i + 1, mint);
            if CountsAt(events, i) then
              && after.trades == before.trades + 1
              && after.feesLamports == before.feesLamports + FeeAt(events, i)
              && after.simulated == (before.simulated || events[i].Simulated?)
            else
              after == before
  {
    FoldAt(events, i, mint);
    CountsExactlyAt(events, i, mint);
  }

  // ----- and over a record -----

  ghost predicate WinsAt(events: seq<Event>, i: nat, mint: Mint) {
    i < |events| && SellsAt(events, i, mint) && GotAt(events, i) > CostAt(events, i, mint)
  }

  ghost predicate LosesAt(events: seq<Event>, i: nat, mint: Mint) {
    i < |events| && SellsAt(events, i, mint) && GotAt(events, i) < CostAt(events, i, mint)
  }

  datatype Counted = Trade | RoundTrip | Win | Loss

  ghost predicate Is(counted: Counted, events: seq<Event>, i: nat, mint: Mint) {
    match counted
    case Trade => CountsAt(events, i)
    case RoundTrip => SellsAt(events, i, mint)
    case Win => WinsAt(events, i, mint)
    case Loss => LosesAt(events, i, mint)
  }

  /** How many of the first n events are such. */
  ghost function HowMany(counted: Counted, events: seq<Event>, n: nat, mint: Mint): nat {
    if n == 0 then 0
    else HowMany(counted, events, n - 1, mint) + if Is(counted, events, n - 1, mint) then 1 else 0
  }

  lemma RoundTripsMove(events: seq<Event>, i: nat, mint: Mint)
    requires i < |events|
    ensures var before, after := PnlBefore(events, i, mint), PnlBefore(events, i + 1, mint);
            && after.roundTrips == before.roundTrips + (if SellsAt(events, i, mint) then 1 else 0)
            && after.wins == before.wins + (if WinsAt(events, i, mint) then 1 else 0)
            && after.losses == before.losses + (if LosesAt(events, i, mint) then 1 else 0)
  {
    if SellsAt(events, i, mint) {
      SaleMoves(events, i, mint);
    } else if BuysAt(events, i, mint) {
      BuyMoves(events, i, mint);
    } else {
      OtherEventsMoveNothing(events, i, mint);
    }
  }

  /**
   * The trades are the counted outcomes and the round trips the sales among them; the wins are the sales that
   * brought more than they cost, the losses those that brought less.
   */
  lemma {:induction false} TradesAreCounted(events: seq<Event>, n: nat, mint: Mint)
    requires n <= |events|
    ensures PnlBefore(events, n, mint).trades == HowMany(Trade, events, n, mint)
    ensures PnlBefore(events, n, mint).roundTrips == HowMany(RoundTrip, events, n, mint)
    ensures PnlBefore(events, n, mint).wins == HowMany(Win, events, n, mint)
    ensures PnlBefore(events, n, mint).losses == HowMany(Loss, events, n, mint)
  {
    if n == 0 {
      assert events[..0] == [];
    } else {
      TradesAreCounted(events, n - 1, mint);
      TradeIsNoted(events, n - 1, mint);
      RoundTripsMove(events, n - 1, mint);
    }
  }

  /** The numbers are called simulated exactly when some counted trade was on paper. */
  lemma {:induction false} SimulatedExactlyWhen(events: seq<Event>, n: nat, mint: Mint)
    requires n <= |events|
    ensures PnlBefore(events, n, mint).simulated
       <==> exists i: nat :: i < n && CountsAt(events, i) && events[i].Simulated?
  {
    if n > 0 {
      SimulatedExactlyWhen(events, n - 1, mint);
      TradeIsNoted(events, n - 1, mint);
    }
  }

  const BUYING := Intended("b", "usd", "sol", 100, None)
  const SELLING := Intended("s", "sol", "usd", 25, None)
  /** What buying 50 for 100 leaves. */
  const INVESTED := Tally(Pnl(0, 50, 100, 0, 1, 0, 0, 0, false), map["b" := Legs("usd", "sol")], {"b"})

  /** Half of a position of 50, bought for 100 and sold for 60, cost 50: it won 10, and 50 stays invested. */
  lemma HalfAPositionCostsHalf()
    ensures FoldFrom(INVESTED, [SELLING, Completed("s", 25, 60, 0)], "usd").pnl == Pnl(10, 25, 50, 0, 2, 1, 1, 0, false)
  {
    FoldPush(INVESTED, [], SELLING, "usd");
    FoldPush(INVESTED, [SELLING], Completed("s", 25, 60, 0), "usd");
    assert [] + [SELLING] == [SELLING];
    assert [SELLING] + [Completed("s", 25, 60, 0)] == [SELLING, Completed("s", 25, 60, 0)];
    assert FoldFrom(INVESTED, [SELLING], "usd").intents["s"] == Legs("sol", "usd");
    assert Truncated(100 * 25, 50) == 50;
  }
}
