/** The events of a machine's record that move money, with their payloads (packages/contracts/src/events.ts). */
module Record {
  import opened Results

  type Mint = string
  type TradeId = string

  datatype Event =
    /** `to` is read as an amount only when `limit` is "budgetGranted". */
    | LimitsChanged(limit: string, to: nat)
    | Intended(tradeId: TradeId, inputMint: Mint, outputMint: Mint, inputAmount: nat, feeAllowance: Option<nat>)
    | Simulated(tradeId: TradeId, inputAmount: nat, quotedOutputAmount: nat, feeAllowance: Option<nat>)
    | Completed(tradeId: TradeId, inputAmount: nat, outputAmount: nat, feeLamports: nat)
    | Failed(tradeId: TradeId)
    | Refused(tradeId: TradeId)
    | Submitted(tradeId: TradeId, signature: string, lastValidBlockHeight: nat)
    | SweepCompleted(sweepId: string, amount: nat)
    | Other

  const BUDGET_GRANTED := "budgetGranted"

  predicate IsGrant(event: Event) {
    event.LimitsChanged? && event.limit == BUDGET_GRANTED
  }

  /** The events that end a trade in the budget: it was settled on paper or for real, or it let go. */
  predicate IsOutcome(event: Event) {
    event.Simulated? || event.Completed? || event.Failed? || event.Refused?
  }

  predicate IsOutcomeOf(event: Event, tradeId: TradeId) {
    IsOutcome(event) && event.tradeId == tradeId
  }

  predicate IsIntentOf(event: Event, tradeId: TradeId) {
    event.Intended? && event.tradeId == tradeId
  }

  function OrZero(amount: Option<nat>): nat {
    if amount.Some? then amount.value else 0
  }
}
