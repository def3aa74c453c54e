/** Whether a quote is one the owner allowed, and what that makes of an accepted swap (packages/rules/src/quote.ts). */
module Quote {
  import opened Arithmetic
  import opened Results
  import opened Effects

  const BPS := 10_000

  /** `slippageBps` is absent when it is not a whole number, `priceImpactBps` when it is not a finite one. */
  datatype QuoteCheck = QuoteCheck(
    quotedOutputAmount: nat,
    minimumOutputAmount: nat,
    slippageBps: Option<int>,
    priceImpactBps: Option<real>,
    maxSlippageBps: int,
    maxPriceImpactBps: real)

  datatype QuoteDecision = Allowed | SlippageCap | MinimumOutput | PriceImpact

  /** Division of whole numbers towards zero: with more slippage than there is, the floor is negative. */
  function FloorFor(quotedOutputAmount: int, slippageBps: int): int {
    var n := quotedOutputAmount * (BPS - slippageBps);
    if n >= 0 then n / BPS else -((-n) / BPS)
  }

  function CheckQuote(check: QuoteCheck): QuoteDecision {
    if check.slippageBps.None? || check.slippageBps.value < 0 then SlippageCap
    else if check.slippageBps.value > check.maxSlippageBps then SlippageCap
    else if check.quotedOutputAmount <= 0 || check.minimumOutputAmount <= 0 then MinimumOutput
    else if check.minimumOutputAmount < FloorFor(check.quotedOutputAmount, check.slippageBps.value) then MinimumOutput
    else if check.priceImpactBps.None? then PriceImpact
    else if check.priceImpactBps.value > check.maxPriceImpactBps then PriceImpact
    else Allowed
  }

  /** More slippage never raises the floor. */
  lemma FloorFallsWithSlippage(quoted: nat, slippage: int, cap: int)
    requires slippage <= cap
    ensures FloorFor(quoted, cap) <= FloorFor(quoted, slippage)
  {
    var low, high := quoted * (BPS - cap), quoted * (BPS - slippage);
    MulMonotone(BPS - cap, BPS - slippage, quoted);
    if low >= 0 {
      QuotientMonotone(low, high, BPS);
    } else if high < 0 {
      QuotientMonotone(-high, -low, BPS);
    } else {
      QuotientIsLargest(high, BPS, 0);
      QuotientIsLargest(-low, BPS, 0);
    }
  }

  /** The floor is the quoted amount less the slippage in basis points, rounded towards zero. */
  lemma FloorIsWhatSlippageLeaves(quoted: nat, slippage: int)
    ensures 0 <= slippage <= 10_000 ==>
              var floor := FloorFor(quoted, slippage);
              0 <= floor && floor * 10_000 <= quoted * (10_000 - slippage) < (floor + 1) * 10_000
    ensures slippage > 10_000 ==>
              var floor := FloorFor(quoted, slippage);
              floor <= 0 && (floor - 1) * 10_000 < quoted * (10_000 - slippage) <= floor * 10_000
  {
    var n := quoted * (10_000 - slippage);
    if slippage <= 10_000 {
      MulMonotone(0, 10_000 - slippage, quoted);
      QuotientBounds(n, 10_000);
      QuotientIsLargest(n, 10_000, 0);
    } else {
      MulMonotone(10_000 - slippage, 0, quoted);
      QuotientBounds(-n, 10_000);
      QuotientIsLargest(-n, 10_000, 0);
    }
  }

  lemma FloorIsMet(minimum: int, quoted: nat, slippage: int)
    requires minimum > 0 && slippage >= 0
    ensures minimum >= FloorFor(quoted, slippage) <==> quoted * (10_000 - slippage) < (minimum + 1) * 10_000
  {
    FloorIsWhatSlippageLeaves(quoted, slippage);
    if slippage > 10_000 {
      MulMonotone(10_000 - slippage, 0, quoted);
    }
  }

  /** The slippage is a whole number of basis points within the owner's cap. */
  predicate WithinTheCap(check: QuoteCheck) {
    check.slippageBps.Some? && 0 <= check.slippageBps.value <= check.maxSlippageBps
  }

  /** Something is promised, and no less than the slippage leaves of the quote. */
  predicate PromisesItsFloor(check: QuoteCheck)
    requires check.slippageBps.Some?
  {
    && check.quotedOutputAmount > 0 && check.minimumOutputAmount > 0
    && check.quotedOutputAmount * (10_000 - check.slippageBps.value) < (check.minimumOutputAmount + 1) * 10_000
  }

  /** The price impact could be read and is no more than the owner allows. */
  predicate ImpactIsAllowed(check: QuoteCheck) {
    check.priceImpactBps.Some? && check.priceImpactBps.value <= check.maxPriceImpactBps
  }

  /** A quote is refused by the first of the three rules it breaks, and allowed exactly when it breaks none. */
  lemma RefusedByTheFirstRuleItBreaks(check: QuoteCheck)
    ensures CheckQuote(check) == SlippageCap <==> !WithinTheCap(check)
    ensures CheckQuote(check) == MinimumOutput <==> WithinTheCap(check) && !PromisesItsFloor(check)
    ensures CheckQuote(check) == PriceImpact <==>
              WithinTheCap(check) && PromisesItsFloor(check) && !ImpactIsAllowed(check)
    ensures CheckQuote(check) == Allowed <==>
              WithinTheCap(check) && PromisesItsFloor(check) && ImpactIsAllowed(check)
  {
    if WithinTheCap(check) && check.minimumOutputAmount > 0 {
      FloorIsMet(check.minimumOutputAmount, check.quotedOutputAmount, check.slippageBps.value);
    }
  }

  /**
   * A trade whose quote was allowed and whose measured effects were accepted: the claimed input left, to the
   * unit unless the fee comes out of the same SOL; at least what the owner's own cap promises arrived; no
   * other token fell; and where neither leg is SOL, SOL paid for fees and rent and no more.
   */
  lemma SignedTradeKeepsTheOwnersTerms(check: QuoteCheck, before: Wallet, after: Wallet, claim: SwapClaim)
    requires CheckQuote(check) == Allowed
    requires claim.minimumOutputAmount == check.minimumOutputAmount
    requires JudgeSwap(EffectsOf(before, after), claim) == Ok
    ensures claim.inputMint != claim.outputMint
    ensures claim.inputMint != WRAPPED_SOL ==>
              SumOf(before.tokens, claim.inputMint) - SumOf(after.tokens, claim.inputMint) == claim.inputAmount
    ensures claim.inputMint == WRAPPED_SOL ==>
              claim.inputAmount <= Holds(before, WRAPPED_SOL) - Holds(after, WRAPPED_SOL)
                                <= claim.inputAmount + claim.lamportsAllowed
    ensures Holds(after, claim.outputMint) - Holds(before, claim.outputMint)
         >= FloorFor(check.quotedOutputAmount, check.slippageBps.value)
         >= FloorFor(check.quotedOutputAmount, check.maxSlippageBps)
    ensures Holds(after, claim.outputMint) > Holds(before, claim.outputMint)
    ensures forall m :: m != claim.inputMint && m != claim.outputMint ==>
        SumOf(after.tokens, m) >= SumOf(before.tokens, m)
    ensures claim.inputMint != WRAPPED_SOL && claim.outputMint != WRAPPED_SOL ==>
              before.lamports - after.lamports <= claim.lamportsAllowed
  {
    AcceptedExactlyWhen(before, after, claim);
    FloorFallsWithSlippage(check.quotedOutputAmount, check.slippageBps.value, check.maxSlippageBps);
  }
}
