/** Three numbers instead of one balance (packages/rules/src/budget.ts). */
module Budgets {
  import opened Results

  datatype Budget = Budget(granted: nat, reserved: nat, settled: nat) {
    predicate WithinGrant() {
      reserved + settled <= granted
    }
  }

  /** Amounts are never negative; making one from a negative number throws. */
  function BaseUnitsOf(value: int): Result<nat> {
    if value < 0 then Failure(InvalidAmount) else Success(value)
  }

  function CreateBudget(granted: nat): Budget {
    Budget(granted, 0, 0)
  }

  function Available(budget: Budget): Result<nat> {
    BaseUnitsOf(budget.granted - budget.reserved - budget.settled)
  }

  function Reserve(budget: Budget, amount: nat): Result<Budget> {
    var free :- Available(budget);
    if amount > free then
      Failure(LimitExceeded)
    else
      var reserved :- BaseUnitsOf(budget.reserved + amount);
      Success(budget.(reserved := reserved))
  }

  function AssertHeld(budget: Budget, amount: nat): Result<()> {
    if amount > budget.reserved then Failure(Conflict) else Success(())
  }

  function Settle(budget: Budget, reservedAmount: nat, actualCost: nat): Result<Budget> {
    var _ :- AssertHeld(budget, reservedAmount);
    if actualCost > reservedAmount then
      Failure(LimitExceeded)
    else
      var reserved :- BaseUnitsOf(budget.reserved - reservedAmount);
      var settled :- BaseUnitsOf(budget.settled + actualCost);
      Success(budget.(reserved := reserved, settled := settled))
  }

  function Credit(budget: Budget, amount: nat): Result<Budget> {
    var left := budget.settled - amount;
    var settled :- BaseUnitsOf(if left < 0 then 0 else left);
    Success(budget.(settled := settled))
  }

  function Release(budget: Budget, reservedAmount: nat): Result<Budget> {
    var _ :- AssertHeld(budget, reservedAmount);
    var reserved :- BaseUnitsOf(budget.reserved - reservedAmount);
    Success(budget.(reserved := reserved))
  }

  /** Holding and giving back is a round trip, and both are refused exactly when the books forbid them. */
  lemma ReserveReleaseRoundTrip(budget: Budget, amount: nat)
    requires budget.WithinGrant()
    ensures Reserve(budget, amount).Success? <==> amount + budget.reserved + budget.settled <= budget.granted
    ensures Reserve(budget, amount).Success? ==>
              && Reserve(budget, amount).value.WithinGrant()
              && Release(Reserve(budget, amount).value, amount) == Success(budget)
  {
  }


  /** What is available is what the grant exceeds both figures by; books beyond their grant have no such number. */
  lemma AvailableIsWhatIsLeft(budget: Budget)
    ensures Available(budget).Success? <==> budget.WithinGrant()
    ensures Available(budget).Success? ==> Available(budget).value + budget.reserved + budget.settled == budget.granted
  {
  }

  /**
   * Settling turns what was held into what it cost, and frees the rest. More than is held cannot be settled, nor can
   * a cost above the reservation.
   */
  lemma SettlingFreesTheRest(budget: Budget, held: nat, cost: nat)
    requires budget.WithinGrant()
    ensures var settled := Settle(budget, held, cost);
            && (settled == Failure(Conflict) <==> held > budget.reserved)
            && (settled == Failure(LimitExceeded) <==> held <= budget.reserved && cost > held)
            && (settled.Success? <==> cost <= held <= budget.reserved)
            && (settled.Success? ==>
                  && settled.value.granted == budget.granted
                  && settled.value.reserved + held == budget.reserved
                  && settled.value.settled == budget.settled + cost
                  && Available(settled.value).value == Available(budget).value + held - cost)
  {
  }

  /** What came home is taken off what was spent, and what is earned beyond that widens nothing. */
  lemma CreditingFreesWhatWasSpent(budget: Budget, amount: nat)
    requires budget.WithinGrant()
    ensures var credited := Credit(budget, amount);
            && credited.Success?
            && credited.value.granted == budget.granted && credited.value.reserved == budget.reserved
            && (amount <= budget.settled ==> credited.value.settled + amount == budget.settled)
            && (amount >= budget.settled ==> credited.value.settled == 0)
  {
  }

  /** Refusals name their reason: too little left to hold, or less held than is let go. */
  lemma HoldingAndLettingGoRefuse(budget: Budget, amount: nat)
    requires budget.WithinGrant()
    ensures Reserve(budget, amount).Failure? ==> Reserve(budget, amount).problem == LimitExceeded
    ensures Release(budget, amount).Failure? <==> amount > budget.reserved
    ensures Release(budget, amount).Failure? ==> Release(budget, amount).problem == Conflict
    ensures Release(budget, amount).Success? ==>
              Release(budget, amount).value == Budget(budget.granted, budget.reserved - amount, budget.settled)
  {
  }
}
