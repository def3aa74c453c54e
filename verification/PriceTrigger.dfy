/** When a price crosses a level, and when it has crossed enough to count (packages/runtime/src/price-trigger.ts). */
module PriceTrigger {
  import opened Arithmetic
  import opened Results

  datatype Direction = FallsTo | RisesTo

  datatype CrossingState = CrossingState(armed: bool, seen: bool, lastFiredAt: Option<int>)

  /** What stays fixed while one level is watched. */
  datatype Watch = Watch(level: int, direction: Direction, hysteresisBps: int, minGapMs: int) {
    predicate Valid() {
      level > 0 && hysteresisBps >= 0 && minGapMs >= 0
    }
  }

  datatype Look = Look(price: int, now: int)

  datatype Crossing = Crossing(state: CrossingState, fire: bool)

  const START_WATCHING := CrossingState(false, false, None)
  const BPS := 10_000

  predicate Reached(watch: Watch, price: int) {
    if watch.direction == FallsTo then price <= watch.level else price >= watch.level
  }

  function Margin(watch: Watch): int
    requires watch.Valid()
  {
    (watch.level * watch.hysteresisBps) / BPS
  }

  predicate ClearOf(watch: Watch, price: int)
    requires watch.Valid()
  {
    if watch.direction == FallsTo then price > watch.level + Margin(watch) else price < watch.level - Margin(watch)
  }

  function ObservePrice(state: CrossingState, watch: Watch, look: Look): Result<Crossing> {
    if !watch.Valid() then Failure(InvalidInput)
    else if !state.seen then
      Success(Crossing(state.(seen := true, armed := !Reached(watch, look.price)), false))
    else if ClearOf(watch, look.price) then
      Success(Crossing(state.(armed := true), false))
    else if !state.armed || !Reached(watch, look.price) then
      Success(Crossing(state, false))
    else if state.lastFiredAt.Some? && look.now - state.lastFiredAt.value < watch.minGapMs then
      Success(Crossing(state, false))
    else
      Success(Crossing(CrossingState(false, true, Some(look.now)), true))
  }

  // ----- a whole sequence of prices -----

  function StateAfter(watch: Watch, looks: seq<Look>): CrossingState
    requires watch.Valid()
  {
    if looks == [] then START_WATCHING
    else ObservePrice(StateAfter(watch, looks[..|looks| - 1]), watch, looks[|looks| - 1]).value.state
  }

  predicate Fires(watch: Watch, looks: seq<Look>, i: nat)
    requires watch.Valid() && i < |looks|
  {
    ObservePrice(StateAfter(watch, looks[..i]), watch, looks[i]).value.fire
  }

  /** A look that arms the level: the first one, seen from the far side, or any later one clear of it. */
  predicate Arms(watch: Watch, looks: seq<Look>, i: nat)
    requires watch.Valid() && i < |looks|
  {
    if i == 0 then !Reached(watch, looks[0].price) else ClearOf(watch, looks[i].price)
  }

  /** Something armed the level, and it has not fired since. */
  ghost predicate ArmedAt(watch: Watch, looks: seq<Look>, i: nat)
    requires watch.Valid() && i <= |looks|
  {
    exists k :: 0 <= k < i && Arms(watch, looks, k) && forall m :: k < m < i ==> !Fires(watch, looks, m)
  }

  /** `m` is the latest firing before `i`. */
  ghost predicate LastFired(watch: Watch, looks: seq<Look>, i: nat, m: nat)
    requires watch.Valid() && i <= |looks|
  {
    m < i && Fires(watch, looks, m) && forall n :: m < n < i ==> !Fires(watch, looks, n)
  }

  /** The gap since the latest firing, if there was one, has passed. */
  ghost predicate GapPassed(watch: Watch, looks: seq<Look>, i: nat)
    requires watch.Valid() && i < |looks|
  {
    forall m: nat | LastFired(watch, looks, i, m) :: looks[i].now - looks[m].now >= watch.minGapMs
  }

  lemma FarSideAndClear(watch: Watch, price: int)
    requires watch.Valid()
    ensures Margin(watch) >= 0
    ensures ClearOf(watch, price) ==> !Reached(watch, price)
  {
    MulMonotone(0, watch.level, watch.hysteresisBps);
    QuotientIsLargest(watch.level * watch.hysteresisBps, BPS, 0);
  }

  /** How far the price lies past the level, in the direction that matters; below zero it has not come to it. */
  function Past(watch: Watch, price: int): int {
    match watch.direction
    case FallsTo => watch.level - price
    case RisesTo => price - watch.level
  }

  /**
   * A level is reached by a price at it or past it. A price is clear of it when it lies on the far side by more than
   * the hysteresis' share of the level, in basis points.
   */
  lemma SidesOfTheLevel(watch: Watch, price: int)
    requires watch.Valid()
    ensures Reached(watch, price) <==> Past(watch, price) >= 0
    ensures ClearOf(watch, price) <==> -Past(watch, price) * 10_000 > watch.level * watch.hysteresisBps
  {
    var share := watch.level * watch.hysteresisBps;
    QuotientBounds(share, 10_000);
    QuotientIsLargest(share, 10_000, -Past(watch, price));
  }

  /** A level is watched exactly when it is a price above zero and neither the margin nor the gap is below zero. */
  lemma WatchedExactlyWhen(state: CrossingState, watch: Watch, look: Look)
    ensures ObservePrice(state, watch, look).Success?
       <==> watch.level > 0 && watch.hysteresisBps >= 0 && watch.minGapMs >= 0
    ensures ObservePrice(state, watch, look).Failure? ==> ObservePrice(state, watch, look).problem == InvalidInput
  {
  }

  lemma StateOfPrefix(watch: Watch, looks: seq<Look>, i: nat)
    requires watch.Valid() && i < |looks|
    ensures StateAfter(watch, looks[..i + 1])
         == ObservePrice(StateAfter(watch, looks[..i]), watch, looks[i]).value.state
  {
    assert looks[..i + 1][..i] == looks[..i];
  }

  /** What one look does to the state, told by whether it arms and whether it fires. */
  lemma StateSteps(watch: Watch, looks: seq<Look>, k: nat)
    requires watch.Valid() && k < |looks|
    requires StateAfter(watch, looks[..k]).seen <==> k > 0
    ensures var before, after := StateAfter(watch, looks[..k]), StateAfter(watch, looks[..k + 1]);
            && after.seen
            && (after.armed <==> Arms(watch, looks, k) || (before.armed && !Fires(watch, looks, k)))
            && after.lastFiredAt == (if Fires(watch, looks, k) then Some(looks[k].now) else before.lastFiredAt)
    ensures Arms(watch, looks, k) ==> !Fires(watch, looks, k)
  {
    StateOfPrefix(watch, looks, k);
    FarSideAndClear(watch, looks[k].price);
    if k == 0 {
      assert looks[..k] == [];
    }
  }

  lemma {:induction false} SeenAfterTheFirst(watch: Watch, looks: seq<Look>, i: nat)
    requires watch.Valid() && i <= |looks|
    ensures StateAfter(watch, looks[..i]).seen <==> i > 0
  {
    if i > 0 {
      SeenAfterTheFirst(watch, looks, i - 1);
      StateSteps(watch, looks, i - 1);
    }
  }

  lemma ArmedSteps(watch: Watch, looks: seq<Look>, k: nat)
    requires watch.Valid() && k < |looks|
    requires Arms(watch, looks, k) ==> !Fires(watch, looks, k)
    ensures ArmedAt(watch, looks, k + 1)
         <==> Arms(watch, looks, k) || (ArmedAt(watch, looks, k) && !Fires(watch, looks, k))
  {
    if ArmedAt(watch, looks, k) && !Fires(watch, looks, k) {
      var j :| 0 <= j < k && Arms(watch, looks, j) && forall m :: j < m < k ==> !Fires(watch, looks, m);
      assert forall m :: j < m < k + 1 ==> !Fires(watch, looks, m);
    }
    if ArmedAt(watch, looks, k + 1) && !Arms(watch, looks, k) {
      var j :| 0 <= j < k + 1 && Arms(watch, looks, j) && forall m :: j < m < k + 1 ==> !Fires(watch, looks, m);
      assert j < k;
    }
  }

  lemma {:induction false} ArmedIsRemembered(watch: Watch, looks: seq<Look>, i: nat)
    requires watch.Valid() && i <= |looks|
    ensures StateAfter(watch, looks[..i]).armed <==> ArmedAt(watch, looks, i)
  {
    if i > 0 {
      ArmedIsRemembered(watch, looks, i - 1);
      SeenAfterTheFirst(watch, looks, i - 1);
      StateSteps(watch, looks, i - 1);
      ArmedSteps(watch, looks, i - 1);
    }
  }

  lemma {:induction false} LastFiringIsRemembered(watch: Watch, looks: seq<Look>, i: nat)
    requires watch.Valid() && i <= |looks|
    ensures var last := StateAfter(watch, looks[..i]).lastFiredAt;
            && (last.None? <==> forall m :: 0 <= m < i ==> !Fires(watch, looks, m))
            && (last.Some? ==> exists m: nat :: LastFired(watch, looks, i, m) && last.value == looks[m].now)
  {
    if i > 0 {
      var k := i - 1;
      LastFiringIsRemembered(watch, looks, k);
      SeenAfterTheFirst(watch, looks, k);
      StateSteps(watch, looks, k);
      if Fires(watch, looks, k) {
        assert LastFired(watch, looks, i, k);
      } else {
        assert forall m: nat :: LastFired(watch, looks, k, m) ==> LastFired(watch, looks, i, m);
      }
    }
  }

  /** The state machine remembers exactly this much of the past. */
  lemma StateRemembers(watch: Watch, looks: seq<Look>, i: nat)
    requires watch.Valid() && i <= |looks|
    ensures var s := StateAfter(watch, looks[..i]);
            && (s.seen <==> i > 0)
            && (s.armed <==> ArmedAt(watch, looks, i))
            && (s.lastFiredAt.None? <==> forall m :: 0 <= m < i ==> !Fires(watch, looks, m))
            && (s.lastFiredAt.Some? ==> exists m: nat ::
                LastFired(watch, looks, i, m) && s.lastFiredAt.value == looks[m].now)
  {
    SeenAfterTheFirst(watch, looks, i);
    ArmedIsRemembered(watch, looks, i);
    LastFiringIsRemembered(watch, looks, i);
  }

  /**
   * Exactly when a level fires: the price is at or past it, something has armed it since it last fired,
   * and the gap since that firing has passed. The clock may read anything.
   */
  lemma FiresExactlyWhen(watch: Watch, looks: seq<Look>, i: nat)
    requires watch.Valid() && i < |looks|
    ensures Fires(watch, looks, i)
       <==> i > 0 && Reached(watch, looks[i].price) && ArmedAt(watch, looks, i) && GapPassed(watch, looks, i)
  {
    StateRemembers(watch, looks, i);
    FarSideAndClear(watch, looks[i].price);
    var s := StateAfter(watch, looks[..i]);
    if s.lastFiredAt.Some? {
      var m: nat :| LastFired(watch, looks, i, m) && s.lastFiredAt.value == looks[m].now;
      assert forall n: nat | LastFired(watch, looks, i, n) :: n == m;
    }
  }

  /** A look that arms the level, told by the level, its direction and the hysteresis alone. */
  predicate OnTheFarSide(watch: Watch, looks: seq<Look>, k: nat)
    requires k < |looks|
  {
    if k == 0 then Past(watch, looks[0].price) < 0
    else -Past(watch, looks[k].price) * 10_000 > watch.level * watch.hysteresisBps
  }

  /** The same, told by the prices: at or past the level now, and on the far side since it last fired. */
  lemma FiresByThePricesExactlyWhen(watch: Watch, looks: seq<Look>, i: nat)
    requires watch.Valid() && i < |looks|
    ensures Fires(watch, looks, i) <==>
              && i > 0 && Past(watch, looks[i].price) >= 0
              && (exists k :: 0 <= k < i && OnTheFarSide(watch, looks, k)
                              && forall m :: k < m < i ==> !Fires(watch, looks, m))
              && forall m: nat | LastFired(watch, looks, i, m) :: looks[i].now - looks[m].now >= watch.minGapMs
  {
    FiresExactlyWhen(watch, looks, i);
    SidesOfTheLevel(watch, looks[i].price);
    forall k: nat | k < i
      ensures Arms(watch, looks, k) <==> OnTheFarSide(watch, looks, k)
    {
      SidesOfTheLevel(watch, looks[k].price);
    }
  }

  /** Every firing is a crossing: it comes after a price on the far side, never on the first price seen. */
  lemma FiringIsACrossing(watch: Watch, looks: seq<Look>, i: nat)
    requires watch.Valid() && i < |looks| && Fires(watch, looks, i)
    ensures i > 0 && Reached(watch, looks[i].price)
    ensures exists k :: 0 <= k < i && !Reached(watch, looks[k].price)
  {
    FiresExactlyWhen(watch, looks, i);
    var k :| 0 <= k < i && Arms(watch, looks, k) && forall m :: k < m < i ==> !Fires(watch, looks, m);
    FarSideAndClear(watch, looks[k].price);
  }

  /** Between any two firings some price was clear of the level by the margin. */
  lemma ClearBetweenFirings(watch: Watch, looks: seq<Look>, i: nat, j: nat)
    requires watch.Valid() && i < j < |looks| && Fires(watch, looks, i) && Fires(watch, looks, j)
    ensures exists k :: i < k < j && ClearOf(watch, looks[k].price)
  {
    FiresExactlyWhen(watch, looks, i);
    FiresExactlyWhen(watch, looks, j);
    var k :| 0 <= k < j && Arms(watch, looks, k) && forall m :: k < m < j ==> !Fires(watch, looks, m);
    FarSideAndClear(watch, looks[i].price);
    assert i <= k;
    assert i != k;
  }

  lemma LastFiringBefore(watch: Watch, looks: seq<Look>, i: nat, j: nat) returns (m: nat)
    requires watch.Valid() && i < j <= |looks| && Fires(watch, looks, i)
    ensures i <= m < j && Fires(watch, looks, m) && forall n :: m < n < j ==> !Fires(watch, looks, n)
  {
    m := j - 1;
    while !Fires(watch, looks, m)
      invariant i <= m < j && forall n :: m < n < j ==> !Fires(watch, looks, n)
      decreases m
    {
      m := m - 1;
    }
  }

  /** Any two firings are at least the minimum gap apart, however many lie between them. */
  lemma {:induction false} GapBetweenFirings(watch: Watch, looks: seq<Look>, i: nat, j: nat)
    requires watch.Valid() && i < j < |looks| && Fires(watch, looks, i) && Fires(watch, looks, j)
    ensures looks[j].now - looks[i].now >= watch.minGapMs
    decreases j
  {
    FiresExactlyWhen(watch, looks, j);
    var m := LastFiringBefore(watch, looks, i, j);
    assert looks[j].now - looks[m].now >= watch.minGapMs;
    if i < m {
      GapBetweenFirings(watch, looks, i, m);
    }
  }
}
