/**
 * Asking a moving chain what became of a transaction (packages/solana/src/confirm.ts).
 *
 * The chain is a state at every instant. The n-th question is answered from whatever state the chain has
 * reached by then, so any number of steps may happen between two questions.
 */
module Confirm {
  import opened Arithmetic
  import opened Results

  datatype Commitment = Processed | Confirmed | Finalized {
    function Rank(): nat {
      match this
      case Processed => 0
      case Confirmed => 1
      case Finalized => 2
    }
  }

  predicate IsAtLeast(status: Commitment, wanted: Commitment) {
    status.Rank() >= wanted.Rank()
  }

  datatype Status = Status(slot: nat, commitment: Commitment, error: Option<string>)

  /** `landed` is what the node's history holds of the transaction; its recent cache may have let go of it. */
  datatype Chain = Chain(height: nat, landed: Option<Status>, cached: bool)

  type World = nat -> Chain

  /**
   * A transaction enters the chain only while its blockhash is accepted, which ends above `expiry`; then it
   * stays, keeps its slot and its error, and only becomes more settled. The height never falls.
   */
  ghost predicate Evolves(before: Chain, after: Chain, expiry: nat) {
    && before.height <= after.height
    && (before.landed.None? && after.landed.Some? ==> before.height <= expiry)
    && (before.landed.Some? ==>
          && after.landed.Some?
          && after.landed.value.slot == before.landed.value.slot
          && after.landed.value.error == before.landed.value.error
          && IsAtLeast(after.landed.value.commitment, before.landed.value.commitment))
  }

  ghost predicate Lawful(world: World, expiry: nat) {
    forall t: nat :: Evolves(world(t), world(t + 1), expiry)
  }

  // ----- the reader's three questions -----

  function StatusOf(chain: Chain, searchHistory: bool): Option<Status> {
    if searchHistory || chain.cached then chain.landed else None
  }

  function BlockhashValid(chain: Chain, expiry: nat): bool {
    chain.height <= expiry
  }

  // ----- the request and its answers -----

  /** `blockhash` says whether the request carried one; the hash itself names the transaction's `expiry`. */
  datatype Request = Request(
    lastValidBlockHeight: nat,
    blockhash: bool,
    wanted: Commitment,
    timeoutMs: int,
    pollMs: int)

  datatype Confirmation =
    | Landed(slot: nat, commitment: Commitment)
    | FailedOnChain(slot: nat, error: string)
    | Expired
    | Unknown

  /** What the poller meets: the chain, the instants of its questions, four to a round, and its clock. */
  datatype Surroundings = Surroundings(world: World, expiry: nat, asked: nat -> nat, clock: nat -> int)

  /** Questions are answered in the order they are asked. */
  ghost predicate InOrder(s: Surroundings) {
    forall k: nat :: s.asked(k) <= s.asked(k + 1)
  }

  /** And each sleep lasts at least as long as it was asked to. */
  ghost predicate Timely(s: Surroundings, pollMs: int) {
    && InOrder(s)
    && s.clock(0) <= s.clock(1)
    && (forall k: nat :: k > 0 ==> s.clock(k) + pollMs <= s.clock(k + 1))
  }

  function Seen(s: Surroundings, question: nat): Chain {
    s.world(s.asked(question))
  }

  /** One time round the loop: an answer, or none yet. */
  function Round(s: Surroundings, request: Request, n: nat): Option<Confirmation> {
    match StatusOf(Seen(s, 4 * n), false)
    case Some(status) =>
      if status.error.Some? then Some(FailedOnChain(status.slot, status.error.value))
      else if IsAtLeast(status.commitment, request.wanted) then Some(Landed(status.slot, status.commitment))
      else None
    case None =>
      if Seen(s, 4 * n + 1).height > request.lastValidBlockHeight then
        match StatusOf(Seen(s, 4 * n + 2), true)
        case Some(settled) =>
          if settled.error.Some? then Some(FailedOnChain(settled.slot, settled.error.value))
          else Some(Landed(settled.slot, settled.commitment))
        case None =>
          if request.blockhash && BlockhashValid(Seen(s, 4 * n + 3), s.expiry) then Some(Unknown) else Some(Expired)
      else None
  }

  /** The loop is left after a round that answered, or that used up the time. */
  predicate Stops(s: Surroundings, request: Request, n: nat) {
    Round(s, request, n).Some? || s.clock(n + 1) - s.clock(0) >= request.timeoutMs
  }

  ghost predicate Ends(s: Surroundings, request: Request) {
    exists n: nat :: Stops(s, request, n)
  }

  ghost predicate StopsFirst(s: Surroundings, request: Request, n: nat) {
    Stops(s, request, n) && forall m: nat | m < n :: !Stops(s, request, m)
  }

  lemma SomeRoundStopsFirst(s: Surroundings, request: Request)
    requires Ends(s, request)
    ensures exists n: nat :: StopsFirst(s, request, n)
  {
    var bound: nat :| Stops(s, request, bound);
    var n: nat := 0;
    while !Stops(s, request, n)
      invariant n <= bound && forall m: nat | m < n :: !Stops(s, request, m)
      decreases bound - n
    {
      n := n + 1;
    }
    assert StopsFirst(s, request, n);
  }

  ghost function LastRound(s: Surroundings, request: Request): (n: nat)
    requires Ends(s, request)
    ensures StopsFirst(s, request, n)
  {
    SomeRoundStopsFirst(s, request);
    var n: nat :| StopsFirst(s, request, n);
    n
  }

  /** What the first round to stop answers; out of time, nothing is known. */
  ghost function Polled(s: Surroundings, request: Request): Confirmation
    requires Ends(s, request)
  {
    var answer := Round(s, request, LastRound(s, request));
    if answer.Some? then answer.value else Unknown
  }

  lemma FirstIsLast(s: Surroundings, request: Request, n: nat)
    requires Ends(s, request) && StopsFirst(s, request, n)
    ensures n == LastRound(s, request)
  {
  }

  lemma RoundDecides(s: Surroundings, request: Request, n: nat)
    requires Ends(s, request) && forall m: nat | m < n :: !Stops(s, request, m)
    ensures Round(s, request, n).Some? ==> Polled(s, request) == Round(s, request, n).value
    ensures Round(s, request, n).None? && Stops(s, request, n) ==> Polled(s, request) == Unknown
  {
    if Stops(s, request, n) {
      FirstIsLast(s, request, n);
    }
  }

  /** Unbounded as it is, the loop ends when some round answers or uses up the time. */
  method ConfirmSignature(s: Surroundings, request: Request) returns (r: Result<Confirmation>)
    requires request.timeoutMs > 0 && request.pollMs > 0 ==> Ends(s, request)
    ensures r.Failure? <==> request.timeoutMs <= 0 || request.pollMs <= 0
    ensures r.Failure? ==> r.problem == InvalidInput
    ensures r.Success? ==> r.value == Polled(s, request)
  {
    if request.timeoutMs <= 0 || request.pollMs <= 0 {
      return Failure(InvalidInput);
    }
    ghost var last := LastRound(s, request);
    var startedAt := s.clock(0);
    var n: nat := 0;
    while true
      invariant n <= last && forall m: nat | m < n :: !Stops(s, request, m)
      decreases last - n
    {
      RoundDecides(s, request, n);
      var status := StatusOf(Seen(s, 4 * n), false);
      if status.Some? {
        if status.value.error.Some? {
          return Success(FailedOnChain(status.value.slot, status.value.error.value));
        }
        if IsAtLeast(status.value.commitment, request.wanted) {
          return Success(Landed(status.value.slot, status.value.commitment));
        }
      } else {
        var height := Seen(s, 4 * n + 1).height;
        if height > request.lastValidBlockHeight {
          var settled := StatusOf(Seen(s, 4 * n + 2), true);
          if settled.Some? {
            if settled.value.error.Some? {
              return Success(FailedOnChain(settled.value.slot, settled.value.error.value));
            }
            return Success(Landed(settled.value.slot, settled.value.commitment));
          }
          if request.blockhash && BlockhashValid(Seen(s, 4 * n + 3), s.expiry) {
            return Success(Unknown);
          }
          return Success(Expired);
        }
      }
      if s.clock(n + 1) - startedAt >= request.timeoutMs {
        return Success(Unknown);
      }
      n := n + 1;
    }
  }

  // ----- time -----

  lemma {:induction false} ChainMovesOn(world: World, expiry: nat, t: nat, u: nat)
    requires Lawful(world, expiry) && t <= u
    ensures Evolves(world(t), world(u), expiry)
    decreases u - t
  {
    if t < u {
      ChainMovesOn(world, expiry, t, u - 1);
      assert Evolves(world(u - 1), world(u - 1 + 1), expiry);
    }
  }

  lemma {:induction false} QuestionsComeInOrder(s: Surroundings, j: nat, k: nat)
    requires InOrder(s) && j <= k
    ensures s.asked(j) <= s.asked(k)
    decreases k - j
  {
    if j < k {
      QuestionsComeInOrder(s, j, k - 1);
      assert s.asked(k - 1) <= s.asked(k - 1 + 1);
    }
  }

  ghost predicate NeverLands(world: World) {
    forall t: nat :: world(t).landed.None?
  }

  /** Not there at one instant, and past its expiry by then: it never was there and never will be. */
  lemma AbsentAndExpired(world: World, expiry: nat, t: nat)
    requires Lawful(world, expiry) && world(t).landed.None? && world(t).height > expiry
    ensures NeverLands(world)
  {
    forall u: nat
      ensures world(u).landed.None?
    {
      if u <= t {
        ChainMovesOn(world, expiry, u, t);
      } else {
        ChainMovesOn(world, expiry, t, u);
      }
    }
  }

  // ----- what the answers are worth -----

  /** Given a height at or past the true expiry, a transaction called expired has not landed and never will. */
  lemma ExpiredMeansNever(s: Surroundings, request: Request)
    requires InOrder(s) && Ends(s, request) && Lawful(s.world, s.expiry)
    requires request.lastValidBlockHeight >= s.expiry
    requires Polled(s, request) == Expired
    ensures NeverLands(s.world)
  {
    var n := LastRound(s, request);
    QuestionsComeInOrder(s, 4 * n + 1, 4 * n + 2);
    ChainMovesOn(s.world, s.expiry, s.asked(4 * n + 1), s.asked(4 * n + 2));
    AbsentAndExpired(s.world, s.expiry, s.asked(4 * n + 2));
  }

  /**
   * A chain at its last open height until its history has been searched, on which the transaction then lands:
   * whatever the request asks for, and whether or not it carries a blockhash, an understated height has it
   * called expired.
   */
  lemma UnderstatedHeightDeclaresALandedTransactionDead(request: Request, expiry: nat) returns (s: Surroundings)
    requires request.pollMs > 0 && request.timeoutMs > 0 && request.lastValidBlockHeight < expiry
    ensures s.expiry == expiry && Timely(s, request.pollMs) && Lawful(s.world, expiry)
    ensures Ends(s, request) && Polled(s, request) == Expired
    ensures !NeverLands(s.world)
  {
    var world := (t: nat) => if t < 3 then Chain(expiry, None, true)
                             else Chain(expiry + 1, Some(Status(7, Processed, None)), true);
    s := Surroundings(world, expiry, (k: nat) => k, (k: nat) => k * request.pollMs);
    assert forall k: nat :: (k + 1) * request.pollMs == k * request.pollMs + request.pollMs;
    assert Round(s, request, 0) == Some(Expired);
    assert Stops(s, request, 0);
    FirstIsLast(s, request, 0);
    assert s.world(3).landed.Some?;
  }

  /** On every lawful chain whose blockhashes end at `expiry`, "expired" is said only of what never lands. */
  ghost predicate ExpiredIsRight(request: Request, expiry: nat) {
    forall s: Surroundings |
      InOrder(s) && Ends(s, request) && Lawful(s.world, s.expiry) && s.expiry == expiry
        && Polled(s, request) == Expired ::
      NeverLands(s.world)
  }

  /** The same, of the surroundings whose sleeps last as long as they were asked to. */
  ghost predicate ExpiredIsRightInTime(request: Request, expiry: nat) {
    forall s: Surroundings |
      Timely(s, request.pollMs) && Ends(s, request) && Lawful(s.world, s.expiry) && s.expiry == expiry
      && Polled(s, request) == Expired ::
      NeverLands(s.world)
  }

  /**
   * The answer "expired" can be relied on, whatever the chain does between questions, exactly when the height
   * handed to the poller is not below the true expiry. Carrying a blockhash does not change that.
   */
  lemma ExpiredIsRightExactlyWhen(request: Request, expiry: nat)
    requires request.pollMs > 0 && request.timeoutMs > 0
    ensures ExpiredIsRight(request, expiry) <==> request.lastValidBlockHeight >= expiry
    ensures ExpiredIsRightInTime(request, expiry) <==> request.lastValidBlockHeight >= expiry
  {
    if request.lastValidBlockHeight >= expiry {
      forall s: Surroundings |
        InOrder(s) && Ends(s, request) && Lawful(s.world, s.expiry) && s.expiry == expiry
          && Polled(s, request) == Expired
        ensures NeverLands(s.world)
      {
        ExpiredMeansNever(s, request);
      }
    } else {
      var s := UnderstatedHeightDeclaresALandedTransactionDead(request, expiry);
      assert !ExpiredIsRightInTime(request, expiry);
    }
  }

  /** For one call with a blockhash: "expired" was right exactly when nothing landed between its last two questions. */
  lemma ExpiredByBlockhashIsRightExactlyWhen(s: Surroundings, request: Request)
    requires InOrder(s) && Ends(s, request) && Lawful(s.world, s.expiry)
    requires request.blockhash && Polled(s, request) == Expired
    ensures var n := LastRound(s, request);
            NeverLands(s.world) <==> Seen(s, 4 * n + 3).landed == Seen(s, 4 * n + 2).landed
  {
    var n := LastRound(s, request);
    if Seen(s, 4 * n + 3).landed.None? {
      AbsentAndExpired(s.world, s.expiry, s.asked(4 * n + 3));
    }
  }

  /** "Landed" and "failed" are only ever said of a transaction that is there, with its own slot and error. */
  lemma AnswersAreTrue(s: Surroundings, request: Request, later: nat)
    requires InOrder(s) && Ends(s, request) && Lawful(s.world, s.expiry)
    requires s.asked(4 * LastRound(s, request) + 2) <= later
    ensures var answer := Polled(s, request);
            && (answer.Landed? ==>
                  && s.world(later).landed.Some? && s.world(later).landed.value.slot == answer.slot
                  && s.world(later).landed.value.error.None?
                  && IsAtLeast(s.world(later).landed.value.commitment, answer.commitment))
            && (answer.FailedOnChain? ==>
                  && s.world(later).landed.Some? && s.world(later).landed.value.slot == answer.slot
                  && s.world(later).landed.value.error == Some(answer.error))
  {
    var n := LastRound(s, request);
    QuestionsComeInOrder(s, 4 * n, 4 * n + 2);
    ChainMovesOn(s.world, s.expiry, s.asked(4 * n), later);
    ChainMovesOn(s.world, s.expiry, s.asked(4 * n + 2), later);
  }

  /** "Landed" as the request means it: at least as settled as was asked for. */
  ghost predicate SettledAsAsked(s: Surroundings, request: Request)
    requires Ends(s, request)
  {
    var answer := Polled(s, request);
    answer.Landed? ==> IsAtLeast(answer.commitment, request.wanted)
  }

  /** A status found in the history is passed on as it is, so landing between the two searches of a round is enough. */
  lemma HistoryAnswersBeforeItIsSettled(wanted: Commitment) returns (s: Surroundings, request: Request)
    ensures request.pollMs > 0 && request.timeoutMs > 0 && Timely(s, request.pollMs) && Lawful(s.world, s.expiry)
    ensures request.lastValidBlockHeight == s.expiry && request.wanted == wanted
    ensures Ends(s, request) && Polled(s, request) == Landed(7, Processed)
  {
    var world := (t: nat) => if t < 1 then Chain(10, None, true) else Chain(11, Some(Status(7, Processed, None)), true);
    s := Surroundings(world, 10, (k: nat) => k, (k: nat) => k);
    request := Request(10, true, wanted, 90, 1);
    assert Round(s, request, 0) == Some(Landed(7, Processed));
    assert Stops(s, request, 0);
    FirstIsLast(s, request, 0);
  }

  /** So the wanted commitment binds every answer, on every chain, exactly when it asks for the least. */
  lemma SettledAsAskedExactlyWhen(wanted: Commitment)
    ensures (forall s: Surroundings, request: Request |
               Ends(s, request) && Timely(s, request.pollMs) && Lawful(s.world, s.expiry) && request.wanted == wanted ::
               SettledAsAsked(s, request))
       <==> wanted == Processed
  {
    if wanted != Processed {
      var s, request := HistoryAnswersBeforeItIsSettled(wanted);
      assert !SettledAsAsked(s, request);
    }
  }

  // ----- it ends -----

  lemma {:induction false} ClockRunsOn(s: Surroundings, pollMs: int, n: nat)
    requires pollMs > 0 && Timely(s, pollMs)
    ensures s.clock(n + 1) - s.clock(0) >= n * pollMs
  {
    if n > 0 {
      ClockRunsOn(s, pollMs, n - 1);
      assert n * pollMs == (n - 1) * pollMs + pollMs;
    }
  }

  /** When every sleep lasts at least the interval, the poller ends, after no more rounds than the timeout holds. */
  lemma RoundsAreBounded(s: Surroundings, request: Request)
    requires request.pollMs > 0 && request.timeoutMs > 0 && Timely(s, request.pollMs)
    ensures Ends(s, request)
    ensures LastRound(s, request) + 1 <= (request.timeoutMs - 1) / request.pollMs + 2
  {
    var most := (request.timeoutMs - 1) / request.pollMs + 1;
    QuotientIsLargest(request.timeoutMs - 1, request.pollMs, 0);
    QuotientIsLargest(request.timeoutMs - 1, request.pollMs, most);
    ClockRunsOn(s, request.pollMs, most);
    assert Stops(s, request, most);
  }
}
