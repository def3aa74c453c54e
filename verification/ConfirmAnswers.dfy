/**
 * Every answer of the confirmation poller, told by what the chain showed it (packages/solana/src/confirm.ts).
 */
module ConfirmAnswers {
  import opened Results
  import opened Confirm

  // ----- what the chain showed -----

  /** Processed is the least settled, then confirmed, then finalized. */
  predicate AsSettledAs(status: Commitment, wanted: Commitment) {
    wanted == Processed || status == Finalized || status == wanted
  }

  lemma SettledInOrder(status: Commitment, wanted: Commitment)
    ensures IsAtLeast(status, wanted) <==> AsSettledAs(status, wanted)
  {
  }

  /** The status the node remembered when the round began, if it remembered one. */
  function Recent(s: Surroundings, n: nat): Option<Status> {
    var chain := s.world(s.asked(4 * n));
    if chain.cached then chain.landed else None
  }

  predicate PastTheLimit(s: Surroundings, request: Request, n: nat) {
    s.world(s.asked(4 * n + 1)).height > request.lastValidBlockHeight
  }

  /** What the node found by searching its history. */
  function InTheHistory(s: Surroundings, n: nat): Option<Status> {
    s.world(s.asked(4 * n + 2)).landed
  }

  predicate StillAccepted(s: Surroundings, request: Request, n: nat) {
    request.blockhash && s.world(s.asked(4 * n + 3)).height <= s.expiry
  }

  predicate OutOfTime(s: Surroundings, request: Request, n: nat) {
    s.clock(n + 1) - s.clock(0) >= request.timeoutMs
  }

  // ----- what each round says of it -----

  /** A transaction that is on the chain landed, or failed there. */
  predicate Tells(answer: Confirmation, status: Status) {
    match status.error
    case Some(error) => answer == FailedOnChain(status.slot, error)
    case None => answer == Landed(status.slot, status.commitment)
  }

  /** The round says nothing: what it saw has not failed and is not settled enough, or it saw nothing in time. */
  predicate SaysNothing(s: Surroundings, request: Request, n: nat) {
    && (Recent(s, n).Some? ==>
          Recent(s, n).value.error.None? && !AsSettledAs(Recent(s, n).value.commitment, request.wanted))
    && (Recent(s, n).None? ==> !PastTheLimit(s, request, n))
  }

  predicate Says(s: Surroundings, request: Request, n: nat, answer: Confirmation) {
    && !SaysNothing(s, request, n)
    && (Recent(s, n).Some? ==> Tells(answer, Recent(s, n).value))
    && (Recent(s, n).None? && InTheHistory(s, n).Some? ==> Tells(answer, InTheHistory(s, n).value))
    && (Recent(s, n).None? && InTheHistory(s, n).None? ==>
          answer == if StillAccepted(s, request, n) then Unknown else Expired)
  }

  /** Every round before the n-th said nothing and left time for another. */
  ghost predicate Reaches(s: Surroundings, request: Request, n: nat) {
    forall m: nat | m < n :: SaysNothing(s, request, m) && !OutOfTime(s, request, m)
  }

  lemma RoundSays(s: Surroundings, request: Request, n: nat)
    ensures Round(s, request, n).None? <==> SaysNothing(s, request, n)
    ensures Round(s, request, n).Some? ==> Says(s, request, n, Round(s, request, n).value)
    ensures forall answer :: Says(s, request, n, answer) ==> Round(s, request, n) == Some(answer)
  {
  }

  lemma LastIsReached(s: Surroundings, request: Request)
    requires Ends(s, request)
    ensures Reaches(s, request, LastRound(s, request))
    ensures !SaysNothing(s, request, LastRound(s, request)) || OutOfTime(s, request, LastRound(s, request))
  {
    var last := LastRound(s, request);
    RoundSays(s, request, last);
    forall m: nat | m < last
      ensures SaysNothing(s, request, m) && !OutOfTime(s, request, m)
    {
      assert !Stops(s, request, m);
      RoundSays(s, request, m);
    }
  }

  lemma ReachedAndStopsIsLast(s: Surroundings, request: Request, n: nat)
    requires Ends(s, request) && Reaches(s, request, n)
    requires !SaysNothing(s, request, n) || OutOfTime(s, request, n)
    ensures n == LastRound(s, request)
  {
    RoundSays(s, request, n);
    forall m: nat | m < n
      ensures !Stops(s, request, m)
    {
      RoundSays(s, request, m);
    }
    FirstIsLast(s, request, n);
  }

  ghost predicate AnsweredAt(s: Surroundings, request: Request, n: nat, answer: Confirmation) {
    && Reaches(s, request, n)
    && (Says(s, request, n, answer)
        || (SaysNothing(s, request, n) && OutOfTime(s, request, n) && answer == Unknown))
  }

  /**
   * The call answers exactly what the first round that has something to say says of what it was shown, or that
   * nothing is known when the time is used up before any round has.
   */
  lemma AnsweredExactlyWhen(s: Surroundings, request: Request, answer: Confirmation)
    requires Ends(s, request)
    ensures Polled(s, request) == answer <==> exists n: nat :: AnsweredAt(s, request, n, answer)
  {
    var last := LastRound(s, request);
    RoundSays(s, request, last);
    LastIsReached(s, request);
    if Polled(s, request) == answer {
      assert AnsweredAt(s, request, last, answer);
    }
    if n: nat :| AnsweredAt(s, request, n, answer) {
      ReachedAndStopsIsLast(s, request, n);
    }
  }

  // ----- what that promises -----

  /** A landing answered from a status the node remembered is at least as settled as was asked for. */
  lemma RecentLandingIsSettled(s: Surroundings, request: Request)
    requires Ends(s, request) && Polled(s, request).Landed? && Recent(s, LastRound(s, request)).Some?
    ensures AsSettledAs(Polled(s, request).commitment, request.wanted)
  {
    RoundSays(s, request, LastRound(s, request));
  }

  /** A landing less settled than asked for comes only from the history, once the height is past the limit. */
  lemma UnsettledLandingIsFromTheHistory(s: Surroundings, request: Request)
    requires Ends(s, request) && Polled(s, request).Landed?
    requires !AsSettledAs(Polled(s, request).commitment, request.wanted)
    ensures var n := LastRound(s, request);
            && Recent(s, n).None? && PastTheLimit(s, request, n)
            && InTheHistory(s, n).Some? && Tells(Polled(s, request), InTheHistory(s, n).value)
  {
    RoundSays(s, request, LastRound(s, request));
  }

  /** A round that sees a landing not settled enough ends the call only when it uses up the time: nothing is known. */
  lemma UnsettledRoundIsNoAnswer(s: Surroundings, request: Request)
    requires Ends(s, request) && Recent(s, LastRound(s, request)).Some?
    requires var status := Recent(s, LastRound(s, request)).value;
             status.error.None? && !AsSettledAs(status.commitment, request.wanted)
    ensures Polled(s, request) == Unknown && OutOfTime(s, request, LastRound(s, request))
  {
    RoundSays(s, request, LastRound(s, request));
  }

  /** A status with an error, or one settled enough, is answered in the round that sees it. */
  lemma SettledIsAnsweredAtOnce(s: Surroundings, request: Request, n: nat)
    requires Ends(s, request) && Reaches(s, request, n) && Recent(s, n).Some?
    requires var status := Recent(s, n).value;
             status.error.Some? || AsSettledAs(status.commitment, request.wanted)
    ensures n == LastRound(s, request) && Tells(Polled(s, request), Recent(s, n).value)
  {
    ReachedAndStopsIsLast(s, request, n);
    RoundSays(s, request, n);
  }
}
