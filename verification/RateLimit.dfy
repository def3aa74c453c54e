/** A token bucket per client, forgotten when idle (packages/service/src/rate-limit.ts). */
module RateLimit {
  import opened Results

  type ClientId = string

  datatype Bucket = Bucket(tokens: real, updated: int)

  datatype Limits = Limits(capacity: real, refillPerSecond: real, idleMs: int) {
    predicate Sensible() {
      capacity >= 0.0 && refillPerSecond > 0.0 && idleMs >= 0
    }

    /** An idle spell long enough to be forgotten also fills the bucket. The clock counts whole milliseconds. */
    predicate IdleFills() {
      (idleMs + 1) as real / 1000.0 * refillPerSecond >= capacity
    }
  }

  datatype State = State(buckets: map<ClientId, Bucket>, lastSweep: int)

  /** `remaining` and `retryAfter` are the two headers. */
  datatype Answer = Admitted(remaining: int) | Refused(retryAfter: Option<int>)

  function Min(a: real, b: real): real {
    if a < b then a else b
  }

  function Ceil(x: real): int {
    -((-x).Floor)
  }

  function Earned(limits: Limits, ms: int): real {
    ms as real / 1000.0 * limits.refillPerSecond
  }

  function Refilled(limits: Limits, bucket: Bucket, now: int): real {
    Min(limits.capacity, bucket.tokens + Earned(limits, now - bucket.updated))
  }

  /** What a client has at a moment: a client never seen, or forgotten, has a full bucket. */
  function Has(limits: Limits, buckets: map<ClientId, Bucket>, id: ClientId, now: int): real {
    Refilled(limits, if id in buckets then buckets[id] else Bucket(limits.capacity, now), now)
  }

  function Swept(limits: Limits, s: State, now: int): State {
    if now - s.lastSweep > limits.idleMs then
      State(map id | id in s.buckets && now - s.buckets[id].updated <= limits.idleMs :: s.buckets[id], now)
    else s
  }

  function Admits(limits: Limits, s: State, id: ClientId, now: int): bool {
    Has(limits, Swept(limits, s, now).buckets, id, now) >= 1.0
  }

  function Taken(limits: Limits, buckets: map<ClientId, Bucket>, id: ClientId, now: int): map<ClientId, Bucket> {
    var refilled := Has(limits, buckets, id, now);
    buckets[id := Bucket(if refilled < 1.0 then refilled else refilled - 1.0, now)]
  }

  function Served(limits: Limits, s: State, id: ClientId, now: int): State {
    var swept := Swept(limits, s, now);
    swept.(buckets := Taken(limits, swept.buckets, id, now))
  }

  /** Whole seconds until one token is there; never, when nothing is restored. */
  function RetryAfter(limits: Limits, tokens: real): Option<int> {
    if limits.refillPerSecond == 0.0 then None else Some(Ceil((1.0 - tokens) / limits.refillPerSecond))
  }

  /** The middleware's closure: its map of buckets and the moment it last swept. */
  class Limiter {
    const limits: Limits
    var buckets: map<ClientId, Bucket>
    var lastSweep: int

    constructor (limits: Limits, now: int)
      ensures this.limits == limits && buckets == map[] && lastSweep == now
    {
      this.limits := limits;
      buckets := map[];
      lastSweep := now;
    }

    /** Forgets the buckets untouched for longer than the idle time. */
    method Sweep(now: int)
      modifies this
      ensures lastSweep == now
      ensures buckets == map id | id in old(buckets) && now - old(buckets)[id].updated <= limits.idleMs ::
          old(buckets)[id]
    {
      var left := buckets.Keys;
      ghost var before := buckets;
      while left != {}
        invariant left <= buckets.Keys <= before.Keys
        invariant forall k :: k in before ==>
                    (k in buckets <==> k in left || now - before[k].updated <= limits.idleMs)
        invariant forall k :: k in buckets ==> buckets[k] == before[k]
        decreases |left|
      {
        var k :| k in left;
        left := left - {k};
        if now - buckets[k].updated > limits.idleMs {
          buckets := buckets - {k};
        }
      }
      lastSweep := now;
    }

    method Handle(id: ClientId, now: int) returns (answer: Answer)
      modifies this
      ensures State(buckets, lastSweep) == Served(limits, old(State(buckets, lastSweep)), id, now)
      ensures answer.Admitted? <==> Admits(limits, old(State(buckets, lastSweep)), id, now)
      ensures answer.Admitted? ==> answer.remaining == buckets[id].tokens.Floor
      ensures answer.Refused? ==>
                answer.retryAfter == RetryAfter(limits, buckets[id].tokens)
    {
      if now - lastSweep > limits.idleMs {
        Sweep(now);
      }
      var bucket := if id in buckets then buckets[id] else Bucket(limits.capacity, now);
      var refilled := Min(limits.capacity, bucket.tokens + Earned(limits, now - bucket.updated));
      if refilled < 1.0 {
        buckets := buckets[id := Bucket(refilled, now)];
        return Refused(RetryAfter(limits, refilled));
      }
      buckets := buckets[id := Bucket(refilled - 1.0, now)];
      return Admitted((refilled - 1.0).Floor);
    }
  }

  // ----- whole sequences of requests -----

  datatype Request = Request(id: ClientId, now: int)

  /** The clock never goes back, from the moment the limiter was made. */
  ghost predicate InOrder(start: int, requests: seq<Request>) {
    && (forall i :: 0 <= i < |requests| ==> start <= requests[i].now)
    && (forall i, j :: 0 <= i < j < |requests| ==> requests[i].now <= requests[j].now)
  }

  function After(limits: Limits, start: int, requests: seq<Request>): State {
    if requests == [] then State(map[], start)
    else
      var n := |requests| - 1;
      Served(limits, After(limits, start, requests[..n]), requests[n].id, requests[n].now)
  }

  predicate AdmitsAt(limits: Limits, start: int, requests: seq<Request>, i: nat)
    requires i < |requests|
  {
    Admits(limits, After(limits, start, requests[..i]), requests[i].id, requests[i].now)
  }

  /** The same buckets with nothing ever forgotten. */
  function Remembered(limits: Limits, requests: seq<Request>): map<ClientId, Bucket> {
    if requests == [] then map[]
    else
      var n := |requests| - 1;
      Taken(limits, Remembered(limits, requests[..n]), requests[n].id, requests[n].now)
  }

  predicate AdmitsUnforgetting(limits: Limits, requests: seq<Request>, i: nat)
    requires i < |requests|
  {
    Has(limits, Remembered(limits, requests[..i]), requests[i].id, requests[i].now) >= 1.0
  }

  ghost predicate SameAdmissions(limits: Limits, start: int, requests: seq<Request>) {
    forall i :: 0 <= i < |requests| ==>
        (AdmitsAt(limits, start, requests, i) <==> AdmitsUnforgetting(limits, requests, i))
  }

  // ----- eviction is invisible -----

  lemma EarnedGrows(limits: Limits, a: int, b: int)
    requires limits.Sensible() && a <= b
    ensures Earned(limits, a) <= Earned(limits, b)
    ensures Earned(limits, b) == Earned(limits, a) + Earned(limits, b - a)
    ensures Earned(limits, b - a) >= 0.0
  {
    var d := (b - a) as real / 1000.0;
    assert b as real / 1000.0 == a as real / 1000.0 + d;
    assert d * limits.refillPerSecond >= 0.0;
  }

  predicate Full(limits: Limits, bucket: Bucket, now: int) {
    bucket.tokens + Earned(limits, now - bucket.updated) >= limits.capacity
  }

  /** The limiter's map agrees with the unforgetting one, but for clients whose bucket has filled. */
  ghost predicate Agrees(limits: Limits, buckets: map<ClientId, Bucket>, all: map<ClientId, Bucket>, now: int) {
    && (forall id :: id in all ==> 0.0 <= all[id].tokens <= limits.capacity && all[id].updated <= now)
    && (forall id :: id in buckets ==> id in all && buckets[id] == all[id])
    && (forall id :: id in all && id !in buckets ==> Full(limits, all[id], now))
  }

  lemma StaysFull(limits: Limits, bucket: Bucket, now: int, later: int)
    requires limits.Sensible() && Full(limits, bucket, now) && now <= later
    ensures Full(limits, bucket, later)
  {
    EarnedGrows(limits, now - bucket.updated, later - bucket.updated);
  }

  lemma IdleIsFull(limits: Limits, bucket: Bucket, now: int)
    requires limits.Sensible() && limits.IdleFills() && bucket.tokens >= 0.0
    requires now - bucket.updated > limits.idleMs
    ensures Full(limits, bucket, now)
  {
    EarnedGrows(limits, limits.idleMs + 1, now - bucket.updated);
  }

  lemma AgreesLater(limits: Limits, buckets: map<ClientId, Bucket>, all: map<ClientId, Bucket>, now: int, later: int)
    requires limits.Sensible() && Agrees(limits, buckets, all, now) && now <= later
    ensures Agrees(limits, buckets, all, later)
  {
    forall id | id in all && id !in buckets
      ensures Full(limits, all[id], later)
    {
      StaysFull(limits, all[id], now, later);
    }
  }

  lemma SweepAgrees(limits: Limits, s: State, all: map<ClientId, Bucket>, now: int)
    requires limits.Sensible() && limits.IdleFills() && Agrees(limits, s.buckets, all, now)
    ensures Agrees(limits, Swept(limits, s, now).buckets, all, now)
  {
    forall id | id in all && id !in Swept(limits, s, now).buckets
      ensures Full(limits, all[id], now)
    {
      if id in s.buckets {
        IdleIsFull(limits, all[id], now);
      }
    }
  }

  lemma TakingAgrees(limits: Limits, buckets: map<ClientId, Bucket>, all: map<ClientId, Bucket>, id: ClientId, now: int)
    requires limits.Sensible() && Agrees(limits, buckets, all, now)
    ensures Has(limits, buckets, id, now) == Has(limits, all, id, now)
    ensures Agrees(limits, Taken(limits, buckets, id, now), Taken(limits, all, id, now), now)
  {
    if id in all {
      EarnedGrows(limits, 0, now - all[id].updated);
    }
  }

  lemma {:induction false} AgreesThroughout(limits: Limits, start: int, requests: seq<Request>, now: int)
    requires limits.Sensible() && limits.IdleFills() && InOrder(start, requests)
    requires start <= now && forall i :: 0 <= i < |requests| ==> requests[i].now <= now
    ensures Agrees(limits, After(limits, start, requests).buckets, Remembered(limits, requests), now)
  {
    if requests != [] {
      var n := |requests| - 1;
      var moment, id := requests[n].now, requests[n].id;
      AgreesThroughout(limits, start, requests[..n], moment);
      var s, all := After(limits, start, requests[..n]), Remembered(limits, requests[..n]);
      SweepAgrees(limits, s, all, moment);
      TakingAgrees(limits, Swept(limits, s, moment).buckets, all, id, moment);
      AgreesLater(limits, After(limits, start, requests).buckets, Remembered(limits, requests), moment, now);
    }
  }

  /** Then forgetting changes no answer, for any clients and any timing of their requests. */
  lemma EvictionIsInvisible(limits: Limits, start: int, requests: seq<Request>)
    requires limits.Sensible() && limits.IdleFills() && InOrder(start, requests)
    ensures SameAdmissions(limits, start, requests)
  {
    forall i | 0 <= i < |requests|
      ensures AdmitsAt(limits, start, requests, i) <==> AdmitsUnforgetting(limits, requests, i)
    {
      var now, id := requests[i].now, requests[i].id;
      AgreesThroughout(limits, start, requests[..i], now);
      var s, all := After(limits, start, requests[..i]), Remembered(limits, requests[..i]);
      SweepAgrees(limits, s, all, now);
      TakingAgrees(limits, Swept(limits, s, now).buckets, all, id, now);
    }
  }

  // ----- and without enough idle time it is not -----

  function Repeated(id: ClientId, now: int, times: nat): seq<Request> {
    seq(times, i => Request(id, now))
  }

  lemma RememberedPush(limits: Limits, requests: seq<Request>, r: Request)
    ensures Remembered(limits, requests + [r]) == Taken(limits, Remembered(limits, requests), r.id, r.now)
    ensures AdmitsUnforgetting(limits, requests + [r], |requests|)
       <==> Has(limits, Remembered(limits, requests), r.id, r.now) >= 1.0
  {
    assert (requests + [r])[..|requests|] == requests;
  }

  lemma AfterPush(limits: Limits, start: int, requests: seq<Request>, r: Request)
    ensures After(limits, start, requests + [r]) == Served(limits, After(limits, start, requests), r.id, r.now)
    ensures AdmitsAt(limits, start, requests + [r], |requests|)
       <==> Admits(limits, After(limits, start, requests), r.id, r.now)
  {
    assert (requests + [r])[..|requests|] == requests;
  }

  lemma AskedAgain(id: ClientId, now: int, times: nat)
    ensures Repeated(id, now, times + 1) == Repeated(id, now, times) + [Request(id, now)]
  {
  }

  function Only(id: ClientId, tokens: real, now: int): map<ClientId, Bucket> {
    map[id := Bucket(tokens, now)]
  }

  lemma ServedAtOnce(limits: Limits, id: ClientId, now: int, tokens: real)
    requires limits.Sensible() && 1.0 <= tokens <= limits.capacity
    ensures var s := State(Only(id, tokens, now), now);
            Admits(limits, s, id, now) && Served(limits, s, id, now) == State(Only(id, tokens - 1.0, now), now)
    ensures Taken(limits, Only(id, tokens, now), id, now) == Only(id, tokens - 1.0, now)
  {
    assert Earned(limits, 0) == 0.0;
    assert Has(limits, Only(id, tokens, now), id, now) == tokens;
  }

  lemma ServedAfresh(limits: Limits, s: State, id: ClientId, now: int)
    requires limits.Sensible() && limits.capacity >= 1.0
    requires s.buckets.Keys <= {id} && (id in s.buckets ==> now - s.buckets[id].updated > limits.idleMs)
    requires s.lastSweep == now || now - s.lastSweep > limits.idleMs
    requires id in s.buckets ==> now - s.lastSweep > limits.idleMs
    ensures Admits(limits, s, id, now) && Served(limits, s, id, now) == State(Only(id, limits.capacity - 1.0, now), now)
  {
    assert Earned(limits, 0) == 0.0;
    assert Swept(limits, s, now) == State(map[], now);
  }

  /** A burst from a full bucket: one token each, whether or not anything is forgotten. */
  lemma {:induction false} FirstBurst(limits: Limits, id: ClientId, start: int, times: nat)
    requires limits.Sensible() && times as real <= limits.capacity && times > 0
    ensures Remembered(limits, Repeated(id, start, times)) == Only(id, limits.capacity - times as real, start)
    ensures After(limits, start, Repeated(id, start, times))
         == State(Only(id, limits.capacity - times as real, start), start)
  {
    var asked := Repeated(id, start, times - 1);
    AskedAgain(id, start, times - 1);
    RememberedPush(limits, asked, Request(id, start));
    AfterPush(limits, start, asked, Request(id, start));
    if times > 1 {
      FirstBurst(limits, id, start, times - 1);
      ServedAtOnce(limits, id, start, limits.capacity - (times - 1) as real);
    } else {
      assert asked == [];
      ServedAfresh(limits, State(map[], start), id, start);
      assert Earned(limits, 0) == 0.0;
    }
  }

  /** After the idle spell a forgetting limiter starts the client afresh. */
  lemma {:induction false} SecondBurst(limits: Limits, id: ClientId, start: int, now: int, first: nat, times: nat)
    requires limits.Sensible() && first > 0 && times > 0 && now == start + limits.idleMs + 1
    requires first as real <= limits.capacity && times as real <= limits.capacity
    ensures After(limits, start, TwoBursts(id, start, now, first, times))
         == State(Only(id, limits.capacity - times as real, now), now)
    ensures AdmitsAt(limits, start, TwoBursts(id, start, now, first, times), first + times - 1)
  {
    if times > 1 {
      SecondBurst(limits, id, start, now, first, times - 1);
      ServedNext(limits, id, now, times);
    } else {
      SecondBurstStarts(limits, id, start, first);
    }
    SecondBurstGoesOn(limits, id, start, now, first, times, limits.capacity - times as real);
  }

  lemma SecondBurstGoesOn(limits: Limits, id: ClientId, start: int, now: int, first: nat, times: nat, tokens: real)
    requires times > 0
    requires var s := After(limits, start, TwoBursts(id, start, now, first, times - 1));
             Admits(limits, s, id, now) && Served(limits, s, id, now) == State(Only(id, tokens, now), now)
    ensures After(limits, start, TwoBursts(id, start, now, first, times)) == State(Only(id, tokens, now), now)
    ensures AdmitsAt(limits, start, TwoBursts(id, start, now, first, times), first + times - 1)
  {
    var asked := TwoBursts(id, start, now, first, times - 1);
    ThenServed(limits, start, asked, id, now, After(limits, start, asked), State(Only(id, tokens, now), now));
    AskedAgain(id, now, times - 1);
    assert TwoBursts(id, start, now, first, times) == asked + [Request(id, now)];
  }

  lemma ServedNext(limits: Limits, id: ClientId, now: int, times: nat)
    requires limits.Sensible() && 1 < times && times as real <= limits.capacity
    ensures var s := State(Only(id, limits.capacity - (times - 1) as real, now), now);
            Admits(limits, s, id, now)
              && Served(limits, s, id, now) == State(Only(id, limits.capacity - times as real, now), now)
  {
    ServedAtOnce(limits, id, now, limits.capacity - (times - 1) as real);
  }

  lemma ThenServed(limits: Limits, start: int, asked: seq<Request>, id: ClientId, now: int, s: State, s': State)
    requires After(limits, start, asked) == s && Admits(limits, s, id, now) && Served(limits, s, id, now) == s'
    ensures After(limits, start, asked + [Request(id, now)]) == s'
    ensures AdmitsAt(limits, start, asked + [Request(id, now)], |asked|)
  {
    AfterPush(limits, start, asked, Request(id, now));
  }

  lemma SecondBurstStarts(limits: Limits, id: ClientId, start: int, first: nat)
    requires limits.Sensible() && first > 0 && first as real <= limits.capacity
    ensures var now := start + limits.idleMs + 1;
            var s := After(limits, start, TwoBursts(id, start, now, first, 0));
            Admits(limits, s, id, now) && Served(limits, s, id, now) == State(Only(id, limits.capacity - 1.0, now), now)
  {
    assert TwoBursts(id, start, start + limits.idleMs + 1, first, 0) == Repeated(id, start, first);
    FirstBurst(limits, id, start, first);
    ServedAfterIdle(limits, id, start, limits.capacity - first as real);
  }

  lemma ServedAfterIdle(limits: Limits, id: ClientId, start: int, tokens: real)
    requires limits.Sensible() && limits.capacity >= 1.0
    ensures var now := start + limits.idleMs + 1;
            var s := State(Only(id, tokens, start), start);
            Admits(limits, s, id, now) && Served(limits, s, id, now) == State(Only(id, limits.capacity - 1.0, now), now)
  {
    ServedAfresh(limits, State(Only(id, tokens, start), start), id, start + limits.idleMs + 1);
  }

  function TwoBursts(id: ClientId, start: int, later: int, first: nat, second: nat): seq<Request> {
    Repeated(id, start, first) + Repeated(id, later, second)
  }

  /** Whether the k-th request of the second burst gets through a remembering limiter. */
  predicate GetsThrough(limits: Limits, id: ClientId, start: int, later: int, first: nat, k: nat) {
    AdmitsUnforgetting(limits, TwoBursts(id, start, later, first, k + 1), first + k)
  }

  lemma OneMoreInTheSecond(limits: Limits, id: ClientId, start: int, later: int, first: nat, k: nat)
    ensures var asked := Remembered(limits, TwoBursts(id, start, later, first, k));
            && Remembered(limits, TwoBursts(id, start, later, first, k + 1)) == Taken(limits, asked, id, later)
            && (GetsThrough(limits, id, start, later, first, k) <==> Has(limits, asked, id, later) >= 1.0)
  {
    var asked := TwoBursts(id, start, later, first, k);
    AskedAgain(id, later, k);
    assert TwoBursts(id, start, later, first, k + 1) == asked + [Request(id, later)];
    RememberedPush(limits, asked, Request(id, later));
  }

  lemma TakenAtOnce(limits: Limits, buckets: map<ClientId, Bucket>, id: ClientId, now: int)
    requires limits.Sensible() && 1.0 <= Has(limits, buckets, id, now)
    ensures Has(limits, Taken(limits, buckets, id, now), id, now) == Has(limits, buckets, id, now) - 1.0
  {
    assert Earned(limits, 0) == 0.0;
  }

  /** A remembering limiter gives the second burst only what the spell has earned. */
  lemma {:induction false} SecondBurstIsRationed(
      limits: Limits, id: ClientId, start: int, later: int, first: nat, second: nat)
    requires limits.Sensible() && first > 0 && first as real == limits.capacity && start <= later
    requires Earned(limits, later - start) < limits.capacity
    requires forall k :: 0 <= k < second ==> GetsThrough(limits, id, start, later, first, k)
    ensures Has(limits, Remembered(limits, TwoBursts(id, start, later, first, second)), id, later)
         == Earned(limits, later - start) - second as real
  {
    if second == 0 {
      assert TwoBursts(id, start, later, first, 0) == Repeated(id, start, first);
      FirstBurst(limits, id, start, first);
    } else {
      SecondBurstIsRationed(limits, id, start, later, first, second - 1);
      OneMoreInTheSecond(limits, id, start, later, first, second - 1);
      assert GetsThrough(limits, id, start, later, first, second - 1);
      TakenAtOnce(limits, Remembered(limits, TwoBursts(id, start, later, first, second - 1)), id, later);
    }
  }

  lemma SomeoneIsRefused(limits: Limits, id: ClientId, start: int, later: int, size: nat) returns (k: nat)
    requires limits.Sensible() && size > 0 && size as real == limits.capacity && start <= later
    requires Earned(limits, later - start) < limits.capacity
    ensures k < size && !GetsThrough(limits, id, start, later, size, k)
  {
    k := 0;
    while GetsThrough(limits, id, start, later, size, k)
      invariant k < size
      invariant forall m :: 0 <= m < k ==> GetsThrough(limits, id, start, later, size, m)
      decreases size - k
    {
      SecondBurstIsRationed(limits, id, start, later, size, k);
      OneMoreInTheSecond(limits, id, start, later, size, k);
      k := k + 1;
    }
  }

  /**
   * For a burst of a whole number of requests, forgetting is invisible to every client under every timing
   * exactly when the idle time is long enough to fill a bucket.
   */
  lemma EvictionIsInvisibleExactlyWhen(limits: Limits, start: int, size: nat)
    requires limits.Sensible() && size > 0 && size as real == limits.capacity
    ensures (forall requests :: InOrder(start, requests) ==> SameAdmissions(limits, start, requests))
         <==> limits.IdleFills()
  {
    if limits.IdleFills() {
      forall requests | InOrder(start, requests)
        ensures SameAdmissions(limits, start, requests)
      {
        EvictionIsInvisible(limits, start, requests);
      }
    } else {
      var later := start + limits.idleMs + 1;
      var k := SomeoneIsRefused(limits, "a", start, later, size);
      var requests := TwoBursts("a", start, later, size, k + 1);
      SecondBurst(limits, "a", start, later, size, k + 1);
      assert InOrder(start, requests);
      assert AdmitsAt(limits, start, requests, size + k) && !AdmitsUnforgetting(limits, requests, size + k);
      assert !SameAdmissions(limits, start, requests);
    }
  }

  // ----- how often a client gets through -----

  function AdmittedCount(limits: Limits, start: int, requests: seq<Request>, id: ClientId, from: nat): nat
    requires from <= |requests|
    decreases |requests|
  {
    if from == |requests| then 0
    else
      var n := |requests| - 1;
      AdmittedCount(limits, start, requests[..n], id, from)
      + if requests[n].id == id && AdmitsAt(limits, start, requests, n) then 1 else 0
  }

  lemma EarningIsLinear(limits: Limits, buckets: map<ClientId, Bucket>, id: ClientId, now: int, later: int)
    requires limits.Sensible() && now <= later
    requires id in buckets ==> buckets[id].tokens <= limits.capacity && buckets[id].updated <= now
    ensures Has(limits, buckets, id, later) <= Has(limits, buckets, id, now) + Earned(limits, later - now)
  {
    if id in buckets {
      EarnedGrows(limits, now - buckets[id].updated, later - buckets[id].updated);
    }
    EarnedGrows(limits, 0, later - now);
  }

  lemma TakingCosts(limits: Limits, all: map<ClientId, Bucket>, id: ClientId, asker: ClientId, now: int)
    requires limits.Sensible()
    requires forall k :: k in all ==> 0.0 <= all[k].tokens <= limits.capacity && all[k].updated <= now
    ensures Has(limits, all, id, now) >= 0.0 && Has(limits, all, id, now) <= limits.capacity
    ensures Has(limits, Taken(limits, all, asker, now), id, now)
         == Has(limits, all, id, now) - if asker == id && Has(limits, all, id, now) >= 1.0 then 1.0 else 0.0
  {
    if id in all {
      EarnedGrows(limits, 0, now - all[id].updated);
    }
    assert Earned(limits, 0) == 0.0;
  }

  lemma AdmittedExactlyWithAToken(limits: Limits, start: int, requests: seq<Request>)
    requires limits.Sensible() && limits.IdleFills() && InOrder(start, requests) && requests != []
    ensures var n := |requests| - 1;
            && (AdmitsAt(limits, start, requests, n)
                <==> Has(limits, Remembered(limits, requests[..n]), requests[n].id, requests[n].now) >= 1.0)
            && Remembered(limits, requests)
                == Taken(limits, Remembered(limits, requests[..n]), requests[n].id, requests[n].now)
  {
    EvictionIsInvisible(limits, start, requests);
    assert AdmitsAt(limits, start, requests, |requests| - 1) <==> AdmitsUnforgetting(limits, requests, |requests| - 1);
  }

  lemma OneMoreAdmission(limits: Limits, start: int, requests: seq<Request>, id: ClientId, from: nat, admitted: bool)
    requires from < |requests|
    requires admitted <==> requests[|requests| - 1].id == id && AdmitsAt(limits, start, requests, |requests| - 1)
    ensures AdmittedCount(limits, start, requests, id, from) as real
         == AdmittedCount(limits, start, requests[..|requests| - 1], id, from) as real + if admitted then 1.0 else 0.0
  {
  }

  /** A request that gets through costs its client one token, and no other client anything. */
  lemma RequestIsPaidFor(limits: Limits, start: int, requests: seq<Request>, id: ClientId, from: nat)
    requires limits.Sensible() && limits.IdleFills() && InOrder(start, requests) && from < |requests|
    ensures var n := |requests| - 1;
            AdmittedCount(limits, start, requests, id, from) as real
              + Has(limits, Remembered(limits, requests), id, requests[n].now)
            == AdmittedCount(limits, start, requests[..n], id, from) as real
               + Has(limits, Remembered(limits, requests[..n]), id, requests[n].now)
  {
    var n := |requests| - 1;
    var asker, moment, all := requests[n].id, requests[n].now, Remembered(limits, requests[..n]);
    AgreesThroughout(limits, start, requests[..n], moment);
    AdmittedExactlyWithAToken(limits, start, requests);
    OneMoreAdmission(limits, start, requests, id, from, asker == id && Has(limits, all, id, moment) >= 1.0);
    TakingCosts(limits, all, id, asker, moment);
  }

  /** From one request to a later moment a client gains no more than the time between restores. */
  lemma TimeEarns(limits: Limits, start: int, requests: seq<Request>, id: ClientId, since: int, moment: int, now: int)
    requires limits.Sensible() && limits.IdleFills() && InOrder(start, requests)
    requires requests != [] && moment == requests[|requests| - 1].now && start <= since <= moment <= now
    ensures Has(limits, Remembered(limits, requests), id, now) + Earned(limits, moment - since)
         <= Has(limits, Remembered(limits, requests), id, moment) + Earned(limits, now - since)
  {
    AgreesThroughout(limits, start, requests, moment);
    EarningIsLinear(limits, Remembered(limits, requests), id, moment, now);
    EarnedGrows(limits, moment - since, now - since);
  }

  lemma NoneAdmittedYet(limits: Limits, start: int, requests: seq<Request>, id: ClientId, since: int, now: int)
    requires limits.Sensible() && limits.IdleFills() && InOrder(start, requests) && start <= since <= now
    requires forall i :: 0 <= i < |requests| ==> requests[i].now <= now
    ensures Has(limits, Remembered(limits, requests), id, now) <= limits.capacity + Earned(limits, now - since)
  {
    AgreesThroughout(limits, start, requests, now);
    EarnedGrows(limits, 0, now - since);
    TakingCosts(limits, Remembered(limits, requests), id, id, now);
  }

  lemma {:induction false} TokensPayForAdmissions(
      limits: Limits, start: int, requests: seq<Request>, id: ClientId, from: nat, since: int, now: int)
    requires limits.Sensible() && limits.IdleFills() && InOrder(start, requests)
    requires from <= |requests| && start <= since <= now
    requires forall i :: 0 <= i < |requests| ==> requests[i].now <= now
    requires forall i :: from <= i < |requests| ==> since <= requests[i].now
    ensures AdmittedCount(limits, start, requests, id, from) as real
        + Has(limits, Remembered(limits, requests), id, now)
         <= limits.capacity + Earned(limits, now - since)
    decreases |requests|
  {
    if from == |requests| {
      NoneAdmittedYet(limits, start, requests, id, since, now);
    } else {
      var n := |requests| - 1;
      TokensPayForAdmissions(limits, start, requests[..n], id, from, since, requests[n].now);
      RequestIsPaidFor(limits, start, requests, id, from);
      TimeEarns(limits, start, requests, id, since, requests[n].now, now);
    }
  }

  /** In any interval a client is admitted at most its burst plus what the interval restores at the rate. */
  lemma AdmissionsAreBounded(
      limits: Limits, start: int, requests: seq<Request>, id: ClientId, from: nat, since: int, until: int)
    requires limits.Sensible() && limits.IdleFills() && InOrder(start, requests)
    requires from <= |requests| && start <= since <= until
    requires forall i :: from <= i < |requests| ==> since <= requests[i].now
    requires forall i :: 0 <= i < |requests| ==> requests[i].now <= until
    ensures AdmittedCount(limits, start, requests, id, from) as real
         <= limits.capacity + Earned(limits, until - since)
  {
    TokensPayForAdmissions(limits, start, requests, id, from, since, until);
    AgreesThroughout(limits, start, requests, until);
    TakingCosts(limits, Remembered(limits, requests), id, id, until);
  }

  // ----- the retry header keeps its word -----

  lemma CeilCovers(x: real)
    ensures x <= Ceil(x) as real < x + 1.0
  {
  }

  lemma EarnedInSeconds(limits: Limits, seconds: int)
    ensures Earned(limits, seconds * 1000) == seconds as real * limits.refillPerSecond
  {
    assert (seconds * 1000) as real / 1000.0 == seconds as real;
  }

  lemma RoundedUpIsEnough(short: real, rate: real)
    requires short > 0.0 && rate > 0.0
    ensures Ceil(short / rate) > 0 && Ceil(short / rate) as real * rate >= short
  {
    var quotient := short / rate;
    CeilCovers(quotient);
    assert quotient * rate == short;
    assert quotient > 0.0;
    RealMulMonotone(quotient, Ceil(quotient) as real, rate);
  }

  lemma RealMulMonotone(a: real, b: real, rate: real)
    requires a <= b && rate > 0.0
    ensures a * rate <= b * rate
  {
  }

  /**
   * A refused client that stays away for the seconds it was told is admitted when it comes back, exactly when
   * the limiter admits anyone at all.
   */
  lemma RetryAfterIsEnough(limits: Limits, buckets: map<ClientId, Bucket>, id: ClientId, now: int)
    requires limits.Sensible()
    requires Has(limits, buckets, id, now) < 1.0
    ensures var after := Taken(limits, buckets, id, now);
            var retryAfter := RetryAfter(limits, after[id].tokens);
            && retryAfter.Some? && retryAfter.value > 0
            && (Has(limits, after, id, now + retryAfter.value * 1000) >= 1.0 <==> limits.capacity >= 1.0)
  {
    var short := 1.0 - Has(limits, buckets, id, now);
    RoundedUpIsEnough(short, limits.refillPerSecond);
    EarnedInSeconds(limits, Ceil(short / limits.refillPerSecond));
  }


  // ----- what a bucket holds -----

  /** A bucket gains the rate for every second, a thousandth of it a millisecond, up to its capacity. */
  lemma WaitingRestores(limits: Limits, buckets: map<ClientId, Bucket>, id: ClientId, now: int)
    requires limits.Sensible()
    ensures id !in buckets ==> Has(limits, buckets, id, now) == limits.capacity
    ensures id in buckets ==>
              var waited := (now - buckets[id].updated) as real;
              var restored := buckets[id].tokens + waited * limits.refillPerSecond / 1000.0;
              && (restored <= limits.capacity ==> Has(limits, buckets, id, now) == restored)
              && (restored >= limits.capacity ==> Has(limits, buckets, id, now) == limits.capacity)
  {
    if id in buckets {
      var ms := (now - buckets[id].updated) as real;
      assert ms / 1000.0 * limits.refillPerSecond == ms * limits.refillPerSecond / 1000.0;
    }
  }

  /** A request takes one token, or none when there is not a whole one, and is admitted exactly when it takes it. */
  lemma AdmissionTakesOneToken(limits: Limits, s: State, id: ClientId, now: int)
    requires limits.Sensible()
    ensures var has := Has(limits, Swept(limits, s, now).buckets, id, now);
            var after := Served(limits, s, id, now).buckets;
            && id in after && after[id].updated == now
            && (Admits(limits, s, id, now) <==> has >= 1.0)
            && after[id].tokens == has - (if Admits(limits, s, id, now) then 1.0 else 0.0)
  {
  }

  lemma OneSecondLessIsShort(short: real, rate: real)
    requires short > 0.0 && rate > 0.0
    ensures (Ceil(short / rate) - 1) as real * rate < short
  {
    var quotient := short / rate;
    CeilCovers(quotient);
    assert quotient * rate == short;
    RealMulGrows((Ceil(quotient) - 1) as real, quotient, rate);
  }

  lemma RealMulGrows(a: real, b: real, rate: real)
    requires a < b && rate > 0.0
    ensures a * rate < b * rate
  {
  }

  /** The seconds a refused client is told are the fewest: a second earlier it would be refused again. */
  lemma RetryAfterIsLeast(limits: Limits, buckets: map<ClientId, Bucket>, id: ClientId, now: int)
    requires limits.Sensible() && Has(limits, buckets, id, now) < 1.0
    ensures var after := Taken(limits, buckets, id, now);
            var retryAfter := RetryAfter(limits, after[id].tokens);
            retryAfter.Some? && Has(limits, after, id, now + (retryAfter.value - 1) * 1000) < 1.0
  {
    var short := 1.0 - Has(limits, buckets, id, now);
    OneSecondLessIsShort(short, limits.refillPerSecond);
    EarnedInSeconds(limits, Ceil(short / limits.refillPerSecond) - 1);
  }
}
