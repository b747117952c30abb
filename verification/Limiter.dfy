/** The ingest rate limiter: a token bucket per client, idle buckets pruned.
    Times are seconds on a monotonic clock, tokens reals. */
module Limiter {
  const PRUNE_ABOVE := 100_000
  const IDLE := 600.0

  datatype RateLimit = RateLimit(perSecond: real, burst: real)

  datatype Bucket = Bucket(tokens: real, refreshed: real)

  type Buckets = map<string, Bucket>

  datatype Decision = Allowed | Limited(retryAfter: real)

  /** `duration_since`, which is zero for a later time. */
  function Since(now: real, earlier: real): real {
    if now < earlier then 0.0 else now - earlier
  }

  function Least(one: real, other: real): real {
    if one <= other then one else other
  }

  function Ceiling(x: real): int {
    -((-x).Floor)
  }

  // --- One check ----------------------------------------------------------------------

  function Pruned(buckets: Buckets, now: real): Buckets {
    if |buckets| > PRUNE_ABOVE
    then map client | client in buckets && Since(now, buckets[client].refreshed) < IDLE :: buckets[client]
    else buckets
  }

  function Refilled(bucket: Bucket, limit: RateLimit, now: real): real {
    Least(bucket.tokens + Since(now, bucket.refreshed) * limit.perSecond, limit.burst)
  }

  /** The tokens a check of the client would find: a client without a bucket has the whole burst. */
  function Level(buckets: Buckets, client: string, limit: RateLimit, now: real): real {
    if client in buckets then Refilled(buckets[client], limit, now) else limit.burst
  }

  function DecisionAt(level: real, limit: RateLimit): Decision
    requires limit.perSecond > 0.0
  {
    if level >= 1.0 then Allowed
    else
      var seconds := Ceiling((1.0 - level) / limit.perSecond) as real;
      Limited(if seconds < 1.0 then 1.0 else seconds)
  }

  function Checked(buckets: Buckets, client: string, limit: RateLimit, now: real): Buckets {
    var level := Level(Pruned(buckets, now), client, limit, now);
    Pruned(buckets, now)[client := Bucket(if level >= 1.0 then level - 1.0 else level, now)]
  }

  lemma PruningKeeps(buckets: Buckets, now: real, kept: Buckets)
    requires kept == if |buckets| > PRUNE_ABOVE
      then map other | other in buckets && Since(now, buckets[other].refreshed) < IDLE :: buckets[other]
      else buckets
    ensures kept == Pruned(buckets, now)
  {
  }

  lemma TwiceIsOnce(buckets: Buckets, client: string, first: Bucket, second: Bucket)
    ensures buckets[client := first][client := second] == buckets[client := second]
  {
  }

  lemma BucketHoldsLevel(buckets: Buckets, client: string, limit: RateLimit, now: real, bucket: Bucket)
    requires bucket == if client in buckets then buckets[client] else Bucket(limit.burst, now)
    requires limit.perSecond > 0.0
    ensures Least(bucket.tokens + Since(now, bucket.refreshed) * limit.perSecond, limit.burst)
      == Level(buckets, client, limit, now)
  {
    assert Since(now, now) * limit.perSecond == 0.0;
  }

  class RateLimiter {
    var buckets: Buckets

    constructor ()
      ensures buckets == map[]
    {
      buckets := map[];
    }

    method Check(client: string, limit: RateLimit, now: real) returns (decision: Decision)
      requires limit.perSecond > 0.0
      modifies this
      ensures buckets == Checked(old(buckets), client, limit, now)
      ensures decision == DecisionAt(Level(Pruned(old(buckets), now), client, limit, now), limit)
    {
      hide Pruned, Level, Least, Since, Ceiling;
      if |buckets| > PRUNE_ABOVE {
        buckets := map other | other in buckets && Since(now, buckets[other].refreshed) < IDLE :: buckets[other];
      }
      PruningKeeps(old(buckets), now, buckets);
      ghost var pruned := buckets;
      if client !in buckets {
        buckets := buckets[client := Bucket(limit.burst, now)];
      }
      var bucket := buckets[client];
      var tokens := Least(bucket.tokens + Since(now, bucket.refreshed) * limit.perSecond, limit.burst);
      BucketHoldsLevel(pruned, client, limit, now, bucket);
      ghost var left := if tokens >= 1.0 then tokens - 1.0 else tokens;
      TwiceIsOnce(pruned, client, Bucket(limit.burst, now), Bucket(left, now));
      if tokens >= 1.0 {
        buckets := buckets[client := Bucket(tokens - 1.0, now)];
        return Allowed;
      }
      buckets := buckets[client := Bucket(tokens, now)];
      var seconds := Ceiling((1.0 - tokens) / limit.perSecond) as real;
      return Limited(if seconds < 1.0 then 1.0 else seconds);
    }
  }

  /** What a check does, written out: above 100,000 buckets those idle for 600 s go; the client's tokens come in at the
      limit's rate since it was seen, up to the burst, which a new client has; with a whole token the request is allowed
      and takes it; and the other buckets that stay do so unchanged. */
  lemma CheckIsExact(buckets: Buckets, client: string, limit: RateLimit, now: real, other: string)
    requires limit.perSecond > 0.0 && other != client
    ensures
      var decision := DecisionAt(Level(Pruned(buckets, now), client, limit, now), limit);
      var after := Checked(buckets, client, limit, now);
      var crowded := |buckets| > 100_000;
      var known := client in buckets && !(crowded && now >= buckets[client].refreshed + 600.0);
      var passed := if known && buckets[client].refreshed < now then now - buckets[client].refreshed else 0.0;
      var refilled := if known then buckets[client].tokens + passed * limit.perSecond else limit.burst;
      var found := if refilled > limit.burst then limit.burst else refilled;
      && (decision == Allowed <==> found >= 1.0)
      && client in after && after[client] == Bucket(if found >= 1.0 then found - 1.0 else found, now)
      && (other in after <==> other in buckets && !(crowded && now >= buckets[other].refreshed + 600.0))
      && (other in after ==> after[other] == buckets[other])
  {
    hide Ceiling;
  }

  // --- What a check keeps ----------------------------------------------------------------

  predicate LimitOk(limit: RateLimit) {
    limit.perSecond > 0.0 && limit.burst >= 1.0
  }

  /** No bucket is negative, over the burst or from the future. */
  ghost predicate Sound(buckets: Buckets, limit: RateLimit, now: real) {
    forall client | client in buckets ::
      0.0 <= buckets[client].tokens <= limit.burst && buckets[client].refreshed <= now
  }

  lemma Product(x: real, y: real)
    requires x >= 0.0 && y >= 0.0
    ensures x * y >= 0.0
  {
  }

  lemma LevelIsBounded(buckets: Buckets, client: string, limit: RateLimit, now: real)
    requires LimitOk(limit) && Sound(buckets, limit, now)
    ensures 0.0 <= Level(buckets, client, limit, now) <= limit.burst
  {
    if client in buckets {
      Product(Since(now, buckets[client].refreshed), limit.perSecond);
    }
  }

  lemma CheckIsSound(buckets: Buckets, client: string, limit: RateLimit, before: real, now: real)
    requires LimitOk(limit) && Sound(buckets, limit, before) && before <= now
    ensures Sound(Checked(buckets, client, limit, now), limit, now)
  {
    LevelIsBounded(Pruned(buckets, now), client, limit, now);
  }

  /** A bucket refills at `perSecond`, never past the burst. */
  lemma LevelGrows(buckets: Buckets, client: string, limit: RateLimit, before: real, now: real)
    requires LimitOk(limit) && Sound(buckets, limit, before) && before <= now
    ensures Level(buckets, client, limit, before) <= Level(buckets, client, limit, now)
    ensures Level(buckets, client, limit, now)
      <= Level(buckets, client, limit, before) + (now - before) * limit.perSecond
  {
    Product(now - before, limit.perSecond);
    if client in buckets {
      var since := before - buckets[client].refreshed;
      assert (since + (now - before)) * limit.perSecond == since * limit.perSecond + (now - before) * limit.perSecond;
    }
  }

  // --- Pruning ------------------------------------------------------------------------------

  lemma IdleIsFull(buckets: Buckets, client: string, limit: RateLimit, now: real)
    requires LimitOk(limit) && Sound(buckets, limit, now) && 600.0 * limit.perSecond >= limit.burst
    requires client in buckets && Since(now, buckets[client].refreshed) >= IDLE
    ensures Level(buckets, client, limit, now) == limit.burst
  {
    var idle := Since(now, buckets[client].refreshed);
    Product(idle - IDLE, limit.perSecond);
    assert (idle - IDLE) * limit.perSecond == idle * limit.perSecond - IDLE * limit.perSecond;
  }

  /** If a bucket refills within the idle time, pruning changes no level, so no decision. */
  lemma PruningIsInvisible(buckets: Buckets, client: string, limit: RateLimit, now: real)
    requires LimitOk(limit) && Sound(buckets, limit, now) && 600.0 * limit.perSecond >= limit.burst
    ensures Level(Pruned(buckets, now), client, limit, now) == Level(buckets, client, limit, now)
    ensures Sound(Pruned(buckets, now), limit, now)
  {
    if client in buckets && Since(now, buckets[client].refreshed) >= IDLE {
      IdleIsFull(buckets, client, limit, now);
    }
  }

  // --- Runs of checks ----------------------------------------------------------------------

  datatype Request = Request(client: string, now: real)

  predicate InTime(requests: seq<Request>, start: real, end: real) {
    if requests == [] then start <= end else start <= requests[0].now && InTime(requests[1..], requests[0].now, end)
  }

  /** How many requests of the client a run of checks allows. */
  function Admitted(buckets: Buckets, requests: seq<Request>, limit: RateLimit, client: string): nat
    decreases |requests|
  {
    if requests == [] then 0
    else
      var request := requests[0];
      var level := Level(Pruned(buckets, request.now), request.client, limit, request.now);
      (if request.client == client && level >= 1.0 then 1 else 0)
        + Admitted(Checked(buckets, request.client, limit, request.now), requests[1..], limit, client)
  }

  /** A check takes a token from the client it allows, as the level at the same instant shows. */
  lemma CheckTakesOne(buckets: Buckets, checked: string, limit: RateLimit, client: string, now: real)
    requires LimitOk(limit) && Sound(Pruned(buckets, now), limit, now)
    ensures
      Level(Checked(buckets, checked, limit, now), client, limit, now) ==
        Level(Pruned(buckets, now), client, limit, now)
        - (if checked == client && Level(Pruned(buckets, now), client, limit, now) >= 1.0 then 1.0 else 0.0)
  {
    hide Pruned, Sound, Level, LimitOk, Since, Least;
    LevelIsBounded(Pruned(buckets, now), client, limit, now);
    if checked == client {
      LevelAfterCheck(Pruned(buckets, now), client, limit, now);
    } else {
      LevelOfAnother(Pruned(buckets, now), checked, client, Checked(buckets, checked, limit, now)[checked], limit, now);
    }
  }

  /** No time, no refill. */
  lemma LevelOfAnother(buckets: Buckets, other: string, client: string, bucket: Bucket, limit: RateLimit, now: real)
    requires other != client
    ensures Level(buckets[other := bucket], client, limit, now) == Level(buckets, client, limit, now)
  {
    hide Refilled;
    var after := buckets[other := bucket];
    if client in buckets {
      assert client in after && after[client] == buckets[client];
    } else {
      assert client !in after;
    }
  }

  lemma LevelAfterCheck(buckets: Buckets, client: string, limit: RateLimit, now: real)
    requires 0.0 <= Level(buckets, client, limit, now) <= limit.burst
    ensures
      var level := Level(buckets, client, limit, now);
      var left := if level >= 1.0 then level - 1.0 else level;
      Level(buckets[client := Bucket(left, now)], client, limit, now) == left
  {
    assert Since(now, now) * limit.perSecond == 0.0;
  }

  lemma OneCheck(buckets: Buckets, request: Request, limit: RateLimit, client: string, start: real)
    requires LimitOk(limit) && 600.0 * limit.perSecond >= limit.burst
    requires Sound(buckets, limit, start) && start <= request.now
    ensures
      var level := Level(Pruned(buckets, request.now), request.client, limit, request.now);
      Level(Checked(buckets, request.client, limit, request.now), client, limit, request.now) ==
        Level(buckets, client, limit, request.now) - (if request.client == client && level >= 1.0 then 1.0 else 0.0)
  {
    PruningIsInvisible(buckets, client, limit, request.now);
    hide Level, Checked, Pruned;
    CheckTakesOne(buckets, request.client, limit, client, request.now);
  }

  lemma TimesAdd(start: real, now: real, end: real, rate: real)
    ensures (end - start) * rate == (end - now) * rate + (now - start) * rate
  {
  }

  /** From any state, between `start` and `end` a client is admitted at most what it had plus what came in. */
  lemma {:induction false} AdmittedIsBounded(buckets: Buckets, requests: seq<Request>, limit: RateLimit, client: string,
                                             start: real, end: real)
    requires LimitOk(limit) && 600.0 * limit.perSecond >= limit.burst
    requires Sound(buckets, limit, start) && InTime(requests, start, end)
    ensures Admitted(buckets, requests, limit, client) as real
      <= Level(buckets, client, limit, start) + (end - start) * limit.perSecond
    decreases |requests|
  {
    hide Level, Sound, Checked, LimitOk, Pruned;
    LevelIsBounded(buckets, client, limit, start);
    if requests == [] {
      Product(end - start, limit.perSecond);
    } else {
      var request := requests[0];
      var after := Checked(buckets, request.client, limit, request.now);
      CheckIsSound(buckets, request.client, limit, start, request.now);
      AdmittedIsBounded(after, requests[1..], limit, client, request.now, end);
      OneCheck(buckets, request, limit, client, start);
      LevelGrows(buckets, client, limit, start, request.now);
      TimesAdd(start, request.now, end, limit.perSecond);
    }
  }

  /** Over any interval of any run, at most `burst` requests plus `perSecond` for its length. */
  lemma BurstPlusRate(buckets: Buckets, requests: seq<Request>, limit: RateLimit, client: string, start: real,
                      end: real)
    requires LimitOk(limit) && 600.0 * limit.perSecond >= limit.burst
    requires Sound(buckets, limit, start) && InTime(requests, start, end)
    ensures Admitted(buckets, requests, limit, client) as real <= limit.burst + (end - start) * limit.perSecond
  {
    AdmittedIsBounded(buckets, requests, limit, client, start, end);
    LevelIsBounded(buckets, client, limit, start);
  }

  function After(buckets: Buckets, requests: seq<Request>, limit: RateLimit): Buckets
    decreases |requests|
  {
    if requests == [] then buckets
    else After(Checked(buckets, requests[0].client, limit, requests[0].now), requests[1..], limit)
  }

  lemma CeilingCovers(x: real)
    ensures x <= Ceiling(x) as real
  {
  }

  lemma WaitRefills(level: real, limit: RateLimit, waited: real)
    requires LimitOk(limit) && level < 1.0
    requires DecisionAt(level, limit).retryAfter <= waited
    ensures level + waited * limit.perSecond >= 1.0
  {
    var needed := (1.0 - level) / limit.perSecond;
    CeilingCovers(needed);
    assert needed * limit.perSecond == 1.0 - level;
    Product(waited - needed, limit.perSecond);
    assert (waited - needed) * limit.perSecond == waited * limit.perSecond - needed * limit.perSecond;
  }

  /** The advice is the least number of whole seconds, at least one, in which a token comes in. */
  lemma RetryAfterIsLeast(level: real, limit: RateLimit)
    requires LimitOk(limit)
    ensures DecisionAt(level, limit) == Allowed <==> level >= 1.0
    ensures level < 1.0 ==>
      var retryAfter := DecisionAt(level, limit).retryAfter;
      && retryAfter == retryAfter.Floor as real && retryAfter >= 1.0
      && level + retryAfter * limit.perSecond >= 1.0
      && (retryAfter > 1.0 ==> level + (retryAfter - 1.0) * limit.perSecond < 1.0)
  {
    if level < 1.0 {
      var retryAfter := DecisionAt(level, limit).retryAfter;
      WaitRefills(level, limit, retryAfter);
      if retryAfter > 1.0 {
        LessDoesNotRefill(level, limit, retryAfter - 1.0);
      }
    }
  }

  lemma LessDoesNotRefill(level: real, limit: RateLimit, waited: real)
    requires LimitOk(limit) && level < 1.0 && waited < (1.0 - level) / limit.perSecond
    ensures level + waited * limit.perSecond < 1.0
  {
    var needed := (1.0 - level) / limit.perSecond;
    assert needed * limit.perSecond == 1.0 - level;
    assert (needed - waited) * limit.perSecond > 0.0;
    assert (needed - waited) * limit.perSecond == needed * limit.perSecond - waited * limit.perSecond;
  }

  lemma PruningRaises(buckets: Buckets, client: string, limit: RateLimit, now: real, later: real)
    requires LimitOk(limit) && Sound(buckets, limit, now) && now <= later
    ensures Sound(Pruned(buckets, now), limit, now)
    ensures Level(Pruned(buckets, now), client, limit, later) >= Level(buckets, client, limit, later)
  {
  }

  lemma OthersLeaveTheLevel(buckets: Buckets, other: string, client: string, limit: RateLimit, now: real, later: real)
    requires LimitOk(limit) && Sound(buckets, limit, now) && now <= later && other != client
    ensures Level(Checked(buckets, other, limit, now), client, limit, later) >= Level(buckets, client, limit, later)
  {
    hide LimitOk, Sound, Pruned, Level;
    PruningRaises(buckets, client, limit, now, later);
    LevelOfAnother(Pruned(buckets, now), other, client, Checked(buckets, other, limit, now)[other], limit, later);
  }

  lemma SoundLater(buckets: Buckets, limit: RateLimit, now: real, later: real)
    requires Sound(buckets, limit, now) && now <= later
    ensures Sound(buckets, limit, later)
  {
  }

  /** While only others are checked, a client's level never falls behind refilling, pruned or not. */
  lemma {:induction false} SilenceRefills(buckets: Buckets, requests: seq<Request>, limit: RateLimit, client: string,
                                          start: real, end: real)
    requires LimitOk(limit) && Sound(buckets, limit, start) && InTime(requests, start, end)
    requires forall i | 0 <= i < |requests| :: requests[i].client != client
    ensures Level(Pruned(After(buckets, requests, limit), end), client, limit, end)
      >= Level(buckets, client, limit, end)
    decreases |requests|
  {
    hide Level, Sound, Checked, LimitOk, Pruned;
    TimesPass(requests, start, end);
    if requests == [] {
      SoundLater(buckets, limit, start, end);
      PruningRaises(buckets, client, limit, end, end);
    } else {
      var request := requests[0];
      CheckIsSound(buckets, request.client, limit, start, request.now);
      SoundLater(buckets, limit, start, request.now);
      OthersLeaveTheLevel(buckets, request.client, client, limit, request.now, end);
      SilenceRefills(Checked(buckets, request.client, limit, request.now), requests[1..], limit, client, request.now,
                     end);
    }
  }

  lemma {:induction false} TimesPass(requests: seq<Request>, start: real, end: real)
    requires InTime(requests, start, end)
    ensures start <= end
    ensures requests != [] ==> requests[0].now <= end
  {
    if requests != [] {
      TimesPass(requests[1..], requests[0].now, end);
    }
  }

  /** A limited client that stays silent for `retryAfter` is allowed next, whatever other clients did meanwhile. */
  lemma RetryAfterIsEnough(buckets: Buckets, client: string, limit: RateLimit, before: real, now: real,
                           others: seq<Request>, later: real)
    requires LimitOk(limit) && Sound(buckets, limit, before) && before <= now
    requires forall i | 0 <= i < |others| :: others[i].client != client
    requires InTime(others, now, later)
    requires
      var decision := DecisionAt(Level(Pruned(buckets, now), client, limit, now), limit);
      decision.Limited? && now + decision.retryAfter <= later
    ensures
      var next := After(Checked(buckets, client, limit, now), others, limit);
      DecisionAt(Level(Pruned(next, later), client, limit, later), limit) == Allowed
  {
    hide Sound, Checked, Pruned, Level, After, Ceiling;
    var level := Level(Pruned(buckets, now), client, limit, now);
    var after := Checked(buckets, client, limit, now);
    TimesPass(others, now, later);
    CheckIsSound(buckets, client, limit, before, now);
    SilenceRefills(after, others, limit, client, now, later);
    LimitedLevel(buckets, client, limit, now, later);
    WaitRefills(level, limit, later - now);
  }

  /** What a limited check leaves grows from the level it found. */
  lemma LimitedLevel(buckets: Buckets, client: string, limit: RateLimit, now: real, later: real)
    requires LimitOk(limit) && now <= later && Level(Pruned(buckets, now), client, limit, now) < 1.0
    ensures Level(Checked(buckets, client, limit, now), client, limit, later) ==
      Least(Level(Pruned(buckets, now), client, limit, now) + (later - now) * limit.perSecond, limit.burst)
  {
  }

  // --- When the idle time does not refill the burst ---------------------------------------------

  lemma {:induction false} AfterConcat(buckets: Buckets, one: seq<Request>, other: seq<Request>, limit: RateLimit)
    ensures After(buckets, one + other, limit) == After(After(buckets, one, limit), other, limit)
    decreases |one|
  {
    hide Checked;
    if one == [] {
      assert one + other == other;
    } else {
      assert (one + other)[1..] == one[1..] + other;
      AfterConcat(Checked(buckets, one[0].client, limit, one[0].now), one[1..], other, limit);
    }
  }

  lemma {:induction false} AdmittedConcat(buckets: Buckets, one: seq<Request>, other: seq<Request>, limit: RateLimit,
                                          client: string)
    ensures Admitted(buckets, one + other, limit, client) ==
      Admitted(buckets, one, limit, client) + Admitted(After(buckets, one, limit), other, limit, client)
    decreases |one|
  {
    hide Checked, Level, Pruned;
    if one == [] {
      assert one + other == other;
    } else {
      assert (one + other)[1..] == one[1..] + other;
      AdmittedConcat(Checked(buckets, one[0].client, limit, one[0].now), one[1..], other, limit, client);
    }
  }

  lemma {:induction false} InTimeConcat(one: seq<Request>, other: seq<Request>, start: real, between: real, end: real)
    requires InTime(one, start, between) && InTime(other, between, end)
    ensures InTime(one + other, start, end)
    decreases |one|
  {
    if one == [] {
      assert one + other == other;
      TimesPass(other, between, end);
      if other != [] {
        assert other[0].now >= between;
      }
    } else {
      assert (one + other)[1..] == one[1..] + other;
      InTimeConcat(one[1..], other, one[0].now, between, end);
    }
  }

  lemma {:induction false} RunIsSound(buckets: Buckets, requests: seq<Request>, limit: RateLimit, start: real,
                                      end: real)
    requires LimitOk(limit) && Sound(buckets, limit, start) && InTime(requests, start, end)
    ensures Sound(After(buckets, requests, limit), limit, end)
    decreases |requests|
  {
    hide Sound, Checked, LimitOk;
    if requests == [] {
      SoundLater(buckets, limit, start, end);
    } else {
      var request := requests[0];
      CheckIsSound(buckets, request.client, limit, start, request.now);
      RunIsSound(Checked(buckets, request.client, limit, request.now), requests[1..], limit, request.now, end);
    }
  }

  // A client uses up its tokens: the whole ones at once, and what is left as soon as it has refilled to one.

  function Repeated(client: string, now: real, n: nat): seq<Request> {
    if n == 0 then [] else [Request(client, now)] + Repeated(client, now, n - 1)
  }

  function Whole(limit: RateLimit): nat
    requires LimitOk(limit)
  {
    limit.burst.Floor
  }

  /** The time in which what is left of the burst becomes one token. */
  function Rest(limit: RateLimit): (rest: real)
    requires LimitOk(limit)
    ensures rest >= 0.0
  {
    var left := limit.burst - Whole(limit) as real;
    if left == 0.0 then 0.0 else (1.0 - left) / limit.perSecond
  }

  /** The burst rounded up. */
  function Tokens(limit: RateLimit): nat
    requires LimitOk(limit)
  {
    if limit.burst == Whole(limit) as real then Whole(limit) else Whole(limit) + 1
  }

  function Exhausting(client: string, limit: RateLimit, now: real): seq<Request>
    requires LimitOk(limit)
  {
    Repeated(client, now, Whole(limit))
      + (if limit.burst == Whole(limit) as real then [] else [Request(client, now + Rest(limit))])
  }

  lemma RestRefills(limit: RateLimit)
    requires LimitOk(limit)
    ensures Rest(limit) * limit.perSecond == Tokens(limit) as real - limit.burst
  {
    var left := limit.burst - Whole(limit) as real;
    if left != 0.0 {
      assert ((1.0 - left) / limit.perSecond) * limit.perSecond == 1.0 - left;
    }
  }

  function Alone(client: string, tokens: real, now: real): Buckets {
    map[client := Bucket(tokens, now)]
  }

  lemma LevelAlone(client: string, tokens: real, limit: RateLimit, before: real, waited: real, level: real)
    requires waited >= 0.0 && level == tokens + waited * limit.perSecond && level <= limit.burst
    ensures Level(Alone(client, tokens, before), client, limit, before + waited) == level
    ensures Pruned(Alone(client, tokens, before), before + waited) == Alone(client, tokens, before)
  {
    assert Since(before + waited, before) == waited;
    assert |Alone(client, tokens, before)| == 1;
  }

  /** A lone client that has waited for a token gets it. */
  lemma CheckAlone(client: string, tokens: real, limit: RateLimit, before: real, waited: real, level: real)
    requires waited >= 0.0 && level == tokens + waited * limit.perSecond && 1.0 <= level <= limit.burst
    ensures Checked(Alone(client, tokens, before), client, limit, before + waited)
      == Alone(client, level - 1.0, before + waited)
    ensures Level(Pruned(Alone(client, tokens, before), before + waited), client, limit, before + waited) == level
  {
    LevelAlone(client, tokens, limit, before, waited, level);
    hide Level, Pruned;
    var buckets, left := Alone(client, tokens, before), Bucket(level - 1.0, before + waited);
    assert Checked(buckets, client, limit, before + waited) == buckets[client := left];
    assert buckets[client := left] == map[client := left];
  }

  lemma {:induction false} TakesTokens(client: string, tokens: real, limit: RateLimit, now: real, n: nat)
    requires LimitOk(limit) && n as real <= tokens <= limit.burst
    ensures After(Alone(client, tokens, now), Repeated(client, now, n), limit) == Alone(client, tokens - n as real, now)
    ensures Admitted(Alone(client, tokens, now), Repeated(client, now, n), limit, client) == n
    ensures InTime(Repeated(client, now, n), now, now)
    decreases n
  {
    hide Checked, Level, Pruned;
    if n > 0 {
      CheckAlone(client, tokens, limit, now, 0.0, tokens);
      assert now + 0.0 == now;
      TakesTokens(client, tokens - 1.0, limit, now, n - 1);
      assert Repeated(client, now, n)[1..] == Repeated(client, now, n - 1);
    }
  }

  /** A client without a bucket is served like one with a full bucket. */
  lemma FreshIsFull(buckets: Buckets, client: string, limit: RateLimit, now: real, n: nat)
    requires LimitOk(limit) && Pruned(buckets, now) == map[] && n > 0
    ensures
      var full := Alone(client, limit.burst, now);
      && After(buckets, Repeated(client, now, n), limit) == After(full, Repeated(client, now, n), limit)
      && Admitted(buckets, Repeated(client, now, n), limit, client)
        == Admitted(full, Repeated(client, now, n), limit, client)
  {
    hide Pruned;
    CheckAlone(client, limit.burst, limit, now, 0.0, limit.burst);
    assert now + 0.0 == now;
    var empty: Buckets := map[];
    assert Level(empty, client, limit, now) == limit.burst;
    assert Checked(buckets, client, limit, now) == Alone(client, limit.burst - 1.0, now);
  }

  /** From no bucket, using up the burst admits all its tokens, rounded up, and leaves none. */
  lemma Exhausts(buckets: Buckets, client: string, limit: RateLimit, now: real)
    requires LimitOk(limit) && Pruned(buckets, now) == map[]
    ensures
      var requests := Exhausting(client, limit, now);
      && After(buckets, requests, limit) == Alone(client, 0.0, now + Rest(limit))
      && Admitted(buckets, requests, limit, client) == Tokens(limit)
      && InTime(requests, now, now + Rest(limit))
  {
    hide After, Admitted, InTime, Repeated, Pruned, Alone;
    var whole := Whole(limit);
    var first := Repeated(client, now, whole);
    TakesTokens(client, limit.burst, limit, now, whole);
    FreshIsFull(buckets, client, limit, now, whole);
    var left := limit.burst - whole as real;
    if left == 0.0 {
      assert first + [] == first;
    } else {
      LastToken(client, limit, left, now);
      var last := [Request(client, now + Rest(limit))];
      AfterConcat(buckets, first, last, limit);
      AdmittedConcat(buckets, first, last, limit, client);
      InTimeConcat(first, last, now, now, now + Rest(limit));
    }
  }

  lemma LastToken(client: string, limit: RateLimit, left: real, now: real)
    requires LimitOk(limit) && left == limit.burst - Whole(limit) as real && 0.0 < left
    ensures
      var last := [Request(client, now + Rest(limit))];
      && After(Alone(client, left, now), last, limit) == Alone(client, 0.0, now + Rest(limit))
      && Admitted(Alone(client, left, now), last, limit, client) == 1
      && InTime(last, now, now + Rest(limit))
  {
    RestRefills(limit);
    assert Tokens(limit) as real - limit.burst == 1.0 - left;
    hide Checked, Level, Pruned, Rest, Tokens, Whole;
    CheckAlone(client, left, limit, now, Rest(limit), 1.0);
    OneRequest(Alone(client, left, now), client, limit, now, now + Rest(limit));
  }

  lemma OneRequest(buckets: Buckets, client: string, limit: RateLimit, start: real, now: real)
    requires start <= now
    ensures After(buckets, [Request(client, now)], limit) == Checked(buckets, client, limit, now)
    ensures Admitted(buckets, [Request(client, now)], limit, client)
         == if Level(Pruned(buckets, now), client, limit, now) >= 1.0 then 1 else 0
    ensures InTime([Request(client, now)], start, now)
  {
    hide Checked, Level, Pruned;
    assert [Request(client, now)][1..] == [];
  }

  // Enough other clients come by for idle buckets to be pruned.

  function Crowd(n: nat, now: real): seq<Request> {
    if n == 0 then [] else Crowd(n - 1, now) + [Request(seq(n, _ => 'x'), now)]
  }

  ghost predicate SeenAt(buckets: Buckets, now: real) {
    forall client | client in buckets :: buckets[client].refreshed == now
  }

  lemma {:induction false} CrowdComes(limit: RateLimit, now: real, n: nat)
    requires LimitOk(limit)
    ensures
      var after := After(Alone("", 0.0, now), Crowd(n, now), limit);
      && SeenAt(after, now) && |after| == n + 1 && "" in after && after[""] == Bucket(0.0, now)
      && (forall client | client in after :: |client| <= n)
      && Admitted(Alone("", 0.0, now), Crowd(n, now), limit, "") == 0
    ensures InTime(Crowd(n, now), now, now)
  {
    hide Checked, Level, Pruned;
    if n > 0 {
      CrowdComes(limit, now, n - 1);
      var alone := Alone("", 0.0, now);
      var before := After(alone, Crowd(n - 1, now), limit);
      var request := Request(seq(n, _ => 'x'), now);
      AfterConcat(alone, Crowd(n - 1, now), [request], limit);
      AdmittedConcat(alone, Crowd(n - 1, now), [request], limit, "");
      InTimeConcat(Crowd(n - 1, now), [request], now, now, now);
      OneMoreComes(before, request.client, limit, now);
      assert request.client != "";
    }
  }

  lemma OneMoreComes(buckets: Buckets, client: string, limit: RateLimit, now: real)
    requires SeenAt(buckets, now) && client !in buckets
    ensures
      var after := Checked(buckets, client, limit, now);
      && SeenAt(after, now) && after.Keys == buckets.Keys + {client} && |after| == |buckets| + 1
      && forall other | other in buckets :: after[other] == buckets[other]
  {
    assert Pruned(buckets, now) == buckets;
    var after := Checked(buckets, client, limit, now);
    assert after.Keys == buckets.Keys + {client};
    assert |after| == |after.Keys| && |buckets| == |buckets.Keys|;
  }

  /** A run from an empty limiter that leaves a client without tokens, among so many others that it is forgotten when
      nobody comes by for the idle time. */
  function Forgetting(limit: RateLimit): seq<Request>
    requires LimitOk(limit)
  {
    Exhausting("", limit, 0.0) + Crowd(PRUNE_ABOVE, Rest(limit))
  }

  lemma NothingPruned(now: real)
    ensures Pruned(map[], now) == map[]
  {
  }

  lemma NothingInTime(start: real, end: real)
    requires start <= end
    ensures InTime([], start, end)
  {
  }

  lemma ForgottenWithoutTokens(limit: RateLimit)
    requires LimitOk(limit)
    ensures
      var after := After(map[], Forgetting(limit), limit);
      && Pruned(after, Rest(limit) + IDLE) == map[]
      && "" in after && after[""] == Bucket(0.0, Rest(limit))
      && Admitted(map[], Forgetting(limit), limit, "") == Tokens(limit)
      && InTime(Forgetting(limit), 0.0, Rest(limit) + IDLE)
  {
    hide Admitted, Crowd, Exhausting, After, InTime, Pruned, Rest, Tokens, Whole, Checked, Level;
    var rest := Rest(limit);
    var empty: Buckets := map[];
    NothingPruned(0.0);
    NothingInTime(rest, rest + IDLE);
    Exhausts(empty, "", limit, 0.0);
    CrowdComes(limit, rest, PRUNE_ABOVE);
    var first, crowd := Exhausting("", limit, 0.0), Crowd(PRUNE_ABOVE, rest);
    AfterConcat(empty, first, crowd, limit);
    AdmittedConcat(empty, first, crowd, limit, "");
    InTimeConcat(crowd, [], rest, rest, rest + IDLE);
    assert crowd + [] == crowd;
    InTimeConcat(first, crowd, 0.0, rest, rest + IDLE);
    AllIdle(After(empty, Forgetting(limit), limit), rest);
  }

  lemma AllIdle(buckets: Buckets, seen: real)
    requires SeenAt(buckets, seen) && |buckets| > PRUNE_ABOVE
    ensures Pruned(buckets, seen + IDLE) == map[]
  {
  }

  /** Pruning never changes the tokens a client finds, in any run from an empty limiter, exactly when the idle time
      refills the burst. */
  lemma PruningIsInvisibleIff(limit: RateLimit)
    requires LimitOk(limit)
    ensures 600.0 * limit.perSecond >= limit.burst <==>
      forall requests: seq<Request>, client: string, start: real, now: real | InTime(requests, start, now) ::
        var buckets := After(map[], requests, limit);
        Level(Pruned(buckets, now), client, limit, now) == Level(buckets, client, limit, now)
  {
    hide InTime, After, Forgetting, Level, Pruned;
    if 600.0 * limit.perSecond >= limit.burst {
      forall requests: seq<Request>, client: string, start: real, now: real | InTime(requests, start, now)
        ensures
          var buckets := After(map[], requests, limit);
          Level(Pruned(buckets, now), client, limit, now) == Level(buckets, client, limit, now)
      {
        RunIsSound(map[], requests, limit, start, now);
        PruningIsInvisible(After(map[], requests, limit), client, limit, now);
      }
    } else {
      ForgottenWithoutTokens(limit);
      FullAgain(limit);
      assert InTime(Forgetting(limit), 0.0, Rest(limit) + IDLE);
    }
  }

  lemma FullAgain(limit: RateLimit)
    requires LimitOk(limit) && 600.0 * limit.perSecond < limit.burst
    ensures
      var after := After(map[], Forgetting(limit), limit);
      var now := Rest(limit) + IDLE;
      && Level(after, "", limit, now) == IDLE * limit.perSecond
      && Level(Pruned(after, now), "", limit, now) == limit.burst
  {
    hide Forgetting, Pruned;
    ForgottenWithoutTokens(limit);
    assert (Rest(limit) + IDLE - Rest(limit)) * limit.perSecond == IDLE * limit.perSecond;
  }

  /** A run from an empty limiter in which a client gets two bursts through in the idle time and the time it takes to
      use them up: more than a burst plus the rate, when the idle time does not refill the burst. */
  lemma TwoBursts(limit: RateLimit)
    requires LimitOk(limit)
    ensures
      var requests := Forgetting(limit) + Exhausting("", limit, Rest(limit) + 600.0);
      var end := Rest(limit) + 600.0 + Rest(limit);
      && InTime(requests, 0.0, end)
      && Admitted(map[], requests, limit, "") == 2 * Tokens(limit)
      && (600.0 * limit.perSecond < limit.burst ==>
            Admitted(map[], requests, limit, "") as real > limit.burst + (end - 0.0) * limit.perSecond)
  {
    hide InTime, After, Admitted, Forgetting, Exhausting, Pruned, Rest, Tokens;
    var rest := Rest(limit);
    var empty: Buckets := map[];
    var second := Exhausting("", limit, rest + IDLE);
    ForgottenWithoutTokens(limit);
    Exhausts(After(empty, Forgetting(limit), limit), "", limit, rest + IDLE);
    AdmittedConcat(empty, Forgetting(limit), second, limit, "");
    InTimeConcat(Forgetting(limit), second, 0.0, rest + IDLE, rest + IDLE + rest);
    RestRefills(limit);
    assert (rest + IDLE + rest - 0.0) * limit.perSecond
        == rest * limit.perSecond + IDLE * limit.perSecond + rest * limit.perSecond;
  }

  /** After a prefix from an empty limiter, the requests between `start` and `end` keep the bound. */
  ghost predicate KeepsBound(limit: RateLimit, prefix: seq<Request>, requests: seq<Request>, client: string,
                             first: real, start: real, end: real) {
    InTime(prefix, first, start) && InTime(requests, start, end) ==>
      Admitted(After(map[], prefix, limit), requests, limit, client) as real
        <= limit.burst + (end - start) * limit.perSecond
  }

  /** Over every interval of every run from an empty limiter a client gets at most a burst plus the rate through,
      exactly when the idle time refills the burst. */
  lemma BurstPlusRateIff(limit: RateLimit)
    requires LimitOk(limit)
    ensures 600.0 * limit.perSecond >= limit.burst <==>
      forall prefix: seq<Request>, requests: seq<Request>, client: string, first: real, start: real, end: real ::
        KeepsBound(limit, prefix, requests, client, first, start, end)
  {
    hide InTime, After, Admitted, Forgetting, Exhausting;
    if 600.0 * limit.perSecond >= limit.burst {
      forall prefix: seq<Request>, requests: seq<Request>, client: string, first: real, start: real, end: real
        ensures KeepsBound(limit, prefix, requests, client, first, start, end)
      {
        if InTime(prefix, first, start) && InTime(requests, start, end) {
          RunIsSound(map[], prefix, limit, first, start);
          BurstPlusRate(After(map[], prefix, limit), requests, limit, client, start, end);
        }
      }
    } else {
      TwoBursts(limit);
      var prefix: seq<Request>, requests := [], Forgetting(limit) + Exhausting("", limit, Rest(limit) + IDLE);
      NothingBefore(prefix, limit);
      assert !KeepsBound(limit, prefix, requests, "", 0.0, 0.0, Rest(limit) + IDLE + Rest(limit));
    }
  }

  lemma NothingBefore(requests: seq<Request>, limit: RateLimit)
    requires requests == []
    ensures After(map[], requests, limit) == map[] && InTime(requests, 0.0, 0.0)
  {
  }
}
