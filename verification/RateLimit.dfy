/** The token bucket with map reset: internal/tracker/ratelimit.go. Times are in seconds. */
module RateLimit {
  datatype Limits = Limits(rate: real, burst: real, maxIPs: nat)

  datatype Bucket = Bucket(tokens: real, lastSeen: real)

  type Buckets = map<string, Bucket>

  /** One call of Allow. The clock is read when a bucket is made and again for the refill. */
  datatype Call = Call(ip: string, made: real, now: real)

  /** Kept apart so that proofs can treat products as wholes. */
  function Times(a: real, b: real): real {
    a * b
  }

  predicate Sane(l: Limits) {
    l.rate >= 0.0 && l.burst >= 0.0 && l.maxIPs >= 1
  }

  // ---- One call ----

  predicate Full(l: Limits, buckets: Buckets) {
    |buckets| >= l.maxIPs
  }

  function Room(l: Limits, buckets: Buckets): Buckets {
    if Full(l, buckets) then map[] else buckets
  }

  function BucketFor(l: Limits, buckets: Buckets, call: Call): Bucket {
    if call.ip in Room(l, buckets) then Room(l, buckets)[call.ip] else Bucket(l.burst, call.made)
  }

  function Refilled(l: Limits, b: Bucket, now: real): real {
    var tokens := b.tokens + Times(now - b.lastSeen, l.rate);
    if tokens > l.burst then l.burst else tokens
  }

  predicate Grants(l: Limits, buckets: Buckets, call: Call) {
    Refilled(l, BucketFor(l, buckets, call), call.now) >= 1.0
  }

  function Next(l: Limits, buckets: Buckets, call: Call): Buckets {
    var tokens := Refilled(l, BucketFor(l, buckets, call), call.now);
    Room(l, buckets)[call.ip := Bucket(if tokens >= 1.0 then tokens - 1.0 else tokens, call.now)]
  }

  class RateLimiter {
    var buckets: Buckets
    const limits: Limits

    constructor (limits: Limits)
      ensures this.limits == limits && buckets == map[]
    {
      this.limits := limits;
      buckets := map[];
    }

    method Allow(call: Call) returns (allowed: bool)
      modifies this
      ensures buckets == Next(limits, old(buckets), call)
      ensures allowed == Grants(limits, old(buckets), call)
    {
      if |buckets| >= limits.maxIPs {
        buckets := map[];
      }
      if call.ip !in buckets {
        buckets := buckets[call.ip := Bucket(limits.burst, call.made)];
      }
      var b := buckets[call.ip];
      var elapsed := call.now - b.lastSeen;
      b := b.(lastSeen := call.now);
      b := b.(tokens := b.tokens + elapsed * limits.rate);
      if b.tokens > limits.burst {
        b := b.(tokens := limits.burst);
      }
      if b.tokens >= 1.0 {
        b := b.(tokens := b.tokens - 1.0);
        buckets := buckets[call.ip := b];
        return true;
      }
      buckets := buckets[call.ip := b];
      allowed := false;
    }
  }

  // ---- Runs from an empty limiter ----

  function Init(calls: seq<Call>): seq<Call>
    requires calls != []
  {
    calls[..|calls| - 1]
  }

  function Final(calls: seq<Call>): Call
    requires calls != []
  {
    calls[|calls| - 1]
  }

  function After(l: Limits, calls: seq<Call>): Buckets {
    if calls == [] then map[] else Next(l, After(l, Init(calls)), Final(calls))
  }

  /** How often the map was thrown away. */
  function Resets(l: Limits, calls: seq<Call>): nat {
    if calls == [] then 0
    else Resets(l, Init(calls)) + if Full(l, After(l, Init(calls))) then 1 else 0
  }

  /** How often `ip` was allowed. */
  function Granted(l: Limits, calls: seq<Call>, ip: string): nat {
    if calls == [] then 0
    else Granted(l, Init(calls), ip)
         + if Final(calls).ip == ip && Grants(l, After(l, Init(calls)), Final(calls)) then 1 else 0
  }

  /** Time does not run backwards. */
  ghost predicate Monotone(start: real, calls: seq<Call>) {
    && (forall i :: 0 <= i < |calls| ==> start <= calls[i].made <= calls[i].now)
    && forall i, j :: 0 <= i < j < |calls| ==> calls[i].now <= calls[j].made
  }

  function Clock(start: real, calls: seq<Call>): real {
    if calls == [] then start else Final(calls).now
  }

  // ---- Invariants ----

  ghost predicate BucketOk(l: Limits, b: Bucket, now: real) {
    0.0 <= b.tokens <= l.burst && b.lastSeen <= now
  }

  ghost predicate BucketsOk(l: Limits, buckets: Buckets, now: real) {
    && |buckets| <= l.maxIPs
    && forall ip :: ip in buckets ==> BucketOk(l, buckets[ip], now)
  }

  lemma NonNegativeProduct(a: real, b: real)
    requires a >= 0.0 && b >= 0.0
    ensures Times(a, b) >= 0.0
  {
  }

  lemma RefillOk(l: Limits, b: Bucket, now: real)
    requires Sane(l) && 0.0 <= b.tokens <= l.burst && b.lastSeen <= now
    ensures 0.0 <= Refilled(l, b, now) <= l.burst
    ensures Refilled(l, b, now) <= b.tokens + Times(now - b.lastSeen, l.rate)
  {
    NonNegativeProduct(now - b.lastSeen, l.rate);
  }

  lemma NextOk(l: Limits, buckets: Buckets, call: Call, before: real)
    requires Sane(l) && BucketsOk(l, buckets, before) && before <= call.made <= call.now
    ensures BucketsOk(l, Next(l, buckets, call), call.now)
    ensures |Next(l, buckets, call)| >= 1
    ensures |Next(l, buckets, call)| <= |Room(l, buckets)| + 1
  {
    var b := BucketFor(l, buckets, call);
    RefillOk(l, b, call.now);
    var room := Room(l, buckets);
    assert Next(l, buckets, call).Keys == room.Keys + {call.ip};
  }

  /** The bound for one address: what it was allowed and what is left in its bucket is paid for by refills and fresh buckets. */
  ghost predicate Paid(l: Limits, buckets: Buckets, resets: nat, granted: nat, ip: string, start: real, now: real) {
    if ip in buckets
    then granted as real + buckets[ip].tokens
         <= Times((resets + 1) as real, l.burst) + Times(buckets[ip].lastSeen - start, l.rate)
    else granted as real <= Times(resets as real, l.burst) + Times(now - start, l.rate)
  }

  lemma Distribute(rate: real, a: real, b: real, c: real)
    ensures Times(c - a, rate) == Times(b - a, rate) + Times(c - b, rate)
  {
  }

  lemma Later(rate: real, start: real, a: real, b: real)
    requires rate >= 0.0 && a <= b
    ensures Times(a - start, rate) <= Times(b - start, rate)
  {
    Distribute(rate, start, a, b);
    NonNegativeProduct(b - a, rate);
  }

  lemma OneMoreBurst(burst: real, n: nat)
    ensures Times((n + 1) as real, burst) == Times(n as real, burst) + burst
  {
    assert (n + 1) as real == n as real + 1.0;
  }

  /** The map may be thrown away, at the price of one more burst. */
  lemma PaidAfterRoom(l: Limits, buckets: Buckets, resets: nat, granted: nat, ip: string, start: real, before: real, now: real)
    requires Sane(l) && BucketsOk(l, buckets, before) && before <= now
    requires Paid(l, buckets, resets, granted, ip, start, before)
    ensures Paid(l, Room(l, buckets), resets + (if Full(l, buckets) then 1 else 0), granted, ip, start, now)
  {
    if ip in buckets {
      assert BucketOk(l, buckets[ip], before);
      if Full(l, buckets) {
        Later(l.rate, start, buckets[ip].lastSeen, now);
      }
    } else {
      OneMoreBurst(l.burst, resets);
      Later(l.rate, start, before, now);
    }
  }

  lemma PaidAfterCall(l: Limits, buckets: Buckets, call: Call, resets: nat, granted: nat, start: real, before: real)
    requires Sane(l) && BucketsOk(l, buckets, before) && before <= call.made <= call.now
    requires Paid(l, Room(l, buckets), resets, granted, call.ip, start, call.made)
    ensures Paid(l, Next(l, buckets, call), resets, granted + (if Grants(l, buckets, call) then 1 else 0), call.ip, start, call.now)
  {
    var b := BucketFor(l, buckets, call);
    OneMoreBurst(l.burst, resets);
    RefillOk(l, b, call.now);
    Distribute(l.rate, start, b.lastSeen, call.now);
  }

  lemma PaidByOther(l: Limits, buckets: Buckets, call: Call, resets: nat, granted: nat, ip: string, start: real)
    requires Sane(l) && call.made <= call.now && ip != call.ip
    requires Paid(l, Room(l, buckets), resets, granted, ip, start, call.made)
    ensures Paid(l, Next(l, buckets, call), resets, granted, ip, start, call.now)
  {
    Later(l.rate, start, call.made, call.now);
  }

  lemma MonotonePrefix(start: real, calls: seq<Call>)
    requires calls != [] && Monotone(start, calls)
    ensures Monotone(start, Init(calls)) && Clock(start, Init(calls)) <= Final(calls).made <= Final(calls).now
  {
  }

  lemma {:induction false} RunOk(l: Limits, calls: seq<Call>, start: real)
    requires Sane(l) && Monotone(start, calls)
    ensures BucketsOk(l, After(l, calls), Clock(start, calls))
    ensures calls != [] ==> |After(l, calls)| >= 1
  {
    if calls != [] {
      MonotonePrefix(start, calls);
      RunOk(l, Init(calls), start);
      NextOk(l, After(l, Init(calls)), Final(calls), Clock(start, Init(calls)));
    }
  }

  lemma {:induction false} RunInvariant(l: Limits, calls: seq<Call>, start: real, ip: string)
    requires Sane(l) && Monotone(start, calls)
    ensures BucketsOk(l, After(l, calls), Clock(start, calls))
    ensures Paid(l, After(l, calls), Resets(l, calls), Granted(l, calls, ip), ip, start, Clock(start, calls))
  {
    RunOk(l, calls, start);
    if calls != [] {
      MonotonePrefix(start, calls);
      RunInvariant(l, Init(calls), start, ip);
      PaidStep(l, After(l, Init(calls)), Final(calls), Resets(l, Init(calls)), Granted(l, Init(calls), ip), ip, start,
               Clock(start, Init(calls)));
    }
  }

  lemma PaidStep(l: Limits, buckets: Buckets, call: Call, resets: nat, granted: nat, ip: string, start: real, before: real)
    requires Sane(l) && BucketsOk(l, buckets, before) && before <= call.made <= call.now
    requires Paid(l, buckets, resets, granted, ip, start, before)
    ensures Paid(l, Next(l, buckets, call), resets + (if Full(l, buckets) then 1 else 0),
                 granted + (if call.ip == ip && Grants(l, buckets, call) then 1 else 0), ip, start, call.now)
  {
    var resets' := resets + if Full(l, buckets) then 1 else 0;
    PaidAfterRoom(l, buckets, resets, granted, ip, start, before, call.made);
    if ip == call.ip {
      PaidAfterCall(l, buckets, call, resets', granted, start, before);
    } else {
      PaidByOther(l, buckets, call, resets', granted, ip, start);
    }
  }

  lemma OneMoreReset(resets: nat, maxIPs: nat, entries: nat, calls: nat)
    requires resets * maxIPs + entries <= calls && entries >= maxIPs
    ensures (resets + 1) * maxIPs + 1 <= calls + 1
  {
    assert (resets + 1) * maxIPs == resets * maxIPs + maxIPs;
  }

  /** Every reset throws away a full map, and every entry needs a call of its own. */
  lemma {:induction false} ResetsPaidByCalls(l: Limits, calls: seq<Call>, start: real)
    requires Sane(l) && Monotone(start, calls)
    ensures Resets(l, calls) * l.maxIPs + |After(l, calls)| <= |calls|
  {
    if calls != [] {
      var buckets, resets := After(l, Init(calls)), Resets(l, Init(calls));
      ResetsPaidByCalls(l, Init(calls), start);
      RunOk(l, Init(calls), start);
      MonotonePrefix(start, calls);
      NextOk(l, buckets, Final(calls), Clock(start, Init(calls)));
      if Full(l, buckets) {
        OneMoreReset(resets, l.maxIPs, |buckets|, |Init(calls)|);
      }
    }
  }

  // ---- Main results ----

  /** In any run over time T one address is allowed at most burst * (1 + resets) + rate * T times. */
  lemma RateBound(l: Limits, calls: seq<Call>, start: real, ip: string)
    requires Sane(l) && Monotone(start, calls)
    ensures Granted(l, calls, ip) as real
            <= Times((Resets(l, calls) + 1) as real, l.burst) + Times(Clock(start, calls) - start, l.rate)
  {
    var buckets, now := After(l, calls), Clock(start, calls);
    RunInvariant(l, calls, start, ip);
    if ip in buckets {
      assert BucketOk(l, buckets[ip], now);
      Later(l.rate, start, buckets[ip].lastSeen, now);
    } else {
      OneMoreBurst(l.burst, Resets(l, calls));
    }
  }

  /** Fewer resets than calls divided by the map's size; the map and every bucket stay within their limits. */
  lemma MemoryBound(l: Limits, calls: seq<Call>, start: real)
    requires Sane(l) && Monotone(start, calls)
    ensures calls != [] ==> Resets(l, calls) * l.maxIPs < |calls|
    ensures |After(l, calls)| <= l.maxIPs
    ensures forall ip :: ip in After(l, calls) ==> 0.0 <= After(l, calls)[ip].tokens <= l.burst
  {
    RunOk(l, calls, start);
    ResetsPaidByCalls(l, calls, start);
    assert forall ip :: ip in After(l, calls) ==> BucketOk(l, After(l, calls)[ip], Clock(start, calls));
  }

  /** Since the address was last seen, time for a whole token has passed. */
  predicate Patient(l: Limits, buckets: Buckets, call: Call) {
    call.ip in buckets ==> Times(call.now - buckets[call.ip].lastSeen, l.rate) >= 1.0
  }

  lemma PatientGrants(l: Limits, buckets: Buckets, call: Call, before: real)
    requires Sane(l) && l.burst >= 1.0 && BucketsOk(l, buckets, before) && before <= call.made <= call.now
    requires Patient(l, buckets, call)
    ensures Grants(l, buckets, call)
  {
    NonNegativeProduct(call.now - call.made, l.rate);
    if call.ip in buckets {
      assert BucketOk(l, buckets[call.ip], before);
    }
  }

  /** The last call is allowed if its address is unknown to the limiter, or waited long enough for a token. */
  lemma PatientIsAllowed(l: Limits, calls: seq<Call>, start: real)
    requires Sane(l) && l.burst >= 1.0 && calls != [] && Monotone(start, calls)
    requires Patient(l, After(l, Init(calls)), Final(calls))
    ensures Granted(l, calls, Final(calls).ip) == Granted(l, Init(calls), Final(calls).ip) + 1
  {
    var buckets, before := After(l, Init(calls)), Clock(start, Init(calls));
    PatientPrefix(l, calls, start, buckets, before);
    PatientGrants(l, buckets, Final(calls), before);
    GrantCounts(l, calls);
  }

  lemma PatientPrefix(l: Limits, calls: seq<Call>, start: real, buckets: Buckets, before: real)
    requires Sane(l) && calls != [] && Monotone(start, calls)
    requires buckets == After(l, Init(calls)) && before == Clock(start, Init(calls))
    ensures BucketsOk(l, buckets, before) && before <= Final(calls).made <= Final(calls).now
  {
    MonotonePrefix(start, calls);
    RunOk(l, Init(calls), start);
  }

  lemma GrantCounts(l: Limits, calls: seq<Call>)
    requires calls != [] && Grants(l, After(l, Init(calls)), Final(calls))
    ensures Granted(l, calls, Final(calls).ip) == Granted(l, Init(calls), Final(calls).ip) + 1
  {
  }

  // ---- What is left in a bucket, exactly ----

  /** The call finds no bucket, or one that the refill fills up. */
  predicate FillsUp(l: Limits, buckets: Buckets, call: Call) {
    call.ip !in Room(l, buckets) || Refilled(l, BucketFor(l, buckets, call), call.now) >= l.burst
  }

  /** When the bucket of `ip` was last full, and how many calls of `ip` were allowed from that one on. */
  function LastFull(l: Limits, calls: seq<Call>, ip: string): (real, nat) {
    if calls == [] then (0.0, 0)
    else
      var (at, since) := LastFull(l, Init(calls), ip);
      var granted := if Grants(l, After(l, Init(calls)), Final(calls)) then 1 else 0;
      if Final(calls).ip != ip then (at, since)
      else if FillsUp(l, After(l, Init(calls)), Final(calls)) then (Final(calls).now, granted)
      else (at, since + granted)
  }

  /** A full bucket, plus the refill since it was full, minus the calls allowed since then. */
  function Level(l: Limits, calls: seq<Call>, ip: string, now: real): real {
    LevelFrom(l, LastFull(l, calls, ip), now)
  }

  function LevelFrom(l: Limits, full: (real, nat), now: real): real {
    l.burst + Times(now - full.0, l.rate) - full.1 as real
  }

  /** One call: the level it finds, and the one it leaves. */
  lemma LevelStep(l: Limits, buckets: Buckets, call: Call, before: real, full: (real, nat), granted: nat)
    requires Sane(l) && BucketsOk(l, buckets, before) && before <= call.made <= call.now
    requires call.ip in buckets ==> buckets[call.ip].tokens == LevelFrom(l, full, buckets[call.ip].lastSeen)
    requires granted == if Grants(l, buckets, call) then 1 else 0
    ensures FillsUp(l, buckets, call) ==> Next(l, buckets, call)[call.ip].tokens == LevelFrom(l, (call.now, granted), call.now)
    ensures !FillsUp(l, buckets, call) ==>
              && Refilled(l, BucketFor(l, buckets, call), call.now) == LevelFrom(l, full, call.now)
              && Next(l, buckets, call)[call.ip].tokens == LevelFrom(l, (full.0, full.1 + granted), call.now)
  {
    var b := BucketFor(l, buckets, call);
    if FillsUp(l, buckets, call) {
      NonNegativeProduct(call.now - call.made, l.rate);
      assert Times(call.now - call.now, l.rate) == 0.0;
    } else {
      Distribute(l.rate, full.0, b.lastSeen, call.now);
    }
  }

  lemma LevelAfterCall(l: Limits, calls: seq<Call>, start: real)
    requires Sane(l) && calls != [] && Monotone(start, calls)
    requires var ip, before := Final(calls).ip, After(l, Init(calls));
             ip in before ==> before[ip].tokens == Level(l, Init(calls), ip, before[ip].lastSeen)
    ensures var ip, after := Final(calls).ip, After(l, calls);
            after[ip].tokens == Level(l, calls, ip, after[ip].lastSeen)
  {
    var call, before := Final(calls), After(l, Init(calls));
    MonotonePrefix(start, calls);
    RunOk(l, Init(calls), start);
    LevelStep(l, before, call, Clock(start, Init(calls)), LastFull(l, Init(calls), call.ip), if Grants(l, before, call) then 1 else 0);
  }

  /** The tokens in a bucket are exactly that, whatever calls of this and other addresses came in between. */
  lemma {:induction false} TokensAreLevel(l: Limits, calls: seq<Call>, start: real, ip: string)
    requires Sane(l) && Monotone(start, calls) && ip in After(l, calls)
    ensures After(l, calls)[ip].tokens == Level(l, calls, ip, After(l, calls)[ip].lastSeen)
  {
    var call, before := Final(calls), After(l, Init(calls));
    MonotonePrefix(start, calls);
    if ip in before {
      TokensAreLevel(l, Init(calls), start, ip);
    }
    if ip == call.ip {
      LevelAfterCall(l, calls, start);
    } else {
      assert ip in Room(l, before);
    }
  }

  lemma RefusedStep(l: Limits, buckets: Buckets, call: Call, before: real, full: (real, nat))
    requires Sane(l) && l.burst >= 1.0 && BucketsOk(l, buckets, before) && before <= call.made <= call.now
    requires call.ip in buckets && !Full(l, buckets) && buckets[call.ip].tokens == LevelFrom(l, full, buckets[call.ip].lastSeen)
    ensures Grants(l, buckets, call) <==> LevelFrom(l, full, call.now) >= 1.0
    ensures !Grants(l, buckets, call) ==> !FillsUp(l, buckets, call)
  {
    Distribute(l.rate, full.0, buckets[call.ip].lastSeen, call.now);
  }

  /** A call of a known address, with no reset, is refused exactly when the level it finds is below one; refusals leave the level alone. */
  lemma RefusedIff(l: Limits, calls: seq<Call>, start: real)
    requires Sane(l) && l.burst >= 1.0 && calls != [] && Monotone(start, calls)
    requires Final(calls).ip in After(l, Init(calls)) && !Full(l, After(l, Init(calls)))
    ensures Granted(l, calls, Final(calls).ip) == Granted(l, Init(calls), Final(calls).ip)
            <==> Level(l, Init(calls), Final(calls).ip, Final(calls).now) < 1.0
    ensures Granted(l, calls, Final(calls).ip) == Granted(l, Init(calls), Final(calls).ip)
            ==> LastFull(l, calls, Final(calls).ip) == LastFull(l, Init(calls), Final(calls).ip)
  {
    var call, buckets := Final(calls), After(l, Init(calls));
    var before, full := Clock(start, Init(calls)), LastFull(l, Init(calls), call.ip);
    PatientPrefix(l, calls, start, buckets, before);
    MonotonePrefix(start, calls);
    TokensAreLevel(l, Init(calls), start, call.ip);
    RefusedStep(l, buckets, call, before, full);
    OneMoreCall(l, calls, buckets, call, full);
  }

  lemma OneMoreCall(l: Limits, calls: seq<Call>, buckets: Buckets, call: Call, full: (real, nat))
    requires calls != [] && buckets == After(l, Init(calls)) && call == Final(calls) && full == LastFull(l, Init(calls), call.ip)
    ensures Granted(l, calls, call.ip) == Granted(l, Init(calls), call.ip) + if Grants(l, buckets, call) then 1 else 0
    ensures !Grants(l, buckets, call) && !FillsUp(l, buckets, call) ==> LastFull(l, calls, call.ip) == full
  {
  }

  // ---- A fresh burst ----

  function CallsOf(calls: seq<Call>, ip: string): nat {
    if calls == [] then 0 else CallsOf(Init(calls), ip) + if Final(calls).ip == ip then 1 else 0
  }

  /** No map is thrown away by the last `n` calls. */
  ghost predicate Steady(l: Limits, calls: seq<Call>, n: nat)
    requires n <= |calls|
  {
    forall k :: |calls| - n <= k < |calls| ==> !Full(l, After(l, calls[..k]))
  }

  lemma InitOfPrefix(calls: seq<Call>, k: nat)
    requires calls != [] && k < |calls|
    ensures Init(calls)[..k] == calls[..k]
  {
  }

  lemma SteadyInit(l: Limits, calls: seq<Call>, n: nat)
    requires 0 < n <= |calls| && Steady(l, calls, n)
    ensures Steady(l, Init(calls), n - 1) && !Full(l, After(l, Init(calls)))
  {
    assert calls[..|calls| - 1] == Init(calls);
    forall k | |calls| - n <= k < |calls| - 1
      ensures !Full(l, After(l, Init(calls)[..k]))
    {
      InitOfPrefix(calls, k);
    }
  }

  /**
   * An address the limiter does not know is allowed on each of its next calls as long as there are no more of
   * them than the burst, however close together they come and whoever calls in between.
   */
  lemma {:induction false} BurstIsAllowed(l: Limits, calls: seq<Call>, start: real, ip: string, n: nat)
    requires Sane(l) && Monotone(start, calls) && n <= |calls| && Steady(l, calls, n)
    requires ip !in After(l, calls[..|calls| - n])
    requires CallsOf(calls, ip) as real <= l.burst + CallsOf(calls[..|calls| - n], ip) as real
    ensures CallsOf(calls, ip) >= CallsOf(calls[..|calls| - n], ip)
    ensures Granted(l, calls, ip) - Granted(l, calls[..|calls| - n], ip) == CallsOf(calls, ip) - CallsOf(calls[..|calls| - n], ip)
    ensures ip in After(l, calls) ==>
              After(l, calls)[ip].tokens >= l.burst - (CallsOf(calls, ip) - CallsOf(calls[..|calls| - n], ip)) as real
    ensures ip !in After(l, calls) ==> CallsOf(calls, ip) == CallsOf(calls[..|calls| - n], ip)
    decreases n
  {
    if n == 0 {
      assert calls[..|calls|] == calls;
    } else {
      var call, before := Final(calls), After(l, Init(calls));
      MonotonePrefix(start, calls);
      SteadyInit(l, calls, n);
      InitOfPrefix(calls, |calls| - n);
      BurstIsAllowed(l, Init(calls), start, ip, n - 1);
      RunOk(l, Init(calls), start);
      if call.ip == ip {
        BurstCall(l, before, call, Clock(start, Init(calls)), (CallsOf(Init(calls), ip) - CallsOf(calls[..|calls| - n], ip)) as nat);
      }
    }
  }

  /** One call, with `used` tokens gone at most. */
  lemma BurstCall(l: Limits, buckets: Buckets, call: Call, before: real, used: nat)
    requires Sane(l) && BucketsOk(l, buckets, before) && before <= call.made <= call.now && !Full(l, buckets)
    requires used as real + 1.0 <= l.burst
    requires call.ip in buckets ==> buckets[call.ip].tokens >= l.burst - used as real
    ensures Grants(l, buckets, call)
    ensures Next(l, buckets, call)[call.ip].tokens >= l.burst - (used + 1) as real
  {
    NonNegativeProduct(call.now - call.made, l.rate);
    if call.ip in buckets {
      assert BucketOk(l, buckets[call.ip], before);
      NonNegativeProduct(call.now - buckets[call.ip].lastSeen, l.rate);
    }
  }
}
