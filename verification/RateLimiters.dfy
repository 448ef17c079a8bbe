/** The three in-process limiters of the server, each shown to be the fixed-window limit. */
module RateLimiters {
  import opened Prelude
  import opened OrderedMaps
  import opened FixedWindow

  datatype Counter = Counter(count: nat, resetAt: int)

  type Counters = map<string, Counter>

  // ----- Unauthenticated requests: counts every request, rejected ones too -----

  function RecordUnauthHit(c: Counters, r: Request, max: nat, windowMs: nat): (Counters, Decision) {
    if r.key !in c || r.now >= c[r.key].resetAt then (c[r.key := Counter(1, r.now + windowMs)], Admit)
    else
      var e := c[r.key].(count := c[r.key].count + 1);
      (c[r.key := e], if e.count <= max then Admit else Reject(Max(1, CeilSeconds(e.resetAt - r.now))))
  }

  function UnauthRun(c: Counters, rs: seq<Request>, max: nat, windowMs: nat): seq<Decision>
    decreases |rs|
  {
    if rs == [] then []
    else var (c', d) := RecordUnauthHit(c, rs[0], max, windowMs); [d] + UnauthRun(c', rs[1..], max, windowMs)
  }

  class UnauthLimiter {
    var counters: Counters
    const max: nat
    const windowMs: nat

    constructor (max: nat, windowMs: nat)
      ensures counters == map[] && this.max == max && this.windowMs == windowMs
    {
      counters := map[];
      this.max, this.windowMs := max, windowMs;
    }

    method Record(ip: string, now: int) returns (d: Decision)
      modifies this
      ensures (counters, d) == RecordUnauthHit(old(counters), Request(ip, now), max, windowMs)
    {
      if ip !in counters || now >= counters[ip].resetAt {
        counters := counters[ip := Counter(1, now + windowMs)];
        return Admit;
      }
      counters := counters[ip := counters[ip].(count := counters[ip].count + 1)];
      if counters[ip].count <= max { return Admit; }
      return Reject(Max(1, CeilSeconds(counters[ip].resetAt - now)));
    }
  }

  // ----- Client registrations: counts admitted requests -----

  function ConsumeBucket(c: Counters, r: Request, max: nat, windowMs: nat): (Counters, Decision) {
    if r.key !in c || c[r.key].resetAt <= r.now then (c[r.key := Counter(1, r.now + windowMs)], Admit)
    else if c[r.key].count >= max then (c, Reject(CeilSeconds(c[r.key].resetAt - r.now)))
    else (c[r.key := c[r.key].(count := c[r.key].count + 1)], Admit)
  }

  function RegistrationRun(c: Counters, rs: seq<Request>, max: nat, windowMs: nat): seq<Decision>
    decreases |rs|
  {
    if rs == [] then []
    else var (c', d) := ConsumeBucket(c, rs[0], max, windowMs); [d] + RegistrationRun(c', rs[1..], max, windowMs)
  }

  const ONE_HOUR_MS: nat := 3_600_000

  class RegistrationLimiter {
    var buckets: Counters
    const maxPerHour: nat

    constructor (maxPerHour: nat)
      ensures buckets == map[] && this.maxPerHour == maxPerHour
    {
      buckets := map[];
      this.maxPerHour := maxPerHour;
    }

    method Consume(ip: string, now: int) returns (d: Decision)
      modifies this
      ensures (buckets, d) == ConsumeBucket(old(buckets), Request(ip, now), maxPerHour, 3_600_000)
    {
      if ip !in buckets || buckets[ip].resetAt <= now {
        buckets := buckets[ip := Counter(1, now + ONE_HOUR_MS)];
        return Admit;
      }
      if buckets[ip].count >= maxPerHour {
        return Reject(CeilSeconds(buckets[ip].resetAt - now));
      }
      buckets := buckets[ip := buckets[ip].(count := buckets[ip].count + 1)];
      return Admit;
    }
  }

  // ----- CIMD lookups: bounded, least recently used, lazily pruned -----

  const RATE_WINDOW_MS: nat := 60_000
  const PRUNE_INTERVAL: nat := 64

  type Buckets = seq<Entry<string, Counter>>

  datatype SourceState = SourceState(buckets: Buckets, missesSincePrune: nat)

  function Prune(b: Buckets, now: int): Buckets {
    if b == [] then []
    else if b[0].value.resetAt <= now then Prune(b[1..], now)
    else [b[0]] + Prune(b[1..], now)
  }

  /** Evicts the oldest buckets until one more fits. */
  function EnsureCapacity(b: Buckets, maxEntries: nat): Buckets {
    if maxEntries == 0 then [] else Trim(b, maxEntries - 1)
  }

  function PruneStep(s: SourceState, now: int, maxEntries: nat): SourceState {
    var misses := s.missesSincePrune + 1;
    if misses >= PRUNE_INTERVAL || |s.buckets| >= maxEntries then SourceState(Prune(s.buckets, now), 0)
    else SourceState(s.buckets, misses)
  }

  predicate Open(c: Option<Counter>, now: int) { c.Some? && c.value.resetAt > now }

  function CountIn(c: Option<Counter>, r: Request, max: nat): (Counter, Decision) {
    if !Open(c, r.now) then (Counter(1, r.now + RATE_WINDOW_MS), Admit)
    else if c.value.count >= max then (c.value, Reject(Max(1, CeilSeconds(c.value.resetAt - r.now))))
    else (c.value.(count := c.value.count + 1), Admit)
  }

  /** The step on buckets that have just been pruned, or did not need to be. */
  function ConsumeIn(b: Buckets, r: Request, max: nat, maxEntries: nat): (Buckets, Decision) {
    var c := Get(b, r.key);
    var rest := if Open(c, r.now) then Delete(b, r.key) else EnsureCapacity(Delete(b, r.key), maxEntries);
    (rest + [Entry(r.key, CountIn(c, r, max).0)], CountIn(c, r, max).1)
  }

  function SourceConsume(s: SourceState, r: Request, max: nat, maxEntries: nat): (SourceState, Decision) {
    var p := PruneStep(s, r.now, maxEntries);
    var (b, d) := ConsumeIn(p.buckets, r, max, maxEntries);
    (SourceState(b, p.missesSincePrune), d)
  }

  function SourceRun(s: SourceState, rs: seq<Request>, max: nat, maxEntries: nat): seq<Decision>
    decreases |rs|
  {
    if rs == [] then []
    else var (s', d) := SourceConsume(s, rs[0], max, maxEntries); [d] + SourceRun(s', rs[1..], max, maxEntries)
  }

  function SourceAfter(s: SourceState, rs: seq<Request>, max: nat, maxEntries: nat): SourceState
    decreases |rs|
  {
    if rs == [] then s
    else SourceAfter(SourceConsume(s, rs[0], max, maxEntries).0, rs[1..], max, maxEntries)
  }

  class SourceLimiter {
    var buckets: Buckets
    var missesSincePrune: nat
    const maxPerMinute: nat
    const maxEntries: nat

    ghost function State(): SourceState
      reads this
    {
      SourceState(buckets, missesSincePrune)
    }

    constructor (maxPerMinute: nat, maxEntries: nat)
      ensures State() == SourceState([], 0)
      ensures this.maxPerMinute == maxPerMinute && this.maxEntries == maxEntries
    {
      buckets, missesSincePrune := [], 0;
      this.maxPerMinute, this.maxEntries := maxPerMinute, maxEntries;
    }

    method Clear()
      modifies this
      ensures State() == SourceState([], 0)
    {
      buckets, missesSincePrune := [], 0;
    }

    method Consume(ip: string, now: int) returns (d: Decision)
      modifies this
      ensures (State(), d) == SourceConsume(old(State()), Request(ip, now), maxPerMinute, maxEntries)
    {
      missesSincePrune := missesSincePrune + 1;
      if missesSincePrune >= PRUNE_INTERVAL || |buckets| >= maxEntries {
        PruneExpired(now);
        missesSincePrune := 0;
      }
      var entry := Get(buckets, ip);
      buckets := Delete(buckets, ip);
      if entry.Some? && entry.value.resetAt > now {
        if entry.value.count >= maxPerMinute {
          buckets := buckets + [Entry(ip, entry.value)];
          return Reject(Max(1, CeilSeconds(entry.value.resetAt - now)));
        }
        buckets := buckets + [Entry(ip, entry.value.(count := entry.value.count + 1))];
        return Admit;
      }
      EvictOldest();
      buckets := buckets + [Entry(ip, Counter(1, now + RATE_WINDOW_MS))];
      return Admit;
    }

    method PruneExpired(now: int)
      modifies this`buckets
      ensures buckets == Prune(old(buckets), now)
    {
      var i := 0;
      while i < |buckets|
        invariant 0 <= i <= |buckets|
        invariant Prune(old(buckets), now) == buckets[..i] + Prune(buckets[i..], now)
        decreases |buckets| - i
      {
        if buckets[i].value.resetAt <= now {
          assert (buckets[..i] + buckets[i + 1..])[i..] == buckets[i..][1..];
          buckets := buckets[..i] + buckets[i + 1..];
        } else {
          assert buckets[..i + 1] == buckets[..i] + [buckets[i]] && buckets[i + 1..] == buckets[i..][1..];
          i := i + 1;
        }
      }
      assert buckets[i..] == [] && buckets[..i] == buckets;
    }

    method EvictOldest()
      modifies this`buckets
      ensures buckets == EnsureCapacity(old(buckets), maxEntries)
    {
      while |buckets| >= maxEntries && buckets != []
        invariant |buckets| <= |old(buckets)| && buckets == old(buckets)[|old(buckets)| - |buckets|..]
        invariant |old(buckets)| < maxEntries ==> buckets == old(buckets)
        invariant |old(buckets)| >= maxEntries > 0 ==> |buckets| >= maxEntries - 1
      {
        buckets := buckets[1..];
      }
    }
  }

  // ----- What the bounded limiter keeps -----

  lemma {:induction false} PruneKeys(b: Buckets, now: int)
    requires Distinct(b)
    ensures Distinct(Prune(b, now)) && Keys(Prune(b, now)) <= Keys(b) && |Prune(b, now)| <= |b|
  {
    if b != [] {
      PruneKeys(b[1..], now);
      ConsIs(b[0], Prune(b[1..], now), b[0].key);
    }
  }

  lemma {:induction false} PruneGet(b: Buckets, now: int, q: string)
    requires Distinct(b)
    ensures Live(Get(Prune(b, now), q), now) == Live(Get(b, q), now)
    ensures Younger(Prune(b, now), q) <= Younger(b, q)
  {
    if b != [] {
      PruneKeys(b[1..], now);
      PruneGet(b[1..], now, q);
      ConsIs(b[0], Prune(b[1..], now), q);
      if q == b[0].key { YoungerOfAbsent(b[1..], q); }
    }
  }

  /** The bucket if its window is still open, which is all a decision depends on. */
  ghost function Live(c: Option<Counter>, now: int): Option<Counter> {
    if Open(c, now) then c else None
  }

  lemma ConsumeInIsBounded(b: Buckets, r: Request, max: nat, maxEntries: nat)
    requires Distinct(b) && |b| <= Max(1, maxEntries)
    ensures var b' := ConsumeIn(b, r, max, maxEntries).0; Distinct(b') && |b'| <= Max(1, maxEntries)
  {
    DeleteKeys(b, r.key);
    var c := CountIn(Get(b, r.key), r, max).0;
    AppendKeys(Delete(b, r.key), Entry(r.key, c));
    TrimKeys(Delete(b, r.key), Max(1, maxEntries) - 1);
    AppendKeys(EnsureCapacity(Delete(b, r.key), maxEntries), Entry(r.key, c));
  }

  lemma SourceStepIsBounded(s: SourceState, r: Request, max: nat, maxEntries: nat)
    requires Distinct(s.buckets) && |s.buckets| <= Max(1, maxEntries)
    ensures var s' := SourceConsume(s, r, max, maxEntries).0;
            Distinct(s'.buckets) && |s'.buckets| <= Max(1, maxEntries) && s'.missesSincePrune < 64
  {
    PruneKeys(s.buckets, r.now);
    ConsumeInIsBounded(PruneStep(s, r.now, maxEntries).buckets, r, max, maxEntries);
  }

  lemma {:induction false} RunStaysBounded(s: SourceState, rs: seq<Request>, max: nat, maxEntries: nat)
    requires Distinct(s.buckets) && |s.buckets| <= Max(1, maxEntries)
    ensures var b := SourceAfter(s, rs, max, maxEntries).buckets;
            && Distinct(b) && |b| <= Max(1, maxEntries) && (rs != [] ==> rs[|rs| - 1].key in Keys(b))
            && (s.missesSincePrune < 64 ==> SourceAfter(s, rs, max, maxEntries).missesSincePrune < 64)
    decreases |rs|
  {
    if rs != [] {
      SourceStepIsBounded(s, rs[0], max, maxEntries);
      var s' := SourceConsume(s, rs[0], max, maxEntries).0;
      RunStaysBounded(s', rs[1..], max, maxEntries);
      if |rs| == 1 { LastIsKept(s, rs[0], max, maxEntries); }
    }
  }

  lemma LastIsKept(s: SourceState, r: Request, max: nat, maxEntries: nat)
    ensures r.key in Keys(SourceConsume(s, r, max, maxEntries).0.buckets)
  {
    var b := PruneStep(s, r.now, maxEntries).buckets;
    var c := Get(b, r.key);
    var rest := if Open(c, r.now) then Delete(b, r.key) else EnsureCapacity(Delete(b, r.key), maxEntries);
    AppendKeys(rest, Entry(r.key, CountIn(c, r, max).0));
  }

  /**
   After any requests there are at most `maxEntries` buckets, none for one source twice. The last source
   always has one, so with a capacity of zero there is exactly one.
   */
  lemma SourceLimiterIsBounded(rs: seq<Request>, max: nat, maxEntries: nat)
    ensures var b := SourceAfter(SourceState([], 0), rs, max, maxEntries).buckets;
            && Distinct(b) && |b| <= Max(1, maxEntries)
            && (rs != [] ==> rs[|rs| - 1].key in Keys(b))
            && (rs != [] && maxEntries == 0 ==> |b| == 1)
  {
    RunStaysBounded(SourceState([], 0), rs, max, maxEntries);
  }

  lemma OtherBucketSurvives(b: Buckets, r: Request, max: nat, maxEntries: nat, q: string)
    requires Distinct(b) && q != r.key && q in Keys(b) && |Younger(b, q) + {r.key}| < maxEntries
    ensures var b' := ConsumeIn(b, r, max, maxEntries).0;
            Get(b', q) == Get(b, q) && Younger(b', q) <= Younger(b, q) + {r.key}
  {
    var c := CountIn(Get(b, r.key), r, max).0;
    TrimAppend(Delete(b, r.key), Entry(r.key, c), maxEntries);
    TouchAndTrimKeeps(b, r.key, c, maxEntries, q);
    TouchGet(b, r.key, c, q);
  }

  lemma OtherBucketSurvivesStep(s: SourceState, r: Request, max: nat, maxEntries: nat, q: string)
    requires Distinct(s.buckets) && q != r.key
    requires Get(s.buckets, q).Some? && Get(s.buckets, q).value.resetAt > r.now
    requires |Younger(s.buckets, q) + {r.key}| < maxEntries
    ensures var b' := SourceConsume(s, r, max, maxEntries).0.buckets;
            Get(b', q) == Get(s.buckets, q) && Younger(b', q) <= Younger(s.buckets, q) + {r.key}
  {
    PruneKeys(s.buckets, r.now);
    PruneGet(s.buckets, r.now, q);
    var b := PruneStep(s, r.now, maxEntries).buckets;
    SubsetSize(Younger(b, q) + {r.key}, Younger(s.buckets, q) + {r.key});
    OtherBucketSurvives(b, r, max, maxEntries, q);
  }

  ghost function Sources(rs: seq<Request>): set<string> { set r <- rs :: r.key }

  /**
   A source with an open window is evicted only after `maxEntries` distinct other sources
   were touched since it was: over any requests of fewer others its bucket stays as it is.
   */
  lemma {:induction false} LiveSourceSurvives(s: SourceState, rs: seq<Request>, max: nat, maxEntries: nat, q: string)
    requires Distinct(s.buckets) && |s.buckets| <= Max(1, maxEntries)
    requires Get(s.buckets, q).Some? && forall r <- rs :: r.key != q && Get(s.buckets, q).value.resetAt > r.now
    requires |Younger(s.buckets, q) + Sources(rs)| < maxEntries
    ensures Get(SourceAfter(s, rs, max, maxEntries).buckets, q) == Get(s.buckets, q)
    decreases |rs|
  {
    if rs != [] {
      var s' := SourceConsume(s, rs[0], max, maxEntries).0;
      assert rs == [rs[0]] + rs[1..];
      assert Sources(rs) == {rs[0].key} + Sources(rs[1..]);
      SubsetSize(Younger(s.buckets, q) + {rs[0].key}, Younger(s.buckets, q) + Sources(rs));
      OtherBucketSurvivesStep(s, rs[0], max, maxEntries, q);
      SourceStepIsBounded(s, rs[0], max, maxEntries);
      SubsetSize(Younger(s'.buckets, q) + Sources(rs[1..]), Younger(s.buckets, q) + Sources(rs));
      LiveSourceSurvives(s', rs[1..], max, maxEntries, q);
    }
  }

  // ----- Expired buckets are dropped -----

  /** Pruning drops the expired buckets and no others. */
  lemma {:induction false} PruneDropsExpired(b: Buckets, now: int, q: string)
    requires Distinct(b)
    ensures Get(Prune(b, now), q) == Live(Get(b, q), now)
  {
    if b != [] {
      PruneKeys(b[1..], now);
      PruneDropsExpired(b[1..], now, q);
      ConsIs(b[0], Prune(b[1..], now), q);
    }
  }

  /** A request of another source leaves a bucket as it is or evicts it. */
  lemma OtherBucketStaysOrGoes(b: Buckets, r: Request, max: nat, maxEntries: nat, q: string)
    requires Distinct(b) && q != r.key
    ensures Get(ConsumeIn(b, r, max, maxEntries).0, q) in {None, Get(b, q)}
  {
    var d := Delete(b, r.key);
    var e := Entry(r.key, CountIn(Get(b, r.key), r, max).0);
    DeleteKeys(b, r.key);
    DeleteGet(b, r.key, q);
    TrimKeys(d, Max(1, maxEntries) - 1);
    TrimGet(d, Max(1, maxEntries) - 1, q);
    AppendGet(d, e, q);
    AppendGet(EnsureCapacity(d, maxEntries), e, q);
  }

  lemma ExpiredBucketStep(s: SourceState, r: Request, max: nat, maxEntries: nat, q: string)
    requires Distinct(s.buckets) && q != r.key
    requires var c := Get(s.buckets, q); c.None? || c.value.resetAt <= r.now
    ensures var s' := SourceConsume(s, r, max, maxEntries).0;
            && Get(s'.buckets, q) in {None, Get(s.buckets, q)}
            && (s.missesSincePrune >= 63 || |s.buckets| >= maxEntries ==> Get(s'.buckets, q).None?)
            && (s.missesSincePrune < 63 && |s.buckets| < maxEntries ==>
                  s'.missesSincePrune == s.missesSincePrune + 1)
  {
    PruneKeys(s.buckets, r.now);
    PruneDropsExpired(s.buckets, r.now, q);
    OtherBucketStaysOrGoes(PruneStep(s, r.now, maxEntries).buckets, r, max, maxEntries, q);
  }

  /**
   An expired bucket is dropped within 64 requests of other sources, and by the first of them if the
   table is full.
   */
  lemma {:induction false} ExpiredBucketsGo(s: SourceState, rs: seq<Request>, max: nat, maxEntries: nat, q: string)
    requires Distinct(s.buckets) && |s.buckets| <= Max(1, maxEntries) && s.missesSincePrune < 64
    requires var c := Get(s.buckets, q); forall r <- rs :: r.key != q && (c.None? || c.value.resetAt <= r.now)
    requires Get(s.buckets, q).None? || s.missesSincePrune + |rs| >= 64 || (rs != [] && |s.buckets| >= maxEntries)
    ensures Get(SourceAfter(s, rs, max, maxEntries).buckets, q).None?
    decreases |rs|
  {
    if rs != [] {
      assert rs == [rs[0]] + rs[1..];
      SourceStepIsBounded(s, rs[0], max, maxEntries);
      ExpiredBucketStep(s, rs[0], max, maxEntries, q);
      ExpiredBucketsGo(SourceConsume(s, rs[0], max, maxEntries).0, rs[1..], max, maxEntries, q);
    }
  }

  // ----- Refinement of the fixed window -----

  ghost function LiveWindow(t: Table, k: string, now: int): Option<Counter> {
    if k in t && t[k].resetAt > now then Some(Counter(t[k].admitted, t[k].resetAt)) else None
  }

  /** The bounded limiter and the unbounded table agree on every open window. */
  ghost predicate Agree(b: Buckets, t: Table, now: int) {
    forall k :: Live(Get(b, k), now) == LiveWindow(t, k, now)
  }

  /** Nothing is evicted while the sources fit. */
  lemma ConsumeInFits(b: Buckets, r: Request, max: nat, maxEntries: nat, all: set<string>)
    requires Distinct(b) && Keys(b) <= all && r.key in all && |all| <= maxEntries
    ensures var c := CountIn(Get(b, r.key), r, max);
            ConsumeIn(b, r, max, maxEntries) == (Touch(b, r.key, c.0), c.1)
    ensures Distinct(ConsumeIn(b, r, max, maxEntries).0) && Keys(ConsumeIn(b, r, max, maxEntries).0) <= all
  {
    var d := Delete(b, r.key);
    DeleteKeys(b, r.key);
    KeysSize(d);
    SubsetSize(Keys(d) + {r.key}, all);
    TouchKeys(b, r.key, CountIn(Get(b, r.key), r, max).0);
  }

  lemma ConsumeInAgrees(b: Buckets, t: Table, r: Request, max: nat)
    requires Distinct(b) && Agree(b, t, r.now)
    ensures var (t', e) := Hit(t, r, max, 60_000);
            var (c, d) := CountIn(Get(b, r.key), r, max);
            d == e && Agree(Touch(b, r.key, c), t', r.now)
  {
    assert Live(Get(b, r.key), r.now) == LiveWindow(t, r.key, r.now);
    var c := CountIn(Get(b, r.key), r, max).0;
    var t' := Hit(t, r, max, 60_000).0;
    forall k ensures Live(Get(Touch(b, r.key, c), k), r.now) == LiveWindow(t', k, r.now) {
      assert Live(Get(b, k), r.now) == LiveWindow(t, k, r.now);
      TouchGet(b, r.key, c, k);
    }
  }

  lemma SourceStepAgrees(s: SourceState, t: Table, r: Request, max: nat, maxEntries: nat, all: set<string>)
    requires Distinct(s.buckets) && Keys(s.buckets) <= all && r.key in all && |all| <= maxEntries
    requires Agree(s.buckets, t, r.now)
    ensures var (s', d) := SourceConsume(s, r, max, maxEntries);
            var (t', e) := Hit(t, r, max, 60_000);
            d == e && Distinct(s'.buckets) && Keys(s'.buckets) <= all && Agree(s'.buckets, t', r.now)
  {
    var b := PruneStep(s, r.now, maxEntries).buckets;
    forall k ensures Live(Get(b, k), r.now) == LiveWindow(t, k, r.now) {
      PruneGet(s.buckets, r.now, k);
      assert Live(Get(s.buckets, k), r.now) == LiveWindow(t, k, r.now);
    }
    PruneKeys(s.buckets, r.now);
    ConsumeInFits(b, r, max, maxEntries, all);
    ConsumeInAgrees(b, t, r, max);
  }

  /**
   With a clock that does not go back and at most `maxEntries` distinct sources, the
   bounded, pruning limiter decides every request sequence like the unbounded one.
   */
  lemma {:induction false} SourceLimiterIsFixedWindow(s: SourceState, t: Table, rs: seq<Request>, max: nat,
                                                      maxEntries: nat, all: set<string>)
    requires Distinct(s.buckets) && Keys(s.buckets) <= all && Sources(rs) <= all && |all| <= maxEntries
    requires Monotone(rs) && (rs != [] ==> Agree(s.buckets, t, rs[0].now))
    ensures SourceRun(s, rs, max, maxEntries) == Run(t, rs, max, 60_000)
    decreases |rs|
  {
    if rs != [] {
      assert rs[0].key in Sources(rs);
      SourceStepAgrees(s, t, rs[0], max, maxEntries, all);
      var s' := SourceConsume(s, rs[0], max, maxEntries).0;
      var t' := Hit(t, rs[0], max, 60_000).0;
      if |rs| > 1 {
        forall k ensures Live(Get(s'.buckets, k), rs[1].now) == LiveWindow(t', k, rs[1].now) {
          assert Live(Get(s'.buckets, k), rs[0].now) == LiveWindow(t', k, rs[0].now);
        }
      }
      assert Sources(rs[1..]) <= Sources(rs);
      SourceLimiterIsFixedWindow(s', t', rs[1..], max, maxEntries, all);
    }
  }

  ghost function WindowsOf(c: Counters, max: nat): Table {
    map k <- c :: Window(Min(c[k].count, Max(1, max)), c[k].resetAt)
  }

  lemma UnauthStepAgrees(c: Counters, r: Request, max: nat, windowMs: nat)
    requires forall k <- c :: c[k].count >= 1
    ensures var (c', d) := RecordUnauthHit(c, r, max, windowMs);
            (WindowsOf(c', max), d) == Hit(WindowsOf(c, max), r, max, windowMs) && forall k <- c' :: c'[k].count >= 1
  {
    var (c', d) := RecordUnauthHit(c, r, max, windowMs);
    assert WindowsOf(c', max) == WindowsOf(c, max)[r.key := WindowsOf(c', max)[r.key]];
    assert d.Reject? ==> WindowsOf(c', max) == WindowsOf(c, max);
  }

  /** Counting rejected requests as well changes no decision. */
  lemma {:induction false} UnauthLimiterIsFixedWindow(c: Counters, rs: seq<Request>, max: nat, windowMs: nat)
    requires forall k <- c :: c[k].count >= 1
    ensures UnauthRun(c, rs, max, windowMs) == Run(WindowsOf(c, max), rs, max, windowMs)
    decreases |rs|
  {
    if rs != [] {
      UnauthStepAgrees(c, rs[0], max, windowMs);
      UnauthLimiterIsFixedWindow(RecordUnauthHit(c, rs[0], max, windowMs).0, rs[1..], max, windowMs);
    }
  }

  lemma RegistrationStepAgrees(c: Counters, r: Request, max: nat, windowMs: nat)
    requires forall k <- c :: 1 <= c[k].count <= Max(1, max)
    ensures var (c', d) := ConsumeBucket(c, r, max, windowMs);
            && (WindowsOf(c', max), d) == Hit(WindowsOf(c, max), r, max, windowMs)
            && forall k <- c' :: 1 <= c'[k].count <= Max(1, max)
  {
    var c' := ConsumeBucket(c, r, max, windowMs).0;
    assert WindowsOf(c', max) == WindowsOf(c, max)[r.key := WindowsOf(c', max)[r.key]];
  }

  lemma {:induction false} RegistrationLimiterIsFixedWindow(c: Counters, rs: seq<Request>, max: nat, windowMs: nat)
    requires forall k <- c :: 1 <= c[k].count <= Max(1, max)
    ensures RegistrationRun(c, rs, max, windowMs) == Run(WindowsOf(c, max), rs, max, windowMs)
    decreases |rs|
  {
    if rs != [] {
      RegistrationStepAgrees(c, rs[0], max, windowMs);
      RegistrationLimiterIsFixedWindow(ConsumeBucket(c, rs[0], max, windowMs).0, rs[1..], max, windowMs);
    }
  }

  /** Given the same limit and window, the three limiters answer every request sequence alike. */
  lemma ThreeLimitersOneDecision(rs: seq<Request>, max: nat, maxEntries: nat)
    requires Monotone(rs) && |Sources(rs)| <= maxEntries
    ensures UnauthRun(map[], rs, max, 60_000)
         == RegistrationRun(map[], rs, max, 60_000)
         == SourceRun(SourceState([], 0), rs, max, maxEntries)
         == Run(map[], rs, max, 60_000)
  {
    UnauthLimiterIsFixedWindow(map[], rs, max, 60_000);
    RegistrationLimiterIsFixedWindow(map[], rs, max, 60_000);
    SourceLimiterIsFixedWindow(SourceState([], 0), map[], rs, max, maxEntries, Sources(rs));
    assert WindowsOf(map[], max) == map[];
  }
}
