/** The resolver object: its maps and counters are updated in place, one step at a time. */
module ClientResolver {
  import opened Prelude
  import opened OrderedMaps
  import opened RateLimiters
  import opened ClientDocument
  import opened ResolverSteps
  import FixedWindow

  class Resolver {
    const options: Options
    const limiter: SourceLimiter
    var cache: Cache
    var flights: map<string, Phase>
    var aborted: map<string, bool>
    var inFlight: int
    var closed: bool
    var closing: Option<set<string>>
    ghost var log: seq<Event>
    ghost var settled: map<string, Settlement>

    ghost predicate Valid()
      reads this
    {
      limiter.maxPerMinute == options.rateLimitPerMinute && limiter.maxEntries == options.rateBucketMaxEntries
    }

    ghost function Now(): State
      reads this, limiter
    {
      State(cache, flights, aborted, limiter.State(), inFlight, closed, closing, log, settled)
    }

    constructor (options: Options)
      ensures Valid() && Now() == INITIAL && fresh(limiter) && this.options == options
    {
      this.options := options;
      limiter := new SourceLimiter(options.rateLimitPerMinute, options.rateBucketMaxEntries);
      cache, flights, aborted := [], map[], map[];
      inFlight, closed, closing := 0, false, None;
      log, settled := [], map[];
    }

    method ResolveClient(id: string, source: string, now: int, local: Option<ResolvedClient>) returns (reply: Reply)
      requires Valid()
      modifies this, limiter
      ensures Valid() && (Now(), reply) == Resolve(options, old(Now()), id, source, now, local)
    {
      if closed { return Done(Failure(SHUTTING_DOWN)); }
      if !WithinLimit(id) { return Done(Failure(Invalid("client_id exceeds the safe limit"))); }
      match options.kindOf(id) {
        case Local =>
          return Done(if local.Some? then Success(local.value) else Failure(Invalid("Unknown client_id")));
        case BadDocumentUrl(message) =>
          return Done(Failure(Invalid(message)));
        case DocumentUrl =>
          var hit := ReadFromCache(id, now);
          if hit.Some? { return Done(UnwrapCache(hit.value, id)); }
          if id in flights { return Await(id); }
          var refused := EnforceMissLimits(source, now);
          if refused.Some? { return Done(Failure(refused.value)); }
          BeginFlight(id, now);
          return Await(id);
      }
    }

    method ReadFromCache(key: string, now: int) returns (v: Option<CacheValue>)
      modifies this`cache
      ensures (cache, v) == ReadCache(old(cache), key, now)
    {
      v := Get(cache, key);
      if v.None? { return; }
      cache := Delete(cache, key);
      if v.value.expiresAt <= now { return None; }
      cache := cache + [Entry(key, v.value)];
    }

    method WriteToCache(key: string, v: CacheValue)
      modifies this`cache
      ensures cache == WriteCache(old(cache), key, v, options.cacheMaxEntries)
    {
      if !WithinLimit(key) { return; }
      cache := Delete(cache, key);
      cache := cache + [Entry(key, v)];
      EvictOldest();
    }

    method EvictOldest()
      modifies this`cache
      ensures cache == Trim(old(cache), options.cacheMaxEntries)
    {
      while |cache| > options.cacheMaxEntries
        invariant Trim(cache, options.cacheMaxEntries) == Trim(old(cache), options.cacheMaxEntries)
      {
        TrimOneLess(cache, options.cacheMaxEntries);
        cache := cache[1..];
      }
    }

    /** The reason to turn a miss away, if there is one; otherwise one admission has been spent. */
    method EnforceMissLimits(source: string, now: int) returns (refused: Option<MetadataError>)
      requires Valid()
      modifies limiter, this`log
      ensures Valid()
      ensures old(inFlight) >= options.maxInFlight ==>
                refused == Some(Unavailable("CIMD lookup capacity exhausted"))
                && limiter.State() == old(limiter.State()) && log == old(log)
      ensures old(inFlight) < options.maxInFlight ==>
                var (l, d) := SourceConsume(old(limiter.State()), FixedWindow.Request(source, now),
                                            options.rateLimitPerMinute, options.rateBucketMaxEntries);
                && limiter.State() == l
                && (d.Admit? ==> refused == None && log == old(log) + [Admitted(source)])
                && (d.Reject? ==>
                      && log == old(log)
                      && refused == Some(MetadataError(RateLimited, "CIMD lookup rate limit exceeded",
                                                       Some(d.retryAfterSeconds))))
    {
      if inFlight >= options.maxInFlight { return Some(Unavailable("CIMD lookup capacity exhausted")); }
      var decision := limiter.Consume(source, now);
      match decision {
        case Reject(seconds) =>
          return Some(MetadataError(RateLimited, "CIMD lookup rate limit exceeded", Some(seconds)));
        case Admit =>
          log := log + [Admitted(source)];
          return None;
      }
    }

    method BeginFlight(id: string, now: int)
      requires Valid()
      modifies this
      ensures Valid() && Now() == StartFlight(old(Now()), id, now)
    {
      inFlight := inFlight + 1;
      aborted := aborted[id := false];
      flights := flights[id := Fetching(now)];
      log := log + [Started(id)];
    }

    method Abort(id: string)
      requires Valid() && Enabled(Now(), AbortStep(id))
      modifies this
      ensures Valid() && Now() == Next(options, old(Now()), AbortStep(id))
    {
      aborted := aborted[id := true];
    }

    /** The fetch is answered: the handler validates the document and caches a success. */
    method OnResponse(id: string, response: Response, now: int)
      requires Valid() && Enabled(Now(), RespondStep(id, response, now))
      modifies this
      ensures Valid() && Now() == Next(options, old(Now()), RespondStep(id, response, now))
    {
      match ValidateResponse(id, response, flights[id].startedAt, options.policy) {
        case Err(message) =>
          flights := flights[id := Failing(Plain(message))];
        case Ok(document) =>
          if closed || (id in aborted && aborted[id]) {
            flights := flights[id := Failing(Known(SHUTTING_DOWN))];
          } else {
            var client := CimdClient(document);
            WriteToCache(id, CacheValue(Success(client), now + document.ttlMs));
            flights := flights[id := Settled(Success(client))];
            settled := settled[id := Settlement(Success(client), now)];
          }
      }
    }

    method OnRejection(id: string, thrown: Thrown)
      requires Valid() && Enabled(Now(), RejectStep(id, thrown))
      modifies this
      ensures Valid() && Now() == Next(options, old(Now()), RejectStep(id, thrown))
    {
      flights := flights[id := Failing(thrown)];
    }

    /** The error handler: remembers the failure unless the flight was aborted or the resolver closed. */
    method OnFailure(id: string, now: int)
      requires Valid() && Enabled(Now(), CatchStep(id, now))
      modifies this
      ensures Valid() && Now() == Next(options, old(Now()), CatchStep(id, now))
    {
      var safeError := if closed then SHUTTING_DOWN else Normalize(flights[id].thrown);
      if !closed && !(id in aborted && aborted[id]) {
        WriteToCache(id, CacheValue(Failure(safeError), now + NEGATIVE_TTL_MS));
      }
      flights := flights[id := Settled(Failure(safeError))];
      settled := settled[id := Settlement(Failure(safeError), now)];
    }

    method OnFinally(id: string)
      requires Valid() && Enabled(Now(), FinalizeStep(id))
      modifies this
      ensures Valid() && Now() == Next(options, old(Now()), FinalizeStep(id))
    {
      inFlight := inFlight - 1;
      aborted := aborted - {id};
      flights := flights - {id};
      log := log + [Finalized(id)];
    }

    method BeginClose()
      requires Valid()
      modifies this, limiter
      ensures Valid() && Now() == Next(options, old(Now()), CloseStep)
    {
      if closing.Some? { return; }
      closed := true;
      cache := [];
      limiter.Clear();
      aborted := map id <- aborted :: true;
      closing := Some(flights.Keys);
    }

    method FinishClose()
      requires Valid() && Enabled(Now(), CloseDoneStep)
      modifies this, limiter
      ensures Valid() && Now() == Next(options, old(Now()), CloseDoneStep)
    {
      cache := [];
      limiter.Clear();
    }
  }
}
