/**
 The OAuth client resolver as a step system. Between two awaits the resolver runs
 without interruption, so each step below is one such stretch: a call to resolve, the
 timeout of a flight, the arrival of a fetch result, its error handler, its final
 handler, and the two ends of a shutdown. Any interleaving of them is a run.
 */
module ResolverSteps {
  import opened Prelude
  import opened OrderedMaps
  import opened RateLimiters
  import opened ClientDocument
  import FixedWindow

  const NEGATIVE_TTL_MS: nat := 30_000
  const MAX_CLIENT_ID_LENGTH: nat := 4 * 1024
  const MAX_CLIENT_ID_BYTES: nat := 8 * 1024

  datatype Registration = Cimd | Dcr

  datatype ResolvedClient = ResolvedClient(clientId: string, clientName: Option<string>, redirectUris: seq<string>,
                                           registration: Registration, createdAt: Option<int>)

  datatype ErrorKind = InvalidClient | RateLimited | TemporarilyUnavailable

  datatype MetadataError = MetadataError(kind: ErrorKind, message: string, retryAfterSeconds: Option<int>)

  /** What a fetch can be rejected with: the resolver's own error, or any other. */
  datatype Thrown = Known(error: MetadataError) | Plain(message: string)

  datatype Outcome = Success(client: ResolvedClient) | Failure(error: MetadataError)

  /** Positive and negative entries differ in their outcome only. */
  datatype CacheValue = CacheValue(outcome: Outcome, expiresAt: int)

  type Cache = seq<Entry<string, CacheValue>>

  datatype Phase = Fetching(startedAt: int) | Failing(thrown: Thrown) | Settled(outcome: Outcome)

  datatype Event = Admitted(source: string) | Started(id: string) | Finalized(id: string)

  datatype Settlement = Settlement(outcome: Outcome, at: int)

  /** How an identifier is resolved: by the registrar, not at all, or by its document. */
  datatype IdKind = Local | BadDocumentUrl(message: string) | DocumentUrl

  datatype Options = Options(rateLimitPerMinute: nat, maxInFlight: nat, cacheMaxEntries: nat,
                             rateBucketMaxEntries: nat, kindOf: string -> IdKind, policy: Policy)

  /** `log` and `settled` record the past and decide nothing. */
  datatype State = State(cache: Cache, flights: map<string, Phase>, aborted: map<string, bool>,
                         limiter: SourceState, inFlight: int, closed: bool, closing: Option<set<string>>,
                         log: seq<Event>, settled: map<string, Settlement>)

  datatype Reply = Done(outcome: Outcome) | Await(id: string)

  const INITIAL := State([], map[], map[], SourceState([], 0), 0, false, None, [], map[])

  function Invalid(message: string): MetadataError { MetadataError(InvalidClient, message, None) }

  function Unavailable(message: string): MetadataError { MetadataError(TemporarilyUnavailable, message, None) }

  const SHUTTING_DOWN := Unavailable("OAuth client resolver is shutting down")

  function Normalize(t: Thrown): MetadataError {
    match t case Known(e) => e case Plain(m) => Invalid(m)
  }

  predicate WithinLimit(id: string) {
    0 < Utf16Length(id) <= MAX_CLIENT_ID_LENGTH && Utf8Length(id) <= MAX_CLIENT_ID_BYTES
  }

  // ----- Cache -----

  function ReadCache(c: Cache, key: string, now: int): (Cache, Option<CacheValue>) {
    match Get(c, key)
    case None => (c, None)
    case Some(v) => if v.expiresAt <= now then (Delete(c, key), None) else (Touch(c, key, v), Some(v))
  }

  function WriteCache(c: Cache, key: string, v: CacheValue, cap: nat): Cache {
    if !WithinLimit(key) then c else Trim(Touch(c, key, v), cap)
  }

  function UnwrapCache(v: CacheValue, id: string): Outcome {
    if v.outcome.Success? && v.outcome.client.clientId != id then Failure(Invalid("CIMD self-binding mismatch"))
    else v.outcome
  }

  // ----- Steps -----

  function Resolve(o: Options, s: State, id: string, source: string, now: int, local: Option<ResolvedClient>)
    : (State, Reply)
  {
    if s.closed then (s, Done(Failure(SHUTTING_DOWN)))
    else if !WithinLimit(id) then (s, Done(Failure(Invalid("client_id exceeds the safe limit"))))
    else
      match o.kindOf(id) {
        case Local => (s, Done(if local.Some? then Success(local.value) else Failure(Invalid("Unknown client_id"))))
        case BadDocumentUrl(message) => (s, Done(Failure(Invalid(message))))
        case DocumentUrl =>
          var (c, hit) := ReadCache(s.cache, id, now);
          var s1 := s.(cache := c);
          if hit.Some? then (s1, Done(UnwrapCache(hit.value, id)))
          else if id in s.flights then (s1, Await(id))
          else Miss(o, s1, id, source, now)
      }
  }

  function Miss(o: Options, s: State, id: string, source: string, now: int): (State, Reply) {
    if s.inFlight >= o.maxInFlight then (s, Done(Failure(Unavailable("CIMD lookup capacity exhausted"))))
    else
      var (l, d) := SourceConsume(s.limiter, FixedWindow.Request(source, now), o.rateLimitPerMinute,
                                  o.rateBucketMaxEntries);
      match d {
        case Reject(seconds) =>
          (s.(limiter := l),
           Done(Failure(MetadataError(RateLimited, "CIMD lookup rate limit exceeded", Some(seconds)))))
        case Admit => (StartFlight(s.(limiter := l, log := s.log + [Admitted(source)]), id, now), Await(id))
      }
  }

  function StartFlight(s: State, id: string, now: int): State {
    s.(inFlight := s.inFlight + 1, aborted := s.aborted[id := false], flights := s.flights[id := Fetching(now)],
       log := s.log + [Started(id)])
  }

  predicate IsAborted(s: State, id: string) { id in s.aborted && s.aborted[id] }

  /** The flight's promise settles; an outcome that may be cached is cached in the same step. */
  function Settle(o: Options, s: State, id: string, outcome: Outcome, ttlMs: int, now: int): State {
    s.(flights := s.flights[id := Settled(outcome)],
       settled := s.settled[id := Settlement(outcome, now)],
       cache := if s.closed || IsAborted(s, id) then s.cache
                else WriteCache(s.cache, id, CacheValue(outcome, now + ttlMs), o.cacheMaxEntries))
  }

  function CimdClient(d: ValidatedDocument): ResolvedClient {
    ResolvedClient(d.clientId, Some(d.clientName), d.redirectUris, Cimd, None)
  }

  function Respond(o: Options, s: State, id: string, response: Response, now: int): State
    requires id in s.flights && s.flights[id].Fetching?
  {
    match ValidateResponse(id, response, s.flights[id].startedAt, o.policy)
    case Err(message) => s.(flights := s.flights[id := Failing(Plain(message))])
    case Ok(document) =>
      if s.closed || IsAborted(s, id) then s.(flights := s.flights[id := Failing(Known(SHUTTING_DOWN))])
      else Settle(o, s, id, Success(CimdClient(document)), document.ttlMs, now)
  }

  function Catch(o: Options, s: State, id: string, now: int): State
    requires id in s.flights && s.flights[id].Failing?
  {
    var error := if s.closed then SHUTTING_DOWN else Normalize(s.flights[id].thrown);
    Settle(o, s, id, Failure(error), NEGATIVE_TTL_MS, now)
  }

  function Finalize(s: State, id: string): State {
    s.(inFlight := s.inFlight - 1, aborted := s.aborted - {id}, flights := s.flights - {id},
       log := s.log + [Finalized(id)])
  }

  function Close(s: State): State {
    if s.closing.Some? then s
    else
      s.(closed := true, cache := [], limiter := SourceState([], 0),
         aborted := map id <- s.aborted :: true, closing := Some(s.flights.Keys))
  }

  function CloseDone(s: State): State {
    s.(cache := [], limiter := SourceState([], 0))
  }

  datatype Step =
    | ResolveStep(id: string, source: string, now: int, local: Option<ResolvedClient>)
    | AbortStep(id: string)
    | RespondStep(id: string, response: Response, now: int)
    | RejectStep(id: string, thrown: Thrown)
    | CatchStep(id: string, now: int)
    | FinalizeStep(id: string)
    | CloseStep
    | CloseDoneStep

  /** A step happens only when the promise or timer behind it is pending. */
  predicate Enabled(s: State, step: Step) {
    match step
    case ResolveStep(_, _, _, _) => true
    case AbortStep(id) => id in s.aborted
    case RespondStep(id, _, _) => id in s.flights && s.flights[id].Fetching?
    case RejectStep(id, _) => id in s.flights && s.flights[id].Fetching?
    case CatchStep(id, _) => id in s.flights && s.flights[id].Failing?
    case FinalizeStep(id) => id in s.flights && s.flights[id].Settled?
    case CloseStep => true
    case CloseDoneStep => s.closing.Some? && s.closing.value !! s.flights.Keys
  }

  function Next(o: Options, s: State, step: Step): State {
    if !Enabled(s, step) then s
    else
      match step
      case ResolveStep(id, source, now, local) => Resolve(o, s, id, source, now, local).0
      case AbortStep(id) => s.(aborted := s.aborted[id := true])
      case RespondStep(id, response, now) => Respond(o, s, id, response, now)
      case RejectStep(id, thrown) => s.(flights := s.flights[id := Failing(thrown)])
      case CatchStep(id, now) => Catch(o, s, id, now)
      case FinalizeStep(id) => Finalize(s, id)
      case CloseStep => Close(s)
      case CloseDoneStep => CloseDone(s)
  }

  /** A run is any sequence of steps; one that is not enabled does not happen. */
  function After(o: Options, s: State, steps: seq<Step>): State
    decreases |steps|
  {
    if steps == [] then s else After(o, Next(o, s, steps[0]), steps[1..])
  }
}
