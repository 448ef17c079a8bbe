/** What each lookup of the client resolver is answered, what each fetch settles to, and how long that is served. */
module ResolverAnswers {
  import opened Prelude
  import opened OrderedMaps
  import opened RateLimiters
  import opened ClientDocument
  import opened ResolverSteps
  import opened ResolverSafety
  import FixedWindow

  // ----- Identifiers of flights -----

  /** A flight is only ever started for the URL of a document, of admissible length. */
  ghost predicate FlightIds(o: Options, s: State) {
    forall id <- s.flights :: o.kindOf(id).DocumentUrl? && 1 <= Utf16Length(id) <= 4096 && Utf8Length(id) <= 8192
  }

  lemma ResolveKeepsIds(o: Options, s: State, step: Step)
    requires FlightIds(o, s) && step.ResolveStep?
    ensures FlightIds(o, Next(o, s, step))
  {
    ResolveShape(o, s, step.id, step.source, step.now, step.local);
    if Next(o, s, step).flights != s.flights {
      assert o.kindOf(step.id).DocumentUrl? && WithinLimit(step.id);
    }
  }

  lemma StepKeepsIds(o: Options, s: State, step: Step)
    requires FlightIds(o, s)
    ensures FlightIds(o, Next(o, s, step))
  {
    if step.ResolveStep? {
      ResolveKeepsIds(o, s, step);
    } else if Enabled(s, step) && !step.FinalizeStep? && !step.CloseStep? {
      PhaseStep(o, s, step);
    }
  }

  lemma {:induction false} RunKeepsIds(o: Options, s: State, steps: seq<Step>)
    requires FlightIds(o, s)
    ensures FlightIds(o, After(o, s, steps))
    decreases |steps|
  {
    if steps != [] {
      StepKeepsIds(o, s, steps[0]);
      RunKeepsIds(o, Next(o, s, steps[0]), steps[1..]);
    }
  }

  /** The state after a run, with everything the runs are known to keep. */
  lemma Reached(o: Options, steps: seq<Step>)
    ensures var s := After(o, INITIAL, steps); FlightsOk(o, s) && CacheOk(o, s) && FlightIds(o, s)
  {
    InitialOk(o);
    RunKeeps(o, INITIAL, steps);
    RunKeepsIds(o, INITIAL, steps);
  }

  // ----- Lookups -----

  function Refused(kind: ErrorKind, message: string): Reply { Done(Failure(MetadataError(kind, message, None))) }

  /** An entry that a lookup may still use. */
  ghost predicate Fresh(c: Cache, id: string, now: int) { id in Keys(c) && now < Get(c, id).value.expiresAt }

  lemma FreshLookup(c: Cache, id: string, now: int)
    requires Distinct(c)
    ensures Fresh(c, id, now) <==> ReadCache(c, id, now).1.Some?
    ensures Fresh(c, id, now) ==> ReadCache(c, id, now).1 == Get(c, id)
    ensures var c1 := ReadCache(c, id, now).0;
            if Fresh(c, id, now) then Get(c1, id) == Get(c, id) && Younger(c1, id) == {} else c1 == Delete(c, id)
  {
    DeleteKeys(c, id);
    if Fresh(c, id, now) {
      TouchGet(c, id, Get(c, id).value, id);
    }
  }

  /**
   Lookups that never come to the cache: of a closed resolver, of identifiers too long or empty, of
   registered clients, and of identifiers that look like a document URL and are none. Nothing changes.
   */
  lemma LookupsWithoutTheCache(o: Options, s: State, id: string, source: string, now: int,
                               local: Option<ResolvedClient>)
    ensures var (s1, reply) := Resolve(o, s, id, source, now, local);
            if s.closed then
              s1 == s && reply == Refused(TemporarilyUnavailable, "OAuth client resolver is shutting down")
            else if !(1 <= Utf16Length(id) <= 4096 && Utf8Length(id) <= 8192) then
              s1 == s && reply == Refused(InvalidClient, "client_id exceeds the safe limit")
            else if o.kindOf(id).Local? then
              && s1 == s
              && reply == if local.Some? then Done(Success(local.value))
                          else Refused(InvalidClient, "Unknown client_id")
            else o.kindOf(id).BadDocumentUrl? ==> s1 == s && reply == Refused(InvalidClient, o.kindOf(id).message)
  {}

  /** A lookup that the cache or a flight can answer, by the state it finds and no limits. */
  ghost predicate Unlimited(o: Options, s: State, id: string) {
    !s.closed && 1 <= Utf16Length(id) <= 4096 && Utf8Length(id) <= 8192 && o.kindOf(id).DocumentUrl?
  }

  /** A lookup with a fresh entry. */
  lemma FreshIsAnswered(o: Options, s: State, id: string, source: string, now: int, local: Option<ResolvedClient>)
    requires CacheOk(o, s) && Unlimited(o, s, id) && Fresh(s.cache, id, now)
    ensures var (s1, reply) := Resolve(o, s, id, source, now, local);
            && id in s.settled && reply == Done(s.settled[id].outcome)
            && reply == Done(Get(s.cache, id).value.outcome)
            && s1 == s.(cache := s1.cache) && Get(s1.cache, id) == Get(s.cache, id) && Younger(s1.cache, id) == {}
  {
    FreshLookup(s.cache, id, now);
    assert EntryOk(s, id, Get(s.cache, id).value);
  }

  /** A lookup without one. */
  lemma StaleIsDropped(o: Options, s: State, id: string, source: string, now: int, local: Option<ResolvedClient>)
    requires Distinct(s.cache) && Unlimited(o, s, id) && !Fresh(s.cache, id, now)
    ensures var missed := s.(cache := Delete(s.cache, id));
            Resolve(o, s, id, source, now, local)
            == if id in s.flights then (missed, Await(id)) else Miss(o, missed, id, source, now)
  {
    FreshLookup(s.cache, id, now);
  }

  lemma MissIsDecided(o: Options, s: State, id: string, source: string, now: int)
    ensures var (l, d) := SourceConsume(s.limiter, FixedWindow.Request(source, now), o.rateLimitPerMinute,
                                        o.rateBucketMaxEntries);
            Miss(o, s, id, source, now)
            == if s.inFlight >= o.maxInFlight then
                 (s, Refused(TemporarilyUnavailable, "CIMD lookup capacity exhausted"))
               else if d.Reject? then
                 (s.(limiter := l),
                  Done(Failure(MetadataError(RateLimited, "CIMD lookup rate limit exceeded",
                                             Some(d.retryAfterSeconds)))))
               else
                 (s.(limiter := l, inFlight := s.inFlight + 1, flights := s.flights[id := Fetching(now)],
                     aborted := s.aborted[id := false], log := s.log + [Admitted(source), Started(id)]),
                  Await(id))
  {
    assert s.log + [Admitted(source)] + [Started(id)] == s.log + [Admitted(source), Started(id)];
  }

  /**
   Every lookup of a document URL, in every run: a fresh entry answers with the last settlement and becomes
   the most recent one; else a flight under way is joined; else a full flight table refuses; else the
   source limiter decides, and if it admits, a flight starts now. Each costs what it says and no more.
   */
  lemma EveryLookupIsAnswered(o: Options, steps: seq<Step>, id: string, source: string, now: int,
                              local: Option<ResolvedClient>)
    requires Unlimited(o, After(o, INITIAL, steps), id)
    ensures var s := After(o, INITIAL, steps);
            var (s1, reply) := Resolve(o, s, id, source, now, local);
            var missed := s.(cache := Delete(s.cache, id));
            var (l, d) := SourceConsume(s.limiter, FixedWindow.Request(source, now), o.rateLimitPerMinute,
                                        o.rateBucketMaxEntries);
            if Fresh(s.cache, id, now) then
              && id in s.settled && reply == Done(s.settled[id].outcome)
              && s1 == s.(cache := s1.cache) && Get(s1.cache, id) == Get(s.cache, id) && Younger(s1.cache, id) == {}
            else if id in s.flights then s1 == missed && reply == Await(id)
            else if |s.flights.Keys| == o.maxInFlight then
              s1 == missed && reply == Refused(TemporarilyUnavailable, "CIMD lookup capacity exhausted")
            else if d.Reject? then
              && s1 == missed.(limiter := l)
              && reply == Done(Failure(MetadataError(RateLimited, "CIMD lookup rate limit exceeded",
                                                     Some(d.retryAfterSeconds))))
            else
              && reply == Await(id)
              && s1 == missed.(limiter := l, inFlight := s.inFlight + 1, flights := s.flights[id := Fetching(now)],
                               aborted := s.aborted[id := false], log := s.log + [Admitted(source), Started(id)])
  {
    Reached(o, steps);
    var s := After(o, INITIAL, steps);
    if Fresh(s.cache, id, now) {
      FreshIsAnswered(o, s, id, source, now, local);
    } else {
      StaleIsDropped(o, s, id, source, now, local);
      MissIsDecided(o, s.(cache := Delete(s.cache, id)), id, source, now);
    }
  }

  // ----- What a fetch comes to -----

  const SHUT_DOWN := MetadataError(TemporarilyUnavailable, "OAuth client resolver is shutting down", None)

  ghost predicate Dismissed(s: State, id: string) { s.closed || (id in s.aborted && s.aborted[id]) }

  /**
   A fetch that is answered. A valid document settles the flight with its own client, unless the flight was
   aborted or the resolver closed, which counts as the shutdown error; an invalid one is an error.
   */
  lemma AnswerSettles(o: Options, s: State, id: string, response: Response, now: int)
    requires id in s.flights && s.flights[id].Fetching?
    ensures var s1 := Next(o, s, RespondStep(id, response, now));
            match ValidateResponse(id, response, s.flights[id].startedAt, o.policy)
            case Err(message) => s1 == s.(flights := s.flights[id := Failing(Plain(message))])
            case Ok(d) =>
              if Dismissed(s, id) then s1 == s.(flights := s.flights[id := Failing(Known(SHUT_DOWN))])
              else
                var outcome := Success(ResolvedClient(d.clientId, Some(d.clientName), d.redirectUris, Cimd, None));
                && s1.flights == s.flights[id := Settled(outcome)]
                && s1.settled == s.settled[id := Settlement(outcome, now)]
  {}

  /** A fetch that fails: after a close it is the shutdown error, else the resolver's own error or an invalid client. */
  lemma FailureSettles(o: Options, s: State, id: string, now: int)
    requires id in s.flights && s.flights[id].Failing?
    ensures var s1 := Next(o, s, CatchStep(id, now));
            var error := if s.closed then SHUT_DOWN
                         else match s.flights[id].thrown
                              case Known(e) => e
                              case Plain(message) => MetadataError(InvalidClient, message, None);
            && s1.flights == s.flights[id := Settled(Failure(error))]
            && s1.settled == s.settled[id := Settlement(Failure(error), now)]
  {}

  /** An abort marks its own flight and nothing else; a rejection is remembered as it is. */
  lemma AbortAndRejection(o: Options, s: State, id: string, thrown: Thrown)
    requires id in s.aborted
    ensures Next(o, s, AbortStep(id)) == s.(aborted := s.aborted[id := true])
    ensures id in s.flights && s.flights[id].Fetching? ==>
              Next(o, s, RejectStep(id, thrown)) == s.(flights := s.flights[id := Failing(thrown)])
  {}

  lemma OneStepDismisses(o: Options, s: State, step: Step, id: string)
    requires FlightsOk(o, s) && id in s.flights && step != FinalizeStep(id)
    ensures var s1 := Next(o, s, step);
            Dismissed(s1, id) <==> Dismissed(s, id) || step == AbortStep(id) || step == CloseStep
  {
    if step.ResolveStep? { ResolveShape(o, s, step.id, step.source, step.now, step.local); }
  }

  /** The flight of `id` is under way in a state that runs can reach. */
  ghost predicate UnderWay(o: Options, s: State, id: string) { FlightsOk(o, s) && id in s.flights }

  lemma OneStepUnderWay(o: Options, s: State, step: Step, id: string)
    requires UnderWay(o, s, id) && step != FinalizeStep(id)
    ensures UnderWay(o, Next(o, s, step), id)
  {
    StepKeepsFlights(o, s, step);
    StepKeepsFlight(o, s, step, id);
  }

  /** The steps that dismiss the flight of `id`: its timeout and a close. */
  predicate Dismisses(step: Step, id: string) { step == AbortStep(id) || step == CloseStep }

  predicate SomeDismisses(more: seq<Step>, id: string) {
    more != [] && (Dismisses(more[0], id) || SomeDismisses(more[1..], id))
  }

  /** Until its final handler a flight is dismissed exactly if it was, or its timeout or a close has come. */
  lemma {:induction false} DismissedExactlyWhen(o: Options, s: State, more: seq<Step>, id: string)
    requires UnderWay(o, s, id) && FinalizeStep(id) !in more
    ensures UnderWay(o, After(o, s, more), id)
    ensures Dismissed(After(o, s, more), id) <==> Dismissed(s, id) || SomeDismisses(more, id)
    decreases |more|
  {
    if more != [] {
      var s1 := Next(o, s, more[0]);
      assert UnderWay(o, s1, id) by { OneStepUnderWay(o, s, more[0], id); }
      assert Dismissed(s1, id) <==> Dismissed(s, id) || Dismisses(more[0], id) by {
        OneStepDismisses(o, s, more[0], id);
      }
      DismissedExactlyWhen(o, s1, more[1..], id);
    }
  }

  // ----- Settlements are cached -----

  /** The step settles the flight of `id`. */
  ghost predicate Settles(o: Options, s: State, step: Step, id: string) {
    && id in s.flights && !s.flights[id].Settled?
    && id in Next(o, s, step).flights && Next(o, s, step).flights[id].Settled?
  }

  /** Until when a settlement is good: what the document was granted, or thirty seconds for a failure. */
  function GoodUntil(s: State, step: Step, id: string): int {
    match step
    case RespondStep(_, response, now) =>
      if id in s.flights && s.flights[id].Fetching? && PositiveTtl(response, s.flights[id].startedAt).Ok?
      then now + PositiveTtl(response, s.flights[id].startedAt).value else now
    case CatchStep(_, now) => now + 30_000
    case _ => 0
  }

  lemma SettlingSteps(o: Options, s: State, step: Step, id: string)
    requires Settles(o, s, step, id)
    ensures (step.RespondStep? || step.CatchStep?) && step.id == id && Enabled(s, step)
    ensures step.RespondStep? ==> !Dismissed(s, id) && PositiveTtl(step.response, s.flights[id].startedAt).Ok?
  {
    if step.ResolveStep? { ResolveShape(o, s, step.id, step.source, step.now, step.local); }
  }

  lemma WrittenEntry(c: Cache, id: string, v: CacheValue, cap: nat)
    requires Distinct(c) && cap > 0 && WithinLimit(id)
    ensures Get(WriteCache(c, id, v, cap), id) == Some(v) && Younger(WriteCache(c, id, v, cap), id) == {}
  {
    var t := Touch(c, id, v);
    TouchKeys(c, id, v);
    TouchGet(c, id, v, id);
    TrimGet(t, cap, id);
  }

  /** What a settlement writes, if anything: its outcome, until it is no longer good. */
  ghost predicate Writes(o: Options, s: State, step: Step, id: string) {
    var s1 := Next(o, s, step);
    && id in s1.flights && s1.flights[id].Settled? && id in s1.settled
    && s1.settled[id].outcome == s1.flights[id].outcome
    && s1.cache == if Dismissed(s, id) then s.cache
                   else WriteCache(s.cache, id, CacheValue(s1.flights[id].outcome, GoodUntil(s, step, id)),
                                   o.cacheMaxEntries)
  }

  lemma AnswerIsWritten(o: Options, s: State, step: Step, id: string)
    requires step.RespondStep? && Settles(o, s, step, id)
    ensures Writes(o, s, step, id) && Next(o, s, step).settled[id].at == step.now
  {
    SettlingSteps(o, s, step, id);
    var d := ValidateResponse(id, step.response, s.flights[id].startedAt, o.policy);
    ValidatedExactly(id, step.response, s.flights[id].startedAt, o.policy);
    assert d.Ok?;
    assert GoodUntil(s, step, id) == step.now + d.value.ttlMs;
    assert Next(o, s, step) == Settle(o, s, id, Success(CimdClient(d.value)), d.value.ttlMs, step.now);
  }

  lemma FailureIsWritten(o: Options, s: State, step: Step, id: string)
    requires step.CatchStep? && Settles(o, s, step, id)
    ensures Writes(o, s, step, id) && Next(o, s, step).settled[id].at == step.now
  {
    SettlingSteps(o, s, step, id);
  }

  lemma SettledOutcome(o: Options, s: State, step: Step, id: string)
    requires Settles(o, s, step, id)
    ensures step.RespondStep? || step.CatchStep?
    ensures Writes(o, s, step, id) && Next(o, s, step).settled[id].at == step.now
  {
    SettlingSteps(o, s, step, id);
    if step.RespondStep? { AnswerIsWritten(o, s, step, id); } else { FailureIsWritten(o, s, step, id); }
  }

  /**
   In every run, the moment a flight settles its outcome is in the cache, as the most recent entry and for
   the time it is good, if the resolver is open, the flight not aborted and the cache has any room.
   Aborted or closed, the settlement leaves the cache as it was.
   */
  lemma SettlementIsCached(o: Options, steps: seq<Step>, step: Step, id: string)
    requires Settles(o, After(o, INITIAL, steps), step, id)
    ensures var s := After(o, INITIAL, steps);
            var s1 := Next(o, s, step);
            && (step.RespondStep? || step.CatchStep?)
            && id in s1.settled && s1.settled[id] == Settlement(s1.flights[id].outcome, step.now)
            && (Dismissed(s, id) ==> s1.cache == s.cache)
            && (!Dismissed(s, id) && o.cacheMaxEntries > 0 ==>
                  && Get(s1.cache, id) == Some(CacheValue(s1.flights[id].outcome, GoodUntil(s, step, id)))
                  && Younger(s1.cache, id) == {})
  {
    Reached(o, steps);
    var s := After(o, INITIAL, steps);
    SettlingSteps(o, s, step, id);
    SettledOutcome(o, s, step, id);
    if !Dismissed(s, id) && o.cacheMaxEntries > 0 {
      var v := CacheValue(Next(o, s, step).flights[id].outcome, GoodUntil(s, step, id));
      WrittenEntry(s.cache, id, v, o.cacheMaxEntries);
    }
  }

  lemma {:induction false} StaysOpen(o: Options, s: State, more: seq<Step>)
    requires CloseStep !in more
    ensures After(o, s, more).closed == s.closed
    decreases |more|
  {
    if more != [] {
      if more[0].ResolveStep? { ResolveShape(o, s, more[0].id, more[0].source, more[0].now, more[0].local); }
      StaysOpen(o, Next(o, s, more[0]), more[1..]);
    }
  }

  /** An entry, as the most recent one, is served as long as the promise holds. */
  lemma RecentEntryIsServed(o: Options, s: State, id: string, more: seq<Step>, source: string, now: int,
                            local: Option<ResolvedClient>)
    requires CacheOk(o, s) && Unlimited(o, s, id) && id in Keys(s.cache) && Younger(s.cache, id) == {}
    requires now < Get(s.cache, id).value.expiresAt
    requires forall step <- more :: Before(step, Get(s.cache, id).value.expiresAt)
    requires |TouchedBy(more) - {id}| < o.cacheMaxEntries
    ensures var z := After(o, s, more);
            var (z1, reply) := Resolve(o, z, id, source, now, local);
            && reply == Done(Get(s.cache, id).value.outcome)
            && z1 == z.(cache := z1.cache) && Get(z1.cache, id) == Get(s.cache, id) && Younger(z1.cache, id) == {}
  {
    assert Younger(s.cache, id) + (TouchedBy(more) - {id}) == TouchedBy(more) - {id};
    RecentEntrySurvives(o, s, more, id);
    StaysOpen(o, s, more);
    RunKeepsCache(o, s, more);
    FreshIsAnswered(o, After(o, s, more), id, source, now, local);
  }

  lemma {:induction false} RunKeepsCache(o: Options, s: State, more: seq<Step>)
    requires CacheOk(o, s)
    ensures CacheOk(o, After(o, s, more))
    decreases |more|
  {
    if more != [] {
      StepKeepsCache(o, s, more[0]);
      RunKeepsCache(o, Next(o, s, more[0]), more[1..]);
    }
  }

  /**
   The cache works. From the settlement of a flight on, until it is no longer good, and short of a close and
   of as many other identifiers touched as the cache holds, every lookup is answered with that settlement
   at once: no flight, no admission, no entry in the log. And each such lookup renews the promise.
   */
  lemma SettlementIsServed(o: Options, steps: seq<Step>, step: Step, id: string, more: seq<Step>, source: string,
                           now: int, local: Option<ResolvedClient>)
    requires var s := After(o, INITIAL, steps);
             && Settles(o, s, step, id) && !Dismissed(s, id) && now < GoodUntil(s, step, id)
             && forall x <- more :: Before(x, GoodUntil(s, step, id))
    requires |TouchedBy(more) - {id}| < o.cacheMaxEntries
    ensures var s1 := Next(o, After(o, INITIAL, steps), step);
            var z := After(o, s1, more);
            var (z1, reply) := Resolve(o, z, id, source, now, local);
            && reply == Done(s1.flights[id].outcome)
            && z1 == z.(cache := z1.cache) && Get(z1.cache, id) == Get(s1.cache, id) && Younger(z1.cache, id) == {}
  {
    Reached(o, steps);
    var s := After(o, INITIAL, steps);
    SettlementIsCached(o, steps, step, id);
    SettlingSteps(o, s, step, id);
    StepKeepsCache(o, s, step);
    PhaseStep(o, s, step);
    RecentEntryIsServed(o, Next(o, s, step), id, more, source, now, local);
  }

  // ----- The close -----

  /** The first close empties cache and limiter and aborts every flight; it ends none, and a second one does nothing. */
  lemma CloseAborts(o: Options, steps: seq<Step>)
    ensures var s := After(o, INITIAL, steps);
            var s1 := Next(o, s, CloseStep);
            if s.closed then s1 == s
            else
              && s1.closed && s1.cache == [] && s1.limiter == SourceState([], 0)
              && s1.closing == Some(s.flights.Keys)
              && (forall id <- s.flights :: id in s1.aborted && s1.aborted[id])
              && s1.flights == s.flights && s1.inFlight == s.inFlight && s1.log == s.log && s1.settled == s.settled
  {
    Reached(o, steps);
  }

  /** And they stay empty: after a close no step writes to the cache or consults the limiter. */
  lemma {:induction false} EmptyForGood(o: Options, s: State, more: seq<Step>)
    requires s.closed && s.cache == [] && s.limiter == SourceState([], 0)
    ensures var z := After(o, s, more); z.closed && z.cache == [] && z.limiter == SourceState([], 0)
    decreases |more|
  {
    if more != [] { EmptyForGood(o, Next(o, s, more[0]), more[1..]); }
  }
}
