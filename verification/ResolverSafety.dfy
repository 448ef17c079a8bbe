/** What every run of the client resolver keeps. */
module ResolverSafety {
  import opened Prelude
  import opened OrderedMaps
  import opened RateLimiters
  import opened ClientDocument
  import opened ResolverSteps
  import FixedWindow

  datatype Kind = Admission | Start | End

  function KindOf(e: Event): Kind {
    match e case Admitted(_) => Admission case Started(_) => Start case Finalized(_) => End
  }

  function Total(log: seq<Event>, kind: Kind): nat {
    if log == [] then 0
    else Total(log[..|log| - 1], kind) + if KindOf(log[|log| - 1]) == kind then 1 else 0
  }

  lemma TotalStep(log: seq<Event>, e: Event, kind: Kind)
    ensures Total(log + [e], kind) == Total(log, kind) + if KindOf(e) == kind then 1 else 0
  {
    assert (log + [e])[..|log|] == log;
  }

  // ----- Flights -----

  /** Every start is paid for by one admission, and all but `open` of them have been ended. */
  ghost predicate Balanced(log: seq<Event>, open: int) {
    Total(log, Start) == Total(log, Admission) == Total(log, End) + open
  }

  /** Of each identifier at most one flight is under way, namely if it is in `ids`. */
  ghost predicate OneAtATime(log: seq<Event>, ids: set<string>) {
    forall id :: multiset(log)[Started(id)] == multiset(log)[Finalized(id)] + if id in ids then 1 else 0
  }

  /** The flight table, the controllers, the counter and the log tell one story. */
  ghost predicate FlightsOk(o: Options, s: State) {
    && s.aborted.Keys == s.flights.Keys
    && s.inFlight == |s.flights.Keys| <= o.maxInFlight
    && Balanced(s.log, s.inFlight)
    && OneAtATime(s.log, s.flights.Keys)
    && (s.closed <==> s.closing.Some?)
    && (s.closed ==> s.flights.Keys <= s.closing.value && forall id <- s.aborted :: s.aborted[id])
  }

  lemma StartBalance(log: seq<Event>, open: int, source: string, id: string)
    requires Balanced(log, open)
    ensures Balanced(log + [Admitted(source)] + [Started(id)], open + 1)
  {
    forall kind
      ensures Total(log + [Admitted(source)] + [Started(id)], kind) == Total(log, kind) + if kind == End then 0 else 1
    {
      TotalStep(log, Admitted(source), kind);
      TotalStep(log + [Admitted(source)], Started(id), kind);
    }
  }

  lemma StartOne(log: seq<Event>, ids: set<string>, source: string, id: string)
    requires OneAtATime(log, ids) && id !in ids
    ensures OneAtATime(log + [Admitted(source)] + [Started(id)], ids + {id})
  {}

  lemma StartKeepsFlights(o: Options, s: State, id: string, source: string, now: int)
    requires FlightsOk(o, s) && id !in s.flights && s.inFlight < o.maxInFlight && !s.closed
    ensures FlightsOk(o, StartFlight(s.(log := s.log + [Admitted(source)]), id, now))
  {
    var s2 := StartFlight(s.(log := s.log + [Admitted(source)]), id, now);
    var ids := s.flights.Keys;
    assert s2.flights.Keys == ids + {id} && s2.aborted.Keys == ids + {id};
    assert Balanced(s2.log, s2.inFlight) by { StartBalance(s.log, s.inFlight, source, id); }
    assert OneAtATime(s2.log, ids + {id}) by { StartOne(s.log, ids, source, id); }
  }

  lemma EndOne(log: seq<Event>, open: int, ids: set<string>, id: string)
    requires Balanced(log, open) && OneAtATime(log, ids) && id in ids
    ensures Balanced(log + [Finalized(id)], open - 1) && OneAtATime(log + [Finalized(id)], ids - {id})
  {
    forall kind ensures Total(log + [Finalized(id)], kind) == Total(log, kind) + if kind == End then 1 else 0 {
      TotalStep(log, Finalized(id), kind);
    }
  }

  lemma FinalizeKeepsFlights(o: Options, s: State, id: string)
    requires FlightsOk(o, s) && id in s.flights
    ensures FlightsOk(o, Finalize(s, id))
  {
    var s1 := Finalize(s, id);
    EndOne(s.log, s.inFlight, s.flights.Keys, id);
    assert s1.flights.Keys == s.flights.Keys - {id};
    assert s1.aborted.Keys == s.aborted.Keys - {id};
  }

  /** What a step leaves alone when it only moves a flight from phase to phase. */
  ghost predicate SameFlights(s: State, s1: State) {
    && s1.flights.Keys == s.flights.Keys && s1.aborted.Keys == s.aborted.Keys
    && s1.inFlight == s.inFlight && s1.log == s.log && s1.closed == s.closed && s1.closing == s.closing
    && (forall id <- s.aborted :: s.aborted[id] ==> s1.aborted[id])
  }

  lemma FlightStep(o: Options, s: State, step: Step)
    requires Enabled(s, step) && (step.RespondStep? || step.RejectStep? || step.CatchStep?)
    ensures SameFlights(s, Next(o, s, step))
  {
    assert Next(o, s, step).flights.Keys == s.flights.Keys + {step.id};
  }

  lemma PhaseStep(o: Options, s: State, step: Step)
    requires Enabled(s, step) && !step.ResolveStep? && !step.FinalizeStep? && !step.CloseStep?
    ensures SameFlights(s, Next(o, s, step))
  {
    if step.RespondStep? || step.RejectStep? || step.CatchStep? { FlightStep(o, s, step); }
  }

  /** All a lookup can do: read the cache, spend limiter budget, and start a flight. */
  lemma ResolveShape(o: Options, s: State, id: string, source: string, now: int, local: Option<ResolvedClient>)
    ensures var s1 := Resolve(o, s, id, source, now, local).0;
            var quiet := s.(cache := s1.cache, limiter := s1.limiter);
            || s1 == s
            || (&& s1.cache == ReadCache(s.cache, id, now).0 && !s.closed
                && (|| s1 == quiet
                    || (&& id !in s.flights && s.inFlight < o.maxInFlight && ReadCache(s.cache, id, now).1.None?
                        && s1 == StartFlight(quiet.(log := s.log + [Admitted(source)]), id, now))))
  {}

  lemma ResolveKeepsFlights(o: Options, s: State, id: string, source: string, now: int, local: Option<ResolvedClient>)
    requires FlightsOk(o, s)
    ensures FlightsOk(o, Resolve(o, s, id, source, now, local).0)
  {
    ResolveShape(o, s, id, source, now, local);
    var s1 := Resolve(o, s, id, source, now, local).0;
    var quiet := s.(cache := s1.cache, limiter := s1.limiter);
    if s1 != s && s1 != quiet { StartKeepsFlights(o, quiet, id, source, now); }
  }

  lemma CloseKeepsFlights(o: Options, s: State)
    requires FlightsOk(o, s)
    ensures FlightsOk(o, Close(s))
  {
    assert Close(s).aborted.Keys == s.aborted.Keys;
  }

  lemma StepKeepsFlights(o: Options, s: State, step: Step)
    requires FlightsOk(o, s)
    ensures FlightsOk(o, Next(o, s, step))
  {
    if Enabled(s, step) {
      match step {
        case ResolveStep(id, source, now, local) => ResolveKeepsFlights(o, s, id, source, now, local);
        case FinalizeStep(id) => FinalizeKeepsFlights(o, s, id);
        case CloseStep => CloseKeepsFlights(o, s);
        case _ => PhaseStep(o, s, step);
      }
    }
  }

  // ----- Cache -----

  ghost predicate EntryOk(s: State, id: string, v: CacheValue) {
    && id in s.settled
    && v.outcome == s.settled[id].outcome
    && s.settled[id].at < v.expiresAt <= s.settled[id].at + MAX_POSITIVE_TTL_MS
    && (v.outcome.Success? ==> v.outcome.client.clientId == id)
    && (id in s.flights ==> s.flights[id].Settled?)
  }

  ghost predicate CacheOk(o: Options, s: State) {
    && Distinct(s.cache) && |s.cache| <= o.cacheMaxEntries
    && (s.closed ==> s.cache == [])
    && (forall id :: id in Keys(s.cache) ==> EntryOk(s, id, Get(s.cache, id).value))
    && (forall id <- s.flights :: s.flights[id].Settled? ==>
          id in s.settled && s.settled[id].outcome == s.flights[id].outcome)
  }

  lemma ReadKeepsCache(c: Cache, key: string, now: int, q: string)
    requires Distinct(c)
    ensures var c1 := ReadCache(c, key, now).0;
            && Distinct(c1) && Keys(c1) <= Keys(c) && |c1| <= |c|
            && (q in Keys(c1) ==> Get(c1, q) == Get(c, q))
            && (q in Keys(c) && Get(c, q).value.expiresAt > now ==> q in Keys(c1))
            && (ReadCache(c, key, now).1.None? ==> key !in Keys(c1))
            && (q != key ==> Younger(c1, q) <= Younger(c, q) + {key})
            && (q == key && q in Keys(c1) ==> Younger(c1, q) == {})
  {
    DeleteKeys(c, key);
    DeleteGet(c, key, q);
    if Get(c, key).Some? {
      TouchKeys(c, key, Get(c, key).value);
      TouchGet(c, key, Get(c, key).value, q);
    }
  }

  lemma SettleKeepsCache(o: Options, s: State, id: string, outcome: Outcome, ttlMs: int, now: int)
    requires CacheOk(o, s) && id in s.flights && !s.flights[id].Settled?
    requires 0 < ttlMs <= MAX_POSITIVE_TTL_MS
    requires outcome.Success? ==> outcome.client.clientId == id
    ensures CacheOk(o, Settle(o, s, id, outcome, ttlMs, now))
  {
    var s1 := Settle(o, s, id, outcome, ttlMs, now);
    var v := CacheValue(outcome, now + ttlMs);
    var t := Touch(s.cache, id, v);
    TouchKeys(s.cache, id, v);
    TrimKeys(t, o.cacheMaxEntries);
    forall q | q in Keys(s1.cache) ensures EntryOk(s1, q, Get(s1.cache, q).value) {
      if s1.cache != s.cache {
        TrimGet(t, o.cacheMaxEntries, q);
        TouchGet(s.cache, id, v, q);
      }
      if q in Keys(s.cache) { assert EntryOk(s, q, Get(s.cache, q).value); }
    }
  }

  lemma ResolveKeepsCache(o: Options, s: State, id: string, source: string, now: int, local: Option<ResolvedClient>)
    requires CacheOk(o, s)
    ensures CacheOk(o, Resolve(o, s, id, source, now, local).0)
  {
    ResolveShape(o, s, id, source, now, local);
    var s1 := Resolve(o, s, id, source, now, local).0;
    if s1 != s {
      ReadKeepsCache(s.cache, id, now, id);
      forall q | q in Keys(s1.cache) ensures EntryOk(s1, q, Get(s1.cache, q).value) {
        ReadKeepsCache(s.cache, id, now, q);
        assert EntryOk(s, q, Get(s.cache, q).value);
      }
    }
  }

  /** A validated document is the client's own and fresh. */
  lemma ValidatedFacts(id: string, response: Response, startedAt: int, policy: Policy)
    requires ValidateResponse(id, response, startedAt, policy).Ok?
    ensures var d := ValidateResponse(id, response, startedAt, policy).value;
            d.clientId == id && 0 < d.ttlMs <= MAX_POSITIVE_TTL_MS
  {
    PositiveTtlBounds(response, startedAt);
  }

  lemma RespondKeepsCache(o: Options, s: State, id: string, response: Response, now: int)
    requires CacheOk(o, s) && id in s.flights && s.flights[id].Fetching?
    ensures CacheOk(o, Respond(o, s, id, response, now))
  {
    var d := ValidateResponse(id, response, s.flights[id].startedAt, o.policy);
    if d.Ok? && !s.closed && !IsAborted(s, id) {
      ValidatedFacts(id, response, s.flights[id].startedAt, o.policy);
      SettleKeepsCache(o, s, id, Success(CimdClient(d.value)), d.value.ttlMs, now);
    } else {
      OtherPhaseKeepsCache(o, s, Respond(o, s, id, response, now), id);
    }
  }

  lemma CatchKeepsCache(o: Options, s: State, id: string, now: int)
    requires CacheOk(o, s) && id in s.flights && s.flights[id].Failing?
    ensures CacheOk(o, Catch(o, s, id, now))
  {
    var error := if s.closed then SHUTTING_DOWN else Normalize(s.flights[id].thrown);
    SettleKeepsCache(o, s, id, Failure(error), NEGATIVE_TTL_MS, now);
  }

  lemma ClearKeepsCache(o: Options, s: State, s1: State)
    requires CacheOk(o, s) && s1.cache == [] && s1.flights == s.flights && s1.settled == s.settled
    ensures CacheOk(o, s1)
  {}

  lemma StepKeepsCache(o: Options, s: State, step: Step)
    requires CacheOk(o, s)
    ensures CacheOk(o, Next(o, s, step))
  {
    if Enabled(s, step) {
      match step {
        case ResolveStep(id, source, now, local) => ResolveKeepsCache(o, s, id, source, now, local);
        case RespondStep(id, response, now) => RespondKeepsCache(o, s, id, response, now);
        case CatchStep(id, now) => CatchKeepsCache(o, s, id, now);
        case RejectStep(id, thrown) => OtherPhaseKeepsCache(o, s, s.(flights := s.flights[id := Failing(thrown)]), id);
        case FinalizeStep(id) => OtherPhaseKeepsCache(o, s, Finalize(s, id), id);
        case AbortStep(id) => OtherPhaseKeepsCache(o, s, s.(aborted := s.aborted[id := true]), id);
        case CloseStep => if s.closing.None? { ClearKeepsCache(o, s, Close(s)); }
        case CloseDoneStep => ClearKeepsCache(o, s, CloseDone(s));
      }
    }
  }

  /** Steps that leave the cache and the settlements alone and settle no flight. */
  lemma OtherPhaseKeepsCache(o: Options, s: State, s1: State, id: string)
    requires CacheOk(o, s)
    requires s1.cache == s.cache && s1.settled == s.settled && s1.closed == s.closed
    requires forall q <- s1.flights :: q in s.flights && (s1.flights[q] == s.flights[q]
                                       || (q == id && !s.flights[q].Settled? && !s1.flights[q].Settled?))
    ensures CacheOk(o, s1)
  {
    forall q | q in Keys(s1.cache) ensures EntryOk(s1, q, Get(s1.cache, q).value) {
      assert EntryOk(s, q, Get(s.cache, q).value);
    }
  }

  // ----- Runs -----

  lemma {:induction false} RunKeeps(o: Options, s: State, steps: seq<Step>)
    requires FlightsOk(o, s) && CacheOk(o, s)
    ensures FlightsOk(o, After(o, s, steps)) && CacheOk(o, After(o, s, steps))
    decreases |steps|
  {
    if steps != [] {
      StepKeepsFlights(o, s, steps[0]);
      StepKeepsCache(o, s, steps[0]);
      RunKeeps(o, Next(o, s, steps[0]), steps[1..]);
    }
  }

  lemma InitialOk(o: Options)
    ensures FlightsOk(o, INITIAL) && CacheOk(o, INITIAL)
  {}

  /**
   In every interleaving: one controller per flight, as many flights as the counter says and
   never more than allowed, no two flights of one identifier at a time, every start paid for by
   one admission and ended by one finalization, and no cached entry beside an unsettled flight.
   */
  lemma EveryRunKeepsFlights(o: Options, steps: seq<Step>, id: string)
    ensures var s := After(o, INITIAL, steps);
            && s.flights.Keys == s.aborted.Keys
            && s.inFlight == |s.flights.Keys| <= o.maxInFlight
            && Total(s.log, Start) == Total(s.log, Admission) == Total(s.log, End) + s.inFlight
            && (multiset(s.log)[Started(id)] == multiset(s.log)[Finalized(id)] + if id in s.flights then 1 else 0)
            && (id in s.flights && !s.flights[id].Settled? ==> Get(s.cache, id).None?)
  {
    InitialOk(o);
    RunKeeps(o, INITIAL, steps);
    var s := After(o, INITIAL, steps);
    assert id in Keys(s.cache) ==> EntryOk(s, id, Get(s.cache, id).value);
  }

  /** A lookup that neither the cache nor a flight under way can answer. */
  predicate Misses(o: Options, s: State, id: string, now: int) {
    && !s.closed && WithinLimit(id) && o.kindOf(id).DocumentUrl?
    && ReadCache(s.cache, id, now).1.None? && id !in s.flights
  }

  /** Such a lookup drops its own expired entry, if there is one, and goes on to the limits. */
  lemma MissedLookup(o: Options, s: State, id: string, source: string, now: int, local: Option<ResolvedClient>)
    requires Misses(o, s, id, now) && Distinct(s.cache)
    ensures Resolve(o, s, id, source, now, local) == Miss(o, s.(cache := Delete(s.cache, id)), id, source, now)
  {
    DeleteKeys(s.cache, id);
    assert ReadCache(s.cache, id, now).0 == Delete(s.cache, id);
  }

  lemma MissCases(o: Options, s: State, id: string, source: string, now: int)
    ensures var (s1, reply) := Miss(o, s, id, source, now);
            if s.inFlight >= o.maxInFlight then
              s1 == s && reply == Done(Failure(Unavailable("CIMD lookup capacity exhausted")))
            else if reply == Await(id) then
              s1.flights.Keys == s.flights.Keys + {id} && s1.log == s.log + [Admitted(source)] + [Started(id)]
            else
              && s1 == s.(limiter := s1.limiter)
              && reply.Done? && reply.outcome.Failure? && reply.outcome.error.kind == RateLimited
  {}

  /**
   In every run a lookup that misses is refused for capacity exactly when the flight table is full, and
   then costs nobody anything: the limiter, the flights and the log stay, and all that can change is that
   an expired entry of its own goes. Otherwise it starts exactly one flight, its own, for exactly one
   admission, or is told to wait by the limiter and starts none.
   */
  lemma CapacityRejectionIsFree(o: Options, steps: seq<Step>, id: string, source: string, now: int,
                                local: Option<ResolvedClient>)
    requires Misses(o, After(o, INITIAL, steps), id, now)
    ensures var s := After(o, INITIAL, steps);
            var (s1, reply) := Resolve(o, s, id, source, now, local);
            && (reply == Done(Failure(Unavailable("CIMD lookup capacity exhausted")))
                <==> |s.flights.Keys| == o.maxInFlight)
            && (|s.flights.Keys| == o.maxInFlight ==> s1 == s.(cache := Delete(s.cache, id)))
            && (reply == Await(id) ==>
                  s1.flights.Keys == s.flights.Keys + {id} && s1.log == s.log + [Admitted(source)] + [Started(id)])
            && (reply != Await(id) ==>
                  && s1 == s.(cache := Delete(s.cache, id), limiter := s1.limiter)
                  && (|s.flights.Keys| < o.maxInFlight ==>
                        reply.outcome.Failure? && reply.outcome.error.kind == RateLimited))
  {
    InitialOk(o);
    RunKeeps(o, INITIAL, steps);
    var s := After(o, INITIAL, steps);
    MissedLookup(o, s, id, source, now, local);
    MissCases(o, s.(cache := Delete(s.cache, id)), id, source, now);
  }

  /**
   The cache shows only in speed: in every run, a lookup answered without a flight gives exactly the
   outcome, success or error, of the last settled flight of that identifier, and the entry it was read
   from was written with a lifetime in (0, one hour].
   */
  lemma CacheIsTransparent(o: Options, steps: seq<Step>, id: string, source: string, now: int,
                           local: Option<ResolvedClient>)
    requires var s := After(o, INITIAL, steps);
             && !s.closed && WithinLimit(id) && o.kindOf(id).DocumentUrl?
             && ReadCache(s.cache, id, now).1.Some?
    ensures var s := After(o, INITIAL, steps);
            && id in s.settled
            && Resolve(o, s, id, source, now, local).1 == Done(s.settled[id].outcome)
            && s.settled[id].at < Get(s.cache, id).value.expiresAt <= s.settled[id].at + MAX_POSITIVE_TTL_MS
            && now < Get(s.cache, id).value.expiresAt
            && |s.cache| <= o.cacheMaxEntries
  {
    InitialOk(o);
    RunKeeps(o, INITIAL, steps);
    var s := After(o, INITIAL, steps);
    assert EntryOk(s, id, Get(s.cache, id).value);
  }

  // ----- One settlement for everyone who waits -----

  /** One promise: once it has settled it keeps its settlement. */
  ghost predicate KeepsSettlement(s: State, s1: State, id: string) {
    id in s.flights && s.flights[id].Settled? ==>
      id in s1.flights && s1.flights[id] == s.flights[id]
      && (id in s.settled ==> id in s1.settled && s1.settled[id] == s.settled[id])
  }

  lemma ResolveKeepsFlight(o: Options, s: State, step: Step, id: string)
    requires step.ResolveStep? && id in s.flights
    ensures var s1 := Next(o, s, step);
            && id in s1.flights && s1.flights[id] == s.flights[id] && s1.settled == s.settled
            && multiset(s1.log)[Started(id)] == multiset(s.log)[Started(id)]
  {
    ResolveShape(o, s, step.id, step.source, step.now, step.local);
  }

  lemma StepKeepsFlight(o: Options, s: State, step: Step, id: string)
    requires id in s.flights && step != FinalizeStep(id)
    ensures var s1 := Next(o, s, step);
            && id in s1.flights && KeepsSettlement(s, s1, id)
            && multiset(s1.log)[Started(id)] == multiset(s.log)[Started(id)]
  {
    if Enabled(s, step) {
      match step {
        case ResolveStep(_, _, _, _) => ResolveKeepsFlight(o, s, step, id);
        case FinalizeStep(other) =>
        case CloseStep =>
        case _ => PhaseStep(o, s, step);
      }
    }
  }

  lemma {:induction false} FlightOutlives(o: Options, s: State, more: seq<Step>, id: string)
    requires id in s.flights && FinalizeStep(id) !in more
    ensures var z := After(o, s, more);
            && id in z.flights && KeepsSettlement(s, z, id)
            && multiset(z.log)[Started(id)] == multiset(s.log)[Started(id)]
    decreases |more|
  {
    if more != [] {
      StepKeepsFlight(o, s, more[0], id);
      FlightOutlives(o, Next(o, s, more[0]), more[1..], id);
    }
  }

  lemma AwaitIsInFlight(o: Options, s: State, id: string, source: string, now: int, local: Option<ResolvedClient>)
    requires Resolve(o, s, id, source, now, local).1 == Await(id)
    ensures id in Resolve(o, s, id, source, now, local).0.flights
  {}

  /**
   Everyone who waits for a flight gets one and the same answer. From a lookup told to wait, in every run,
   until the final handler of the flight: the flight stays in the table, no second one of the identifier
   starts, and once it has settled neither its outcome nor the settlement changes, whatever else happens.
   So a second lookup told to wait in between waits for the same promise.
   */
  lemma OneSettlementForAll(o: Options, steps: seq<Step>, id: string, source: string, now: int,
                            local: Option<ResolvedClient>,
                            until: seq<Step>, after: seq<Step>)
    requires Resolve(o, After(o, INITIAL, steps), id, source, now, local).1 == Await(id)
    requires FinalizeStep(id) !in until && FinalizeStep(id) !in after
    ensures var joined := Resolve(o, After(o, INITIAL, steps), id, source, now, local).0;
            var (y, z) := (After(o, joined, until), After(o, joined, until + after));
            && id in y.flights && id in z.flights
            && multiset(z.log)[Started(id)] == multiset(y.log)[Started(id)] == multiset(joined.log)[Started(id)]
            && (y.flights[id].Settled? ==>
                  && z.flights[id] == y.flights[id]
                  && id in y.settled && id in z.settled && z.settled[id] == y.settled[id]
                  && y.settled[id].outcome == y.flights[id].outcome)
  {
    var s := After(o, INITIAL, steps);
    InitialOk(o);
    RunKeeps(o, INITIAL, steps);
    var step := ResolveStep(id, source, now, local);
    var joined := Next(o, s, step);
    StepKeepsFlights(o, s, step);
    StepKeepsCache(o, s, step);
    AwaitIsInFlight(o, s, id, source, now, local);
    RunKeeps(o, joined, until);
    FlightOutlives(o, joined, until, id);
    FlightOutlives(o, After(o, joined, until), after, id);
    AfterAppend(o, joined, until, after);
  }

  /** And the flight goes only with an outcome: what its final handler finds is the settlement everyone is given. */
  lemma FinalizedWithTheSettlement(o: Options, steps: seq<Step>, id: string)
    requires Enabled(After(o, INITIAL, steps), FinalizeStep(id))
    ensures var s := After(o, INITIAL, steps);
            var s1 := Next(o, s, FinalizeStep(id));
            && id in s.settled && s.flights[id] == Settled(s.settled[id].outcome)
            && id !in s1.flights && s1.settled == s.settled
            && multiset(s1.log)[Started(id)] == multiset(s1.log)[Finalized(id)]
            && (Get(s1.cache, id).Some? ==> Get(s1.cache, id).value.outcome == s.flights[id].outcome)
  {
    InitialOk(o);
    RunKeeps(o, INITIAL, steps);
    var s := After(o, INITIAL, steps);
    StepKeepsFlights(o, s, FinalizeStep(id));
    assert Get(s.cache, id).Some? ==> EntryOk(s, id, Get(s.cache, id).value);
  }

  // ----- Recency -----

  /** The identifiers a step can bring to the front of the cache. */
  function Touched(step: Step): set<string> {
    match step
    case ResolveStep(id, _, _, _) => {id}
    case RespondStep(id, _, _) => {id}
    case CatchStep(id, _) => {id}
    case _ => {}
  }

  function TouchedBy(steps: seq<Step>): set<string> {
    if steps == [] then {} else Touched(steps[0]) + TouchedBy(steps[1..])
  }

  predicate Before(step: Step, time: int) {
    (step.ResolveStep? ==> step.now < time) && !step.CloseStep? && !step.CloseDoneStep?
  }

  lemma WriteKeepsOther(c: Cache, key: string, v: CacheValue, cap: nat, q: string)
    requires Distinct(c) && q in Keys(c) && q != key && |Younger(c, q) + {key}| < cap
    ensures Get(WriteCache(c, key, v, cap), q) == Get(c, q)
    ensures Younger(WriteCache(c, key, v, cap), q) <= Younger(c, q) + {key}
  {
    TouchAndTrimKeeps(c, key, v, cap, q);
  }

  /** `c1` still holds what `c` holds for `q`, with at most `extra` come before it. */
  ghost predicate KeptRecent(c: Cache, c1: Cache, q: string, extra: set<string>) {
    Get(c1, q) == Get(c, q) && Younger(c1, q) <= Younger(c, q) + extra
  }

  /** The cache after a fetch result: as it was, or with one entry written. */
  lemma RespondCache(o: Options, s: State, id: string, response: Response, now: int) returns (v: CacheValue)
    requires id in s.flights && s.flights[id].Fetching?
    ensures Respond(o, s, id, response, now).cache in [s.cache, WriteCache(s.cache, id, v, o.cacheMaxEntries)]
  {
    var d := ValidateResponse(id, response, s.flights[id].startedAt, o.policy);
    if d.Ok? {
      v := CacheValue(Success(CimdClient(d.value)), now + d.value.ttlMs);
    } else {
      v := CacheValue(Failure(SHUTTING_DOWN), 0);
    }
  }

  lemma CatchCache(o: Options, s: State, id: string, now: int) returns (v: CacheValue)
    requires id in s.flights && s.flights[id].Failing?
    ensures Catch(o, s, id, now).cache in [s.cache, WriteCache(s.cache, id, v, o.cacheMaxEntries)]
  {
    var error := if s.closed then SHUTTING_DOWN else Normalize(s.flights[id].thrown);
    v := CacheValue(Failure(error), now + NEGATIVE_TTL_MS);
  }

  lemma WriteKeepsRecent(c: Cache, c1: Cache, key: string, v: CacheValue, cap: nat, q: string)
    requires Distinct(c) && q in Keys(c) && q != key && |Younger(c, q) + ({key} - {q})| < cap
    requires c1 in [c, WriteCache(c, key, v, cap)]
    ensures KeptRecent(c, c1, q, {key} - {q})
  {
    assert {key} - {q} == {key};
    WriteKeepsOther(c, key, v, cap, q);
  }

  lemma ReadKeepsRecent(c: Cache, key: string, now: int, q: string)
    requires Distinct(c) && q in Keys(c) && now < Get(c, q).value.expiresAt
    ensures KeptRecent(c, ReadCache(c, key, now).0, q, {key} - {q})
  {
    ReadKeepsCache(c, key, now, q);
  }

  lemma ResolveKeepsRecent(o: Options, s: State, id: string, source: string, now: int, local: Option<ResolvedClient>,
                           q: string)
    requires Distinct(s.cache) && q in Keys(s.cache) && now < Get(s.cache, q).value.expiresAt
    ensures KeptRecent(s.cache, Resolve(o, s, id, source, now, local).0.cache, q, {id} - {q})
  {
    ResolveShape(o, s, id, source, now, local);
    ReadKeepsRecent(s.cache, id, now, q);
  }

  lemma SettlingKeepsRecent(o: Options, s: State, step: Step, q: string)
    requires Distinct(s.cache) && q in Keys(s.cache) && Enabled(s, step) && (step.RespondStep? || step.CatchStep?)
    requires q != step.id && |Younger(s.cache, q) + ({step.id} - {q})| < o.cacheMaxEntries
    ensures KeptRecent(s.cache, Next(o, s, step).cache, q, {step.id} - {q})
  {
    var v: CacheValue;
    if step.RespondStep? {
      v := RespondCache(o, s, step.id, step.response, step.now);
    } else {
      v := CatchCache(o, s, step.id, step.now);
    }
    WriteKeepsRecent(s.cache, Next(o, s, step).cache, step.id, v, o.cacheMaxEntries, q);
  }

  lemma StepKeepsRecent(o: Options, s: State, step: Step, q: string)
    requires CacheOk(o, s) && q in Keys(s.cache) && Before(step, Get(s.cache, q).value.expiresAt)
    requires |Younger(s.cache, q) + (Touched(step) - {q})| < o.cacheMaxEntries
    ensures KeptRecent(s.cache, Next(o, s, step).cache, q, Touched(step) - {q})
  {
    assert EntryOk(s, q, Get(s.cache, q).value);
    if Enabled(s, step) {
      if step.ResolveStep? {
        ResolveKeepsRecent(o, s, step.id, step.source, step.now, step.local, q);
      } else if step.RespondStep? || step.CatchStep? {
        SettlingKeepsRecent(o, s, step, q);
      } else {
        assert Next(o, s, step).cache == s.cache;
      }
    }
  }

  /**
   Least recently used: an entry outlives every run, short of its expiry and of a shutdown, that
   touches fewer distinct other identifiers than the cache holds, counting those already younger.
   */
  lemma {:induction false} RecentEntrySurvives(o: Options, s: State, steps: seq<Step>, q: string)
    requires CacheOk(o, s) && q in Keys(s.cache)
    requires forall step <- steps :: Before(step, Get(s.cache, q).value.expiresAt)
    requires |Younger(s.cache, q) + (TouchedBy(steps) - {q})| < o.cacheMaxEntries
    ensures Get(After(o, s, steps).cache, q) == Get(s.cache, q)
    decreases |steps|
  {
    if steps != [] {
      var s1 := Next(o, s, steps[0]);
      SubsetSize(Younger(s.cache, q) + (Touched(steps[0]) - {q}), Younger(s.cache, q) + (TouchedBy(steps) - {q}));
      StepKeepsRecent(o, s, steps[0], q);
      StepKeepsCache(o, s, steps[0]);
      SubsetSize(Younger(s1.cache, q) + (TouchedBy(steps[1..]) - {q}), Younger(s.cache, q) + (TouchedBy(steps) - {q}));
      RecentEntrySurvives(o, s1, steps[1..], q);
    }
  }

  // ----- Shutdown -----

  lemma ClosedStep(o: Options, s: State, step: Step)
    requires FlightsOk(o, s) && s.closed
    ensures var z := Next(o, s, step);
            z.closed && Total(z.log, Start) == Total(s.log, Start) && z.flights.Keys <= s.flights.Keys
  {
    if Enabled(s, step) {
      match step {
        case ResolveStep(id, source, now, local) => ResolveShape(o, s, id, source, now, local);
        case FinalizeStep(id) => TotalStep(s.log, Finalized(id), Start);
        case CloseStep =>
        case _ => PhaseStep(o, s, step);
      }
    }
  }

  /**
   From the close step on, whatever still happens, nothing is cached, no flight starts and flights
   only go; and once the closing promise can resolve, nothing is left.
   */
  lemma {:induction false} ClosedForGood(o: Options, s: State, steps: seq<Step>)
    requires FlightsOk(o, s) && CacheOk(o, s) && s.closed
    ensures var z := After(o, s, steps);
            && z.closed && z.cache == []
            && Total(z.log, Start) == Total(s.log, Start)
            && z.flights.Keys <= s.flights.Keys
            && (Enabled(z, CloseDoneStep) ==> z.flights == map[] && z.aborted == map[] && z.inFlight == 0)
    decreases |steps|
  {
    if steps != [] {
      StepKeepsFlights(o, s, steps[0]);
      StepKeepsCache(o, s, steps[0]);
      ClosedStep(o, s, steps[0]);
      ClosedForGood(o, Next(o, s, steps[0]), steps[1..]);
    } else if Enabled(s, CloseDoneStep) {
      assert s.flights.Keys == {} && s.aborted.Keys == {};
    }
  }

  /** A flight left over at shutdown has at most a rejection, a handler and a finalization to go. */
  lemma {:induction false} FlightCanEnd(o: Options, s: State, id: string) returns (steps: seq<Step>)
    requires id in s.flights
    ensures After(o, s, steps).flights.Keys == s.flights.Keys - {id}
    decreases match s.flights[id] case Fetching(_) => 2 case Failing(_) => 1 case Settled(_) => 0
  {
    var step := match s.flights[id]
      case Fetching(_) => RejectStep(id, Known(SHUTTING_DOWN))
      case Failing(_) => CatchStep(id, 0)
      case Settled(_) => FinalizeStep(id);
    var s1 := Next(o, s, step);
    if s.flights[id].Settled? {
      steps := [step];
      assert After(o, s, steps) == s1;
    } else {
      assert s1.flights.Keys == s.flights.Keys;
      var rest := FlightCanEnd(o, s1, id);
      steps := [step] + rest;
      assert steps[1..] == rest;
    }
  }

  lemma {:induction false} AfterAppend(o: Options, s: State, a: seq<Step>, b: seq<Step>)
    ensures After(o, s, a + b) == After(o, After(o, s, a), b)
    decreases |a|
  {
    if a == [] {
      assert a + b == b;
    } else {
      assert (a + b)[1..] == a[1..] + b;
      AfterAppend(o, Next(o, s, a[0]), a[1..], b);
    }
  }

  /** Shutdown can always complete: from any closed state some run empties the flight table. */
  lemma {:induction false} CloseCanComplete(o: Options, s: State) returns (steps: seq<Step>)
    requires FlightsOk(o, s) && CacheOk(o, s) && s.closed
    ensures Enabled(After(o, s, steps), CloseDoneStep)
    decreases |s.flights.Keys|
  {
    if s.flights.Keys == {} {
      steps := [];
    } else {
      var id :| id in s.flights;
      var first := FlightCanEnd(o, s, id);
      RunKeeps(o, s, first);
      ClosedForGood(o, s, first);
      var rest := CloseCanComplete(o, After(o, s, first));
      AfterAppend(o, s, first, rest);
      steps := first + rest;
    }
  }

  // ----- The close completes in every run -----

  /** How many of its own steps a flight has still to go, at most. */
  function Left(phase: Phase): nat {
    match phase case Fetching(_) => 3 case Failing(_) => 2 case Settled(_) => 1
  }

  ghost function Work(flights: map<string, Phase>): nat {
    if flights == map[] then 0 else var id :| id in flights; Left(flights[id]) + Work(flights - {id})
  }

  lemma {:induction false} WorkOf(flights: map<string, Phase>, id: string)
    requires id in flights
    ensures Work(flights) == Left(flights[id]) + Work(flights - {id})
    decreases |flights|
  {
    var first :| id in flights && first in flights
                 && Work(flights) == Left(flights[first]) + Work(flights - {first});
    if first != id {
      assert |flights - {first}| < |flights| by { FewerKeys(flights, first); }
      assert |flights - {id}| < |flights| by { FewerKeys(flights, id); }
      WorkOf(flights - {first}, id);
      WorkOf(flights - {id}, first);
      assert flights - {first} - {id} == flights - {id} - {first};
    }
  }

  lemma FewerKeys(flights: map<string, Phase>, id: string)
    requires id in flights
    ensures |flights - {id}| < |flights|
  {
    assert flights.Keys == (flights - {id}).Keys + {id};
    assert |flights| == |flights.Keys| && |flights - {id}| == |(flights - {id}).Keys|;
  }

  /** Moving a flight on changes the work by what that flight has left. */
  lemma WorkMoved(flights: map<string, Phase>, id: string, phase: Phase)
    requires id in flights
    ensures Work(flights[id := phase]) + Left(flights[id]) == Work(flights) + Left(phase)
  {
    WorkOf(flights, id);
    WorkOf(flights[id := phase], id);
    assert flights[id := phase] - {id} == flights - {id};
  }

  /** The steps of a flight itself: its answer, its rejection, its error handler and its final handler. */
  predicate IsFlightStep(step: Step) { step.RespondStep? || step.RejectStep? || step.CatchStep? || step.FinalizeStep? }

  lemma FlightStepWorks(o: Options, s: State, step: Step)
    requires IsFlightStep(step) && Enabled(s, step)
    ensures Work(Next(o, s, step).flights) < Work(s.flights)
  {
    var s1 := Next(o, s, step);
    if step.FinalizeStep? {
      WorkOf(s.flights, step.id);
    } else {
      assert s1.flights == s.flights[step.id := s1.flights[step.id]];
      WorkMoved(s.flights, step.id, s1.flights[step.id]);
    }
  }

  lemma OtherStepsLeaveFlights(o: Options, s: State, step: Step)
    requires s.closed && (!IsFlightStep(step) || !Enabled(s, step))
    ensures Next(o, s, step).flights == s.flights
  {}

  /** How many flight steps really happen in a run. */
  function FlightSteps(o: Options, s: State, steps: seq<Step>): nat
    decreases |steps|
  {
    if steps == [] then 0
    else
      (if IsFlightStep(steps[0]) && Enabled(s, steps[0]) then 1 else 0)
      + FlightSteps(o, Next(o, s, steps[0]), steps[1..])
  }

  lemma {:induction false} FlightStepsAreBounded(o: Options, s: State, steps: seq<Step>)
    requires FlightsOk(o, s) && s.closed
    ensures FlightSteps(o, s, steps) + Work(After(o, s, steps).flights) <= Work(s.flights)
    ensures FlightsOk(o, After(o, s, steps)) && After(o, s, steps).closed
    decreases |steps|
  {
    if steps != [] {
      StepKeepsFlights(o, s, steps[0]);
      ClosedStep(o, s, steps[0]);
      if IsFlightStep(steps[0]) && Enabled(s, steps[0]) {
        FlightStepWorks(o, s, steps[0]);
      } else {
        OtherStepsLeaveFlights(o, s, steps[0]);
      }
      FlightStepsAreBounded(o, Next(o, s, steps[0]), steps[1..]);
    }
  }

  /** No flight has a step pending. */
  ghost predicate Idle(s: State) { forall step :: IsFlightStep(step) ==> !Enabled(s, step) }

  /** While flights are left, one of them has a step to make. */
  lemma IdleWithoutFlights(s: State)
    ensures Idle(s) <==> s.flights == map[]
    ensures Work(s.flights) == 0 <==> s.flights == map[]
  {
    if s.flights != map[] {
      var id :| id in s.flights;
      WorkOf(s.flights, id);
      var step := match s.flights[id]
        case Fetching(_) => RejectStep(id, Known(SHUTTING_DOWN))
        case Failing(_) => CatchStep(id, 0)
        case Settled(_) => FinalizeStep(id);
      assert IsFlightStep(step) && Enabled(s, step);
    }
  }

  lemma NoneOfTheirOwn(closing: set<string>, flights: map<string, Phase>)
    requires flights.Keys <= closing
    ensures closing !! flights.Keys <==> flights == map[]
  {
    assert closing * flights.Keys == flights.Keys;
  }

  lemma DoneWithoutFlights(o: Options, s: State)
    requires FlightsOk(o, s) && s.closed
    ensures Enabled(s, CloseDoneStep) <==> s.flights == map[]
  {
    NoneOfTheirOwn(s.closing.value, s.flights);
  }

  /** Three steps for a fetch, two for a failure, one for the end: no more than three for each flight. */
  lemma {:induction false} WorkBound(flights: map<string, Phase>)
    ensures Work(flights) <= 3 * |flights|
    decreases |flights|
  {
    if flights != map[] {
      var id :| id in flights;
      FewerKeys(flights, id);
      WorkOf(flights, id);
      WorkBound(flights - {id});
    }
  }

  /**
   The close completes in every run, not just in some. Whatever happens after it, no more than three flight
   steps for each open flight ever do; once no flight has a step pending the closing promise can resolve,
   and until then one is pending. So a run that lets pending steps happen completes the close.
   */
  lemma EveryRunCompletesTheClose(o: Options, s: State, steps: seq<Step>)
    requires FlightsOk(o, s) && s.closed
    ensures var z := After(o, s, steps);
            && FlightSteps(o, s, steps) + Work(z.flights) <= Work(s.flights) <= 3 * |s.flights.Keys|
            && (Enabled(z, CloseDoneStep) <==> Idle(z))
            && (Enabled(z, CloseDoneStep) <==> Work(z.flights) == 0)
  {
    FlightStepsAreBounded(o, s, steps);
    WorkBound(s.flights);
    assert |s.flights| == |s.flights.Keys|;
    IdleWithoutFlights(After(o, s, steps));
    DoneWithoutFlights(o, After(o, s, steps));
  }
}
