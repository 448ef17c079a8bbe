/** As long as no rotation shortens the life of its chain, sweeps never cut a chain in the middle. */
module GrantClosure {
  import opened Prelude
  import opened StaticTokens
  import opened OAuthTables
  import opened GrantSteps
  import opened GrantLineage
  import opened GrantUse

  // ----- What a run must respect -----

  /** A rotation whose successor expires no earlier than the row it replaces. */
  ghost predicate LastingStep(w: World, step: Step) {
    Rotates(w, step) ==> step.now + step.ttlSeconds * 1000 >= w.tables.refresh[step.presented].expiresAt
  }

  /** Every rotation of the run that succeeds is of this kind; lifetimes and clock are otherwise free. */
  ghost predicate Lasting(e: Env, w: World, steps: seq<Step>)
    decreases |steps|
  {
    steps == [] || (LastingStep(w, steps[0]) && Lasting(e, Next(e, w, steps[0]), steps[1..]))
  }

  // ----- The invariant -----

  ghost predicate LinkOk(t: Table<RefreshData>, k: string)
    requires k in t
  {
    t[k].data.rotatedTo.Some? ==>
      t[k].data.rotatedTo.value in t && t[t[k].data.rotatedTo.value].expiresAt >= t[k].expiresAt
  }

  /** Links name stored rows that expire no earlier. */
  ghost predicate Linked(t: Table<RefreshData>) { forall k <- t :: LinkOk(t, k) }

  /** Whatever is kept keeps its successor. */
  lemma DeletionsKeepLinked(t: Table<RefreshData>, t1: Table<RefreshData>)
    requires Linked(t)
    requires forall k <- t1 :: k in t && t1[k] == t[k]
    requires forall k <- t1 :: t1[k].data.rotatedTo.Some? ==> t1[k].data.rotatedTo.value in t1
    ensures Linked(t1)
  {
    forall k | k in t1 ensures LinkOk(t1, k) { assert LinkOk(t, k); }
  }

  lemma SweepKeepsLinked(t: Table<RefreshData>, now: int)
    requires Linked(t)
    ensures Linked(Unexpired(t, now))
  {
    forall k | k in Unexpired(t, now) ensures LinkOk(Unexpired(t, now), k) { assert LinkOk(t, k); }
  }

  /** Deleting by user, or by user and client, deletes whole chains. */
  lemma LinksStayInTheGrant(w: World, k: string)
    requires Lineage(w) && k in w.tables.refresh && w.tables.refresh[k].data.rotatedTo.Some?
    requires w.tables.refresh[k].data.rotatedTo.value in w.tables.refresh
    ensures var (row, next) := (w.tables.refresh[k], w.tables.refresh[w.tables.refresh[k].data.rotatedTo.value]);
            next.userId == row.userId && next.data.clientId == row.data.clientId
  {
    var n := w.tables.refresh[k].data.rotatedTo.value;
    RowsOfOneChain(w, k, n);
    assert RefreshOk(w.past, k, w.tables.refresh[k]) && RefreshOk(w.past, n, w.tables.refresh[n]);
  }

  lemma ClearingKeepsLinked(w: World, users: Option<seq<string>>)
    requires Lineage(w) && Linked(w.tables.refresh)
    ensures Linked(Cleared(w.tables.refresh, users))
  {
    var t, t1 := w.tables.refresh, Cleared(w.tables.refresh, users);
    forall k | k in t1 && t1[k].data.rotatedTo.Some? ensures t1[k].data.rotatedTo.value in t1 {
      assert LinkOk(t, k);
      LinksStayInTheGrant(w, k);
    }
    DeletionsKeepLinked(t, t1);
  }

  lemma ReplayKeepsLinked(w: World, userId: string, clientId: string)
    requires Lineage(w) && Linked(w.tables.refresh)
    ensures Linked(WithoutGrant(w.tables.refresh, userId, clientId))
  {
    var t, t1 := w.tables.refresh, WithoutGrant(w.tables.refresh, userId, clientId);
    forall k | k in t1 && t1[k].data.rotatedTo.Some? ensures t1[k].data.rotatedTo.value in t1 {
      assert LinkOk(t, k);
      LinksStayInTheGrant(w, k);
    }
    DeletionsKeepLinked(t, t1);
  }

  lemma BootKeepsLinked(e: Env, w: World, config: Config)
    requires Lineage(w) && Linked(w.tables.refresh)
    ensures Linked(Boot(e, w, config).tables.refresh)
  {
    ClearingKeepsLinked(w, UsersWithRemovedTokens(w.tables.snapshot, Build(config, e.digest), e.other));
  }

  lemma ExchangeKeepsLinked(w: World, o: ExchangeOptions, now: int, newToken: string)
    requires Linked(w.tables.refresh)
    ensures Linked(Exchange(w.tables, o, now, newToken).0.refresh)
  {
    var t, t1 := w.tables.refresh, Exchange(w.tables, o, now, newToken).0.refresh;
    forall k | k in t1 ensures LinkOk(t1, k) { assert k in t ==> LinkOk(t, k); }
  }

  lemma RotationKeepsLinked(t: Tables, presented: string, clientId: string, ttlSeconds: int, now: int, newToken: string)
    requires Linked(t.refresh) && Rotate(t, presented, clientId, ttlSeconds, now, newToken).1.Rotated?
    requires now + ttlSeconds * 1000 >= t.refresh[presented].expiresAt
    ensures Linked(Rotate(t, presented, clientId, ttlSeconds, now, newToken).0.refresh)
  {
    var t1 := Rotate(t, presented, clientId, ttlSeconds, now, newToken).0.refresh;
    forall k | k in t1 ensures LinkOk(t1, k) { assert k in t.refresh ==> LinkOk(t.refresh, k); }
  }

  lemma RotateKeepsLinked(w: World, step: Step)
    requires Lineage(w) && Linked(w.tables.refresh) && step.RotateStep? && Enabled(w, step) && LastingStep(w, step)
    ensures Linked(Rotate(w.tables, step.presented, step.clientId, step.ttlSeconds, step.now, step.newToken).0.refresh)
  {
    var r := Rotate(w.tables, step.presented, step.clientId, step.ttlSeconds, step.now, step.newToken).1;
    if r.Rotated? {
      RotationKeepsLinked(w.tables, step.presented, step.clientId, step.ttlSeconds, step.now, step.newToken);
    } else if r.Replay? {
      ReplayKeepsLinked(w, w.tables.refresh[step.presented].userId, w.tables.refresh[step.presented].data.clientId);
    }
  }

  lemma StepKeepsLinked(e: Env, w: World, step: Step)
    requires Lineage(w) && Linked(w.tables.refresh) && LastingStep(w, step)
    ensures Linked(Next(e, w, step).tables.refresh)
  {
    if Enabled(w, step) {
      match step {
        case BootStep(config) => BootKeepsLinked(e, w, config);
        case ExchangeStep(o, now, newToken) => ExchangeKeepsLinked(w, o, now, newToken);
        case RotateStep(_, _, _, _, _) => RotateKeepsLinked(w, step);
        case SweepStep(_, now) => SweepKeepsLinked(w.tables.refresh, now);
        case _ => OtherStepsKeepRefresh(e, w, step);
      }
    }
  }

  lemma {:induction false} RunKeepsLinked(e: Env, w: World, steps: seq<Step>)
    requires Lineage(w) && Linked(w.tables.refresh) && Lasting(e, w, steps)
    ensures Linked(After(e, w, steps).tables.refresh)
    decreases |steps|
  {
    if steps != [] {
      StepKeepsLineage(e, w, steps[0]);
      StepKeepsLinked(e, w, steps[0]);
      RunKeepsLinked(e, Next(e, w, steps[0]), steps[1..]);
    }
  }

  // ----- What it means for a chain -----

  lemma {:induction false} StoredTail(w: World, code: string, i: nat, j: nat)
    requires Lineage(w) && Linked(w.tables.refresh)
    requires code in w.past.chains && i <= j < |w.past.chains[code]|
    requires w.past.chains[code][i] in w.tables.refresh
    ensures var chain := w.past.chains[code];
            chain[j] in w.tables.refresh && w.tables.refresh[chain[j]].expiresAt >= w.tables.refresh[chain[i]].expiresAt
    decreases j
  {
    if i < j {
      StoredTail(w, code, i, j - 1);
      var k := w.past.chains[code][j - 1];
      assert RefreshOk(w.past, k, w.tables.refresh[k]) && LinkOk(w.tables.refresh, k);
    }
  }

  /**
   What is stored of a chain is always a tail of it, with expiries that never fall along the chain: boots
   and replays take whole chains, sweeps only a prefix, so a stored `rotated_to` names a stored row.
   */
  lemma StoredChainsAreTails(e: Env, snapshot: Option<string>, steps: seq<Step>, code: string, i: nat, j: nat)
    requires Lasting(e, Initial(snapshot), steps)
    requires var h := After(e, Initial(snapshot), steps).past;
             code in h.chains && i <= j < |h.chains[code]|
    requires var w := After(e, Initial(snapshot), steps);
             w.past.chains[code][i] in w.tables.refresh
    ensures var w := After(e, Initial(snapshot), steps);
            var (chain, t) := (w.past.chains[code], w.tables.refresh);
            && chain[j] in t && t[chain[j]].expiresAt >= t[chain[i]].expiresAt
            && t[chain[j]].data.rotatedTo == if j == |chain| - 1 then None else Some(chain[j + 1])
  {
    var w := After(e, Initial(snapshot), steps);
    RunKeepsLineage(e, Initial(snapshot), steps);
    RunKeepsLinked(e, Initial(snapshot), steps);
    StoredTail(w, code, i, j);
    var k := w.past.chains[code][j];
    assert RefreshOk(w.past, k, w.tables.refresh[k]);
  }

  // ----- Exactly when -----

  /** Every stored `rotated_to` names a stored row. */
  ghost predicate NamesStored(t: Table<RefreshData>) {
    forall k <- t :: t[k].data.rotatedTo.Some? ==> t[k].data.rotatedTo.value in t
  }

  ghost predicate SweepsRespect(t: Table<RefreshData>) { forall s: int :: NamesStored(Unexpired(t, s)) }

  /** At no point of the run does a sweep, at whatever time, leave a `rotated_to` that names nothing. */
  ghost predicate SweepsAlwaysRespect(e: Env, w: World, steps: seq<Step>)
    decreases |steps|
  {
    SweepsRespect(w.tables.refresh) && (steps != [] ==> SweepsAlwaysRespect(e, Next(e, w, steps[0]), steps[1..]))
  }

  /**
   A single rotation leaves a link that every sweep respects exactly when the successor does not expire
   before the row it replaces.
   */
  lemma LinkOutlivesSweepsExactlyWhen(t: Tables, presented: string, clientId: string, ttlSeconds: int, now: int,
                                      newToken: string)
    requires newToken !in t.refresh && presented in t.refresh
    requires Rotate(t, presented, clientId, ttlSeconds, now, newToken).1.Rotated?
    ensures var t1 := Rotate(t, presented, clientId, ttlSeconds, now, newToken).0.refresh;
            (forall s: int :: presented in Unexpired(t1, s) ==> newToken in Unexpired(t1, s))
            <==> now + ttlSeconds * 1000 >= t.refresh[presented].expiresAt
  {
    var t1 := Rotate(t, presented, clientId, ttlSeconds, now, newToken).0.refresh;
    var s := t.refresh[presented].expiresAt;
    assert presented in Unexpired(t1, s);
  }

  lemma LinkedIsRespected(t: Table<RefreshData>)
    requires Linked(t)
    ensures SweepsRespect(t)
  {
    forall s: int ensures NamesStored(Unexpired(t, s)) {
      SweepKeepsLinked(t, s);
      forall k | k in Unexpired(t, s) && t[k].data.rotatedTo.Some?
        ensures t[k].data.rotatedTo.value in Unexpired(t, s)
      {
        assert LinkOk(Unexpired(t, s), k);
      }
    }
  }

  /** A rotation that shortens the life of its chain can be cut off by a sweep between the two expiries. */
  lemma ShorteningIsNotRespected(e: Env, w: World, step: Step)
    requires Rotates(w, step) && !LastingStep(w, step) && Lineage(w)
    ensures !SweepsRespect(Next(e, w, step).tables.refresh)
  {
    var (t, s) := (Next(e, w, step).tables.refresh, w.tables.refresh[step.presented].expiresAt);
    RotateShape(w.tables, step.presented, step.clientId, step.ttlSeconds, step.now, step.newToken);
    assert step.presented in Unexpired(t, s) && step.newToken !in Unexpired(t, s);
    assert Unexpired(t, s)[step.presented].data.rotatedTo == Some(step.newToken);
    assert !NamesStored(Unexpired(t, s));
  }

  lemma {:induction false} RespectedExactlyWhenLasting(e: Env, w: World, steps: seq<Step>)
    requires Lineage(w) && Linked(w.tables.refresh)
    ensures Lasting(e, w, steps) <==> SweepsAlwaysRespect(e, w, steps)
    decreases |steps|
  {
    LinkedIsRespected(w.tables.refresh);
    if steps != [] {
      StepKeepsLineage(e, w, steps[0]);
      if LastingStep(w, steps[0]) {
        StepKeepsLinked(e, w, steps[0]);
        RespectedExactlyWhenLasting(e, Next(e, w, steps[0]), steps[1..]);
      } else {
        ShorteningIsNotRespected(e, w, steps[0]);
      }
    }
  }

  /**
   The condition is exact. For every run from a new database, sweeps respect the links at every point of
   it if and only if no rotation of the run shortened the life of its chain.
   */
  lemma SweepsRespectLinksExactlyWhen(e: Env, snapshot: Option<string>, steps: seq<Step>)
    ensures SweepsAlwaysRespect(e, Initial(snapshot), steps) <==> Lasting(e, Initial(snapshot), steps)
  {
    RespectedExactlyWhenLasting(e, Initial(snapshot), steps);
  }

  // ----- One lifetime and a steady clock suffice -----

  function TimeOf(step: Step): Option<int> {
    match step
    case BootStep(_) => None
    case LoginStep(_, _, _, now) => Some(now)
    case AuthorizeStep(_, _, _, _, now) => Some(now)
    case ExchangeStep(_, now, _) => Some(now)
    case RotateStep(_, _, _, now, _) => Some(now)
    case SweepStep(_, now) => Some(now)
  }

  function LifetimeOf(step: Step): Option<int> {
    match step
    case ExchangeStep(o, _, _) => Some(o.ttlSeconds)
    case RotateStep(_, _, ttlSeconds, _, _) => Some(ttlSeconds)
    case _ => None
  }

  function Clock(step: Step, clock: int): int { if TimeOf(step).Some? then TimeOf(step).value else clock }

  /** Time does not run backwards, and lifetimes do not shrink: from step to step, so from boot to boot. */
  predicate Steady(steps: seq<Step>, ttlSeconds: int, clock: int) {
    steps == []
    || (var ttl := if LifetimeOf(steps[0]).Some? then LifetimeOf(steps[0]).value else ttlSeconds;
        Clock(steps[0], clock) >= clock && ttl >= ttlSeconds && Steady(steps[1..], ttl, Clock(steps[0], clock)))
  }

  /** Nothing expires later than a token issued now would. */
  ghost predicate Bounded(t: Table<RefreshData>, ttlSeconds: int, clock: int) {
    forall k <- t :: t[k].expiresAt <= clock + ttlSeconds * 1000
  }

  /** Rows come with the lifetime of their step and never get another. */
  lemma StepKeepsBounded(e: Env, w: World, step: Step, ttlSeconds: int, clock: int)
    requires Bounded(w.tables.refresh, ttlSeconds, clock) && Clock(step, clock) >= clock
    requires LifetimeOf(step) in {None, Some(ttlSeconds)}
    ensures Bounded(Next(e, w, step).tables.refresh, ttlSeconds, Clock(step, clock))
  {
    if step.LoginStep? || step.AuthorizeStep? {
      OtherStepsKeepRefresh(e, w, step);
    } else if step.RotateStep? {
      RotateShape(w.tables, step.presented, step.clientId, step.ttlSeconds, step.now, step.newToken);
    }
  }

  /** In such a run every rotation is lasting, whatever else happens. */
  lemma {:induction false} SteadyRunsLast(e: Env, w: World, steps: seq<Step>, ttlSeconds: int, clock: int)
    requires Bounded(w.tables.refresh, ttlSeconds, clock) && Steady(steps, ttlSeconds, clock)
    ensures Lasting(e, w, steps)
    decreases |steps|
  {
    if steps != [] {
      var ttl := if LifetimeOf(steps[0]).Some? then LifetimeOf(steps[0]).value else ttlSeconds;
      StepKeepsBounded(e, w, steps[0], ttl, clock);
      SteadyRunsLast(e, Next(e, w, steps[0]), steps[1..], ttl, Clock(steps[0], clock));
    }
  }
}
