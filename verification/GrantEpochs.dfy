/** What survives boots with changing tokens: only rows of users who have lost no token since they logged in. */
module GrantEpochs {
  import opened Prelude
  import opened StaticTokens
  import opened StaticLogin
  import opened OAuthTables
  import opened GrantSteps
  import opened GrantLineage
  import Json

  ghost predicate StillThere(e: Env, boots: seq<Config>, user: string, i: nat, j: nat)
    requires i < |boots| && j < |boots|
  {
    EffectiveOf(boots[i], user, e.digest) <= EffectiveOf(boots[j], user, e.digest)
  }

  /** The user had a token at boot `epoch`, and at no boot since has any effective fingerprint gone missing. */
  ghost predicate Unrevoked(e: Env, boots: seq<Config>, user: string, epoch: nat) {
    && epoch < |boots| && EffectiveOf(boots[epoch], user, e.digest) != {}
    && (forall i, j :: epoch <= i <= j < |boots| ==> StillThere(e, boots, user, i, j))
  }

  ghost predicate RefreshEpochOk(e: Env, h: Past, k: string, row: Row<RefreshData>) {
    k in h.places && h.places[k].code in h.codes && Unrevoked(e, h.boots, row.userId, h.codes[h.places[k].code].epoch)
  }

  ghost predicate CodeEpochOk(e: Env, h: Past, k: string, row: Row<CodeData>) {
    k in h.codes && Unrevoked(e, h.boots, row.userId, h.codes[k].epoch)
  }

  ghost predicate SessionEpochOk(e: Env, h: Past, k: string, row: Row<SessionData>) {
    k in h.logins && Unrevoked(e, h.boots, row.userId, h.logins[k].epoch)
  }

  ghost predicate RowEpochsOk(e: Env, h: Past, t: Table<RefreshData>) { forall k <- t :: RefreshEpochOk(e, h, k, t[k]) }

  ghost predicate CodeEpochsOk(e: Env, h: Past, t: Table<CodeData>) { forall k <- t :: CodeEpochOk(e, h, k, t[k]) }

  ghost predicate SessionEpochsOk(e: Env, h: Past, t: Table<SessionData>) {
    forall k <- t :: SessionEpochOk(e, h, k, t[k])
  }

  ghost predicate EpochsOk(e: Env, w: World) {
    && RowEpochsOk(e, w.past, w.tables.refresh)
    && CodeEpochsOk(e, w.past, w.tables.codes)
    && SessionEpochsOk(e, w.past, w.tables.sessions)
  }

  /** After a boot the stored snapshot is that of its configuration. */
  ghost predicate SnapshotOk(e: Env, w: World) {
    w.past.boots != [] ==>
      var c := w.past.boots[|w.past.boots| - 1];
      LoweredUsers(c) && w.tables.snapshot == Some(Json.SnapshotText(Build(c, e.digest)))
  }

  // ----- One boot -----

  /** A boot removes exactly the users who had a fingerprint that is now missing. */
  lemma BootRemoves(e: Env, raw: Option<string>, last: Config, config: Config, user: string)
    requires LoweredUsers(last) && raw == Some(Json.SnapshotText(Build(last, e.digest)))
    ensures var removed := UsersWithRemovedTokens(raw, Build(config, e.digest), e.other);
            && removed.Some?
            && (user in removed.value <==>
                  !(EffectiveOf(last, user, e.digest) <= EffectiveOf(config, user, e.digest)))
  {
    SnapshotRoundTrip(last, e.digest, e.other);
    BuildFacts(last, e.digest, user);
    BuildFacts(config, e.digest, user);
    RemovedUsersFacts(Build(last, e.digest), Build(config, e.digest), user);
  }

  lemma OneMoreBoot(e: Env, boots: seq<Config>, config: Config, user: string, epoch: nat)
    requires Unrevoked(e, boots, user, epoch)
    requires EffectiveOf(boots[|boots| - 1], user, e.digest) <= EffectiveOf(config, user, e.digest)
    ensures Unrevoked(e, boots + [config], user, epoch)
  {
    var boots1 := boots + [config];
    forall i, j | epoch <= i <= j < |boots1| ensures StillThere(e, boots1, user, i, j) {
      if j < |boots| { assert StillThere(e, boots, user, i, j); }
      else if i < |boots| { assert StillThere(e, boots, user, i, |boots| - 1); }
    }
  }

  /** None of these users is among the removed, so all their rows may stay. */
  ghost predicate Spares(e: Env, boots: seq<Config>, config: Config, removed: Option<seq<string>>) {
    removed.Some? && forall user, epoch :: user !in removed.value && Unrevoked(e, boots, user, epoch) ==>
                       Unrevoked(e, boots + [config], user, epoch)
  }

  lemma SurvivorsStayUnrevoked(e: Env, raw: Option<string>, boots: seq<Config>, config: Config)
    requires boots != [] && LoweredUsers(boots[|boots| - 1])
    requires raw == Some(Json.SnapshotText(Build(boots[|boots| - 1], e.digest)))
    ensures Spares(e, boots, config, UsersWithRemovedTokens(raw, Build(config, e.digest), e.other))
  {
    var last := boots[|boots| - 1];
    var removed := UsersWithRemovedTokens(raw, Build(config, e.digest), e.other);
    BootRemoves(e, raw, last, config, "");
    forall user, epoch | user !in removed.value && Unrevoked(e, boots, user, epoch)
      ensures Unrevoked(e, boots + [config], user, epoch)
    {
      BootRemoves(e, raw, last, config, user);
      OneMoreBoot(e, boots, config, user, epoch);
    }
  }

  lemma ClearingKeepsEpochs(e: Env, w: World, config: Config, removed: Option<seq<string>>, snapshot: Option<string>)
    requires EpochsOk(e, w) && Spares(e, w.past.boots, config, removed)
    ensures var (t, h1) := (w.tables, w.past.(boots := w.past.boots + [config]));
            var (codes, refresh) := (Cleared(t.codes, removed), Cleared(t.refresh, removed));
            EpochsOk(e, World(Tables(codes, refresh, Cleared(t.sessions, removed), snapshot), h1))
  {
    var t, h, h1 := w.tables, w.past, w.past.(boots := w.past.boots + [config]);
    var (codes, refresh) := (Cleared(t.codes, removed), Cleared(t.refresh, removed));
    var sessions := Cleared(t.sessions, removed);
    forall k | k in refresh ensures RefreshEpochOk(e, h1, k, refresh[k]) {
      assert RefreshEpochOk(e, h, k, t.refresh[k]);
    }
    forall k | k in codes ensures CodeEpochOk(e, h1, k, codes[k]) { assert CodeEpochOk(e, h, k, t.codes[k]); }
    forall k | k in sessions ensures SessionEpochOk(e, h1, k, sessions[k]) {
      assert SessionEpochOk(e, h, k, t.sessions[k]);
    }
  }

  lemma BootKeepsEpochs(e: Env, w: World, config: Config)
    requires SnapshotOk(e, w) && EpochsOk(e, w)
    ensures EpochsOk(e, Boot(e, w, config))
  {
    var removed := UsersWithRemovedTokens(w.tables.snapshot, Build(config, e.digest), e.other);
    if w.past.boots != [] {
      SurvivorsStayUnrevoked(e, w.tables.snapshot, w.past.boots, config);
      ClearingKeepsEpochs(e, w, config, removed, Boot(e, w, config).tables.snapshot);
    } else {
      NothingBeforeBoots(e, w);
      var w1 := Boot(e, w, config);
      assert w1.tables.refresh == map[] && w1.tables.codes == map[] && w1.tables.sessions == map[];
    }
  }

  lemma NothingBeforeBoots(e: Env, w: World)
    requires EpochsOk(e, w) && w.past.boots == []
    ensures w.tables.refresh == map[] && w.tables.codes == map[] && w.tables.sessions == map[]
  {
    var t, h := w.tables, w.past;
    forall k ensures k !in t.refresh { assert k in t.refresh ==> !RefreshEpochOk(e, h, k, t.refresh[k]); }
    forall k ensures k !in t.codes { assert k in t.codes ==> !CodeEpochOk(e, h, k, t.codes[k]); }
    forall k ensures k !in t.sessions { assert k in t.sessions ==> !SessionEpochOk(e, h, k, t.sessions[k]); }
  }

  // ----- The other steps -----

  /** Between boots what is recorded is only added to. */
  ghost predicate AddsTo(h: Past, h1: Past) {
    && h1.boots == h.boots
    && (forall k <- h.places :: k in h1.places && h1.places[k] == h.places[k])
    && (forall k <- h.codes :: k in h1.codes && h1.codes[k] == h.codes[k])
    && (forall k <- h.logins :: k in h1.logins && h1.logins[k] == h.logins[k])
  }

  lemma DeletionsKeepEpochs(e: Env, w: World, t1: Tables, h1: Past)
    requires EpochsOk(e, w) && NothingNew(w.tables, t1) && AddsTo(w.past, h1)
    ensures EpochsOk(e, World(t1, h1))
  {
    var t, h := w.tables, w.past;
    forall k | k in t1.refresh ensures RefreshEpochOk(e, h1, k, t1.refresh[k]) {
      assert RefreshEpochOk(e, h, k, t.refresh[k]);
    }
    forall k | k in t1.codes ensures CodeEpochOk(e, h1, k, t1.codes[k]) { assert CodeEpochOk(e, h, k, t.codes[k]); }
    forall k | k in t1.sessions ensures SessionEpochOk(e, h1, k, t1.sessions[k]) {
      assert SessionEpochOk(e, h, k, t.sessions[k]);
    }
  }

  /** A login is in the epoch of the last boot. */
  lemma LoginKeepsEpochs(e: Env, w: World, token: string, sessionId: string, policy: SessionPolicy, now: int)
    requires SnapshotOk(e, w) && EpochsOk(e, w) && w.past.boots != [] && sessionId !in w.past.logins
    ensures EpochsOk(e, LogIn(e, w, token, sessionId, policy, now))
  {
    var w1 := LogIn(e, w, token, sessionId, policy, now);
    var epoch := |w.past.boots| - 1;
    DeletionsKeepEpochs(e, w, w.tables, w1.past);
    if w1 != w {
      LoginUserIsEffective(w.past.boots[epoch], token, e.digest);
      assert SessionEpochOk(e, w1.past, sessionId, w1.tables.sessions[sessionId]);
    }
  }

  lemma IssueKeepsEpochs(e: Env, w: World, code: string, g: Grant)
    requires EpochsOk(e, w) && code !in w.past.codes && Unrevoked(e, w.past.boots, g.row.userId, g.epoch)
    ensures var t1 := w.tables.(codes := w.tables.codes[code := g.row]);
            EpochsOk(e, World(t1, w.past.(codes := w.past.codes[code := g])))
  {
    var h1 := w.past.(codes := w.past.codes[code := g]);
    DeletionsKeepEpochs(e, w, w.tables, h1);
    assert CodeEpochOk(e, h1, code, g.row);
  }

  lemma AuthorizeKeepsEpochs(e: Env, w: World, sessionId: string, code: string, data: CodeData, policy: SessionPolicy,
                             now: int)
    requires EpochsOk(e, w) && code !in w.past.codes
    ensures EpochsOk(e, Authorize(w, sessionId, code, data, policy, now))
  {
    var (t, r) := ResolveSession(w.tables, sessionId, policy, now);
    assert NothingNew(w.tables, t) by { ResolveShape(w.tables, sessionId, policy, now); }
    DeletionsKeepEpochs(e, w, t, w.past);
    if r.Active? && code !in t.codes {
      SessionIsUnrevoked(e, w, sessionId, policy, now);
      IssueKeepsEpochs(e, World(t, w.past), code,
                       Grant(Row(r.userId, now + AUTH_CODE_TTL_SECONDS * 1000, data), EpochOf(w.past, sessionId)));
    }
  }

  lemma SessionIsUnrevoked(e: Env, w: World, sessionId: string, policy: SessionPolicy, now: int)
    requires EpochsOk(e, w) && ResolveSession(w.tables, sessionId, policy, now).1.Active?
    ensures var user := ResolveSession(w.tables, sessionId, policy, now).1.userId;
            Unrevoked(e, w.past.boots, user, EpochOf(w.past, sessionId))
  {
    assert SessionEpochOk(e, w.past, sessionId, w.tables.sessions[sessionId]);
  }

  /** A token recorded in the chain of a code shares the epoch of that code. */
  lemma ExtendKeepsEpochs(e: Env, h: Past, t: Table<RefreshData>, code: string, token: string, row: Row<RefreshData>)
    requires RowEpochsOk(e, h, t) && token !in h.places && code in h.codes
    requires Unrevoked(e, h.boots, row.userId, h.codes[code].epoch)
    ensures RowEpochsOk(e, Extend(h, code, token), t[token := row])
  {
    var h1, t1 := Extend(h, code, token), t[token := row];
    forall k | k in t1 ensures RefreshEpochOk(e, h1, k, t1[k]) {
      if k != token { assert RefreshEpochOk(e, h, k, t[k]); }
    }
  }

  lemma ExchangeKeepsEpochs(e: Env, w: World, o: ExchangeOptions, now: int, newToken: string)
    requires EpochsOk(e, w) && newToken !in w.past.places
    ensures EpochsOk(e, ExchangeCode(w, o, now, newToken))
  {
    var (t, r) := Exchange(w.tables, o, now, newToken);
    ExchangeShape(w.tables, o, now, newToken);
    if r.Exchanged? {
      assert CodeEpochOk(e, w.past, o.code, w.tables.codes[o.code]);
      ExtendKeepsEpochs(e, w.past, w.tables.refresh, o.code, newToken, t.refresh[newToken]);
      DeletionsKeepEpochs(e, w, t.(refresh := map[]), Extend(w.past, o.code, newToken));
    } else {
      DeletionsKeepEpochs(e, w, t, w.past);
    }
  }

  lemma SameUserKeepsEpochs(e: Env, h: Past, t: Table<RefreshData>, k: string, row: Row<RefreshData>)
    requires RowEpochsOk(e, h, t) && k in t && row.userId == t[k].userId
    ensures RowEpochsOk(e, h, t[k := row])
  {
    var t1 := t[k := row];
    forall q | q in t1 ensures RefreshEpochOk(e, h, q, t1[q]) { assert RefreshEpochOk(e, h, q, t[q]); }
  }

  lemma RotationKeepsEpochs(e: Env, h: Past, t: Table<RefreshData>, presented: string, token: string,
                            row: Row<RefreshData>)
    requires RowEpochsOk(e, h, t) && presented in t && token !in h.places && token != presented
    requires row.userId == t[presented].userId
    ensures RowEpochsOk(e, Extend(h, CodeOf(h, presented), token), Rotation(t, presented, token, row))
  {
    assert RefreshEpochOk(e, h, presented, t[presented]);
    ExtendKeepsEpochs(e, h, t, CodeOf(h, presented), token, row);
    SameUserKeepsEpochs(e, Extend(h, CodeOf(h, presented), token), t[token := row], presented,
                        Marked(t[presented], token));
  }

  lemma RotateKeepsEpochs(e: Env, w: World, presented: string, clientId: string, ttlSeconds: int, now: int,
                          newToken: string)
    requires EpochsOk(e, w) && newToken !in w.past.places
    ensures EpochsOk(e, RotateToken(w, presented, clientId, ttlSeconds, now, newToken))
  {
    var (t, r) := Rotate(w.tables, presented, clientId, ttlSeconds, now, newToken);
    RotateShape(w.tables, presented, clientId, ttlSeconds, now, newToken);
    if r.Rotated? {
      var successor := FreshRefreshRow(r.row.data.clientId, r.row.userId, r.row.data.scope, ttlSeconds, now);
      RotationKeepsEpochs(e, w.past, w.tables.refresh, presented, newToken, successor);
      DeletionsKeepEpochs(e, w, t.(refresh := map[]), Extend(w.past, CodeOf(w.past, presented), newToken));
    } else {
      DeletionsKeepEpochs(e, w, t, w.past);
    }
  }

  lemma SweepKeepsEpochs(e: Env, w: World, what: Swept, now: int)
    requires EpochsOk(e, w)
    ensures EpochsOk(e, World(Sweep(w.tables, what, now), w.past))
  {
    DeletionsKeepEpochs(e, w, Sweep(w.tables, what, now), w.past);
  }

  lemma StepKeepsEpochs(e: Env, w: World, step: Step)
    requires EpochsOk(e, w) && SnapshotOk(e, w)
    ensures EpochsOk(e, Next(e, w, step))
  {
    if Enabled(w, step) {
      match step {
        case BootStep(config) => BootKeepsEpochs(e, w, config);
        case LoginStep(token, sessionId, policy, now) => LoginKeepsEpochs(e, w, token, sessionId, policy, now);
        case AuthorizeStep(sessionId, code, data, policy, now) =>
          AuthorizeKeepsEpochs(e, w, sessionId, code, data, policy, now);
        case ExchangeStep(o, now, newToken) => ExchangeKeepsEpochs(e, w, o, now, newToken);
        case RotateStep(presented, clientId, ttlSeconds, now, newToken) =>
          RotateKeepsEpochs(e, w, presented, clientId, ttlSeconds, now, newToken);
        case SweepStep(what, now) => SweepKeepsEpochs(e, w, what, now);
      }
    }
  }

  /** The stored snapshot and the list of boots. */
  ghost predicate SameBoots(w: World, w1: World) {
    w1.past.boots == w.past.boots && w1.tables.snapshot == w.tables.snapshot
  }

  lemma AuthorizeKeepsBoots(w: World, sessionId: string, code: string, data: CodeData, policy: SessionPolicy, now: int)
    ensures SameBoots(w, Authorize(w, sessionId, code, data, policy, now))
  {
    ResolveShape(w.tables, sessionId, policy, now);
  }

  lemma ExchangeKeepsBoots(w: World, o: ExchangeOptions, now: int, newToken: string)
    ensures SameBoots(w, ExchangeCode(w, o, now, newToken))
  {
    ExchangeShape(w.tables, o, now, newToken);
  }

  lemma RotateKeepsBoots(w: World, presented: string, clientId: string, ttlSeconds: int, now: int, newToken: string)
    ensures SameBoots(w, RotateToken(w, presented, clientId, ttlSeconds, now, newToken))
  {
    RotateShape(w.tables, presented, clientId, ttlSeconds, now, newToken);
  }

  /** Only boots touch the snapshot and the list of boots. */
  lemma OtherStepsKeepBoots(e: Env, w: World, step: Step)
    requires !step.BootStep?
    ensures SameBoots(w, Next(e, w, step))
  {
    if Enabled(w, step) {
      match step {
        case AuthorizeStep(sessionId, code, data, policy, now) =>
          AuthorizeKeepsBoots(w, sessionId, code, data, policy, now);
        case ExchangeStep(o, now, newToken) => ExchangeKeepsBoots(w, o, now, newToken);
        case RotateStep(presented, clientId, ttlSeconds, now, newToken) =>
          RotateKeepsBoots(w, presented, clientId, ttlSeconds, now, newToken);
        case _ =>
      }
    }
  }

  lemma BootKeepsSnapshot(e: Env, w: World, config: Config)
    requires LoweredUsers(config)
    ensures SnapshotOk(e, Boot(e, w, config))
  {
    assert Boot(e, w, config).past.boots == w.past.boots + [config];
  }

  lemma StepKeepsSnapshot(e: Env, w: World, step: Step)
    requires SnapshotOk(e, w)
    ensures SnapshotOk(e, Next(e, w, step))
  {
    if step.BootStep? {
      if LoweredUsers(step.config) { BootKeepsSnapshot(e, w, step.config); }
    } else {
      OtherStepsKeepBoots(e, w, step);
    }
  }

  lemma {:induction false} RunKeepsEpochs(e: Env, w: World, steps: seq<Step>)
    requires EpochsOk(e, w) && SnapshotOk(e, w)
    ensures EpochsOk(e, After(e, w, steps)) && SnapshotOk(e, After(e, w, steps))
    decreases |steps|
  {
    if steps != [] {
      StepKeepsEpochs(e, w, steps[0]);
      StepKeepsSnapshot(e, w, steps[0]);
      RunKeepsEpochs(e, Next(e, w, steps[0]), steps[1..]);
    }
  }

  // ----- Over whole runs -----

  /** The boot during which the user behind a refresh token logged in. */
  ghost function LoginEpoch(h: Past, token: string): nat {
    if CodeOf(h, token) in h.codes then h.codes[CodeOf(h, token)].epoch else 0
  }

  /**
   Whatever the boots, a session, code or refresh token that is stored belongs to a user who had a token
   when they logged in and of whom no effective fingerprint has gone missing at any boot from then on.
   */
  lemma SurvivorsLostNoToken(e: Env, snapshot: Option<string>, steps: seq<Step>, k: string)
    ensures var w := After(e, Initial(snapshot), steps);
            var (t, h) := (w.tables, w.past);
            && (k in t.sessions ==> k in h.logins && Unrevoked(e, h.boots, t.sessions[k].userId, h.logins[k].epoch))
            && (k in t.codes ==> k in h.codes && Unrevoked(e, h.boots, t.codes[k].userId, h.codes[k].epoch))
            && (k in t.refresh ==> Unrevoked(e, h.boots, t.refresh[k].userId, LoginEpoch(h, k)))
  {
    var w := After(e, Initial(snapshot), steps);
    RunKeepsEpochs(e, Initial(snapshot), steps);
    assert k in w.tables.refresh ==> RefreshEpochOk(e, w.past, k, w.tables.refresh[k]);
    assert k in w.tables.codes ==> CodeEpochOk(e, w.past, k, w.tables.codes[k]);
    assert k in w.tables.sessions ==> SessionEpochOk(e, w.past, k, w.tables.sessions[k]);
  }

  /** Every fingerprint that counts for the user under the one configuration counts under the other. */
  ghost predicate LosesNothing(e: Env, last: Config, config: Config, user: string) {
    EffectiveOf(last, user, e.digest) <= EffectiveOf(config, user, e.digest)
  }

  lemma ClearedExactly<T>(t: Table<T>, e: Env, raw: Option<string>, last: Config, config: Config, k: string)
    requires LoweredUsers(last) && raw == Some(Json.SnapshotText(Build(last, e.digest))) && k in t
    ensures k in Cleared(t, UsersWithRemovedTokens(raw, Build(config, e.digest), e.other))
       <==> LosesNothing(e, last, config, t[k].userId)
  {
    BootRemoves(e, raw, last, config, t[k].userId);
  }

  /** Which rows of a table a boot may leave out. */
  ghost predicate DeletesExactly<T>(e: Env, last: Config, config: Config, t: Table<T>, t1: Table<T>) {
    && (forall k <- t :: k in t1 <==> LosesNothing(e, last, config, t[k].userId))
    && (forall k <- t1 :: k in t && t1[k] == t[k])
  }

  lemma ClearedIsExact<T>(e: Env, last: Config, config: Config, raw: Option<string>, t: Table<T>)
    requires LoweredUsers(last) && raw == Some(Json.SnapshotText(Build(last, e.digest)))
    ensures var removed := UsersWithRemovedTokens(raw, Build(config, e.digest), e.other);
            DeletesExactly(e, last, config, t, Cleared(t, removed))
  {
    forall k | k in t
      ensures k in Cleared(t, UsersWithRemovedTokens(raw, Build(config, e.digest), e.other))
         <==> LosesNothing(e, last, config, t[k].userId)
    {
      ClearedExactly(t, e, raw, last, config, k);
    }
  }

  lemma ReconcileIsExact(e: Env, last: Config, config: Config, t: Tables)
    requires LoweredUsers(last) && t.snapshot == Some(Json.SnapshotText(Build(last, e.digest)))
    ensures var t1 := Reconcile(t, config, e.digest, e.other).0;
            && DeletesExactly(e, last, config, t.sessions, t1.sessions)
            && DeletesExactly(e, last, config, t.codes, t1.codes)
            && DeletesExactly(e, last, config, t.refresh, t1.refresh)
  {
    ClearedIsExact(e, last, config, t.snapshot, t.sessions);
    ClearedIsExact(e, last, config, t.snapshot, t.codes);
    ClearedIsExact(e, last, config, t.snapshot, t.refresh);
  }

  /** Of each table a boot deletes exactly the rows of users who lost something since the boot before. */
  ghost predicate BootIsExact(e: Env, w: World, config: Config)
    requires w.past.boots != []
  {
    var (t, t1) := (w.tables, Next(e, w, BootStep(config)).tables);
    var last := w.past.boots[|w.past.boots| - 1];
    && DeletesExactly(e, last, config, t.sessions, t1.sessions)
    && DeletesExactly(e, last, config, t.codes, t1.codes)
    && DeletesExactly(e, last, config, t.refresh, t1.refresh)
  }

  lemma OneBootIsExact(e: Env, w: World, config: Config)
    requires SnapshotOk(e, w) && w.past.boots != [] && LoweredUsers(config)
    ensures BootIsExact(e, w, config)
  {
    assert Next(e, w, BootStep(config)).tables == Reconcile(w.tables, config, e.digest, e.other).0;
    ReconcileIsExact(e, w.past.boots[|w.past.boots| - 1], config, w.tables);
  }

  /** And nothing more is lost: in every run, a boot after the first keeps the rows of all other users. */
  lemma BootDeletesExactly(e: Env, snapshot: Option<string>, steps: seq<Step>, config: Config)
    requires LoweredUsers(config) && After(e, Initial(snapshot), steps).past.boots != []
    ensures BootIsExact(e, After(e, Initial(snapshot), steps), config)
  {
    RunKeepsEpochs(e, Initial(snapshot), steps);
    OneBootIsExact(e, After(e, Initial(snapshot), steps), config);
  }
}
