/** What each step of a grant does to the tables, and that a grant succeeds from login to rotation. */
module GrantFlow {
  import opened Prelude
  import opened StaticTokens
  import opened StaticLogin
  import opened OAuthTables
  import opened GrantSteps
  import opened GrantLineage
  import opened GrantUse

  /** Whoever may log in under the last configuration. */
  function UserNow(e: Env, w: World, token: string): Option<string>
    requires w.past.boots != []
  {
    LoginUser(w.past.boots[|w.past.boots| - 1], token, e.digest)
  }

  lemma StoredWasNamed(w: World, name: string)
    requires Lineage(w)
    ensures name in w.tables.sessions ==> name in w.past.logins
    ensures name in w.tables.codes ==> name in w.past.codes
  {
    if name in w.tables.sessions { assert SessionOk(w.past, name, w.tables.sessions[name]); }
    if name in w.tables.codes { assert CodeOk(w.past, name, w.tables.codes[name]); }
  }

  /**
   A login in any reachable world: a token that counts opens a session of its user for the whole lifetime
   and the current epoch, any other token changes nothing, and no other row is touched.
   */
  lemma LoginOpensASession(e: Env, w: World, token: string, sessionId: string, policy: SessionPolicy, now: int)
    requires Lineage(w) && Enabled(w, LoginStep(token, sessionId, policy, now))
    ensures var w1 := Next(e, w, LoginStep(token, sessionId, policy, now));
            match UserNow(e, w, token)
            case None => w1 == w
            case Some(user) =>
              && sessionId !in w.tables.sessions
              && w1.tables == w.tables.(sessions := w.tables.sessions[sessionId :=
                                          Row(user, now + policy.ttlMs, SessionData(now))])
              && w1.past == w.past.(logins := w.past.logins[sessionId := Login(user, |w.past.boots| - 1)])
  {
    StoredWasNamed(w, sessionId);
  }

  /**
   An authorization in any reachable world: on an active session it issues the code asked for, in the name
   of the session's user, for ten minutes; on any other it issues none.
   */
  lemma AuthorizationIssuesACode(e: Env, w: World, sessionId: string, code: string, data: CodeData,
                                 policy: SessionPolicy, now: int)
    requires Lineage(w) && Enabled(w, AuthorizeStep(sessionId, code, data, policy, now))
    ensures var w1 := Next(e, w, AuthorizeStep(sessionId, code, data, policy, now));
            var t := w.tables;
            && w1.tables.refresh == t.refresh && w1.tables.snapshot == t.snapshot
            && if sessionId in t.sessions && now < t.sessions[sessionId].expiresAt then
                 && code !in t.codes
                 && w1.tables.codes == t.codes[code := Row(t.sessions[sessionId].userId, now + 600_000, data)]
                 && sessionId in w1.tables.sessions
                 && w1.tables.sessions[sessionId].userId == t.sessions[sessionId].userId
               else w1.tables.codes == t.codes && w1.past == w.past
  {
    StoredWasNamed(w, code);
    LookupIsExact(w.tables, sessionId, policy, now);
  }

  /** A sweep of one table drops the rows that expired before now, and keeps every other row as it is. */
  lemma SweepDropsTheExpired(e: Env, w: World, what: Swept, now: int)
    ensures var w1 := Next(e, w, SweepStep(what, now));
            var (t, t1) := (w.tables, w1.tables);
            && w1.past == w.past && t1.snapshot == t.snapshot
            && (if what.SweptCodes? then DropsBefore(t.codes, t1.codes, now) else t1.codes == t.codes)
            && (if what.SweptRefresh? then DropsBefore(t.refresh, t1.refresh, now) else t1.refresh == t.refresh)
            && (if what.SweptSessions? then DropsBefore(t.sessions, t1.sessions, now) else t1.sessions == t.sessions)
  {}

  ghost predicate DropsBefore<T(!new)>(before: Table<T>, after: Table<T>, now: int) {
    && (forall k :: k in after <==> k in before && before[k].expiresAt >= now)
    && (forall k <- after :: after[k] == before[k])
  }

  /** Exchanges and rotations are their transactions, and the past grows by the token that came of them. */
  lemma TokenStepsAreTransactions(e: Env, w: World, step: Step)
    requires (step.ExchangeStep? || step.RotateStep?) && Enabled(w, step)
    ensures var w1 := Next(e, w, step);
            match step
            case ExchangeStep(o, now, newToken) =>
              var (t, r) := Exchange(w.tables, o, now, newToken);
              w1.tables == t && (newToken in w1.past.places <==> r.Exchanged?)
            case RotateStep(presented, clientId, ttlSeconds, now, newToken) =>
              var (t, r) := Rotate(w.tables, presented, clientId, ttlSeconds, now, newToken);
              w1.tables == t && (newToken in w1.past.places <==> r.Rotated?)
            case _ => true
  {}

  /** The names and times of one grant: a login, an authorization, an exchange and a rotation, each in time. */
  datatype Flow = Flow(token: string, sessionId: string, policy: SessionPolicy, loginAt: int,
                       code: string, data: CodeData, authorizeAt: int,
                       first: string, exchangeAt: int, second: string, rotateAt: int, ttlSeconds: int)

  ghost predicate InTime(f: Flow) {
    && f.authorizeAt < f.loginAt + f.policy.ttlMs
    && f.exchangeAt < f.authorizeAt + 600_000
    && f.rotateAt < f.exchangeAt + f.ttlSeconds * 1000
  }

  ghost predicate AllNew(w: World, f: Flow) {
    && f.sessionId !in w.past.logins && f.code !in w.past.codes
    && f.first !in w.past.places && f.second !in w.past.places && f.first != f.second
  }

  function Steps(f: Flow): seq<Step> {
    [LoginStep(f.token, f.sessionId, f.policy, f.loginAt)]
    + [AuthorizeStep(f.sessionId, f.code, f.data, f.policy, f.authorizeAt)]
    + [ExchangeStep(ExchangeOptions(f.code, f.data.clientId, f.data.redirectUri, f.data.codeChallenge, f.ttlSeconds),
                    f.exchangeAt, f.first)]
    + [RotateStep(f.first, f.data.clientId, f.ttlSeconds, f.rotateAt, f.second)]
  }

  lemma AfterFour(e: Env, w: World, a: Step, b: Step, c: Step, d: Step)
    ensures After(e, w, [a] + [b] + [c] + [d]) == Next(e, Next(e, Next(e, Next(e, w, a), b), c), d)
  {
    AfterOneMore(e, w, [], a, []);
    assert [] + [a] + [] == [a];
    AfterOneMore(e, w, [a], b, []);
    assert [a] + [b] + [] == [a] + [b];
    AfterOneMore(e, w, [a] + [b], c, []);
    assert [a] + [b] + [c] + [] == [a] + [b] + [c];
    AfterOneMore(e, w, [a] + [b] + [c], d, []);
    assert [a] + [b] + [c] + [d] + [] == [a] + [b] + [c] + [d];
  }

  lemma LoggedIn(e: Env, w: World, f: Flow, user: string)
    requires Lineage(w) && w.past.boots != [] && AllNew(w, f) && UserNow(e, w, f.token) == Some(user)
    ensures var w1 := Next(e, w, LoginStep(f.token, f.sessionId, f.policy, f.loginAt));
            && Lineage(w1) && w1.past.boots == w.past.boots
            && w1.past.codes == w.past.codes && w1.past.places == w.past.places
            && f.sessionId in w1.tables.sessions
            && w1.tables.sessions[f.sessionId] == Row(user, f.loginAt + f.policy.ttlMs, SessionData(f.loginAt))
  {
    var step := LoginStep(f.token, f.sessionId, f.policy, f.loginAt);
    StepKeepsLineage(e, w, step);
    LoginOpensASession(e, w, f.token, f.sessionId, f.policy, f.loginAt);
  }

  lemma Authorized(e: Env, w: World, f: Flow, user: string)
    requires Lineage(w) && w.past.boots != [] && f.code !in w.past.codes
    requires f.sessionId in w.tables.sessions && w.tables.sessions[f.sessionId].userId == user
    requires f.authorizeAt < w.tables.sessions[f.sessionId].expiresAt
    ensures var w1 := Next(e, w, AuthorizeStep(f.sessionId, f.code, f.data, f.policy, f.authorizeAt));
            && Lineage(w1) && w1.past.boots == w.past.boots && w1.past.places == w.past.places
            && f.code in w1.tables.codes && w1.tables.codes[f.code] == Row(user, f.authorizeAt + 600_000, f.data)
  {
    StepKeepsLineage(e, w, AuthorizeStep(f.sessionId, f.code, f.data, f.policy, f.authorizeAt));
    AuthorizationIssuesACode(e, w, f.sessionId, f.code, f.data, f.policy, f.authorizeAt);
  }

  lemma Exchanges(e: Env, w: World, f: Flow, user: string, step: Step)
    requires Lineage(w) && w.past.boots != [] && InTime(f)
    requires f.first !in w.past.places && f.second !in w.past.places && f.first != f.second
    requires f.code in w.tables.codes && w.tables.codes[f.code] == Row(user, f.authorizeAt + 600_000, f.data)
    requires step == ExchangeStep(ExchangeOptions(f.code, f.data.clientId, f.data.redirectUri, f.data.codeChallenge,
                                                  f.ttlSeconds), f.exchangeAt, f.first)
    ensures var w1 := Next(e, w, step);
            && Redeems(w, step) && Lineage(w1) && w1.past.boots == w.past.boots && f.second !in w1.past.places
            && f.first in w1.tables.refresh
            && w1.tables.refresh[f.first] == Row(user, f.exchangeAt + f.ttlSeconds * 1000,
                                                 RefreshData(f.data.clientId, f.data.scope, f.exchangeAt, None))
  {
    StoredWasIssued(w, f.first);
    StepKeepsLineage(e, w, step);
    ExchangeIsAllOrNothing(w.tables, step.o, f.exchangeAt, f.first);
  }

  lemma UntilTheExchange(e: Env, w: World, f: Flow, user: string)
    requires Lineage(w) && w.past.boots != [] && UserNow(e, w, f.token) == Some(user) && AllNew(w, f) && InTime(f)
    ensures var w3 := Next(e, Next(e, Next(e, w, Steps(f)[0]), Steps(f)[1]), Steps(f)[2]);
            && Lineage(w3) && w3.past.boots != [] && f.second !in w3.past.places && CodeGone(w3, f.code)
            && f.first in w3.tables.refresh
            && w3.tables.refresh[f.first] == Row(user, f.exchangeAt + f.ttlSeconds * 1000,
                                                 RefreshData(f.data.clientId, f.data.scope, f.exchangeAt, None))
  {
    var s := Steps(f);
    LoggedIn(e, w, f, user);
    var w1 := Next(e, w, s[0]);
    Authorized(e, w1, f, user);
    var w2 := Next(e, w1, s[1]);
    Exchanges(e, w2, f, user, s[2]);
    RedeemingUsesTheCode(e, w2, s[2]);
  }

  /**
   A grant succeeds. From any world that runs can reach, whoever holds a token that counts can log in, have
   a code issued, exchange it with its challenge and rotate the refresh token, as long as each step comes in
   time; and ends with one unrotated token of their own, for that client and scope, with its full lifetime.
   */
  lemma AGrantSucceeds(e: Env, snapshot: Option<string>, before: seq<Step>, f: Flow, user: string)
    requires var w := After(e, Initial(snapshot), before);
             w.past.boots != [] && UserNow(e, w, f.token) == Some(user) && AllNew(w, f) && InTime(f)
    ensures var w := After(e, After(e, Initial(snapshot), before), Steps(f));
            && f.second in w.tables.refresh
            && w.tables.refresh[f.second] == Row(user, f.rotateAt + f.ttlSeconds * 1000,
                                                 RefreshData(f.data.clientId, f.data.scope, f.rotateAt, None))
            && f.first in w.tables.refresh && w.tables.refresh[f.first].data.rotatedTo == Some(f.second)
            && f.code !in w.tables.codes
  {
    var (w, s) := (After(e, Initial(snapshot), before), Steps(f));
    RunKeepsLineage(e, Initial(snapshot), before);
    UntilTheExchange(e, w, f, user);
    var w3 := Next(e, Next(e, Next(e, w, s[0]), s[1]), s[2]);
    FinalRotation(e, w3, f, user);
    StepIsFresh(e, w3, s[3]);
    AfterFour(e, w, s[0], s[1], s[2], s[3]);
  }

  lemma FinalRotation(e: Env, w: World, f: Flow, user: string)
    requires Lineage(w) && w.past.boots != [] && f.second !in w.past.places && f.first != f.second && InTime(f)
    requires f.first in w.tables.refresh
    requires w.tables.refresh[f.first] == Row(user, f.exchangeAt + f.ttlSeconds * 1000,
                                              RefreshData(f.data.clientId, f.data.scope, f.exchangeAt, None))
    ensures var w1 := Next(e, w, RotateStep(f.first, f.data.clientId, f.ttlSeconds, f.rotateAt, f.second));
            && f.second in w1.tables.refresh
            && w1.tables.refresh[f.second] == Row(user, f.rotateAt + f.ttlSeconds * 1000,
                                                  RefreshData(f.data.clientId, f.data.scope, f.rotateAt, None))
            && f.first in w1.tables.refresh && w1.tables.refresh[f.first].data.rotatedTo == Some(f.second)
  {
    StoredWasIssued(w, f.second);
    RotationIsAllOrNothing(w.tables, f.first, f.data.clientId, f.ttlSeconds, f.rotateAt, f.second);
  }
}
