/** Values that are used once: over whole runs, codes and refresh tokens succeed at most one time. */
module GrantUse {
  import opened Prelude
  import opened StaticTokens
  import opened StaticLogin
  import opened OAuthTables
  import opened GrantSteps
  import opened GrantLineage

  // ----- Used up -----

  /** Issued once, and no longer stored. */
  ghost predicate Dead(w: World, token: string) { token in w.past.places && token !in w.tables.refresh }

  /** Issued once, and no longer stored as a token that can be rotated. */
  ghost predicate Spent(w: World, token: string) {
    token in w.past.places && (token in w.tables.refresh ==> w.tables.refresh[token].data.rotatedTo.Some?)
  }

  ghost predicate CodeGone(w: World, code: string) { code in w.past.codes && code !in w.tables.codes }

  /** What nobody forgets: the rows of codes, and which tokens were issued. */
  ghost predicate Remembers(h: Past, h1: Past) {
    && (forall k <- h.places :: k in h1.places)
    && (forall k <- h.codes :: k in h1.codes && h1.codes[k] == h.codes[k])
  }

  /** Rows come under fresh names only, and a rotated row stays rotated. */
  ghost predicate OnlyFreshRows(w: World, w1: World) {
    && Remembers(w.past, w1.past)
    && (forall k <- w1.tables.refresh :: k in w.tables.refresh || k !in w.past.places)
    && (forall k <- w1.tables.refresh :: k in w.tables.refresh && w.tables.refresh[k].data.rotatedTo.Some? ==>
          w1.tables.refresh[k] == w.tables.refresh[k])
    && (forall k <- w1.tables.codes :: k in w.tables.codes || k !in w.past.codes)
  }

  lemma AuthorizeIsFresh(w: World, sessionId: string, code: string, data: CodeData, policy: SessionPolicy, now: int)
    requires code !in w.past.codes
    ensures OnlyFreshRows(w, Authorize(w, sessionId, code, data, policy, now))
  {}

  lemma ExchangeIsFresh(w: World, o: ExchangeOptions, now: int, newToken: string)
    requires newToken !in w.past.places
    ensures OnlyFreshRows(w, ExchangeCode(w, o, now, newToken))
  {
    ExchangeShape(w.tables, o, now, newToken);
  }

  lemma RotateIsFresh(w: World, presented: string, clientId: string, ttlSeconds: int, now: int, newToken: string)
    requires newToken !in w.past.places
    ensures OnlyFreshRows(w, RotateToken(w, presented, clientId, ttlSeconds, now, newToken))
  {}

  lemma StepIsFresh(e: Env, w: World, step: Step)
    ensures OnlyFreshRows(w, Next(e, w, step))
  {
    if Enabled(w, step) {
      match step {
        case AuthorizeStep(sessionId, code, data, policy, now) =>
          AuthorizeIsFresh(w, sessionId, code, data, policy, now);
        case ExchangeStep(o, now, newToken) => ExchangeIsFresh(w, o, now, newToken);
        case RotateStep(presented, clientId, ttlSeconds, now, newToken) =>
          RotateIsFresh(w, presented, clientId, ttlSeconds, now, newToken);
        case _ =>
      }
    }
  }

  /** Nothing used up ever comes back. */
  lemma {:induction false} UsedUpForGood(e: Env, w: World, steps: seq<Step>, name: string)
    ensures var w1 := After(e, w, steps);
            && (Dead(w, name) ==> Dead(w1, name))
            && (Spent(w, name) ==> Spent(w1, name))
            && (CodeGone(w, name) ==> CodeGone(w1, name))
            && (name in w.past.codes ==> name in w1.past.codes && w1.past.codes[name] == w.past.codes[name])
    decreases |steps|
  {
    if steps != [] {
      StepIsFresh(e, w, steps[0]);
      UsedUpForGood(e, Next(e, w, steps[0]), steps[1..], name);
    }
  }

  // ----- Refresh tokens -----

  ghost predicate Rotates(w: World, step: Step) {
    && Enabled(w, step) && step.RotateStep?
    && Rotate(w.tables, step.presented, step.clientId, step.ttlSeconds, step.now, step.newToken).1.Rotated?
  }

  lemma RotationSpends(e: Env, w: World, step: Step)
    requires Lineage(w) && Rotates(w, step)
    ensures Spent(Next(e, w, step), step.presented) && step.newToken in Next(e, w, step).tables.refresh
  {
    assert RefreshOk(w.past, step.presented, w.tables.refresh[step.presented]);
  }

  /** A refresh token is rotated with success at most once, however long the run and whatever lies between. */
  lemma RotatesAtMostOnce(e: Env, snapshot: Option<string>, before: seq<Step>, once: Step, between: seq<Step>,
                          again: Step)
    requires Rotates(After(e, Initial(snapshot), before), once)
    requires again.RotateStep? && again.presented == once.presented
    ensures !Rotates(After(e, Initial(snapshot), before + [once] + between), again)
  {
    var w := After(e, Initial(snapshot), before);
    RunKeepsLineage(e, Initial(snapshot), before);
    RotationSpends(e, w, once);
    UsedUpForGood(e, Next(e, w, once), between, once.presented);
    AfterOneMore(e, Initial(snapshot), before, once, between);
  }

  lemma AfterOneMore(e: Env, w: World, before: seq<Step>, step: Step, more: seq<Step>)
    ensures After(e, w, before + [step] + more) == After(e, Next(e, After(e, w, before), step), more)
  {
    AfterAppend(e, w, before, [step] + more);
    assert before + [step] + more == before + ([step] + more);
    assert ([step] + more)[1..] == more;
  }

  /** What never changes in a stored refresh row; a rotation changes only its link. */
  ghost predicate SameButLink(a: Row<RefreshData>, b: Row<RefreshData>) {
    && a.userId == b.userId && a.expiresAt == b.expiresAt && a.data.clientId == b.data.clientId
    && a.data.scope == b.data.scope && a.data.issuedAt == b.data.issuedAt
  }

  ghost predicate RowsStay(t: Tables, t1: Tables) {
    forall k <- t.refresh :: k in t1.refresh ==> SameButLink(t.refresh[k], t1.refresh[k])
  }

  lemma ExchangeKeepsRowsFixed(w: World, o: ExchangeOptions, now: int, newToken: string)
    requires newToken !in w.tables.refresh
    ensures RowsStay(w.tables, ExchangeCode(w, o, now, newToken).tables)
  {
    ExchangeShape(w.tables, o, now, newToken);
  }

  lemma RotateKeepsRowsFixed(w: World, presented: string, clientId: string, ttlSeconds: int, now: int, newToken: string)
    requires newToken !in w.tables.refresh
    ensures RowsStay(w.tables, RotateToken(w, presented, clientId, ttlSeconds, now, newToken).tables)
  {
    RotateShape(w.tables, presented, clientId, ttlSeconds, now, newToken);
  }

  lemma BootKeepsRowsFixed(e: Env, w: World, config: Config)
    ensures RowsStay(w.tables, Boot(e, w, config).tables)
  {}

  lemma StepKeepsRows(e: Env, w: World, step: Step)
    requires Lineage(w)
    ensures RowsStay(w.tables, Next(e, w, step).tables)
  {
    if Enabled(w, step) {
      match step {
        case ExchangeStep(o, now, newToken) =>
          StoredWasIssued(w, newToken);
          ExchangeKeepsRowsFixed(w, o, now, newToken);
        case RotateStep(presented, clientId, ttlSeconds, now, newToken) =>
          StoredWasIssued(w, newToken);
          RotateKeepsRowsFixed(w, presented, clientId, ttlSeconds, now, newToken);
        case BootStep(config) => BootKeepsRowsFixed(e, w, config);
        case SweepStep(what, now) =>
        case _ => OtherStepsKeepRefresh(e, w, step);
      }
    }
  }

  /** As long as a refresh token is stored, its user, client, scope, issue and expiry are those it was stored with. */
  lemma {:induction false} RowIsFixed(e: Env, w: World, steps: seq<Step>, token: string)
    requires Lineage(w) && token in w.tables.refresh
    ensures var z := After(e, w, steps);
            token in z.tables.refresh ==> SameButLink(w.tables.refresh[token], z.tables.refresh[token])
    decreases |steps|
  {
    if steps != [] {
      var w1 := Next(e, w, steps[0]);
      StepKeepsLineage(e, w, steps[0]);
      StepKeepsRows(e, w, steps[0]);
      if token in w1.tables.refresh {
        RowIsFixed(e, w1, steps[1..], token);
      } else {
        StoredWasIssued(w, token);
        StepIsFresh(e, w, steps[0]);
        UsedUpForGood(e, w1, steps[1..], token);
      }
    }
  }

  /** Over whole runs no refresh token is rotated at or after the expiry its row was stored with. */
  lemma NoRotationAfterExpiry(e: Env, snapshot: Option<string>, before: seq<Step>, after: seq<Step>, token: string,
                              step: Step)
    requires token in After(e, Initial(snapshot), before).tables.refresh
    requires step.RotateStep? && step.presented == token
    requires Rotates(After(e, Initial(snapshot), before + after), step)
    ensures step.now < After(e, Initial(snapshot), before).tables.refresh[token].expiresAt
  {
    var w := After(e, Initial(snapshot), before);
    RunKeepsLineage(e, Initial(snapshot), before);
    RowIsFixed(e, w, after, token);
    AfterAppend(e, Initial(snapshot), before, after);
    var z := After(e, Initial(snapshot), before + after);
    RunKeepsLineage(e, Initial(snapshot), before + after);
    StoredWasIssued(z, step.newToken);
    RotationIsAllOrNothing(z.tables, token, step.clientId, step.ttlSeconds, step.now, step.newToken);
  }

  ghost predicate Replays(w: World, step: Step) {
    && Enabled(w, step) && step.RotateStep?
    && Rotate(w.tables, step.presented, step.clientId, step.ttlSeconds, step.now, step.newToken).1.Replay?
  }

  /** The token was issued, at any time so far, to this user and client. */
  ghost predicate IssuedTo(h: Past, token: string, userId: string, clientId: string) {
    && token in h.places && CodeOf(h, token) in h.codes
    && h.codes[CodeOf(h, token)].row.userId == userId && h.codes[CodeOf(h, token)].row.data.clientId == clientId
  }

  lemma ReplayKills(e: Env, w: World, replay: Step, token: string)
    requires Lineage(w) && Replays(w, replay)
    requires IssuedTo(w.past, token, w.tables.refresh[replay.presented].userId, replay.clientId)
    ensures Dead(Next(e, w, replay), token)
  {
    if token in w.tables.refresh { assert RefreshOk(w.past, token, w.tables.refresh[token]); }
  }

  /**
   After a replay no refresh token that its user had ever been given for that client works again: whenever
   one is presented later, it is unknown (section 10.4 of RFC 6749).
   */
  lemma ReplayEndsTheGrant(e: Env, snapshot: Option<string>, before: seq<Step>, replay: Step, after: seq<Step>,
                           token: string, clientId: string, ttlSeconds: int, now: int, newToken: string)
    requires Replays(After(e, Initial(snapshot), before), replay)
    requires var w := After(e, Initial(snapshot), before);
             IssuedTo(w.past, token, w.tables.refresh[replay.presented].userId, replay.clientId)
    ensures var w1 := After(e, Initial(snapshot), before + [replay] + after);
            Rotate(w1.tables, token, clientId, ttlSeconds, now, newToken) == (w1.tables, RotationUnknown)
  {
    var w := After(e, Initial(snapshot), before);
    RunKeepsLineage(e, Initial(snapshot), before);
    ReplayKills(e, w, replay, token);
    UsedUpForGood(e, Next(e, w, replay), after, token);
    AfterOneMore(e, Initial(snapshot), before, replay, after);
  }

  // ----- Codes -----

  ghost predicate Redeems(w: World, step: Step) {
    && Enabled(w, step) && step.ExchangeStep?
    && Exchange(w.tables, step.o, step.now, step.newToken).1.Exchanged?
  }

  lemma RedeemingUsesTheCode(e: Env, w: World, step: Step)
    requires Lineage(w) && Redeems(w, step)
    ensures CodeGone(Next(e, w, step), step.o.code)
  {
    assert CodeOk(w.past, step.o.code, w.tables.codes[step.o.code]);
  }

  /** A code is exchanged with success at most once (section 4.1.2 of RFC 6749). */
  lemma RedeemsAtMostOnce(e: Env, snapshot: Option<string>, before: seq<Step>, once: Step, between: seq<Step>,
                          again: Step)
    requires Redeems(After(e, Initial(snapshot), before), once)
    requires again.ExchangeStep? && again.o.code == once.o.code
    ensures !Redeems(After(e, Initial(snapshot), before + [once] + between), again)
  {
    var w := After(e, Initial(snapshot), before);
    RunKeepsLineage(e, Initial(snapshot), before);
    RedeemingUsesTheCode(e, w, once);
    UsedUpForGood(e, Next(e, w, once), between, once.o.code);
    AfterOneMore(e, Initial(snapshot), before, once, between);
  }

  ghost predicate Issues(e: Env, w: World, step: Step) {
    step.AuthorizeStep? && step.code !in w.past.codes && step.code in Next(e, w, step).past.codes
  }

  lemma IssuingRecords(e: Env, w: World, step: Step)
    requires Lineage(w) && Issues(e, w, step)
    ensures step.sessionId in w.past.logins && w.tables.sessions[step.sessionId].expiresAt > step.now
    ensures Next(e, w, step).past.codes[step.code].row
         == Row(w.past.logins[step.sessionId].userId, step.now + 600_000, step.data)
  {
    if step.sessionId in w.tables.sessions {
      assert SessionOk(w.past, step.sessionId, w.tables.sessions[step.sessionId]);
    }
  }

  lemma StoredAsIssued(e: Env, snapshot: Option<string>, before: seq<Step>, issue: Step, between: seq<Step>)
    requires Issues(e, After(e, Initial(snapshot), before), issue)
    ensures var h := After(e, Initial(snapshot), before).past;
            var w := After(e, Initial(snapshot), before + [issue] + between);
            && issue.sessionId in h.logins
            && (issue.code in w.tables.codes ==>
                  w.tables.codes[issue.code]
                  == Row(h.logins[issue.sessionId].userId, issue.now + 600_000, issue.data))
  {
    var w0 := After(e, Initial(snapshot), before);
    RunKeepsLineage(e, Initial(snapshot), before);
    IssuingRecords(e, w0, issue);
    UsedUpForGood(e, Next(e, w0, issue), between, issue.code);
    AfterOneMore(e, Initial(snapshot), before, issue, between);
    RunKeepsLineage(e, Initial(snapshot), before + [issue] + between);
    var w := After(e, Initial(snapshot), before + [issue] + between);
    assert issue.code in w.tables.codes ==> CodeOk(w.past, issue.code, w.tables.codes[issue.code]);
  }

  /**
   However a run goes on after a code was issued, the exchange of that code succeeds only for the client,
   the redirect URI and the challenge of the authorization (section 4.6 of RFC 7636), within ten minutes,
   and then in the name of the user who had logged in and with the scope asked for.
   */
  lemma RedeemsAsAuthorized(e: Env, snapshot: Option<string>, before: seq<Step>, issue: Step, between: seq<Step>,
                            redeem: Step)
    requires Issues(e, After(e, Initial(snapshot), before), issue)
    requires redeem.ExchangeStep? && redeem.o.code == issue.code
    requires Redeems(After(e, Initial(snapshot), before + [issue] + between), redeem)
    ensures var h := After(e, Initial(snapshot), before).past;
            var w := After(e, Initial(snapshot), before + [issue] + between);
            var r := Exchange(w.tables, redeem.o, redeem.now, redeem.newToken).1;
            && redeem.o.clientId == r.clientId == issue.data.clientId
            && redeem.o.redirectUri == issue.data.redirectUri
            && redeem.o.challenge == issue.data.codeChallenge
            && redeem.now < issue.now + 600_000
            && issue.sessionId in h.logins && r.userId == h.logins[issue.sessionId].userId
            && r.scope == issue.data.scope
  {
    StoredAsIssued(e, snapshot, before, issue, between);
  }

  // ----- Challenges -----

  ghost predicate AsciiCodes(t: Table<CodeData>) { forall k <- t :: IsAscii(t[k].data.codeChallenge) }

  /** Whoever authorizes does so with an ASCII challenge. */
  predicate AsksInAscii(step: Step) { step.AuthorizeStep? ==> IsAscii(step.data.codeChallenge) }

  lemma StepKeepsAscii(e: Env, w: World, step: Step)
    requires AsciiCodes(w.tables.codes) && AsksInAscii(step)
    ensures AsciiCodes(Next(e, w, step).tables.codes)
  {
    if Enabled(w, step) {
      match step {
        case ExchangeStep(o, now, newToken) => ExchangeShape(w.tables, o, now, newToken);
        case RotateStep(presented, clientId, ttlSeconds, now, newToken) =>
          RotateShape(w.tables, presented, clientId, ttlSeconds, now, newToken);
        case _ =>
      }
    }
  }

  lemma {:induction false} RunKeepsAscii(e: Env, w: World, steps: seq<Step>)
    requires AsciiCodes(w.tables.codes) && forall step <- steps :: AsksInAscii(step)
    ensures AsciiCodes(After(e, w, steps).tables.codes)
    decreases |steps|
  {
    if steps != [] {
      StepKeepsAscii(e, w, steps[0]);
      RunKeepsAscii(e, Next(e, w, steps[0]), steps[1..]);
    }
  }

  lemma StoredWasIssued(w: World, token: string)
    requires Lineage(w)
    ensures token in w.tables.refresh ==> token in w.past.places
  {
    if token in w.tables.refresh { assert RefreshOk(w.past, token, w.tables.refresh[token]); }
  }

  /** If only ASCII challenges are admitted, no exchange of any run throws. */
  lemma AsciiRunsNeverThrow(e: Env, snapshot: Option<string>, steps: seq<Step>, exchange: Step)
    requires forall step <- steps :: AsksInAscii(step)
    requires exchange.ExchangeStep? && IsAscii(exchange.o.challenge)
    requires Enabled(After(e, Initial(snapshot), steps), exchange)
    ensures var w := After(e, Initial(snapshot), steps);
            !Exchange(w.tables, exchange.o, exchange.now, exchange.newToken).1.ExchangeThrown?
  {
    var w := After(e, Initial(snapshot), steps);
    RunKeepsLineage(e, Initial(snapshot), steps);
    RunKeepsAscii(e, Initial(snapshot), steps);
    StoredWasIssued(w, exchange.newToken);
    ExchangeThrowsExactlyWhen(w.tables, exchange.o, exchange.now, exchange.newToken);
  }
}
