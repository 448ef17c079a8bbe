/** The storage object: its tables are updated in place, one transaction per method. */
module OAuthStorage {
  import opened Prelude
  import opened StaticTokens
  import opened OAuthTables
  import Json

  class Storage {
    var codes: Table<CodeData>
    var refresh: Table<RefreshData>
    var sessions: Table<SessionData>
    var snapshot: Option<string>

    ghost function Now(): Tables
      reads this
    {
      Tables(codes, refresh, sessions, snapshot)
    }

    constructor (snapshot: Option<string>)
      ensures Now() == Tables(map[], map[], map[], snapshot)
    {
      codes, refresh, sessions := map[], map[], map[];
      this.snapshot := snapshot;
    }

    /** Returns whether the row went in; a second row under one key is a constraint error. */
    method InsertRefreshToken(token: string, row: Row<RefreshData>) returns (ok: bool)
      modifies this`refresh
      ensures ok == (token !in old(refresh))
      ensures refresh == if ok then old(refresh)[token := row] else old(refresh)
    {
      ok := token !in refresh;
      if ok { refresh := refresh[token := row]; }
    }

    method MarkRefreshTokenRotated(oldToken: string, newToken: string)
      modifies this`refresh
      ensures refresh == if oldToken in old(refresh)
                         then old(refresh)[oldToken := Marked(old(refresh)[oldToken], newToken)]
                         else old(refresh)
    {
      if oldToken in refresh {
        refresh := refresh[oldToken := Marked(refresh[oldToken], newToken)];
      }
    }

    method DeleteRefreshTokenChain(userId: string, clientId: string) returns (changes: nat)
      modifies this`refresh
      ensures refresh == WithoutGrant(old(refresh), userId, clientId)
      ensures changes == Deleted(old(refresh), refresh)
    {
      var kept := WithoutGrant(refresh, userId, clientId);
      FilterSize(refresh, kept);
      changes := |refresh| - |kept|;
      refresh := kept;
    }

    method RotateRefreshToken(presented: string, clientId: string, ttlSeconds: int, now: int, newToken: string)
      returns (result: RotationResult)
      modifies this
      ensures (Now(), result) == Rotate(old(Now()), presented, clientId, ttlSeconds, now, newToken)
    {
      if presented !in refresh { return RotationUnknown; }
      var row := refresh[presented];
      if row.data.clientId != clientId { return UnknownClient; }
      if row.data.rotatedTo.Some? {
        var deleted := DeleteRefreshTokenChain(row.userId, row.data.clientId);
        return Replay(deleted);
      }
      if row.expiresAt <= now { return RotationExpired; }
      var successor := FreshRefreshRow(row.data.clientId, row.userId, row.data.scope, ttlSeconds, now);
      var ok := InsertRefreshToken(newToken, successor);
      if !ok { return RotationThrown; }
      MarkRefreshTokenRotated(presented, newToken);
      return Rotated(row, newToken);
    }

    method ExchangeAuthCode(o: ExchangeOptions, now: int, newToken: string) returns (result: ExchangeResult)
      modifies this
      ensures (Now(), result) == Exchange(old(Now()), o, now, newToken)
    {
      if o.code !in codes { return ExchangeUnknown; }
      var row := codes[o.code];
      if row.expiresAt <= now {
        codes := codes - {o.code};
        return ExchangeExpired;
      }
      if row.data.clientId != o.clientId { return ClientMismatch; }
      if row.data.redirectUri != o.redirectUri { return RedirectMismatch; }
      var comparison := SafeEqual(o.challenge, row.data.codeChallenge);
      if comparison.Throws? { return ExchangeThrown; }
      if comparison.Different? { return PkceMismatch; }
      var before := codes;
      codes := codes - {o.code};
      var successor := FreshRefreshRow(row.data.clientId, row.userId, row.data.scope, o.ttlSeconds, now);
      var ok := InsertRefreshToken(newToken, successor);
      if !ok {
        codes := before; // the transaction rolls back
        return ExchangeThrown;
      }
      return Exchanged(row.userId, row.data.clientId, row.data.scope, newToken);
    }

    method IssueAuthCode(code: string, userId: string, data: CodeData, now: int) returns (ok: bool)
      modifies this
      ensures var issued := IssueCode(old(Now()), code, userId, data, AUTH_CODE_TTL_SECONDS, now);
              ok == issued.Some? && Now() == if ok then issued.value else old(Now())
      ensures ok <==> code !in old(codes)
      ensures ok ==> codes == old(codes)[code := Row(userId, now + 600_000, data)]
    {
      ok := code !in codes;
      if ok { codes := codes[code := Row(userId, now + AUTH_CODE_TTL_SECONDS * 1000, data)]; }
    }

    method CreateLoginSession(sessionId: string, userId: string, p: SessionPolicy, now: int) returns (ok: bool)
      modifies this
      ensures var created := CreateSession(old(Now()), sessionId, userId, p, now);
              ok == created.Some? && Now() == if ok then created.value else old(Now())
      ensures ok <==> sessionId !in old(sessions)
      ensures ok ==> sessions == old(sessions)[sessionId := Row(userId, now + p.ttlMs, SessionData(now))]
    {
      ok := sessionId !in sessions;
      if ok { sessions := sessions[sessionId := Row(userId, now + p.ttlMs, SessionData(now))]; }
    }

    method ResolveLoginSession(sessionId: string, p: SessionPolicy, now: int) returns (result: SessionResult)
      modifies this
      ensures (Now(), result) == ResolveSession(old(Now()), sessionId, p, now)
    {
      if sessionId !in sessions { return SessionUnknown; }
      var row := sessions[sessionId];
      if row.expiresAt <= now {
        sessions := sessions - {sessionId};
        return SessionExpired;
      }
      var remaining := row.expiresAt - now;
      if remaining < p.ttlMs - p.thresholdMs {
        var renewed := now + p.ttlMs;
        sessions := sessions[sessionId := row.(expiresAt := renewed)];
        return Active(row.userId, sessionId, renewed);
      }
      return Active(row.userId, sessionId, row.expiresAt);
    }

    method SweepExpired(now: int)
      modifies this
      ensures Now() == Tables(Unexpired(old(codes), now), Unexpired(old(refresh), now), Unexpired(old(sessions), now),
                              old(snapshot))
      ensures forall k :: k in codes <==> k in old(codes) && old(codes)[k].expiresAt >= now
      ensures forall k :: k in refresh <==> k in old(refresh) && old(refresh)[k].expiresAt >= now
      ensures forall k :: k in sessions <==> k in old(sessions) && old(sessions)[k].expiresAt >= now
      ensures (forall k <- codes :: codes[k] == old(codes)[k]) && (forall k <- refresh :: refresh[k] == old(refresh)[k])
      ensures forall k <- sessions :: sessions[k] == old(sessions)[k]
    {
      codes := Unexpired(codes, now);
      refresh := Unexpired(refresh, now);
      sessions := Unexpired(sessions, now);
    }

    /** Replaces the snapshot and clears the three tables in one transaction. */
    method ReconcileStaticTokenSnapshot(removed: Option<seq<string>>, next: string) returns (r: Reconciliation)
      modifies this
      ensures (Now(), r) == ReconcileWith(old(Now()), removed, next)
    {
      var deletedCodes, deletedRefresh, deletedSessions;
      codes, deletedCodes := DeleteAuthorizationRows(codes, removed);
      refresh, deletedRefresh := DeleteAuthorizationRows(refresh, removed);
      sessions, deletedSessions := DeleteAuthorizationRows(sessions, removed);
      snapshot := Some(next);
      return Reconciliation(removed.None?, if removed.Some? then |removed.value| else 0, deletedCodes, deletedRefresh,
                            deletedSessions);
    }
  }

  /** Deletes user by user and adds up the changes. */
  method DeleteAuthorizationRows<T>(t: Table<T>, users: Option<seq<string>>) returns (kept: Table<T>, deleted: nat)
    ensures kept == Cleared(t, users)
    ensures deleted == Deleted(t, kept) && deleted + |kept| == |t|
  {
    if users.None? { return map[], |t|; }
    kept, deleted := t, 0;
    var i := 0;
    while i < |users.value|
      invariant 0 <= i <= |users.value|
      invariant kept == WithoutUsers(t, users.value[..i])
      invariant deleted + |kept| == |t|
    {
      var next := WithoutUsers(kept, [users.value[i]]);
      FilterSize(kept, next);
      WithoutOneMore(t, users.value, i);
      deleted := deleted + (|kept| - |next|);
      kept := next;
      i := i + 1;
    }
    assert users.value[..i] == users.value;
  }
}
