/**
 The authorization tables of the OAuth store and, as functions on them, the transactions that
 change them. A constraint error of SQLite rolls its transaction back and is a result here.
 */
module OAuthTables {
  import opened Prelude
  import opened OrderedMaps
  import opened SortedText
  import opened StaticTokens
  import Json

  /** What every expiring row has, and what is particular to its table. */
  datatype Row<+T> = Row(userId: string, expiresAt: int, data: T)

  datatype CodeData = CodeData(clientId: string, codeChallenge: string, redirectUri: string, scope: string)
  datatype RefreshData = RefreshData(clientId: string, scope: string, issuedAt: int, rotatedTo: Option<string>)
  datatype SessionData = SessionData(issuedAt: int)

  type Table<+T> = map<string, Row<T>>

  datatype Tables = Tables(codes: Table<CodeData>, refresh: Table<RefreshData>, sessions: Table<SessionData>,
                           snapshot: Option<string>)

  // ----- Deletions -----

  /** `DELETE ... WHERE expires_at < now`: a row expiring right now stays. */
  function Unexpired<T>(t: Table<T>, now: int): Table<T> {
    map k <- t | t[k].expiresAt >= now :: t[k]
  }

  function WithoutUsers<T>(t: Table<T>, users: seq<string>): Table<T> {
    map k <- t | t[k].userId !in users :: t[k]
  }

  /** A token of the same user for the same client. */
  predicate SameGrant(a: Row<RefreshData>, b: Row<RefreshData>) {
    a.userId == b.userId && a.data.clientId == b.data.clientId
  }

  function WithoutGrant(t: Table<RefreshData>, userId: string, clientId: string): Table<RefreshData> {
    map k <- t | !(t[k].userId == userId && t[k].data.clientId == clientId) :: t[k]
  }

  // ----- Refresh tokens -----

  function FreshRefreshRow(clientId: string, userId: string, scope: string, ttlSeconds: int,
                           now: int): Row<RefreshData>
  {
    Row(userId, now + ttlSeconds * 1000, RefreshData(clientId, scope, now, None))
  }

  /** The row once it has been rotated. */
  function Marked(row: Row<RefreshData>, newToken: string): Row<RefreshData> {
    row.(data := row.data.(rotatedTo := Some(newToken)))
  }

  datatype RotationResult =
    | RotationUnknown
    | UnknownClient
    | Replay(chainDeleted: nat)
    | RotationExpired
    | Rotated(row: Row<RefreshData>, newToken: string)
    | RotationThrown

  /** One transaction: look up, detect a replay, check expiry, insert the successor, mark the old row. */
  function Rotate(t: Tables, presented: string, clientId: string, ttlSeconds: int, now: int, newToken: string)
    : (Tables, RotationResult)
  {
    if presented !in t.refresh then (t, RotationUnknown)
    else
      var row := t.refresh[presented];
      if row.data.clientId != clientId then (t, UnknownClient)
      else if row.data.rotatedTo.Some? then
        var kept := WithoutGrant(t.refresh, row.userId, row.data.clientId);
        (t.(refresh := kept), Replay(Deleted(t.refresh, kept)))
      else if row.expiresAt <= now then (t, RotationExpired)
      else if newToken in t.refresh then (t, RotationThrown)
      else
        var successor := FreshRefreshRow(row.data.clientId, row.userId, row.data.scope, ttlSeconds, now);
        (t.(refresh := t.refresh[newToken := successor][presented := Marked(row, newToken)]), Rotated(row, newToken))
  }

  /** `changes` of a DELETE. */
  function Deleted<T>(before: Table<T>, after: Table<T>): nat {
    if |after| <= |before| then |before| - |after| else 0
  }

  // ----- Authorization codes -----

  datatype Comparison = Equal | Different | Throws

  /** Strings of one length are compared as UTF-8 buffers, which must then have one length too. */
  function SafeEqual(a: string, b: string): Comparison {
    if Utf16Length(a) != Utf16Length(b) then Different
    else if Utf8Length(a) != Utf8Length(b) then Throws
    else if a == b then Equal
    else Different
  }

  datatype ExchangeResult =
    | ExchangeUnknown
    | ExchangeExpired
    | ClientMismatch
    | RedirectMismatch
    | PkceMismatch
    | ExchangeThrown
    | Exchanged(userId: string, clientId: string, scope: string, refreshToken: string)

  datatype ExchangeOptions = ExchangeOptions(code: string, clientId: string, redirectUri: string, challenge: string,
                                             ttlSeconds: int)

  /** `challenge` is the S256 transform of the presented code verifier. */
  function Exchange(t: Tables, o: ExchangeOptions, now: int, newToken: string): (Tables, ExchangeResult) {
    if o.code !in t.codes then (t, ExchangeUnknown)
    else
      var row := t.codes[o.code];
      if row.expiresAt <= now then (t.(codes := t.codes - {o.code}), ExchangeExpired)
      else if row.data.clientId != o.clientId then (t, ClientMismatch)
      else if row.data.redirectUri != o.redirectUri then (t, RedirectMismatch)
      else
        match SafeEqual(o.challenge, row.data.codeChallenge) {
          case Throws => (t, ExchangeThrown)
          case Different => (t, PkceMismatch)
          case Equal =>
            if newToken in t.refresh then (t, ExchangeThrown)
            else
              var issued := FreshRefreshRow(row.data.clientId, row.userId, row.data.scope, o.ttlSeconds, now);
              (t.(codes := t.codes - {o.code}, refresh := t.refresh[newToken := issued]),
               Exchanged(row.userId, row.data.clientId, row.data.scope, newToken))
        }
  }

  const AUTH_CODE_TTL_SECONDS: int := 600

  /** None is the constraint error for a code that exists already. */
  function IssueCode(t: Tables, code: string, userId: string, data: CodeData, ttlSeconds: int,
                     now: int): Option<Tables>
  {
    if code in t.codes then None
    else Some(t.(codes := t.codes[code := Row(userId, now + ttlSeconds * 1000, data)]))
  }

  // ----- Sessions -----

  /** Lifetime and sliding-renewal threshold in milliseconds. */
  datatype SessionPolicy = SessionPolicy(ttlMs: int, thresholdMs: int)

  datatype SessionResult = SessionUnknown | SessionExpired | Active(userId: string, sessionId: string, expiresAt: int)

  function CreateSession(t: Tables, sessionId: string, userId: string, p: SessionPolicy, now: int): Option<Tables> {
    if sessionId in t.sessions then None
    else Some(t.(sessions := t.sessions[sessionId := Row(userId, now + p.ttlMs, SessionData(now))]))
  }

  function ResolveSession(t: Tables, sessionId: string, p: SessionPolicy, now: int): (Tables, SessionResult) {
    if sessionId !in t.sessions then (t, SessionUnknown)
    else
      var row := t.sessions[sessionId];
      if row.expiresAt <= now then (t.(sessions := t.sessions - {sessionId}), SessionExpired)
      else if row.expiresAt - now < p.ttlMs - p.thresholdMs then
        var renewed := now + p.ttlMs;
        (t.(sessions := t.sessions[sessionId := row.(expiresAt := renewed)]), Active(row.userId, sessionId, renewed))
      else (t, Active(row.userId, sessionId, row.expiresAt))
  }

  // ----- Reconciliation at boot -----

  datatype Reconciliation = Reconciliation(globallyReset: bool, invalidatedUsers: nat, deletedCodes: nat,
                                           deletedRefreshTokens: nat, deletedSessions: nat)

  /** Deletes everything, or the rows of the given users. */
  function Cleared<T>(t: Table<T>, users: Option<seq<string>>): Table<T> {
    match users case None => map[] case Some(us) => WithoutUsers(t, us)
  }

  function ReconcileWith(t: Tables, removed: Option<seq<string>>, next: string): (Tables, Reconciliation) {
    var t1 := Tables(Cleared(t.codes, removed), Cleared(t.refresh, removed), Cleared(t.sessions, removed), Some(next));
    (t1, Reconciliation(removed.None?, if removed.Some? then |removed.value| else 0, Deleted(t.codes, t1.codes),
                        Deleted(t.refresh, t1.refresh), Deleted(t.sessions, t1.sessions)))
  }

  ghost function Reconcile(t: Tables, c: Config, digest: Digest, other: string -> Option<Json.Value>)
    : (Tables, Reconciliation)
  {
    var current := Build(c, digest);
    ReconcileWith(t, UsersWithRemovedTokens(t.snapshot, current, other), Json.SnapshotText(current))
  }

  // ----- Facts about single transactions -----

  lemma WithoutOneMore<T>(t: Table<T>, users: seq<string>, i: nat)
    requires i < |users|
    ensures WithoutUsers(WithoutUsers(t, users[..i]), [users[i]]) == WithoutUsers(t, users[..i + 1])
  {
    assert users[..i + 1] == users[..i] + [users[i]];
  }

  lemma FilterSize<T>(before: Table<T>, after: Table<T>)
    requires after.Keys <= before.Keys
    ensures |after| <= |before|
    ensures |before| == |after| + |before.Keys - after.Keys|
  {
    assert before.Keys == after.Keys + (before.Keys - after.Keys);
    assert |before| == |before.Keys| && |after| == |after.Keys|;
  }

  /** Nothing is lost in the books: in each table the rows deleted and the rows kept add up. */
  lemma ReconcileConserves(t: Tables, c: Config, digest: Digest, other: string -> Option<Json.Value>)
    ensures var (t1, r) := Reconcile(t, c, digest, other);
            && r.deletedCodes + |t1.codes| == |t.codes|
            && r.deletedRefreshTokens + |t1.refresh| == |t.refresh|
            && r.deletedSessions + |t1.sessions| == |t.sessions|
  {
    var t1 := Reconcile(t, c, digest, other).0;
    FilterSize(t.codes, t1.codes);
    FilterSize(t.refresh, t1.refresh);
    FilterSize(t.sessions, t1.sessions);
  }

  /** What the report of a reconciliation says: whether it trusted the snapshot, and how many users lost something. */
  lemma ReconcileReports(t: Tables, c: Config, digest: Digest, other: string -> Option<Json.Value>)
    ensures var (t1, r) := Reconcile(t, c, digest, other);
            var previous := ParseSnapshot(t.snapshot, other);
            && (r.globallyReset <==> previous.None?)
            && (previous.None? ==>
                  r.invalidatedUsers == 0 && t1.codes == map[] && t1.refresh == map[] && t1.sessions == map[])
            && (previous.Some? && Distinct(previous.value) ==>
                  r.invalidatedUsers == |set user <- Keys(previous.value) |
                      !(Elements(Values(previous.value, user)) <= EffectiveOf(c, user, digest))|)
            && t1.snapshot == Some(Json.SnapshotText(Build(c, digest)))
  {
    var previous := ParseSnapshot(t.snapshot, other);
    if previous.Some? && Distinct(previous.value) {
      var removed := RemovedUsers(previous.value, Build(c, digest));
      var lost := set user <- Keys(previous.value) |
        !(Elements(Values(previous.value, user)) <= EffectiveOf(c, user, digest));
      forall user ensures user in removed <==> user in lost {
        BuildFacts(c, digest, user);
        RemovedUsersFacts(previous.value, Build(c, digest), user);
      }
      RemovedUsersFacts(previous.value, Build(c, digest), "");
      assert Elements(removed) == lost;
      SizeOfElements(removed);
    }
  }

  lemma NothingRemoved(us: Json.Users)
    requires Distinct(us)
    ensures RemovedUsers(us, us) == []
  {
    if RemovedUsers(us, us) != [] {
      RemovedUsersFacts(us, us, RemovedUsers(us, us)[0]);
      assert false;
    }
  }

  lemma SameTokensRemoveNobody(raw: Option<string>, c: Config, d: Config, digest: Digest,
                               other: string -> Option<Json.Value>)
    requires NamesAllUsers(c) && raw == Some(Json.SnapshotText(Build(c, digest)))
    requires forall user :: EffectiveOf(c, user, digest) == EffectiveOf(d, user, digest)
    ensures UsersWithRemovedTokens(raw, Build(d, digest), other) == Some([])
    ensures Some(Json.SnapshotText(Build(d, digest))) == raw
  {
    SnapshotTextIsCanonical(c, d, digest);
    SnapshotRoundTrip(c, digest, other);
    BuildFacts(c, digest, "");
    BuildFacts(d, digest, "");
    Json.ReadSnapshotOfText(Build(c, digest));
    Json.ReadSnapshotOfText(Build(d, digest));
    NothingRemoved(Build(d, digest));
  }

  lemma RemovingNobodyKeepsAll(t: Tables, next: string)
    requires t.snapshot == Some(next)
    ensures ReconcileWith(t, Some([]), next) == (t, Reconciliation(false, 0, 0, 0, 0))
  {
    assert WithoutUsers(t.codes, []) == t.codes;
    assert WithoutUsers(t.refresh, []) == t.refresh;
    assert WithoutUsers(t.sessions, []) == t.sessions;
  }

  /**
   Booting again with the same effective tokens deletes nothing and rewrites the same snapshot, as long
   as no effective token has an empty user id; if one does, every boot resets everything.
   */
  lemma RepeatBootDeletesNothing(t: Tables, c: Config, d: Config, digest: Digest, other: string -> Option<Json.Value>)
    requires t.snapshot == Some(Json.SnapshotText(Build(c, digest)))
    requires forall user :: EffectiveOf(c, user, digest) == EffectiveOf(d, user, digest)
    ensures NamesAllUsers(c) ==> Reconcile(t, d, digest, other) == (t, Reconciliation(false, 0, 0, 0, 0))
    ensures !NamesAllUsers(c) ==> Reconcile(t, d, digest, other).1.globallyReset
                                  && Reconcile(t, d, digest, other).0 == Tables(map[], map[], map[], t.snapshot)
  {
    if NamesAllUsers(c) {
      SameTokensRemoveNobody(t.snapshot, c, d, digest, other);
      RemovingNobodyKeepsAll(t, Json.SnapshotText(Build(d, digest)));
    } else {
      SnapshotTextIsCanonical(c, d, digest);
      SnapshotRoundTrip(c, digest, other);
    }
  }

  /**
   A code exchange is all or nothing. It succeeds exactly for a stored, unexpired code presented with
   its client, its redirect URI and its challenge; then the code goes and one row of the code's user,
   client and scope comes. Any other outcome leaves the refresh tokens alone, and drops the code only
   if it had expired.
   */
  lemma ExchangeIsAllOrNothing(t: Tables, o: ExchangeOptions, now: int, newToken: string)
    requires newToken !in t.refresh
    ensures var (t1, r) := Exchange(t, o, now, newToken);
            && (r.Exchanged? <==>
                  && o.code in t.codes && now < t.codes[o.code].expiresAt
                  && o.clientId == t.codes[o.code].data.clientId
                  && o.redirectUri == t.codes[o.code].data.redirectUri
                  && o.challenge == t.codes[o.code].data.codeChallenge)
            && (r.Exchanged? ==>
                  && t1.codes == t.codes - {o.code}
                  && t1.refresh.Keys == t.refresh.Keys + {newToken}
                  && (forall k <- t.refresh :: t1.refresh[k] == t.refresh[k])
                  && t1.refresh[newToken].userId == t.codes[o.code].userId
                  && t1.refresh[newToken].data == RefreshData(o.clientId, t.codes[o.code].data.scope, now, None)
                  && t1.refresh[newToken].expiresAt == now + o.ttlSeconds * 1000)
            && (!r.Exchanged? ==>
                  && t1.refresh == t.refresh
                  && t1.codes == if r.ExchangeExpired? then t.codes - {o.code} else t.codes)
            && (r.ExchangeExpired? ==> o.code in t.codes && t.codes[o.code].expiresAt <= now)
            && t1.sessions == t.sessions && t1.snapshot == t.snapshot
  {}

  /**
   Which answer an exchange gives, exactly: each condition in the order in which a client is told. Only
   success and expiry change the tables.
   */
  lemma ExchangeAnswers(t: Tables, o: ExchangeOptions, now: int, newToken: string)
    requires newToken !in t.refresh && o.code in t.codes
    ensures var row := t.codes[o.code];
            var r := Exchange(t, o, now, newToken).1;
            && (r.ExchangeExpired? <==> row.expiresAt <= now)
            && (r.ClientMismatch? <==> now < row.expiresAt && row.data.clientId != o.clientId)
            && (r.RedirectMismatch? <==>
                  now < row.expiresAt && row.data.clientId == o.clientId && row.data.redirectUri != o.redirectUri)
            && (r.PkceMismatch? || r.ExchangeThrown? || r.Exchanged? <==> ReachesComparison(t, o, now))
            && (r.Exchanged? ==> r == Exchanged(row.userId, o.clientId, row.data.scope, newToken))
            && !r.ExchangeUnknown?
  {}

  /** A new session lives for the whole lifetime from now on, and creating it changes no other row. */
  lemma CreationIsExact(t: Tables, sessionId: string, userId: string, p: SessionPolicy, now: int)
    ensures var created := CreateSession(t, sessionId, userId, p, now);
            && (created.Some? <==> sessionId !in t.sessions)
            && (created.Some? ==>
                  && created.value.sessions.Keys == t.sessions.Keys + {sessionId}
                  && created.value.sessions[sessionId].userId == userId
                  && created.value.sessions[sessionId].expiresAt == now + p.ttlMs
                  && created.value.sessions[sessionId].data.issuedAt == now
                  && (forall k <- t.sessions :: created.value.sessions[k] == t.sessions[k])
                  && created.value == t.(sessions := created.value.sessions))
  {}

  /** A new code is stored as asked for, until its lifetime is over, and no other row changes. */
  lemma IssuanceIsExact(t: Tables, code: string, userId: string, data: CodeData, ttlSeconds: int, now: int)
    ensures var issued := IssueCode(t, code, userId, data, ttlSeconds, now);
            && (issued.Some? <==> code !in t.codes)
            && (issued.Some? ==>
                  && issued.value.codes.Keys == t.codes.Keys + {code}
                  && issued.value.codes[code].userId == userId
                  && issued.value.codes[code].expiresAt == now + 1000 * ttlSeconds
                  && issued.value.codes[code].data == data
                  && (forall k <- t.codes :: issued.value.codes[k] == t.codes[k])
                  && issued.value == t.(codes := issued.value.codes))
  {}

  /** A lookup answers by the row alone and touches no other. */
  lemma LookupIsExact(t: Tables, sessionId: string, p: SessionPolicy, now: int)
    ensures var (t1, r) := ResolveSession(t, sessionId, p, now);
            && (r.SessionUnknown? <==> sessionId !in t.sessions)
            && (r.SessionExpired? <==> sessionId in t.sessions && t.sessions[sessionId].expiresAt <= now)
            && (r.Active? ==>
                  && r.userId == t.sessions[sessionId].userId && r.sessionId == sessionId
                  && sessionId in t1.sessions && t1.sessions[sessionId].expiresAt == r.expiresAt)
            && (r.SessionUnknown? ==> t1 == t)
            && (r.SessionExpired? ==> t1.sessions.Keys == t.sessions.Keys - {sessionId})
            && (forall k <- t.sessions :: k != sessionId ==> k in t1.sessions && t1.sessions[k] == t.sessions[k])
            && t1 == t.(sessions := t1.sessions)
  {}

  /** A rotation that can succeed: of a stored token that is its client's, unrotated and not yet expired. */
  predicate Rotatable(t: Tables, presented: string, clientId: string, now: int) {
    && presented in t.refresh && t.refresh[presented].data.clientId == clientId
    && t.refresh[presented].data.rotatedTo == None && now < t.refresh[presented].expiresAt
  }

  /**
   Rotation is all or nothing. It succeeds exactly for such a token; then one row comes, of the same user,
   client and scope, with the lifetime given from now on, and of the others only the one presented changes,
   in naming its successor. Every other answer has its exact condition, and only a replay changes anything.
   */
  lemma RotationIsAllOrNothing(t: Tables, presented: string, clientId: string, ttlSeconds: int, now: int,
                               newToken: string)
    requires newToken !in t.refresh
    ensures var (t1, r) := Rotate(t, presented, clientId, ttlSeconds, now, newToken);
            && (r.Rotated? <==> Rotatable(t, presented, clientId, now))
            && (r.RotationUnknown? <==> presented !in t.refresh)
            && (r.UnknownClient? <==> presented in t.refresh && t.refresh[presented].data.clientId != clientId)
            && (r.Replay? <==>
                  && presented in t.refresh && t.refresh[presented].data.clientId == clientId
                  && t.refresh[presented].data.rotatedTo.Some?)
            && (r.RotationExpired? <==>
                  && presented in t.refresh && t.refresh[presented].data.clientId == clientId
                  && t.refresh[presented].data.rotatedTo.None? && t.refresh[presented].expiresAt <= now)
            && !r.RotationThrown?
            && (!r.Rotated? && !r.Replay? ==> t1 == t)
            && t1 == t.(refresh := t1.refresh)
    ensures Rotatable(t, presented, clientId, now) ==>
              var (t1, r) := Rotate(t, presented, clientId, ttlSeconds, now, newToken);
              var row := t.refresh[presented];
              && r == Rotated(row, newToken)
              && t1.refresh.Keys == t.refresh.Keys + {newToken}
              && t1.refresh[newToken].userId == row.userId
              && t1.refresh[newToken].expiresAt == now + ttlSeconds * 1000
              && t1.refresh[newToken].data == RefreshData(clientId, row.data.scope, now, None)
              && (forall k <- t.refresh :: k != presented ==> t1.refresh[k] == t.refresh[k])
              && t1.refresh[presented].userId == row.userId && t1.refresh[presented].expiresAt == row.expiresAt
              && t1.refresh[presented].data
                 == RefreshData(clientId, row.data.scope, row.data.issuedAt, Some(newToken))
  {}

  /** The stored code matches the request in all but the challenge. */
  predicate ReachesComparison(t: Tables, o: ExchangeOptions, now: int) {
    && o.code in t.codes && now < t.codes[o.code].expiresAt
    && o.clientId == t.codes[o.code].data.clientId && o.redirectUri == t.codes[o.code].data.redirectUri
  }

  /**
   When the comparison throws instead of answering. A digest in base64url is ASCII; an exchange that comes
   to compare it throws exactly if the recorded challenge has its length in UTF-16 units and is not ASCII,
   and then nothing changes. Where it does not throw, the comparison is equality.
   */
  lemma ExchangeThrowsExactlyWhen(t: Tables, o: ExchangeOptions, now: int, newToken: string)
    requires IsAscii(o.challenge) && newToken !in t.refresh
    ensures var (t1, r) := Exchange(t, o, now, newToken);
            && (r.ExchangeThrown? <==>
                  && ReachesComparison(t, o, now)
                  && Utf16Length(t.codes[o.code].data.codeChallenge) == Utf16Length(o.challenge)
                  && !IsAscii(t.codes[o.code].data.codeChallenge))
            && (r.ExchangeThrown? ==> t1 == t)
            && (ReachesComparison(t, o, now) && IsAscii(t.codes[o.code].data.codeChallenge) ==>
                  if o.challenge == t.codes[o.code].data.codeChallenge then r.Exchanged? else r.PkceMismatch?)
  {
    AsciiLengths(o.challenge);
    if o.code in t.codes { AsciiLengths(t.codes[o.code].data.codeChallenge); }
  }

  const DIGEST_LENGTH: nat := 43

  /** An input on which it does: a challenge of 43 times the letter e with an acute accent, which the schema admits. */
  lemma AccentedChallengeThrows(t: Tables, o: ExchangeOptions, now: int, newToken: string)
    requires IsAscii(o.challenge) && |o.challenge| == DIGEST_LENGTH && newToken !in t.refresh
    requires ReachesComparison(t, o, now)
    requires t.codes[o.code].data.codeChallenge == seq(DIGEST_LENGTH, _ => '\U{00e9}')
    ensures Exchange(t, o, now, newToken) == (t, ExchangeThrown)
  {
    var accents := t.codes[o.code].data.codeChallenge;
    BasicPlaneLength(o.challenge);
    BasicPlaneLength(accents);
    assert accents[0] == '\U{00e9}';
    ExchangeThrowsExactlyWhen(t, o, now, newToken);
  }

  /** Showing a rotated token with its own client, expired or not, wipes out its user's grants to that client. */
  lemma ReplayLeavesNoRow(t: Tables, presented: string, ttlSeconds: int, now: int, newToken: string)
    requires presented in t.refresh && t.refresh[presented].data.rotatedTo.Some?
    ensures var row := t.refresh[presented];
            var (t1, r) := Rotate(t, presented, row.data.clientId, ttlSeconds, now, newToken);
            && r.Replay? && r.chainDeleted >= 1 && r.chainDeleted + |t1.refresh| == |t.refresh|
            && (forall k <- t1.refresh :: !SameGrant(t1.refresh[k], row))
            && (forall k <- t.refresh :: !SameGrant(t.refresh[k], row)
                  ==> k in t1.refresh && t1.refresh[k] == t.refresh[k])
  {
    var row := t.refresh[presented];
    var kept := WithoutGrant(t.refresh, row.userId, row.data.clientId);
    FilterSize(t.refresh, kept);
    assert presented in t.refresh.Keys - kept.Keys;
  }
}
