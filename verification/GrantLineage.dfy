/** What every run of the grant store keeps about codes and the chains of refresh tokens they give. */
module GrantLineage {
  import opened Prelude
  import opened StaticTokens
  import opened StaticLogin
  import opened OAuthTables
  import opened GrantSteps

  // ----- The invariant -----

  ghost predicate Stands(h: Past, token: string) {
    && token in h.places
    && h.places[token].code in h.chains
    && h.places[token].pos < |h.chains[h.places[token].code]|
    && h.chains[h.places[token].code][h.places[token].pos] == token
  }

  /** Chains and places are inverse to each other, so no token stands in two spots. */
  ghost predicate PlacesOk(h: Past) {
    && (forall token <- h.places :: Stands(h, token))
    && (forall code, i :: code in h.chains && 0 <= i < |h.chains[code]| ==>
          h.chains[code][i] in h.places && h.places[h.chains[code][i]] == Place(code, i))
    && (forall code <- h.chains :: code in h.codes && h.chains[code] != [])
  }

  /** The token that came next after `token` in its chain. */
  ghost function Successor(h: Past, token: string): Option<string>
    requires Stands(h, token)
  {
    var p := h.places[token];
    var j := p.pos + 1;
    if j < |h.chains[p.code]| then Some(h.chains[p.code][j]) else None
  }

  /** A row has the user, client and scope of the code its chain came from, and the link its chain says. */
  ghost predicate RefreshOk(h: Past, token: string, row: Row<RefreshData>) {
    && Stands(h, token)
    && CodeOf(h, token) in h.codes
    && OfGrant(h.codes[CodeOf(h, token)], row)
    && row.data.rotatedTo == Successor(h, token)
  }

  ghost predicate OfGrant(g: Grant, row: Row<RefreshData>) {
    row.userId == g.row.userId && row.data.clientId == g.row.data.clientId && row.data.scope == g.row.data.scope
  }

  /** A stored code is as it was issued, and no token has come of it. */
  ghost predicate CodeOk(h: Past, code: string, row: Row<CodeData>) {
    code in h.codes && code !in h.chains && row == h.codes[code].row
  }

  ghost predicate SessionOk(h: Past, sessionId: string, row: Row<SessionData>) {
    sessionId in h.logins && row.userId == h.logins[sessionId].userId
  }

  ghost predicate RowsOk(h: Past, t: Table<RefreshData>) { forall k <- t :: RefreshOk(h, k, t[k]) }

  ghost predicate CodesOk(h: Past, t: Table<CodeData>) { forall k <- t :: CodeOk(h, k, t[k]) }

  ghost predicate SessionsOk(h: Past, t: Table<SessionData>) { forall k <- t :: SessionOk(h, k, t[k]) }

  ghost predicate Lineage(w: World) {
    && PlacesOk(w.past)
    && RowsOk(w.past, w.tables.refresh)
    && CodesOk(w.past, w.tables.codes)
    && SessionsOk(w.past, w.tables.sessions)
  }

  // ----- Every step keeps it -----

  /** Tables whose rows were there before. */
  ghost predicate NothingNew(t: Tables, t1: Tables) {
    && (forall k <- t1.refresh :: k in t.refresh && t1.refresh[k] == t.refresh[k])
    && (forall k <- t1.codes :: k in t.codes && t1.codes[k] == t.codes[k])
    && (forall k <- t1.sessions :: k in t.sessions && t1.sessions[k].userId == t.sessions[k].userId)
  }

  /** Boots, logins and grants still to come are no news to a row. */
  ghost predicate Grows(h: Past, h1: Past) {
    && h1.chains == h.chains && h1.places == h.places
    && (forall k <- h.codes :: k in h1.codes && h1.codes[k] == h.codes[k])
    && (forall k <- h.logins :: k in h1.logins && h1.logins[k] == h.logins[k])
  }

  lemma GrowingKeepsRows(h: Past, h1: Past, t: Table<RefreshData>)
    requires PlacesOk(h) && RowsOk(h, t) && Grows(h, h1)
    ensures PlacesOk(h1) && RowsOk(h1, t)
  {
    forall k | k in t ensures RefreshOk(h1, k, t[k]) { assert RefreshOk(h, k, t[k]); }
    forall k | k in h1.places ensures Stands(h1, k) { assert Stands(h, k); }
  }

  lemma DeletionsKeepLineage(w: World, t1: Tables, h1: Past)
    requires Lineage(w) && NothingNew(w.tables, t1) && Grows(w.past, h1)
    ensures Lineage(World(t1, h1))
  {
    GrowingKeepsRows(w.past, h1, w.tables.refresh);
    forall k | k in t1.refresh ensures RefreshOk(h1, k, t1.refresh[k]) { assert RefreshOk(h1, k, w.tables.refresh[k]); }
    forall k | k in t1.codes ensures CodeOk(h1, k, t1.codes[k]) { assert CodeOk(w.past, k, w.tables.codes[k]); }
    forall k | k in t1.sessions ensures SessionOk(h1, k, t1.sessions[k]) {
      assert SessionOk(w.past, k, w.tables.sessions[k]);
    }
  }

  lemma LoginKeepsLineage(e: Env, w: World, token: string, sessionId: string, policy: SessionPolicy, now: int)
    requires Lineage(w) && w.past.boots != [] && sessionId !in w.past.logins
    ensures Lineage(LogIn(e, w, token, sessionId, policy, now))
  {
    var w1 := LogIn(e, w, token, sessionId, policy, now);
    DeletionsKeepLineage(w, w.tables, w1.past);
  }

  /** Looking a session up changes no row but its own, and that only in its expiry. */
  lemma ResolveShape(t: Tables, sessionId: string, policy: SessionPolicy, now: int)
    ensures var (t1, r) := ResolveSession(t, sessionId, policy, now);
            && t1 == t.(sessions := t1.sessions) && NothingNew(t, t1)
            && (r.Active? ==> sessionId in t.sessions && r.userId == t.sessions[sessionId].userId)
  {}

  lemma IssueKeepsLineage(w: World, code: string, g: Grant, row: Row<CodeData>)
    requires Lineage(w) && code !in w.past.codes && row == g.row
    ensures Lineage(World(w.tables.(codes := w.tables.codes[code := row]), w.past.(codes := w.past.codes[code := g])))
  {
    DeletionsKeepLineage(w, w.tables, w.past.(codes := w.past.codes[code := g]));
    assert code !in w.past.chains;
  }

  lemma AuthorizeKeepsLineage(w: World, sessionId: string, code: string, data: CodeData, policy: SessionPolicy,
                              now: int)
    requires Lineage(w) && code !in w.past.codes
    ensures Lineage(Authorize(w, sessionId, code, data, policy, now))
  {
    var (t, r) := ResolveSession(w.tables, sessionId, policy, now);
    assert Lineage(World(t, w.past)) by {
      ResolveShape(w.tables, sessionId, policy, now);
      DeletionsKeepLineage(w, t, w.past);
    }
    if r.Active? && code !in t.codes {
      var row := Row(r.userId, now + AUTH_CODE_TTL_SECONDS * 1000, data);
      IssueKeepsLineage(World(t, w.past), code, Grant(row, EpochOf(w.past, sessionId)), row);
    }
  }

  /** A token recorded at the end of a chain stands there, and has no successor. */
  lemma ExtendKeepsPlaces(h: Past, code: string, token: string)
    requires PlacesOk(h) && code in h.codes && token !in h.places
    ensures PlacesOk(Extend(h, code, token))
    ensures Stands(Extend(h, code, token), token) && Successor(Extend(h, code, token), token) == None
    ensures CodeOf(Extend(h, code, token), token) == code
  {
    var h1 := Extend(h, code, token);
    forall k | k in h1.places ensures Stands(h1, k) { assert k in h.places ==> Stands(h, k); }
  }

  /** Only the last token of the chain gets a successor. */
  lemma ExtendKeepsRow(h: Past, code: string, token: string, k: string, row: Row<RefreshData>)
    requires PlacesOk(h) && token !in h.places && RefreshOk(h, k, row)
    requires CodeOf(h, k) == code ==> row.data.rotatedTo.Some?
    ensures RefreshOk(Extend(h, code, token), k, row)
  {}

  lemma ExtendKeepsOthers(w: World, code: string, token: string)
    requires Lineage(w)
    ensures CodesOk(Extend(w.past, code, token), w.tables.codes - {code})
    ensures code in w.past.chains ==> CodesOk(Extend(w.past, code, token), w.tables.codes)
    ensures SessionsOk(Extend(w.past, code, token), w.tables.sessions)
  {
    forall k | k in w.tables.codes ensures CodeOk(w.past, k, w.tables.codes[k]) {}
    forall k | k in w.tables.sessions ensures SessionOk(w.past, k, w.tables.sessions[k]) {}
  }

  lemma ExchangeKeepsRows(h: Past, code: string, t: Table<RefreshData>, token: string, row: Row<RefreshData>)
    requires PlacesOk(h) && RowsOk(h, t) && token !in h.places
    requires code in h.codes && code !in h.chains && OfGrant(h.codes[code], row) && row.data.rotatedTo.None?
    ensures PlacesOk(Extend(h, code, token)) && RowsOk(Extend(h, code, token), t[token := row])
  {
    var t1 := t[token := row];
    ExtendKeepsPlaces(h, code, token);
    forall k | k in t1 ensures RefreshOk(Extend(h, code, token), k, t1[k]) {
      if k != token {
        assert RefreshOk(h, k, t[k]);
        ExtendKeepsRow(h, code, token, k, t[k]);
      }
    }
  }

  /** What an exchange that succeeds changes, and what any other one does. */
  lemma ExchangeShape(t: Tables, o: ExchangeOptions, now: int, newToken: string)
    ensures var (t1, r) := Exchange(t, o, now, newToken);
            && t1 == t.(codes := t1.codes, refresh := t1.refresh)
            && if r.Exchanged? then
                 && o.code in t.codes && t1.codes == t.codes - {o.code}
                 && newToken in t1.refresh && t1.refresh == t.refresh[newToken := t1.refresh[newToken]]
                 && t1.refresh[newToken].userId == t.codes[o.code].userId
                 && t1.refresh[newToken].data
                    == RefreshData(t.codes[o.code].data.clientId, t.codes[o.code].data.scope, now, None)
               else NothingNew(t, t1)
  {}

  lemma ExchangeKeepsLineage(w: World, o: ExchangeOptions, now: int, newToken: string)
    requires Lineage(w) && newToken !in w.past.places
    ensures Lineage(ExchangeCode(w, o, now, newToken))
  {
    var (t, r) := Exchange(w.tables, o, now, newToken);
    ExchangeShape(w.tables, o, now, newToken);
    if !r.Exchanged? {
      DeletionsKeepLineage(w, t, w.past);
    } else {
      assert CodeOk(w.past, o.code, w.tables.codes[o.code]);
      ExchangeKeepsRows(w.past, o.code, w.tables.refresh, newToken, t.refresh[newToken]);
      ExtendKeepsOthers(w, o.code, newToken);
    }
  }

  /** The row that is rotated is the last of its chain, and then the last but one. */
  lemma RotatedRowOk(h: Past, token: string, k: string, row: Row<RefreshData>)
    requires PlacesOk(h) && token !in h.places && RefreshOk(h, k, row) && row.data.rotatedTo.None?
    ensures RefreshOk(Extend(h, CodeOf(h, k), token), k, Marked(row, token))
  {}

  /** Two unrotated tokens of one chain are one token. */
  lemma OneUnrotated(h: Past, k: string, row: Row<RefreshData>, q: string, other: Row<RefreshData>)
    requires PlacesOk(h) && RefreshOk(h, k, row) && RefreshOk(h, q, other) && CodeOf(h, k) == CodeOf(h, q)
    requires row.data.rotatedTo.None? && other.data.rotatedTo.None?
    ensures k == q
  {}

  ghost function Rotation(t: Table<RefreshData>, presented: string, token: string, row: Row<RefreshData>)
    : Table<RefreshData>
    requires presented in t
  {
    t[token := row][presented := Marked(t[presented], token)]
  }

  lemma RotateKeepsRows(h: Past, t: Table<RefreshData>, presented: string, token: string, row: Row<RefreshData>)
    requires PlacesOk(h) && RowsOk(h, t) && token !in h.places && row.data.rotatedTo.None?
    requires presented in t && t[presented].data.rotatedTo.None?
    requires CodeOf(h, presented) in h.codes && OfGrant(h.codes[CodeOf(h, presented)], row)
    ensures PlacesOk(Extend(h, CodeOf(h, presented), token))
    ensures RowsOk(Extend(h, CodeOf(h, presented), token), Rotation(t, presented, token, row))
  {
    var code, t1 := CodeOf(h, presented), Rotation(t, presented, token, row);
    ExtendKeepsPlaces(h, code, token);
    assert RefreshOk(h, presented, t[presented]);
    forall k | k in t1 ensures RefreshOk(Extend(h, code, token), k, t1[k]) {
      if k == presented {
        RotatedRowOk(h, token, presented, t[presented]);
      } else if k != token {
        assert RefreshOk(h, k, t[k]);
        if CodeOf(h, k) == code && t[k].data.rotatedTo.None? { OneUnrotated(h, k, t[k], presented, t[presented]); }
        ExtendKeepsRow(h, code, token, k, t[k]);
      }
    }
  }

  /** What a rotation that succeeds changes, and what any other one does. */
  lemma RotateShape(t: Tables, presented: string, clientId: string, ttlSeconds: int, now: int, newToken: string)
    ensures var (t1, r) := Rotate(t, presented, clientId, ttlSeconds, now, newToken);
            && t1 == t.(refresh := t1.refresh)
            && if r.Rotated? then
                 && presented in t.refresh && t.refresh[presented] == r.row
                 && r.row.data.rotatedTo.None? && presented != newToken
                 && t1.refresh == Rotation(t.refresh, presented, newToken,
                                           FreshRefreshRow(r.row.data.clientId, r.row.userId, r.row.data.scope,
                                                           ttlSeconds, now))
               else NothingNew(t, t1)
  {}

  lemma RotateKeepsLineage(w: World, presented: string, clientId: string, ttlSeconds: int, now: int, newToken: string)
    requires Lineage(w) && newToken !in w.past.places
    ensures Lineage(RotateToken(w, presented, clientId, ttlSeconds, now, newToken))
  {
    var (t, r) := Rotate(w.tables, presented, clientId, ttlSeconds, now, newToken);
    RotateShape(w.tables, presented, clientId, ttlSeconds, now, newToken);
    if !r.Rotated? {
      DeletionsKeepLineage(w, t, w.past);
    } else {
      assert RefreshOk(w.past, presented, w.tables.refresh[presented]);
      var successor := FreshRefreshRow(r.row.data.clientId, r.row.userId, r.row.data.scope, ttlSeconds, now);
      RotateKeepsRows(w.past, w.tables.refresh, presented, newToken, successor);
      ExtendKeepsOthers(w, CodeOf(w.past, presented), newToken);
    }
  }

  lemma BootKeepsLineage(e: Env, w: World, config: Config)
    requires Lineage(w)
    ensures Lineage(Boot(e, w, config))
  {
    DeletionsKeepLineage(w, Boot(e, w, config).tables, Boot(e, w, config).past);
  }

  lemma SweepKeepsLineage(w: World, what: Swept, now: int)
    requires Lineage(w)
    ensures Lineage(World(Sweep(w.tables, what, now), w.past))
  {
    DeletionsKeepLineage(w, Sweep(w.tables, what, now), w.past);
  }

  /** Boots, rotations, exchanges and sweeps are the steps that touch refresh tokens. */
  lemma OtherStepsKeepRefresh(e: Env, w: World, step: Step)
    requires step.LoginStep? || step.AuthorizeStep?
    ensures Next(e, w, step).tables.refresh == w.tables.refresh
  {}

  lemma StepKeepsLineage(e: Env, w: World, step: Step)
    requires Lineage(w)
    ensures Lineage(Next(e, w, step))
  {
    if Enabled(w, step) {
      match step {
        case BootStep(config) => BootKeepsLineage(e, w, config);
        case LoginStep(token, sessionId, policy, now) => LoginKeepsLineage(e, w, token, sessionId, policy, now);
        case AuthorizeStep(sessionId, code, data, policy, now) =>
          AuthorizeKeepsLineage(w, sessionId, code, data, policy, now);
        case ExchangeStep(o, now, newToken) => ExchangeKeepsLineage(w, o, now, newToken);
        case RotateStep(presented, clientId, ttlSeconds, now, newToken) =>
          RotateKeepsLineage(w, presented, clientId, ttlSeconds, now, newToken);
        case SweepStep(what, now) => SweepKeepsLineage(w, what, now);
      }
    }
  }

  lemma {:induction false} RunKeepsLineage(e: Env, w: World, steps: seq<Step>)
    requires Lineage(w)
    ensures Lineage(After(e, w, steps))
    decreases |steps|
  {
    if steps != [] {
      StepKeepsLineage(e, w, steps[0]);
      RunKeepsLineage(e, Next(e, w, steps[0]), steps[1..]);
    }
  }

  // ----- What it means for the table -----

  /** The token reached from `token` by following `n` stored links. */
  ghost function Follow(t: Table<RefreshData>, token: string, n: nat): Option<string>
    decreases n
  {
    if n == 0 then Some(token)
    else if token in t && t[token].data.rotatedTo.Some? then Follow(t, t[token].data.rotatedTo.value, n - 1)
    else None
  }

  lemma {:induction false} FollowMovesAlong(w: World, token: string, n: nat)
    requires Lineage(w) && Stands(w.past, token) && Follow(w.tables.refresh, token, n).Some?
    ensures var end := Follow(w.tables.refresh, token, n).value;
            Stands(w.past, end) && CodeOf(w.past, end) == CodeOf(w.past, token)
            && w.past.places[end].pos == w.past.places[token].pos + n
    decreases n
  {
    if n > 0 {
      assert RefreshOk(w.past, token, w.tables.refresh[token]);
      FollowMovesAlong(w, w.tables.refresh[token].data.rotatedTo.value, n - 1);
    }
  }

  lemma RowsOfOneChain(w: World, a: string, b: string)
    requires Lineage(w) && a in w.tables.refresh && b in w.tables.refresh
    ensures var (rowA, rowB) := (w.tables.refresh[a].data, w.tables.refresh[b].data);
            && (rowA.rotatedTo.Some? && rowA.rotatedTo == rowB.rotatedTo ==> a == b)
            && (rowA.rotatedTo == Some(b) ==> CodeOf(w.past, a) == CodeOf(w.past, b))
            && (CodeOf(w.past, a) == CodeOf(w.past, b) && rowA.rotatedTo.None? && rowB.rotatedTo.None? ==> a == b)
  {
    assert RefreshOk(w.past, a, w.tables.refresh[a]) && RefreshOk(w.past, b, w.tables.refresh[b]);
  }

  /** The tokens that have come of one code. */
  ghost predicate OneChain(w: World, a: string, b: string) { CodeOf(w.past, a) == CodeOf(w.past, b) }

  /**
   In every run the `rotated_to` links form chains, one for each code exchanged: links stay inside a
   chain, no two rows lead to one token, following links never comes back, user, client and scope are
   those of the code all along, and a chain has at most one row that is not rotated.
   */
  lemma LinksFormChains(e: Env, snapshot: Option<string>, steps: seq<Step>, a: string, b: string, n: nat)
    requires a in After(e, Initial(snapshot), steps).tables.refresh
    requires b in After(e, Initial(snapshot), steps).tables.refresh
    ensures var w := After(e, Initial(snapshot), steps);
            var t := w.tables.refresh;
            && (t[a].data.rotatedTo == Some(b) ==> OneChain(w, a, b))
            && (t[a].data.rotatedTo.Some? && t[a].data.rotatedTo == t[b].data.rotatedTo ==> a == b)
            && (Follow(t, a, n) == Some(a) ==> n == 0)
            && CodeOf(w.past, a) in w.past.codes && OfGrant(w.past.codes[CodeOf(w.past, a)], t[a])
            && CodeOf(w.past, a) !in w.tables.codes
            && (OneChain(w, a, b) && t[a].data.rotatedTo.None? && t[b].data.rotatedTo.None? ==> a == b)
  {
    var w := After(e, Initial(snapshot), steps);
    RunKeepsLineage(e, Initial(snapshot), steps);
    RowsOfOneChain(w, a, b);
    assert RefreshOk(w.past, a, w.tables.refresh[a]);
    if Follow(w.tables.refresh, a, n) == Some(a) { FollowMovesAlong(w, a, n); }
    assert CodeOf(w.past, a) in w.tables.codes ==> CodeOk(w.past, CodeOf(w.past, a), w.tables.codes[CodeOf(w.past, a)]);
  }
}
