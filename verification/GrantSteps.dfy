/**
 The life of the grant store as a step system: boots with changing tokens, logins, authorizations,
 code exchanges, refresh-token rotations and sweeps, in any order. Each step is one database
 transaction, or one stretch of handler code between two awaits.
 */
module GrantSteps {
  import opened Prelude
  import opened StaticTokens
  import opened StaticLogin
  import opened OAuthTables
  import Json

  /** The digest of tokens, and what a JSON parser makes of texts the store did not write. */
  datatype Env = Env(digest: Digest, other: string -> Option<Json.Value>)

  datatype Login = Login(userId: string, epoch: nat)

  datatype Grant = Grant(row: Row<CodeData>, epoch: nat)

  datatype Place = Place(code: string, pos: nat)

  /**
   What has happened so far; it decides nothing. `boots` holds the configuration of every boot and an
   epoch is an index into it. `chains` holds, for every code exchanged, the refresh tokens that came of
   it in order, and `places` where each token stands.
   */
  datatype Past = Past(boots: seq<Config>, logins: map<string, Login>, codes: map<string, Grant>,
                       chains: map<string, seq<string>>, places: map<string, Place>)

  datatype World = World(tables: Tables, past: Past)

  const NOTHING := Past([], map[], map[], map[], map[])

  /** A new database, or one with a snapshot from elsewhere. */
  function Initial(snapshot: Option<string>): World { World(Tables(map[], map[], map[], snapshot), NOTHING) }

  datatype Swept = SweptCodes | SweptRefresh | SweptSessions

  datatype Step =
    | BootStep(config: Config)
    | LoginStep(token: string, sessionId: string, policy: SessionPolicy, now: int)
    | AuthorizeStep(sessionId: string, code: string, data: CodeData, policy: SessionPolicy, now: int)
    | ExchangeStep(o: ExchangeOptions, now: int, newToken: string)
    | RotateStep(presented: string, clientId: string, ttlSeconds: int, now: int, newToken: string)
    | SweepStep(what: Swept, now: int)

  /** Routes open after a boot, and random values are values never drawn before. */
  predicate Enabled(w: World, step: Step) {
    match step
    case BootStep(config) => LoweredUsers(config)
    case LoginStep(_, sessionId, _, _) => w.past.boots != [] && sessionId !in w.past.logins
    case AuthorizeStep(_, code, _, _, _) => w.past.boots != [] && code !in w.past.codes
    case ExchangeStep(_, _, newToken) => w.past.boots != [] && newToken !in w.past.places
    case RotateStep(_, _, _, _, newToken) => w.past.boots != [] && newToken !in w.past.places
    case SweepStep(_, _) => true
  }

  ghost function Boot(e: Env, w: World, config: Config): World {
    World(Reconcile(w.tables, config, e.digest, e.other).0, w.past.(boots := w.past.boots + [config]))
  }

  function LogIn(e: Env, w: World, token: string, sessionId: string, policy: SessionPolicy, now: int): World
    requires w.past.boots != []
  {
    var epoch := |w.past.boots| - 1;
    match LoginUser(w.past.boots[epoch], token, e.digest)
    case None => w
    case Some(user) =>
      match CreateSession(w.tables, sessionId, user, policy, now)
      case None => w
      case Some(t) => World(t, w.past.(logins := w.past.logins[sessionId := Login(user, epoch)]))
  }

  function EpochOf(h: Past, sessionId: string): nat {
    if sessionId in h.logins then h.logins[sessionId].epoch else 0
  }

  /** Resolves the session and, if it is active, issues a code in its user's name. */
  function Authorize(w: World, sessionId: string, code: string, data: CodeData, policy: SessionPolicy,
                     now: int): World
  {
    var (t, r) := ResolveSession(w.tables, sessionId, policy, now);
    if !r.Active? then World(t, w.past)
    else
      match IssueCode(t, code, r.userId, data, AUTH_CODE_TTL_SECONDS, now)
      case None => World(t, w.past)
      case Some(t1) =>
        World(t1, w.past.(codes := w.past.codes[code := Grant(t1.codes[code], EpochOf(w.past, sessionId))]))
  }

  function ChainOf(h: Past, code: string): seq<string> {
    if code in h.chains then h.chains[code] else []
  }

  /** Records a token at the end of the chain of a code. */
  function Extend(h: Past, code: string, token: string): Past {
    h.(chains := h.chains[code := ChainOf(h, code) + [token]],
       places := h.places[token := Place(code, |ChainOf(h, code)|)])
  }

  function ExchangeCode(w: World, o: ExchangeOptions, now: int, newToken: string): World {
    var (t, r) := Exchange(w.tables, o, now, newToken);
    World(t, if r.Exchanged? then Extend(w.past, o.code, newToken) else w.past)
  }

  function CodeOf(h: Past, token: string): string {
    if token in h.places then h.places[token].code else ""
  }

  function RotateToken(w: World, presented: string, clientId: string, ttlSeconds: int, now: int,
                       newToken: string): World
  {
    var (t, r) := Rotate(w.tables, presented, clientId, ttlSeconds, now, newToken);
    World(t, if r.Rotated? then Extend(w.past, CodeOf(w.past, presented), newToken) else w.past)
  }

  function Sweep(t: Tables, what: Swept, now: int): Tables {
    match what
    case SweptCodes => t.(codes := Unexpired(t.codes, now))
    case SweptRefresh => t.(refresh := Unexpired(t.refresh, now))
    case SweptSessions => t.(sessions := Unexpired(t.sessions, now))
  }

  ghost function Next(e: Env, w: World, step: Step): World {
    if !Enabled(w, step) then w
    else
      match step
      case BootStep(config) => Boot(e, w, config)
      case LoginStep(token, sessionId, policy, now) => LogIn(e, w, token, sessionId, policy, now)
      case AuthorizeStep(sessionId, code, data, policy, now) => Authorize(w, sessionId, code, data, policy, now)
      case ExchangeStep(o, now, newToken) => ExchangeCode(w, o, now, newToken)
      case RotateStep(presented, clientId, ttlSeconds, now, newToken) =>
        RotateToken(w, presented, clientId, ttlSeconds, now, newToken)
      case SweepStep(what, now) => World(Sweep(w.tables, what, now), w.past)
  }

  /** A run is any sequence of steps; one that is not enabled does not happen. */
  ghost function After(e: Env, w: World, steps: seq<Step>): World
    decreases |steps|
  {
    if steps == [] then w else After(e, Next(e, w, steps[0]), steps[1..])
  }

  lemma {:induction false} AfterAppend(e: Env, w: World, a: seq<Step>, b: seq<Step>)
    ensures After(e, w, a + b) == After(e, After(e, w, a), b)
    decreases |a|
  {
    if a == [] {
      assert a + b == b;
    } else {
      assert (a + b)[1..] == a[1..] + b;
      AfterAppend(e, Next(e, w, a[0]), a[1..], b);
    }
  }
}
