/** Sliding renewal of one login session over any sequence of lookups and sweeps. */
module Sessions {
  import opened Prelude
  import opened OAuthTables
  import Bits

  datatype Event = Look(now: int) | Sweep(now: int)

  predicate Sliding(p: SessionPolicy) { 0 <= p.thresholdMs < p.ttlMs }

  function Swept(t: Tables, now: int): Tables {
    t.(codes := Unexpired(t.codes, now), refresh := Unexpired(t.refresh, now), sessions := Unexpired(t.sessions, now))
  }

  function Next(t: Tables, id: string, p: SessionPolicy, e: Event): Tables {
    match e case Look(now) => ResolveSession(t, id, p, now).0 case Sweep(now) => Swept(t, now)
  }

  function After(t: Tables, id: string, p: SessionPolicy, es: seq<Event>): Tables
    decreases |es|
  {
    if es == [] then t else After(Next(t, id, p, es[0]), id, p, es[1..])
  }

  /** The answers to the lookups, in order. */
  function Answers(t: Tables, id: string, p: SessionPolicy, es: seq<Event>): seq<SessionResult>
    decreases |es|
  {
    if es == [] then []
    else
      (if es[0].Look? then [ResolveSession(t, id, p, es[0].now).1] else [])
      + Answers(Next(t, id, p, es[0]), id, p, es[1..])
  }

  /** The times at which a lookup rewrote the row of the session. */
  function Renewals(t: Tables, id: string, p: SessionPolicy, es: seq<Event>): seq<int>
    decreases |es|
  {
    if es == [] then []
    else
      var t1 := Next(t, id, p, es[0]);
      (if id in t.sessions && id in t1.sessions && t1.sessions[id] != t.sessions[id] then [es[0].now] else [])
      + Renewals(t1, id, p, es[1..])
  }

  /** Time does not run backwards. */
  predicate Monotone(es: seq<Event>, clock: int) {
    es == [] || (clock <= es[0].now && Monotone(es[1..], es[0].now))
  }

  /**
   One lookup: it succeeds until the expiry, leaves at least T - h to go, and extends by more than h or not
   at all.
   */
  lemma LookupExtends(t: Tables, id: string, p: SessionPolicy, now: int)
    requires Sliding(p) && id in t.sessions
    ensures var (t1, r) := ResolveSession(t, id, p, now);
            var expiry := t.sessions[id].expiresAt;
            && (r.Active? <==> now < expiry)
            && (id in t1.sessions <==> r.Active?)
            && (r.Active? ==>
                  && t1.sessions[id] == t.sessions[id].(expiresAt := r.expiresAt)
                  && (r.expiresAt == expiry || r.expiresAt == now + p.ttlMs > expiry + p.thresholdMs)
                  && r.expiresAt >= now + p.ttlMs - p.thresholdMs)
  {}

  // ----- Expiry only grows, within bounds -----

  /** The time of the last lookup that succeeded, or `since` if none did. */
  function LastSuccess(t: Tables, id: string, p: SessionPolicy, es: seq<Event>, since: int): int
    decreases |es|
  {
    if es == [] then since
    else
      LastSuccess(Next(t, id, p, es[0]), id, p, es[1..],
                  if es[0].Look? && ResolveSession(t, id, p, es[0].now).1.Active? then es[0].now else since)
  }

  lemma {:induction false} GoneStaysGone(t: Tables, id: string, p: SessionPolicy, es: seq<Event>)
    requires id !in t.sessions
    ensures id !in After(t, id, p, es).sessions && Renewals(t, id, p, es) == []
    decreases |es|
  {
    if es != [] { GoneStaysGone(Next(t, id, p, es[0]), id, p, es[1..]); }
  }

  /**
   While a session is stored its expiry never falls and its user never changes, whatever the clock does;
   and with a clock that does not run backwards it never lies more than T after the last success.
   */
  lemma {:induction false} ExpiryBounds(t: Tables, id: string, p: SessionPolicy, es: seq<Event>, since: int)
    requires Sliding(p) && id in t.sessions && id in After(t, id, p, es).sessions
    ensures After(t, id, p, es).sessions[id].expiresAt >= t.sessions[id].expiresAt
    ensures After(t, id, p, es).sessions[id].userId == t.sessions[id].userId
    ensures Monotone(es, since) && t.sessions[id].expiresAt <= since + p.ttlMs ==>
              After(t, id, p, es).sessions[id].expiresAt <= LastSuccess(t, id, p, es, since) + p.ttlMs
    decreases |es|
  {
    if es != [] {
      var t1 := Next(t, id, p, es[0]);
      if es[0].Look? { LookupExtends(t, id, p, es[0].now); }
      if id !in t1.sessions { GoneStaysGone(t1, id, p, es[1..]); assert false; }
      var since1 := if es[0].Look? && ResolveSession(t, id, p, es[0].now).1.Active? then es[0].now else since;
      MonotoneFrom(es[1..], es[0].now, since1);
      ExpiryBounds(t1, id, p, es[1..], since1);
    }
  }

  lemma MonotoneFrom(es: seq<Event>, clock: int, earlier: int)
    ensures Monotone(es, clock) && earlier <= clock ==> Monotone(es, earlier)
  {}

  // ----- Staying alive -----

  /** Each lookup comes less than `gap` after the one before, and sweeps in between. */
  predicate Within(es: seq<Event>, last: int, gap: int) {
    es == []
    || (es[0].now < last + gap && Within(es[1..], if es[0].Look? then es[0].now else last, gap))
  }

  /** A session looked up at gaps strictly below T - h never expires, sweeps or not. */
  lemma {:induction false} FrequentLookupsKeepItAlive(t: Tables, id: string, p: SessionPolicy, es: seq<Event>,
                                                      last: int)
    requires Sliding(p) && id in t.sessions && t.sessions[id].expiresAt >= last + p.ttlMs - p.thresholdMs
    requires Within(es, last, p.ttlMs - p.thresholdMs)
    ensures forall r <- Answers(t, id, p, es) :: r.Active? && r.userId == t.sessions[id].userId
    ensures id in After(t, id, p, es).sessions
    decreases |es|
  {
    if es != [] {
      LookupExtends(t, id, p, es[0].now);
      FrequentLookupsKeepItAlive(Next(t, id, p, es[0]), id, p, es[1..], if es[0].Look? then es[0].now else last);
    }
  }

  /** Lookups at most `gap` apart from `start` on, the last one at `finish`. */
  function Approach(start: int, finish: int, gap: int): seq<Event>
    requires gap > 0
    decreases finish - start
  {
    if finish - start <= gap then [Look(finish)] else [Look(start + gap)] + Approach(start + gap, finish, gap)
  }

  lemma {:induction false} ApproachIsWithin(start: int, finish: int, gap: int, more: seq<Event>)
    requires gap > 0 && start <= finish
    ensures Within(Approach(start, finish, gap) + more, start, gap + 1) <==> Within(more, finish, gap + 1)
    decreases finish - start
  {
    var es := Approach(start, finish, gap);
    assert (es + more)[1..] == es[1..] + more && (es + more)[0] == es[0];
    if finish - start > gap { ApproachIsWithin(start + gap, finish, gap, more); }
  }

  /** A lookup that leaves at least T - h to go writes nothing. */
  lemma EarlyLookup(t: Tables, id: string, p: SessionPolicy, now: int)
    requires Sliding(p) && id in t.sessions && now + p.ttlMs - p.thresholdMs <= t.sessions[id].expiresAt
    ensures Next(t, id, p, Look(now)) == t
  {}

  lemma {:induction false} EarlyLookupsChangeNothing(t: Tables, id: string, p: SessionPolicy, start: int, finish: int,
                                                     gap: int,
                                                     more: seq<Event>)
    requires Sliding(p) && id in t.sessions && gap == p.ttlMs - p.thresholdMs
    requires start <= finish <= t.sessions[id].expiresAt - gap
    ensures exists early :: Answers(t, id, p, Approach(start, finish, gap) + more) == early + Answers(t, id, p, more)
    decreases finish - start
  {
    var es := Approach(start, finish, gap);
    assert (es + more)[1..] == es[1..] + more && (es + more)[0] == es[0];
    EarlyLookup(t, id, p, es[0].now);
    var first := [ResolveSession(t, id, p, es[0].now).1];
    assert Answers(t, id, p, es + more) == first + Answers(t, id, p, es[1..] + more);
    if finish - start > gap {
      EarlyLookupsChangeNothing(t, id, p, start + gap, finish, gap, more);
      var early :| Answers(t, id, p, Approach(start + gap, finish, gap) + more) == early + Answers(t, id, p, more);
      assert first + (early + Answers(t, id, p, more)) == (first + early) + Answers(t, id, p, more);
    } else {
      assert es[1..] + more == more;
    }
  }

  /**
   The bound is sharp for every lifetime and threshold: lookups at most T - h apart can find the session
   expired, namely when the last of them but one comes h after the creation.
   */
  lemma GapOfTheBoundCanExpire(t: Tables, id: string, p: SessionPolicy, created: int, gap: int)
    requires Sliding(p) && id in t.sessions && t.sessions[id].expiresAt == created + p.ttlMs
    requires gap == p.ttlMs - p.thresholdMs
    ensures var es := Approach(created, created + p.thresholdMs, gap) + [Look(created + p.ttlMs)];
            Within(es, created, gap + 1) && SessionExpired in Answers(t, id, p, es)
  {
    var more := [Look(created + p.ttlMs)];
    ApproachIsWithin(created, created + p.thresholdMs, gap, more);
    EarlyLookupsChangeNothing(t, id, p, created, created + p.thresholdMs, gap, more);
    assert more[1..] == [];
    assert Answers(t, id, p, more) == [SessionExpired];
    var early :| Answers(t, id, p, Approach(created, created + p.thresholdMs, gap) + more) == early + [SessionExpired];
    assert (early + [SessionExpired])[|early|] == SessionExpired;
  }

  /** With a lifetime of no more than the threshold nothing is ever renewed: a session lives out its first lifetime. */
  lemma {:induction false} ShortLifetimesAreNeverRenewed(t: Tables, id: string, p: SessionPolicy, es: seq<Event>)
    requires p.ttlMs <= p.thresholdMs
    ensures Renewals(t, id, p, es) == []
    ensures id in t.sessions && id in After(t, id, p, es).sessions ==>
              After(t, id, p, es).sessions[id] == t.sessions[id]
    decreases |es|
  {
    if es != [] {
      var t1 := Next(t, id, p, es[0]);
      ShortLifetimesAreNeverRenewed(t1, id, p, es[1..]);
      if id !in t1.sessions { GoneStaysGone(t1, id, p, es[1..]); }
    }
  }

  // ----- From the creation on -----

  /** The tables right after a session has been created. */
  ghost predicate Created(t0: Tables, t: Tables, id: string, userId: string, p: SessionPolicy, now: int) {
    CreateSession(t0, id, userId, p, now) == Some(t)
  }

  /** A session just created is found, by its user, at every time before its lifetime is over, and not after. */
  lemma LivesItsLifetime(t0: Tables, t: Tables, id: string, userId: string, p: SessionPolicy, now: int, later: int)
    requires Created(t0, t, id, userId, p, now)
    ensures var r := ResolveSession(t, id, p, later).1;
            if later < now + p.ttlMs then r.Active? && r.userId == userId && r.sessionId == id else r.SessionExpired?
  {}

  /** Its expiry is never more than T after its creation or its last success, and its user stays. */
  lemma BoundsFromCreation(t0: Tables, t: Tables, id: string, userId: string, p: SessionPolicy, now: int,
                           es: seq<Event>)
    requires Created(t0, t, id, userId, p, now) && Sliding(p) && Monotone(es, now)
    requires id in After(t, id, p, es).sessions
    ensures var row := After(t, id, p, es).sessions[id];
            && now + p.ttlMs <= row.expiresAt <= LastSuccess(t, id, p, es, now) + p.ttlMs
            && row.userId == userId
  {
    ExpiryBounds(t, id, p, es, now);
  }

  /** Looked up at gaps strictly below T - h from its creation on, it never expires. */
  lemma KeptAliveFromCreation(t0: Tables, t: Tables, id: string, userId: string, p: SessionPolicy, now: int,
                              es: seq<Event>)
    requires Created(t0, t, id, userId, p, now) && Sliding(p) && Within(es, now, p.ttlMs - p.thresholdMs)
    ensures id in After(t, id, p, es).sessions
    ensures forall r <- Answers(t, id, p, es) :: r.Active? && r.userId == userId
  {
    FrequentLookupsKeepItAlive(t, id, p, es, now);
  }

  // ----- Few writes -----

  /** Each renewal comes more than h after the time that set the expiry before it. */
  lemma {:induction false} RenewalsAreApart(t: Tables, id: string, p: SessionPolicy, es: seq<Event>, i: nat)
    requires Sliding(p) && id in t.sessions && i < |Renewals(t, id, p, es)|
    ensures Renewals(t, id, p, es)[i] >= t.sessions[id].expiresAt - p.ttlMs + (i + 1) * (p.thresholdMs + 1)
    decreases |es|
  {
    var t1 := Next(t, id, p, es[0]);
    if es[0].Look? { LookupExtends(t, id, p, es[0].now); }
    if id !in t1.sessions {
      GoneStaysGone(t1, id, p, es[1..]);
      assert false;
    }
    if t1.sessions[id] != t.sessions[id] {
      assert t1.sessions[id].expiresAt == es[0].now + p.ttlMs;
      if i > 0 {
        RenewalsAreApart(t1, id, p, es[1..], i - 1);
        assert (i + 1) * (p.thresholdMs + 1) == i * (p.thresholdMs + 1) + (p.thresholdMs + 1);
      }
    } else {
      RenewalsAreApart(t1, id, p, es[1..], i);
    }
  }

  lemma {:induction false} RenewalsBetween(t: Tables, id: string, p: SessionPolicy, es: seq<Event>, i: nat, j: nat)
    requires Sliding(p) && id in t.sessions && i <= j < |Renewals(t, id, p, es)|
    ensures Renewals(t, id, p, es)[j] - Renewals(t, id, p, es)[i] >= (j - i) * (p.thresholdMs + 1)
    decreases |es|
  {
    var t1 := Next(t, id, p, es[0]);
    if es[0].Look? { LookupExtends(t, id, p, es[0].now); }
    if id !in t1.sessions {
      GoneStaysGone(t1, id, p, es[1..]);
      assert false;
    }
    if t1.sessions[id] == t.sessions[id] {
      RenewalsBetween(t1, id, p, es[1..], i, j);
    } else if i > 0 {
      RenewalsBetween(t1, id, p, es[1..], i - 1, j - 1);
    } else if j > 0 {
      assert t1.sessions[id].expiresAt == es[0].now + p.ttlMs;
      RenewalsAreApart(t1, id, p, es[1..], j - 1);
    }
  }

  lemma AboveQuotient(n: nat, h: nat, span: nat)
    requires h > 0 && n > span / h
    ensures n * h > span
  {
    Bits.NextMultiple(h, span / h, n);
  }

  /** However often a session is looked up, a span of D milliseconds holds at most D / (h + 1) + 1 writes. */
  lemma FewWrites(t: Tables, id: string, p: SessionPolicy, es: seq<Event>, i: nat, j: nat, span: nat)
    requires Sliding(p) && id in t.sessions && i <= j < |Renewals(t, id, p, es)|
    requires Renewals(t, id, p, es)[j] <= Renewals(t, id, p, es)[i] + span
    ensures j - i + 1 <= span / (p.thresholdMs + 1) + 1
  {
    RenewalsBetween(t, id, p, es, i, j);
    if j - i > span / (p.thresholdMs + 1) {
      AboveQuotient(j - i, p.thresholdMs + 1, span);
      assert false;
    }
  }

  // ----- Sweeps -----

  function WithoutSweeps(es: seq<Event>): seq<Event> {
    if es == [] then []
    else (if es[0].Look? then [es[0]] else []) + WithoutSweeps(es[1..])
  }

  /** The same answer, except that a swept session is unknown where it would have been expired. */
  predicate SameBut(a: seq<SessionResult>, b: seq<SessionResult>) {
    |a| == |b| && forall i :: 0 <= i < |a| ==> a[i] == b[i] || (a[i] == SessionUnknown && b[i] == SessionExpired)
  }

  /** `t` is what sweeping has left of `u`, of which the session is expired if it is gone from `t`. */
  ghost predicate SweptFrom(t: Tables, u: Tables, id: string, clock: int) {
    if id in t.sessions then id in u.sessions && t.sessions[id] == u.sessions[id]
    else id in u.sessions ==> u.sessions[id].expiresAt < clock
  }

  lemma LookKeepsSwept(t: Tables, u: Tables, id: string, p: SessionPolicy, now: int, clock: int)
    requires SweptFrom(t, u, id, clock) && clock <= now
    ensures SweptFrom(ResolveSession(t, id, p, now).0, ResolveSession(u, id, p, now).0, id, now)
    ensures SameBut([ResolveSession(t, id, p, now).1], [ResolveSession(u, id, p, now).1])
  {}

  lemma SweepKeepsSwept(t: Tables, u: Tables, id: string, now: int, clock: int)
    requires SweptFrom(t, u, id, clock) && clock <= now
    ensures SweptFrom(Swept(t, now), u, id, now)
  {}

  lemma SameButJoined(a: SessionResult, b: SessionResult, more: seq<SessionResult>, others: seq<SessionResult>)
    requires SameBut([a], [b]) && SameBut(more, others)
    ensures SameBut([a] + more, [b] + others)
  {
    assert [a][0] == a && [b][0] == b;
  }

  /** With a clock that does not run backwards a sweep changes an answer only from expired to unknown. */
  lemma {:induction false} SweepsOnlyForgetTheExpired(t: Tables, u: Tables, id: string, p: SessionPolicy,
                                                      es: seq<Event>, clock: int)
    requires SweptFrom(t, u, id, clock) && Monotone(es, clock)
    ensures SameBut(Answers(t, id, p, es), Answers(u, id, p, WithoutSweeps(es)))
    decreases |es|
  {
    if es != [] {
      var t1 := Next(t, id, p, es[0]);
      var kept := WithoutSweeps(es);
      if es[0].Sweep? {
        assert kept == WithoutSweeps(es[1..]);
        SweepKeepsSwept(t, u, id, es[0].now, clock);
        SweepsOnlyForgetTheExpired(t1, u, id, p, es[1..], es[0].now);
        assert Answers(t, id, p, es) == Answers(t1, id, p, es[1..]);
      } else {
        var u1 := Next(u, id, p, es[0]);
        assert kept == [es[0]] + WithoutSweeps(es[1..]) && kept[1..] == WithoutSweeps(es[1..]);
        LookKeepsSwept(t, u, id, p, es[0].now, clock);
        SweepsOnlyForgetTheExpired(t1, u1, id, p, es[1..], es[0].now);
        var (a, b) := (ResolveSession(t, id, p, es[0].now).1, ResolveSession(u, id, p, es[0].now).1);
        assert Answers(t, id, p, es) == [a] + Answers(t1, id, p, es[1..]);
        assert Answers(u, id, p, kept) == [b] + Answers(u1, id, p, kept[1..]);
        SameButJoined(a, b, Answers(t1, id, p, es[1..]), Answers(u1, id, p, kept[1..]));
      }
    }
  }
}
