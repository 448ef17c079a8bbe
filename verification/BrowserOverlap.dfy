/** The bounds on overlapping calls are reached: by starts for the pool and for one user, by openings for the tabs. */
module BrowserOverlap {
  import opened Prelude
  import opened BrowserSteps
  import opened BrowserSafety

  // ----- Starts of one user -----

  ghost predicate AllOf(s: State, userId: string) {
    && (forall id <- s.entries :: s.entries[id].userId == userId)
    && (forall call <- s.starts :: s.starts[call] == userId)
  }

  /** `n` sessions of one user in the pool and starts `low` to `k - 1` of theirs pending, by their numbers. */
  ghost predicate Filled(s: State, userId: string, n: nat, k: nat, low: nat, peak: nat) {
    && !s.closed && s.live == s.entries.Keys == Names(n)
    && low <= k && s.starts.Keys == Names(k) - Names(low)
    && AllOf(s, userId)
    && s.peaks.all == peak && PeakOf(s.peaks.byUser, userId) == peak
  }

  /** `k` starts, one after the other, before any of them is finished. */
  function Begins(k: nat, userId: string): seq<Step> {
    if k == 0 then [] else Begins(k - 1, userId) + [BeginStartStep(Name(k - 1), userId)]
  }

  /** Starts 0 to `k - 1` are finished as sessions `from` to `from + k - 1`. */
  function Finishes(k: nat, from: nat): seq<Step> {
    if k == 0 then [] else Finishes(k - 1, from) + [FinishStartStep(Name(k - 1), Name(from + k - 1), "", 0)]
  }

  /** Sessions 0 to `n - 1`, each started and finished before the next. */
  function OneByOne(n: nat, userId: string): seq<Step> {
    if n == 0 then []
    else OneByOne(n - 1, userId) + [BeginStartStep(Name(0), userId)] + [FinishStartStep(Name(0), Name(n - 1), "", 0)]
  }

  lemma RoomForOne(c: Caps, s: State, userId: string, n: nat)
    requires s.live == Names(n) && n < c.maxSessions && n < c.maxSessionsPerUser
    ensures Capacity(c, s.entries, s.live, userId).None?
  {
    NamesAre(n, 0);
    SubsetSize(OwnedBy(s.entries, s.live, userId), s.live);
  }

  lemma BegunCalls(calls: map<string, string>, k: nat, value: string)
    requires calls.Keys == Names(k) && forall call <- calls :: calls[call] == value
    ensures Name(k) !in calls
    ensures calls[Name(k) := value].Keys == Names(k + 1) && |calls[Name(k) := value]| == k + 1
    ensures |Preimage(calls[Name(k) := value], value)| == k + 1
  {
    NamesAre(k, k);
    NamesAre(k + 1, k);
    var calls1 := calls[Name(k) := value];
    assert |calls1| == |calls1.Keys|;
    assert Preimage(calls1, value) == calls1.Keys;
  }

  /** What a start that passes the check changes. */
  lemma BegunState(c: Caps, s: State, call: string, userId: string)
    requires !s.closed && Capacity(c, s.entries, s.live, userId).None? && call !in s.starts
    ensures var s1 := Next(c, s, BeginStartStep(call, userId));
            var starts := s.starts[call := userId];
            && s1 == s.(starts := starts, peaks := s1.peaks)
            && s1.peaks.all == Max(s.peaks.all, |starts|)
            && PeakOf(s1.peaks.byUser, userId) == Max(PeakOf(s.peaks.byUser, userId), |Preimage(starts, userId)|)
  {}

  lemma FromNone(k: nat)
    ensures Names(k) - Names(0) == Names(k)
  {}

  lemma OneFewer(total: nat, low: nat)
    requires low < total
    ensures Name(low) in Names(total) - Names(low)
    ensures Names(total) - Names(low) - {Name(low)} == Names(total) - Names(low + 1)
  {
    NamesAre(low, low);
    NamesAre(total, low);
  }

  lemma AllOfBegun(s: State, s1: State, call: string, userId: string)
    requires AllOf(s, userId) && s1.entries == s.entries && s1.starts == s.starts[call := userId]
    ensures AllOf(s1, userId)
  {}

  lemma AllOfFinished(s: State, s1: State, call: string, id: string, userId: string)
    requires AllOf(s, userId) && call in s.starts && s1.starts == s.starts - {call} && id in s1.entries
    requires s1.entries == s.entries[id := s1.entries[id]] && s1.entries[id].userId == s.starts[call]
    ensures AllOf(s1, userId) && s1.entries.Keys == s.entries.Keys + {id} && s1.starts.Keys == s.starts.Keys - {call}
  {}

  lemma FilledAfterBegin(s: State, s1: State, userId: string, n: nat, k: nat, peak: nat)
    requires Filled(s, userId, n, k, 0, peak) && s1.starts == s.starts[Name(k) := userId]
    requires s1 == s.(starts := s1.starts, peaks := s1.peaks)
    requires s1.peaks.all == Max(s.peaks.all, |s1.starts|)
    requires PeakOf(s1.peaks.byUser, userId) == Max(PeakOf(s.peaks.byUser, userId), |Preimage(s1.starts, userId)|)
    ensures Filled(s1, userId, n, k + 1, 0, Max(peak, k + 1))
  {
    FromNone(k);
    FromNone(k + 1);
    BegunCalls(s.starts, k, userId);
    AllOfBegun(s, s1, Name(k), userId);
  }

  lemma OneBegin(c: Caps, s: State, userId: string, n: nat, k: nat, peak: nat)
    requires Filled(s, userId, n, k, 0, peak) && n < c.maxSessions && n < c.maxSessionsPerUser
    ensures Filled(Next(c, s, BeginStartStep(Name(k), userId)), userId, n, k + 1, 0, Max(peak, k + 1))
  {
    RoomForOne(c, s, userId, n);
    NewCall(s, userId, n, k, peak);
    BegunState(c, s, Name(k), userId);
    FilledAfterBegin(s, Next(c, s, BeginStartStep(Name(k), userId)), userId, n, k, peak);
  }

  lemma NewCall(s: State, userId: string, n: nat, k: nat, peak: nat)
    requires Filled(s, userId, n, k, 0, peak)
    ensures Name(k) !in s.starts
  {
    NamesAre(k, k);
  }

  lemma FinishedState(c: Caps, s: State, call: string, id: string)
    requires call in s.starts && id !in s.entries
    ensures var s1 := Next(c, s, FinishStartStep(call, id, "", 0));
            && s1 == s.(entries := s1.entries, live := s.live + {id}, starts := s.starts - {call})
            && s1.entries == s.entries[id := s1.entries[id]] && s1.entries[id].userId == s.starts[call]
  {}

  lemma OneFinish(c: Caps, s: State, userId: string, n: nat, total: nat, low: nat, peak: nat)
    requires Filled(s, userId, n, total, low, peak) && low < total
    ensures Filled(Next(c, s, FinishStartStep(Name(low), Name(n), "", 0)), userId, n + 1, total, low + 1, peak)
  {
    NamesAre(n, n);
    OneFewer(total, low);
    FinishedState(c, s, Name(low), Name(n));
    AllOfFinished(s, Next(c, s, FinishStartStep(Name(low), Name(n), "", 0)), Name(low), Name(n), userId);
  }

  lemma BeginAfter(c: Caps, s: State, steps: seq<Step>, userId: string, n: nat, k: nat, peak: nat)
    requires Filled(After(c, s, steps), userId, n, k, 0, peak) && n < c.maxSessions && n < c.maxSessionsPerUser
    ensures Filled(After(c, s, steps + [BeginStartStep(Name(k), userId)]), userId, n, k + 1, 0, Max(peak, k + 1))
  {
    OneBegin(c, After(c, s, steps), userId, n, k, peak);
    AfterOneMore(c, s, steps, BeginStartStep(Name(k), userId));
  }

  lemma FinishAfter(c: Caps, s: State, steps: seq<Step>, userId: string, n: nat, total: nat, low: nat, peak: nat)
    requires Filled(After(c, s, steps), userId, n, total, low, peak) && low < total
    ensures var steps1 := steps + [FinishStartStep(Name(low), Name(n), "", 0)];
            Filled(After(c, s, steps1), userId, n + 1, total, low + 1, peak)
  {
    OneFinish(c, After(c, s, steps), userId, n, total, low, peak);
    AfterOneMore(c, s, steps, FinishStartStep(Name(low), Name(n), "", 0));
  }

  lemma {:induction false} AfterBegins(c: Caps, s: State, userId: string, n: nat, k: nat)
    requires Filled(s, userId, n, 0, 0, s.peaks.all) && n < c.maxSessions && n < c.maxSessionsPerUser
    ensures Filled(After(c, s, Begins(k, userId)), userId, n, k, 0, Max(s.peaks.all, k))
    decreases k
  {
    if k > 0 {
      AfterBegins(c, s, userId, n, k - 1);
      BeginAfter(c, s, Begins(k - 1, userId), userId, n, k - 1, Max(s.peaks.all, k - 1));
    }
  }

  lemma {:induction false} AfterFinishes(c: Caps, s: State, userId: string, n: nat, total: nat, k: nat)
    requires Filled(s, userId, n, total, 0, s.peaks.all) && k <= total
    ensures Filled(After(c, s, Finishes(k, n)), userId, n + k, total, k, s.peaks.all)
    decreases k
  {
    if k > 0 {
      AfterFinishes(c, s, userId, n, total, k - 1);
      FinishAfter(c, s, Finishes(k - 1, n), userId, n + k - 1, total, k - 1, s.peaks.all);
    }
  }

  lemma NothingPending(s: State, userId: string, n: nat, peak: nat)
    requires Filled(s, userId, n, 1, 1, peak)
    ensures Filled(s, userId, n, 0, 0, peak)
  {}

  lemma {:induction false} AfterOneByOne(c: Caps, n: nat, userId: string)
    requires n <= c.maxSessions && n <= c.maxSessionsPerUser
    ensures Filled(After(c, INITIAL, OneByOne(n, userId)), userId, n, 0, 0, Min(n, 1))
    decreases n
  {
    if n > 0 {
      var before := OneByOne(n - 1, userId);
      AfterOneByOne(c, n - 1, userId);
      BeginAfter(c, INITIAL, before, userId, n - 1, 0, Min(n - 1, 1));
      FinishAfter(c, INITIAL, before + [BeginStartStep(Name(0), userId)], userId, n - 1, 1, 0, 1);
      NothingPending(After(c, INITIAL, OneByOne(n, userId)), userId, n, 1);
    }
  }

  lemma OwnsAll(s: State, userId: string, n: nat, k: nat, peak: nat)
    requires Filled(s, userId, n, k, k, peak)
    ensures |s.live| == n && OwnedBy(s.entries, s.live, userId) == s.live
  {
    NamesAre(n, 0);
  }

  /** The smaller of the two limits. */
  function Limit(c: Caps): nat { Min(c.maxSessions, c.maxSessionsPerUser) }

  /**
   The bounds on sessions are sharp. One short of the smaller limit, `k` starts of one user that overlap
   all pass the check, and end with `k - 1` sessions too many: in the pool if that limit is the smaller,
   for the user if theirs is.
   */
  lemma OverlapReachesTheBound(c: Caps, userId: string, k: nat)
    requires Limit(c) > 0 && k > 0
    ensures var steps := OneByOne(Limit(c) - 1, userId) + Begins(k, userId) + Finishes(k, Limit(c) - 1);
            var s := After(c, INITIAL, steps);
            && s.peaks.all == k && PeakOf(s.peaks.byUser, userId) == k
            && |s.live| == |OwnedBy(s.entries, s.live, userId)| == Limit(c) - 1 + k
  {
    var n := Limit(c) - 1;
    var (fill, begins, finishes) := (OneByOne(n, userId), Begins(k, userId), Finishes(k, n));
    AfterOneByOne(c, n, userId);
    var s1 := After(c, INITIAL, fill);
    AfterBegins(c, s1, userId, n, k);
    var s2 := After(c, s1, begins);
    AfterFinishes(c, s2, userId, n, k, k);
    AfterAppend(c, INITIAL, fill, begins);
    AfterAppend(c, INITIAL, fill + begins, finishes);
    OwnsAll(After(c, INITIAL, fill + begins + finishes), userId, n + k, k, k);
  }

  // ----- Starts of many users -----

  /** Sessions 0 to `n - 1`, each owned by the user of the same name. */
  function OwnSessions(n: nat): map<string, Session> {
    if n == 0 then map[]
    else OwnSessions(n - 1)[Name(n - 1) := Session(Name(n - 1), Tabs([""], 0), 0, HARD_LIFETIME_MS)]
  }

  /** Starts 0 to `k - 1`; number `i` is for the user with number `base + i`. */
  function CallsFor(base: nat, k: nat): map<string, string> {
    if k == 0 then map[] else CallsFor(base, k - 1)[Name(k - 1) := Name(base + k - 1)]
  }

  /** `n` sessions in the pool, each of a user of its own, and starts `low` to `k - 1` of further users pending. */
  ghost predicate Spread(s: State, base: nat, n: nat, k: nat, low: nat, peak: nat) {
    && !s.closed && s.entries == OwnSessions(n) && s.live == Names(n) && n == base + low
    && low <= k && s.starts == CallsFor(base, k) - Names(low)
    && s.peaks.all == peak
  }

  lemma {:induction false} OwnSessionsAre(n: nat, m: nat)
    ensures OwnSessions(n).Keys == Names(n)
    ensures n <= m ==> OwnedBy(OwnSessions(n), Names(n), Name(m)) == {}
  {
    if n > 0 {
      OwnSessionsAre(n - 1, m);
      NamesAre(n - 1, n - 1);
      assert |Name(m)| == m && |Name(n - 1)| == n - 1;
    }
  }

  lemma {:induction false} CallsAre(base: nat, k: nat, i: nat)
    ensures CallsFor(base, k).Keys == Names(k)
    ensures i < k ==> Name(i) in CallsFor(base, k) && CallsFor(base, k)[Name(i)] == Name(base + i)
  {
    if k > 0 {
      CallsAre(base, k - 1, i);
      assert |Name(i)| == i && |Name(k - 1)| == k - 1;
    }
  }

  function SpreadBegins(k: nat, base: nat): seq<Step> {
    if k == 0 then [] else SpreadBegins(k - 1, base) + [BeginStartStep(Name(k - 1), Name(base + k - 1))]
  }

  /** Sessions 0 to `n - 1` of as many users, each started and finished before the next. */
  function UserByUser(n: nat): seq<Step> {
    if n == 0 then []
    else UserByUser(n - 1) + [BeginStartStep(Name(0), Name(n - 1))] + [FinishStartStep(Name(0), Name(n - 1), "", 0)]
  }

  lemma NewUserFits(c: Caps, s: State, n: nat, m: nat)
    requires s.live == Names(n) && s.entries == OwnSessions(n)
    requires n <= m && n < c.maxSessions && c.maxSessionsPerUser > 0
    ensures Capacity(c, s.entries, s.live, Name(m)).None?
  {
    NamesAre(n, 0);
    OwnSessionsAre(n, m);
  }

  lemma AllCalls(base: nat, k: nat)
    ensures CallsFor(base, k) - Names(0) == CallsFor(base, k)
    ensures Name(k) !in CallsFor(base, k) && |CallsFor(base, k + 1)| == k + 1
  {
    CallsAre(base, k, 0);
    CallsAre(base, k + 1, 0);
    NamesAre(k, k);
    NamesAre(k + 1, 0);
    assert |CallsFor(base, k + 1)| == |CallsFor(base, k + 1).Keys|;
  }

  lemma SpreadBegun(s: State, s1: State, base: nat, k: nat, peak: nat)
    requires Spread(s, base, base, k, 0, peak)
    requires s1 == s.(starts := s.starts[Name(k) := Name(base + k)], peaks := s1.peaks)
    requires s1.peaks.all == Max(s.peaks.all, |s1.starts|)
    ensures Spread(s1, base, base, k + 1, 0, Max(peak, k + 1))
  {
    AllCalls(base, k);
    AllCalls(base, k + 1);
    assert CallsFor(base, k + 1) == CallsFor(base, k)[Name(k) := Name(base + k)];
  }

  lemma NextSpread(c: Caps, s: State, base: nat, k: nat, peak: nat)
    requires Spread(s, base, base, k, 0, peak) && base < c.maxSessions && c.maxSessionsPerUser > 0
    ensures Spread(Next(c, s, BeginStartStep(Name(k), Name(base + k))), base, base, k + 1, 0, Max(peak, k + 1))
  {
    var s1 := Next(c, s, BeginStartStep(Name(k), Name(base + k)));
    assert Name(k) !in s.starts by { AllCalls(base, k); }
    assert Capacity(c, s.entries, s.live, Name(base + k)).None? by { NewUserFits(c, s, base, base + k); }
    BegunState(c, s, Name(k), Name(base + k));
    SpreadBegun(s, s1, base, k, peak);
  }

  lemma SpreadBegin(c: Caps, s: State, steps: seq<Step>, base: nat, k: nat, peak: nat, peak1: nat)
    requires Spread(After(c, s, steps), base, base, k, 0, peak) && peak1 == Max(peak, k + 1)
    requires base < c.maxSessions && c.maxSessionsPerUser > 0
    ensures Spread(After(c, s, steps + [BeginStartStep(Name(k), Name(base + k))]), base, base, k + 1, 0, peak1)
  {
    NextSpread(c, After(c, s, steps), base, k, peak);
    AfterOneMore(c, s, steps, BeginStartStep(Name(k), Name(base + k)));
  }

  lemma OneCallFewer(base: nat, total: nat, low: nat)
    requires low < total
    ensures var calls := CallsFor(base, total) - Names(low);
            && Name(low) in calls && calls[Name(low)] == Name(base + low)
            && calls - {Name(low)} == CallsFor(base, total) - Names(low + 1)
  {
    CallsAre(base, total, low);
    NamesAre(low, low);
  }

  lemma SpreadFinish(c: Caps, s: State, steps: seq<Step>, base: nat, n: nat, total: nat, low: nat, peak: nat)
    requires Spread(After(c, s, steps), base, n, total, low, peak) && low < total
    ensures Spread(After(c, s, steps + [FinishStartStep(Name(low), Name(n), "", 0)]), base, n + 1, total, low + 1, peak)
  {
    var s1 := After(c, s, steps);
    OwnSessionsAre(n, n);
    NamesAre(n, n);
    OneCallFewer(base, total, low);
    FinishedEntry(c, s1, Name(low), Name(n));
    AfterOneMore(c, s, steps, FinishStartStep(Name(low), Name(n), "", 0));
  }

  lemma FinishedEntry(c: Caps, s: State, call: string, id: string)
    requires call in s.starts && id !in s.entries
    ensures var s1 := Next(c, s, FinishStartStep(call, id, "", 0));
            && s1 == s.(entries := s1.entries, live := s.live + {id}, starts := s.starts - {call})
            && s1.entries == s.entries[id := Session(s.starts[call], Tabs([""], 0), 0, HARD_LIFETIME_MS)]
  {}

  lemma MoreBegins(k: nat, base: nat)
    requires k > 0
    ensures SpreadBegins(k, base) == SpreadBegins(k - 1, base) + [BeginStartStep(Name(k - 1), Name(base + (k - 1)))]
  {
    assert base + (k - 1) == base + k - 1;
  }

  lemma MoreFinishes(k: nat, base: nat)
    requires k > 0
    ensures Finishes(k, base) == Finishes(k - 1, base) + [FinishStartStep(Name(k - 1), Name(base + (k - 1)), "", 0)]
  {
    assert base + (k - 1) == base + k - 1;
  }

  lemma {:induction false} AfterSpreadBegins(c: Caps, s: State, base: nat, k: nat, peak: nat)
    requires Spread(s, base, base, 0, 0, peak) && base < c.maxSessions && c.maxSessionsPerUser > 0
    ensures Spread(After(c, s, SpreadBegins(k, base)), base, base, k, 0, Max(peak, k))
    decreases k
  {
    if k > 0 {
      AfterSpreadBegins(c, s, base, k - 1, peak);
      SpreadBegin(c, s, SpreadBegins(k - 1, base), base, k - 1, Max(peak, k - 1), Max(peak, k));
      MoreBegins(k, base);
    }
  }

  lemma {:induction false} AfterSpreadFinishes(c: Caps, s: State, base: nat, total: nat, k: nat, peak: nat)
    requires Spread(s, base, base, total, 0, peak) && k <= total
    ensures Spread(After(c, s, Finishes(k, base)), base, base + k, total, k, peak)
    decreases k
  {
    if k > 0 {
      AfterSpreadFinishes(c, s, base, total, k - 1, peak);
      SpreadFinish(c, s, Finishes(k - 1, base), base, base + k - 1, total, k - 1, peak);
      MoreFinishes(k, base);
    }
  }

  /** With nothing pending the next start can count from here. */
  lemma Rebased(s: State, base: nat, n: nat, peak: nat)
    requires Spread(s, base, n, 1, 1, peak)
    ensures Spread(s, n, n, 0, 0, peak)
  {
    CallsAre(base, 1, 0);
    assert CallsFor(base, 1) - Names(1) == map[];
    assert CallsFor(n, 0) - Names(0) == map[];
  }

  lemma {:induction false} AfterUserByUser(c: Caps, n: nat)
    requires n <= c.maxSessions && c.maxSessionsPerUser > 0
    ensures Spread(After(c, INITIAL, UserByUser(n)), n, n, 0, 0, Min(n, 1))
    decreases n
  {
    if n > 0 {
      var before := UserByUser(n - 1);
      AfterUserByUser(c, n - 1);
      SpreadBegin(c, INITIAL, before, n - 1, 0, Min(n - 1, 1), 1);
      assert Name(n - 1 + 0) == Name(n - 1);
      SpreadFinish(c, INITIAL, before + [BeginStartStep(Name(0), Name(n - 1))], n - 1, n - 1, 1, 0, 1);
      Rebased(After(c, INITIAL, UserByUser(n)), n - 1, n, 1);
    }
  }

  /**
   The bound of the pool is reached whatever the limit for one user: by sessions of distinct users and `k`
   overlapping starts of further ones.
   */
  lemma OverlapOfUsersReachesTheBound(c: Caps, k: nat)
    requires c.maxSessions > 0 && c.maxSessionsPerUser > 0 && k > 0
    ensures var n := c.maxSessions - 1;
            var s := After(c, INITIAL, UserByUser(n) + SpreadBegins(k, n) + Finishes(k, n));
            s.peaks.all == k && |s.live| == c.maxSessions - 1 + k
  {
    var n := c.maxSessions - 1;
    var (fill, begins, finishes) := (UserByUser(n), SpreadBegins(k, n), Finishes(k, n));
    AfterUserByUser(c, n);
    AfterSpreadBegins(c, After(c, INITIAL, fill), n, k, Min(n, 1));
    AfterSpreadFinishes(c, After(c, After(c, INITIAL, fill), begins), n, k, k, k);
    AfterAppend(c, INITIAL, fill, begins);
    AfterAppend(c, INITIAL, fill + begins, finishes);
    NamesAre(n + k, 0);
  }

  // ----- Tabs of one session -----

  /** The session has `pages` tabs and openings `low` to `k - 1` of it are pending, and no others. */
  ghost predicate Opening(s: State, id: string, userId: string, pages: nat, k: nat, low: nat, peak: nat) {
    && Owned(s, id, userId) && |s.entries[id].tabs.pages| == pages
    && low <= k && s.opens.Keys == Names(k) - Names(low) && (forall call <- s.opens :: s.opens[call] == id)
    && PeakOf(s.peaks.bySession, id) == peak
  }

  function BeginOpens(k: nat, id: string, userId: string): seq<Step> {
    if k == 0 then [] else BeginOpens(k - 1, id, userId) + [BeginOpenStep(Name(k - 1), id, userId)]
  }

  function FinishOpens(k: nat): seq<Step> {
    if k == 0 then [] else FinishOpens(k - 1) + [FinishOpenStep(Name(k - 1), "", 0)]
  }

  /** `n` tabs, each open before the next is begun. */
  function TabByTab(n: nat, id: string, userId: string): seq<Step> {
    if n == 0 then []
    else TabByTab(n - 1, id, userId) + [BeginOpenStep(Name(0), id, userId)] + [FinishOpenStep(Name(0), "", 0)]
  }

  lemma BegunOpening(c: Caps, s: State, call: string, id: string, userId: string)
    requires Owned(s, id, userId) && |s.entries[id].tabs.pages| < MAX_TABS_PER_SESSION && call !in s.opens
    ensures var s1 := Next(c, s, BeginOpenStep(call, id, userId));
            && s1 == s.(opens := s.opens[call := id], peaks := s1.peaks)
            && PeakOf(s1.peaks.bySession, id) == Max(PeakOf(s.peaks.bySession, id), |Preimage(s.opens[call := id], id)|)
  {}

  lemma BeginOpenAfter(c: Caps, s: State, steps: seq<Step>, id: string, userId: string, pages: nat, k: nat, peak: nat)
    requires Opening(After(c, s, steps), id, userId, pages, k, 0, peak) && pages < MAX_TABS_PER_SESSION
    ensures var steps1 := steps + [BeginOpenStep(Name(k), id, userId)];
            Opening(After(c, s, steps1), id, userId, pages, k + 1, 0, Max(peak, k + 1))
  {
    var s1 := After(c, s, steps);
    FromNone(k);
    FromNone(k + 1);
    BegunCalls(s1.opens, k, id);
    BegunOpening(c, s1, Name(k), id, userId);
    AfterOneMore(c, s, steps, BeginOpenStep(Name(k), id, userId));
  }

  lemma FinishedOpening(c: Caps, s: State, call: string, id: string)
    requires call in s.opens && s.opens[call] == id && id in s.entries
    ensures var s1 := Next(c, s, FinishOpenStep(call, "", 0));
            && s1 == s.(entries := s1.entries, opens := s.opens - {call})
            && s1.entries == s.entries[id := s1.entries[id]] && s1.entries[id].userId == s.entries[id].userId
            && |s1.entries[id].tabs.pages| == |s.entries[id].tabs.pages| + 1
  {}

  lemma FinishOpenAfter(c: Caps, s: State, steps: seq<Step>, id: string, userId: string, pages: nat, total: nat,
                        low: nat, peak: nat)
    requires Opening(After(c, s, steps), id, userId, pages, total, low, peak) && low < total
    ensures var steps1 := steps + [FinishOpenStep(Name(low), "", 0)];
            Opening(After(c, s, steps1), id, userId, pages + 1, total, low + 1, peak)
  {
    var s1 := After(c, s, steps);
    OneFewer(total, low);
    FinishedOpening(c, s1, Name(low), id);
    assert (s1.opens - {Name(low)}).Keys == s1.opens.Keys - {Name(low)};
    AfterOneMore(c, s, steps, FinishOpenStep(Name(low), "", 0));
  }

  lemma {:induction false} AfterBeginOpens(c: Caps, s: State, id: string, userId: string, pages: nat, k: nat, peak: nat)
    requires Opening(s, id, userId, pages, 0, 0, peak) && pages < MAX_TABS_PER_SESSION
    ensures Opening(After(c, s, BeginOpens(k, id, userId)), id, userId, pages, k, 0, Max(peak, k))
    decreases k
  {
    if k > 0 {
      AfterBeginOpens(c, s, id, userId, pages, k - 1, peak);
      BeginOpenAfter(c, s, BeginOpens(k - 1, id, userId), id, userId, pages, k - 1, Max(peak, k - 1));
    }
  }

  lemma {:induction false} AfterFinishOpens(c: Caps, s: State, id: string, userId: string, pages: nat, total: nat,
                                            k: nat, peak: nat)
    requires Opening(s, id, userId, pages, total, 0, peak) && k <= total
    ensures Opening(After(c, s, FinishOpens(k)), id, userId, pages + k, total, k, peak)
    decreases k
  {
    if k > 0 {
      AfterFinishOpens(c, s, id, userId, pages, total, k - 1, peak);
      FinishOpenAfter(c, s, FinishOpens(k - 1), id, userId, pages + k - 1, total, k - 1, peak);
    }
  }

  lemma NothingOpening(s: State, id: string, userId: string, pages: nat, peak: nat)
    requires Opening(s, id, userId, pages, 1, 1, peak)
    ensures Opening(s, id, userId, pages, 0, 0, peak)
  {}

  lemma {:induction false} AfterTabByTab(c: Caps, s: State, n: nat, id: string, userId: string)
    requires Opening(s, id, userId, 1, 0, 0, 0) && n < MAX_TABS_PER_SESSION
    ensures Opening(After(c, s, TabByTab(n, id, userId)), id, userId, n + 1, 0, 0, Min(n, 1))
    decreases n
  {
    if n > 0 {
      var before := TabByTab(n - 1, id, userId);
      AfterTabByTab(c, s, n - 1, id, userId);
      BeginOpenAfter(c, s, before, id, userId, n, 0, Min(n - 1, 1));
      FinishOpenAfter(c, s, before + [BeginOpenStep(Name(0), id, userId)], id, userId, n, 1, 0, 1);
      NothingOpening(After(c, s, TabByTab(n, id, userId)), id, userId, n + 1, 1);
    }
  }

  lemma FirstSession(c: Caps, userId: string)
    requires Limit(c) > 0
    ensures Opening(After(c, INITIAL, OneByOne(1, userId)), Name(0), userId, 1, 0, 0, 0)
  {
    assert OneByOne(0, userId) == [];
    AfterOneByOne(c, 0, userId);
    RoomForOne(c, INITIAL, userId, 0);
    BegunState(c, INITIAL, Name(0), userId);
    var s1 := Next(c, INITIAL, BeginStartStep(Name(0), userId));
    AfterOneMore(c, INITIAL, [], BeginStartStep(Name(0), userId));
    AfterOneMore(c, INITIAL, [] + [BeginStartStep(Name(0), userId)], FinishStartStep(Name(0), Name(0), "", 0));
    assert s1.entries == map[] && s1.opens == map[];
  }

  /**
   The bound on tabs is sharp as well: with one tab short of the limit, `k` openings that overlap all pass
   the check, and the session ends with `k - 1` tabs too many.
   */
  lemma OverlapReachesTheTabBound(c: Caps, userId: string, k: nat)
    requires Limit(c) > 0 && k > 0
    ensures var start := OneByOne(1, userId) + TabByTab(3, Name(0), userId);
            var steps := start + BeginOpens(k, Name(0), userId) + FinishOpens(k);
            var s := After(c, INITIAL, steps);
            && PeakOf(s.peaks.bySession, Name(0)) == k
            && Name(0) in s.live && |TabsOf(s, Name(0)).pages| == MAX_TABS_PER_SESSION - 1 + k
  {
    var (start, tabs, begins, finishes) :=
      (OneByOne(1, userId), TabByTab(3, Name(0), userId), BeginOpens(k, Name(0), userId), FinishOpens(k));
    FirstSession(c, userId);
    var s1 := After(c, INITIAL, start);
    AfterTabByTab(c, s1, 3, Name(0), userId);
    var s2 := After(c, s1, tabs);
    AfterBeginOpens(c, s2, Name(0), userId, 4, k, 1);
    var s3 := After(c, s2, begins);
    AfterFinishOpens(c, s3, Name(0), userId, 4, k, k, k);
    AfterAppend(c, INITIAL, start, tabs);
    AfterAppend(c, INITIAL, start + tabs, begins);
    AfterAppend(c, INITIAL, start + tabs + begins, finishes);
  }
}
