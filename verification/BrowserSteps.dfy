/**
 The browser pool as a step system. Starting a session and opening a tab check a limit first and
 register after an await, so each is two steps with anything in between.
 */
module BrowserSteps {
  import opened Prelude

  const MAX_TABS_PER_SESSION: nat := 5
  const PAGE_LOAD_TIMEOUT_MS: int := 30_000
  const IDLE_TIMEOUT_MS: int := 5 * 60 * 1000
  const HARD_LIFETIME_MS: int := 30 * 60 * 1000

  // ----- Tabs of one session -----

  datatype Tabs = Tabs(pages: seq<string>, active: int)

  datatype TabResult = TabsAre(tabs: Tabs) | OutOfRange | LastTab

  predicate InRange(t: Tabs, index: int) { 0 <= index < |t.pages| }

  function SwitchTab(t: Tabs, index: int): TabResult {
    if !InRange(t, index) then OutOfRange else TabsAre(t.(active := index))
  }

  function CloseTab(t: Tabs, index: int): TabResult {
    if !InRange(t, index) then OutOfRange
    else if |t.pages| == 1 then LastTab
    else
      TabsAre(Tabs(t.pages[..index] + t.pages[index + 1..],
                   if t.active == index then Max(0, index - 1)
                   else if t.active > index then t.active - 1
                   else t.active))
  }

  /** A new tab goes to the end and becomes the active one. */
  function OpenTab(t: Tabs, page: string): Tabs { Tabs(t.pages + [page], |t.pages|) }

  predicate TabsOk(t: Tabs) { InRange(t, t.active) }

  function ActivePage(t: Tabs): string
    requires TabsOk(t)
  {
    t.pages[t.active]
  }

  lemma RemovedPage(pages: seq<string>, index: int)
    requires 0 <= index < |pages|
    ensures multiset(pages[..index] + pages[index + 1..]) + multiset{pages[index]} == multiset(pages)
  {
    assert pages == pages[..index] + [pages[index]] + pages[index + 1..];
  }

  /**
   Closing a tab never leaves a session without pages and never a dangling active index. Closing another
   tab keeps the active page active; closing the active one activates its left neighbour, or else the
   first of those that remain.
   */
  lemma CloseTabFacts(t: Tabs, index: int)
    requires TabsOk(t)
    ensures CloseTab(t, index).TabsAre? <==> 0 <= index < |t.pages| && |t.pages| > 1
    ensures CloseTab(t, index).TabsAre? ==>
              var t1 := CloseTab(t, index).tabs;
              && TabsOk(t1) && |t1.pages| == |t.pages| - 1
              && multiset(t1.pages) + multiset{t.pages[index]} == multiset(t.pages)
              && ActivePage(t1) == if index != t.active then ActivePage(t)
                                   else if index > 0 then t.pages[index - 1]
                                   else t.pages[1]
  {
    if CloseTab(t, index).TabsAre? { RemovedPage(t.pages, index); }
  }

  /** A new tab is last and active; those before it keep their places. */
  lemma OpenTabFacts(t: Tabs, page: string)
    ensures var t1 := OpenTab(t, page); t1.pages == t.pages + [page] && TabsOk(t1) && ActivePage(t1) == page
  {}

  /** Switching fails exactly for a bad index, and else activates the tab there and moves none. */
  lemma SwitchTabFacts(t: Tabs, index: int)
    ensures SwitchTab(t, index).TabsAre? <==> 0 <= index < |t.pages|
    ensures SwitchTab(t, index).TabsAre? ==>
              var t1 := SwitchTab(t, index).tabs;
              t1.pages == t.pages && TabsOk(t1) && ActivePage(t1) == t.pages[index]
  {}

  // ----- The pool -----

  datatype Session = Session(userId: string, tabs: Tabs, lastActionAt: int, hardDeadline: int)

  datatype Caps = Caps(maxSessions: nat, maxSessionsPerUser: nat)

  /** The largest numbers of simultaneously pending starts, of all, by user, and of tab openings by session. */
  datatype Peaks = Peaks(all: nat, byUser: map<string, nat>, bySession: map<string, nat>)

  /**
   `entries` are all sessions there ever were and `live` those in the pool: a tab still opening when its
   session is stopped is added to the entry all the same. `starts` and `opens` are the pending calls by
   name. `peaks` records the past and decides nothing.
   */
  datatype State = State(entries: map<string, Session>, live: set<string>, starts: map<string, string>,
                         opens: map<string, string>, closed: bool, peaks: Peaks)

  const INITIAL := State(map[], {}, map[], map[], false, Peaks(0, map[], map[]))

  datatype CapacityError = GlobalSessionLimit | UserSessionLimit

  function Preimage(m: map<string, string>, value: string): set<string> { set k <- m | m[k] == value }

  function OwnedBy(entries: map<string, Session>, live: set<string>, userId: string): set<string> {
    set id <- live | id in entries && entries[id].userId == userId
  }

  function Capacity(c: Caps, entries: map<string, Session>, live: set<string>, userId: string): Option<CapacityError> {
    if |live| >= c.maxSessions then Some(GlobalSessionLimit)
    else if |OwnedBy(entries, live, userId)| >= c.maxSessionsPerUser then Some(UserSessionLimit)
    else None
  }

  predicate Expired(x: Session, now: int) { now - x.lastActionAt >= IDLE_TIMEOUT_MS || now >= x.hardDeadline }

  function PeakOf(m: map<string, nat>, k: string): nat { if k in m then m[k] else 0 }

  function Raise(m: map<string, nat>, k: string, n: nat): map<string, nat> { m[k := Max(PeakOf(m, k), n)] }

  // ----- Steps -----

  function BeginStart(c: Caps, s: State, call: string, userId: string): State {
    if s.closed || Capacity(c, s.entries, s.live, userId).Some? then s
    else
      var starts := s.starts[call := userId];
      s.(starts := starts,
         peaks := s.peaks.(all := Max(s.peaks.all, |starts|),
                           byUser := Raise(s.peaks.byUser, userId, |Preimage(starts, userId)|)))
  }

  /** Nothing is checked again: neither the limits nor whether the pool has been closed meanwhile. */
  function FinishStart(s: State, call: string, id: string, page: string, now: int): State
    requires call in s.starts
  {
    s.(entries := s.entries[id := Session(s.starts[call], Tabs([page], 0), now, now + HARD_LIFETIME_MS)],
       live := s.live + {id}, starts := s.starts - {call})
  }

  predicate Owned(s: State, id: string, userId: string) {
    !s.closed && id in s.live && id in s.entries && s.entries[id].userId == userId
  }

  function BeginOpen(s: State, call: string, id: string, userId: string): State {
    if !Owned(s, id, userId) || |s.entries[id].tabs.pages| >= MAX_TABS_PER_SESSION then s
    else
      var opens := s.opens[call := id];
      s.(opens := opens, peaks := s.peaks.(bySession := Raise(s.peaks.bySession, id, |Preimage(opens, id)|)))
  }

  function FinishOpen(s: State, call: string, page: string, now: int): State
    requires call in s.opens && s.opens[call] in s.entries
  {
    var x := s.entries[s.opens[call]];
    var x1 := x.(tabs := OpenTab(x.tabs, page),
                 hardDeadline := if x.hardDeadline - now < PAGE_LOAD_TIMEOUT_MS then now + HARD_LIFETIME_MS
                                 else x.hardDeadline);
    s.(entries := s.entries[s.opens[call] := x1], opens := s.opens - {call})
  }

  function ChangeTabs(s: State, id: string, userId: string, r: TabResult): State {
    if !Owned(s, id, userId) || !r.TabsAre? then s
    else s.(entries := s.entries[id := s.entries[id].(tabs := r.tabs)])
  }

  function TabsOf(s: State, id: string): Tabs { if id in s.entries then s.entries[id].tabs else Tabs([], 0) }

  function Survivors(s: State, now: int): set<string> {
    set id <- s.live | id in s.entries && !Expired(s.entries[id], now)
  }

  datatype Step =
    | BeginStartStep(call: string, userId: string)
    | FinishStartStep(call: string, id: string, page: string, now: int)
    | FailStartStep(call: string)
    | StopStep(id: string, userId: string)
    | BeginOpenStep(call: string, id: string, userId: string)
    | FinishOpenStep(call: string, page: string, now: int)
    | FailOpenStep(call: string)
    | SwitchStep(id: string, userId: string, index: int)
    | CloseTabStep(id: string, userId: string, index: int)
    | TouchStep(id: string, now: int)
    | SweepStep(now: int)
    | CloseStep

  /** Calls and sessions get new names; a call ends once. */
  predicate Enabled(s: State, step: Step) {
    match step
    case BeginStartStep(call, _) => call !in s.starts
    case FinishStartStep(call, id, _, _) => call in s.starts && id !in s.entries
    case FailStartStep(call) => call in s.starts
    case BeginOpenStep(call, _, _) => call !in s.opens
    case FinishOpenStep(call, _, _) => call in s.opens && s.opens[call] in s.entries
    case FailOpenStep(call) => call in s.opens
    case TouchStep(id, _) => id in s.entries
    case _ => true
  }

  function Next(c: Caps, s: State, step: Step): State {
    if !Enabled(s, step) then s
    else
      match step
      case BeginStartStep(call, userId) => BeginStart(c, s, call, userId)
      case FinishStartStep(call, id, page, now) => FinishStart(s, call, id, page, now)
      case FailStartStep(call) => s.(starts := s.starts - {call})
      case StopStep(id, userId) => if Owned(s, id, userId) then s.(live := s.live - {id}) else s
      case BeginOpenStep(call, id, userId) => BeginOpen(s, call, id, userId)
      case FinishOpenStep(call, page, now) => FinishOpen(s, call, page, now)
      case FailOpenStep(call) => s.(opens := s.opens - {call})
      case SwitchStep(id, userId, index) => ChangeTabs(s, id, userId, SwitchTab(TabsOf(s, id), index))
      case CloseTabStep(id, userId, index) => ChangeTabs(s, id, userId, CloseTab(TabsOf(s, id), index))
      case TouchStep(id, now) => s.(entries := s.entries[id := s.entries[id].(lastActionAt := now)])
      case SweepStep(now) => if s.closed then s else s.(live := Survivors(s, now))
      case CloseStep => s.(closed := true, live := if s.closed then s.live else {})
  }

  /** A run is any sequence of steps; one that is not enabled does not happen. */
  function After(c: Caps, s: State, steps: seq<Step>): State
    decreases |steps|
  {
    if steps == [] then s else After(c, Next(c, s, steps[0]), steps[1..])
  }
}
