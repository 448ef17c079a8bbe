/** What every interleaving of browser calls keeps, and how far overlapping starts can go. */
module BrowserSafety {
  import opened Prelude
  import opened BrowserSteps

  // ----- Tabs -----

  ghost predicate EntriesOk(s: State) {
    && s.live <= s.entries.Keys
    && (forall id <- s.entries :: TabsOk(s.entries[id].tabs))
    && (forall call <- s.opens :: s.opens[call] in s.entries)
  }

  lemma ChangeKeepsEntries(s: State, id: string, userId: string, r: TabResult)
    requires EntriesOk(s) && (r.TabsAre? ==> TabsOk(r.tabs))
    ensures EntriesOk(ChangeTabs(s, id, userId, r))
  {}

  lemma StepKeepsEntries(c: Caps, s: State, step: Step)
    requires EntriesOk(s)
    ensures EntriesOk(Next(c, s, step))
  {
    match step {
      case SwitchStep(id, userId, index) => ChangeKeepsEntries(s, id, userId, SwitchTab(TabsOf(s, id), index));
      case CloseTabStep(id, userId, index) =>
        if id in s.entries { CloseTabFacts(s.entries[id].tabs, index); }
        ChangeKeepsEntries(s, id, userId, CloseTab(TabsOf(s, id), index));
      case _ =>
    }
  }

  /** In every run no session is without pages and every active index is in range, so `activePage` never throws. */
  lemma {:induction false} EveryRunKeepsTabs(c: Caps, s: State, steps: seq<Step>)
    requires EntriesOk(s)
    ensures EntriesOk(After(c, s, steps))
    decreases |steps|
  {
    if steps != [] {
      StepKeepsEntries(c, s, steps[0]);
      EveryRunKeepsTabs(c, Next(c, s, steps[0]), steps[1..]);
    }
  }

  // ----- Counting -----

  lemma PreimageAdd(m: map<string, string>, k: string, v: string, u: string)
    requires k !in m
    ensures |Preimage(m[k := v], u)| == |Preimage(m, u)| + if u == v then 1 else 0
    ensures |m[k := v]| == |m| + 1
  {
    var m1 := m[k := v];
    if u == v {
      assert Preimage(m1, u) == Preimage(m, u) + {k};
    } else {
      assert Preimage(m1, u) == Preimage(m, u);
    }
    OneMoreKey(m, k, v);
  }

  lemma OneMoreKey(m: map<string, string>, k: string, v: string)
    requires k !in m
    ensures |m[k := v]| == |m| + 1
  {
    assert m[k := v].Keys == m.Keys + {k};
    assert |m[k := v]| == |m[k := v].Keys| && |m| == |m.Keys|;
  }

  lemma PreimageRemove(m: map<string, string>, k: string, u: string)
    requires k in m
    ensures |Preimage(m - {k}, u)| == |Preimage(m, u)| - if u == m[k] then 1 else 0
    ensures |m - {k}| == |m| - 1
  {
    var m1 := m - {k};
    if u == m[k] {
      assert Preimage(m, u) == Preimage(m1, u) + {k};
    } else {
      assert Preimage(m, u) == Preimage(m1, u);
    }
    assert m.Keys == m1.Keys + {k};
    assert |m1| == |m1.Keys| && |m| == |m.Keys|;
  }

  // ----- The whole pool -----

  /** Either there is nothing at all, or sessions and pending starts stay within the limit plus the overlap. */
  ghost predicate Within(size: nat, pending: nat, limit: nat, peak: nat) {
    size + pending == 0 || size + pending < limit + peak
  }

  ghost predicate PoolBound(c: Caps, s: State) {
    EntriesOk(s) && Within(|s.live|, |s.starts|, c.maxSessions, s.peaks.all)
  }

  lemma OtherStepsKeepPool(c: Caps, s: State, step: Step)
    requires EntriesOk(s) && Enabled(s, step) && !step.BeginStartStep? && !step.FinishStartStep? && !step.FailStartStep?
    ensures var s1 := Next(c, s, step); s1.live <= s.live && s1.starts == s.starts && s1.peaks.all == s.peaks.all
  {}

  lemma StepKeepsPoolBound(c: Caps, s: State, step: Step)
    requires PoolBound(c, s)
    ensures PoolBound(c, Next(c, s, step))
  {
    StepKeepsEntries(c, s, step);
    if Enabled(s, step) {
      match step {
        case BeginStartStep(call, userId) => PreimageAdd(s.starts, call, userId, "");
        case FinishStartStep(call, id, _, _) => PreimageRemove(s.starts, call, "");
        case FailStartStep(call) => PreimageRemove(s.starts, call, "");
        case _ =>
          OtherStepsKeepPool(c, s, step);
          SubsetSize(Next(c, s, step).live, s.live);
      }
    }
  }

  // ----- The sessions of one user -----

  ghost predicate UserBound(c: Caps, s: State, u: string) {
    && EntriesOk(s)
    && Within(|OwnedBy(s.entries, s.live, u)|, |Preimage(s.starts, u)|, c.maxSessionsPerUser, PeakOf(s.peaks.byUser, u))
  }

  lemma OneMoreOwned(entries: map<string, Session>, live: set<string>, id: string, x: Session, u: string)
    requires live <= entries.Keys && id !in entries
    ensures |OwnedBy(entries[id := x], live + {id}, u)| == |OwnedBy(entries, live, u)| + if u == x.userId then 1 else 0
  {
    if u == x.userId {
      assert OwnedBy(entries[id := x], live + {id}, u) == OwnedBy(entries, live, u) + {id};
    } else {
      assert OwnedBy(entries[id := x], live + {id}, u) == OwnedBy(entries, live, u);
    }
  }

  lemma FinishStartOwned(s: State, call: string, id: string, page: string, now: int, u: string)
    requires EntriesOk(s) && call in s.starts && id !in s.entries
    ensures var s1 := FinishStart(s, call, id, page, now);
            |OwnedBy(s1.entries, s1.live, u)| == |OwnedBy(s.entries, s.live, u)| + if u == s.starts[call] then 1 else 0
  {
    OneMoreOwned(s.entries, s.live, id, FinishStart(s, call, id, page, now).entries[id], u);
  }

  /** Steps that only take sessions out of the pool, or change no owner. */
  lemma OwnersStay(s: State, s1: State, u: string)
    requires EntriesOk(s) && s1.live <= s.live && SameOwners(s, s1)
    ensures |OwnedBy(s1.entries, s1.live, u)| <= |OwnedBy(s.entries, s.live, u)|
  {
    SubsetSize(OwnedBy(s1.entries, s1.live, u), OwnedBy(s.entries, s.live, u));
  }

  /** The same sessions with the same owners. */
  ghost predicate SameOwners(s: State, s1: State) {
    s1.entries.Keys == s.entries.Keys && forall id <- s.entries :: s1.entries[id].userId == s.entries[id].userId
  }

  lemma EntryStepKeepsOwners(c: Caps, s: State, step: Step)
    requires EntriesOk(s) && Enabled(s, step)
    requires step.FinishOpenStep? || step.SwitchStep? || step.CloseTabStep? || step.TouchStep?
    ensures SameOwners(s, Next(c, s, step)) && Next(c, s, step).live == s.live
  {}

  lemma OtherStepsKeepOwners(c: Caps, s: State, step: Step)
    requires EntriesOk(s) && Enabled(s, step) && !step.FinishStartStep?
    ensures SameOwners(s, Next(c, s, step)) && Next(c, s, step).live <= s.live
  {
    if step.FinishOpenStep? || step.SwitchStep? || step.CloseTabStep? || step.TouchStep? {
      EntryStepKeepsOwners(c, s, step);
    } else {
      assert Next(c, s, step).entries == s.entries;
    }
  }

  lemma BeginStartKeepsUserBound(c: Caps, s: State, call: string, userId: string, u: string)
    requires UserBound(c, s, u) && call !in s.starts
    ensures UserBound(c, BeginStart(c, s, call, userId), u)
  {
    PreimageAdd(s.starts, call, userId, u);
  }

  lemma StepKeepsUserBound(c: Caps, s: State, step: Step, u: string)
    requires UserBound(c, s, u)
    ensures UserBound(c, Next(c, s, step), u)
  {
    StepKeepsEntries(c, s, step);
    if Enabled(s, step) {
      match step {
        case BeginStartStep(call, userId) => BeginStartKeepsUserBound(c, s, call, userId, u);
        case FinishStartStep(call, id, page, now) =>
          FinishStartOwned(s, call, id, page, now, u);
          PreimageRemove(s.starts, call, u);
        case FailStartStep(call) => PreimageRemove(s.starts, call, u);
        case _ =>
          OtherStepsKeepOwners(c, s, step);
          OwnersStay(s, Next(c, s, step), u);
      }
    }
  }

  // ----- The tabs of one session -----

  ghost predicate TabBound(s: State, id: string) {
    && EntriesOk(s)
    && |TabsOf(s, id).pages| + |Preimage(s.opens, id)| < MAX_TABS_PER_SESSION + PeakOf(s.peaks.bySession, id)
  }

  lemma BeginOpenKeepsTabBound(s: State, call: string, session: string, userId: string, id: string)
    requires TabBound(s, id) && call !in s.opens
    ensures var s1 := BeginOpen(s, call, session, userId); EntriesOk(s1) ==> TabBound(s1, id)
  {
    PreimageAdd(s.opens, call, session, id);
  }

  lemma FinishOpenKeepsTabBound(s: State, call: string, page: string, now: int, id: string)
    requires TabBound(s, id) && call in s.opens && s.opens[call] in s.entries
    ensures var s1 := FinishOpen(s, call, page, now); EntriesOk(s1) ==> TabBound(s1, id)
  {
    PreimageRemove(s.opens, call, id);
  }

  lemma CloseTabKeepsTabBound(s: State, session: string, userId: string, index: int, id: string)
    requires TabBound(s, id)
    ensures var s1 := ChangeTabs(s, session, userId, CloseTab(TabsOf(s, session), index));
            EntriesOk(s1) ==> TabBound(s1, id)
  {
    if session in s.entries { CloseTabFacts(s.entries[session].tabs, index); }
  }

  /** Steps that leave every page list and every pending opening as they are. */
  lemma QuietStep(c: Caps, s: State, step: Step, id: string)
    requires Enabled(s, step)
    requires !step.FinishStartStep? && !step.BeginOpenStep? && !step.FinishOpenStep?
    requires !step.FailOpenStep? && !step.CloseTabStep?
    ensures var s1 := Next(c, s, step);
            && s1.opens == s.opens && s1.peaks.bySession == s.peaks.bySession
            && |TabsOf(s1, id).pages| == |TabsOf(s, id).pages|
  {
    var s1 := Next(c, s, step);
    if step.SwitchStep? || step.TouchStep? {
      QuietEntryStep(c, s, step, id);
    } else {
      assert s1.entries == s.entries;
    }
  }

  lemma QuietEntryStep(c: Caps, s: State, step: Step, id: string)
    requires Enabled(s, step) && (step.SwitchStep? || step.TouchStep?)
    ensures var s1 := Next(c, s, step);
            s1 == s.(entries := s1.entries) && |TabsOf(s1, id).pages| == |TabsOf(s, id).pages|
  {}

  lemma StepKeepsTabBound(c: Caps, s: State, step: Step, id: string)
    requires TabBound(s, id)
    ensures TabBound(Next(c, s, step), id)
  {
    StepKeepsEntries(c, s, step);
    if Enabled(s, step) {
      match step {
        case FinishStartStep(_, unknown, _, _) => NobodyOpensUnknown(s, unknown);
        case BeginOpenStep(call, session, userId) => BeginOpenKeepsTabBound(s, call, session, userId, id);
        case FinishOpenStep(call, page, now) => FinishOpenKeepsTabBound(s, call, page, now, id);
        case FailOpenStep(call) => PreimageRemove(s.opens, call, id);
        case CloseTabStep(session, userId, index) => CloseTabKeepsTabBound(s, session, userId, index, id);
        case _ => QuietStep(c, s, step, id);
      }
    }
  }

  lemma NobodyOpensUnknown(s: State, id: string)
    requires EntriesOk(s) && id !in s.entries
    ensures Preimage(s.opens, id) == {}
  {}

  // ----- Over whole runs -----

  lemma {:induction false} RunKeepsBounds(c: Caps, s: State, steps: seq<Step>, u: string, id: string)
    requires PoolBound(c, s) && UserBound(c, s, u) && TabBound(s, id)
    ensures PoolBound(c, After(c, s, steps)) && UserBound(c, After(c, s, steps), u) && TabBound(After(c, s, steps), id)
    decreases |steps|
  {
    if steps != [] {
      StepKeepsPoolBound(c, s, steps[0]);
      StepKeepsUserBound(c, s, steps[0], u);
      StepKeepsTabBound(c, s, steps[0], id);
      RunKeepsBounds(c, Next(c, s, steps[0]), steps[1..], u, id);
    }
  }

  /**
   In every run the pool holds at most the limit less one plus the largest number of starts pending at
   once, so it respects the limit as long as starts do not overlap; and likewise the sessions of one user
   and the tabs of one session.
   */
  lemma CapsHoldUpToOverlap(c: Caps, steps: seq<Step>, u: string, id: string)
    ensures var s := After(c, INITIAL, steps);
            && (s.live == {} || |s.live| <= c.maxSessions - 1 + s.peaks.all)
            && (OwnedBy(s.entries, s.live, u) == {} ||
                |OwnedBy(s.entries, s.live, u)| <= c.maxSessionsPerUser - 1 + PeakOf(s.peaks.byUser, u))
            && |TabsOf(s, id).pages| <= 5 - 1 + Max(1, PeakOf(s.peaks.bySession, id))
            && (id in s.live ==> id in s.entries && TabsOk(s.entries[id].tabs))
  {
    assert OwnedBy(INITIAL.entries, INITIAL.live, u) == {};
    assert Preimage(INITIAL.starts, u) == {} && Preimage(INITIAL.opens, id) == {};
    RunKeepsBounds(c, INITIAL, steps, u, id);
  }

  // ----- Longer runs, and names for them -----

  lemma {:induction false} AfterAppend(c: Caps, s: State, a: seq<Step>, b: seq<Step>)
    ensures After(c, s, a + b) == After(c, After(c, s, a), b)
    decreases |a|
  {
    if a == [] {
      assert a + b == b;
    } else {
      assert (a + b)[1..] == a[1..] + b;
      AfterAppend(c, Next(c, s, a[0]), a[1..], b);
    }
  }

  lemma AfterOneMore(c: Caps, s: State, steps: seq<Step>, step: Step)
    ensures After(c, s, steps + [step]) == Next(c, After(c, s, steps), step)
  {
    AfterAppend(c, s, steps, [step]);
    assert [step][1..] == [];
  }

  function Name(i: nat): string { seq(i, _ => 'x') }

  ghost function Names(n: nat): set<string> { if n == 0 then {} else Names(n - 1) + {Name(n - 1)} }

  lemma {:induction false} NamesAre(n: nat, i: nat)
    ensures Name(i) in Names(n) <==> i < n
    ensures |Names(n)| == n
    decreases n
  {
    if n > 0 {
      NamesAre(n - 1, i);
      NamesAre(n - 1, n - 1);
      assert |Name(i)| == i && |Name(n - 1)| == n - 1;
    }
  }

  /** There is always a name that has not been used. */
  lemma NewName(used: set<string>) returns (name: string)
    ensures name !in used
  {
    var n := |used| + 1;
    NamesAre(n, 0);
    if Names(n) <= used {
      SubsetSize(Names(n), used);
      assert false;
    }
    name :| name in Names(n) && name !in used;
  }

  // ----- After the close -----

  lemma ClosedStep(c: Caps, s: State, step: Step)
    requires EntriesOk(s) && s.closed
    ensures var s1 := Next(c, s, step);
            s1.closed && s1.starts.Keys <= s.starts.Keys && |s1.live| + |s1.starts| <= |s.live| + |s.starts|
  {
    if Enabled(s, step) && (step.FinishStartStep? || step.FailStartStep?) {
      PreimageRemove(s.starts, step.call, "");
    } else {
      ClosedPoolStays(c, s, step);
    }
  }

  lemma ClosedPoolStays(c: Caps, s: State, step: Step)
    requires s.closed && (!Enabled(s, step) || !(step.FinishStartStep? || step.FailStartStep?))
    ensures var s1 := Next(c, s, step); s1.closed && s1.live == s.live && s1.starts == s.starts
  {}

  /** After a close only starts that were already pending can still register a session. */
  lemma {:induction false} ClosedPoolOnlyGetsLateStarts(c: Caps, s: State, steps: seq<Step>)
    requires EntriesOk(s) && s.closed
    ensures var s1 := After(c, s, steps);
            s1.closed && s1.starts.Keys <= s.starts.Keys && |s1.live| + |s1.starts| <= |s.live| + |s.starts|
    decreases |steps|
  {
    if steps != [] {
      ClosedStep(c, s, steps[0]);
      StepKeepsEntries(c, s, steps[0]);
      ClosedPoolOnlyGetsLateStarts(c, Next(c, s, steps[0]), steps[1..]);
    }
  }

  /** And they do: nothing looks at `closed` again, so such a session stays in the closed pool. */
  lemma LateStartFillsAClosedPool(c: Caps, s: State, call: string, id: string, page: string, now: int)
    requires EntriesOk(s) && !s.closed && call in s.starts && id !in s.entries
    ensures var s1 := After(c, s, [CloseStep] + [FinishStartStep(call, id, page, now)]);
            s1.closed && s1.live == {id} && id in s1.entries && s1.entries[id].userId == s.starts[call]
  {
    var finish := FinishStartStep(call, id, page, now);
    var s1 := s.(closed := true, live := {});
    assert Next(c, s, CloseStep) == s1;
    assert Next(c, s1, finish).live == {id};
    assert [] + [CloseStep] == [CloseStep];
    AfterOneMore(c, s, [], CloseStep);
    AfterOneMore(c, s, [CloseStep], finish);
  }

  lemma {:induction false} AllPendingCanRegister(c: Caps, s: State) returns (steps: seq<Step>)
    requires EntriesOk(s) && s.closed
    ensures var s1 := After(c, s, steps);
            s1.closed && s1.starts == map[] && |s1.live| == |s.live| + |s.starts|
    decreases |s.starts|
  {
    if s.starts == map[] {
      steps := [];
    } else {
      var call :| call in s.starts;
      var id := NewName(s.entries.Keys);
      var finish := FinishStartStep(call, id, "", 0);
      var s1 := Next(c, s, finish);
      PreimageRemove(s.starts, call, "");
      assert s1.live == s.live + {id} && id !in s.live;
      StepKeepsEntries(c, s, finish);
      var rest := AllPendingCanRegister(c, s1);
      steps := [finish] + rest;
      assert steps[1..] == rest;
    }
  }

  /**
   The bound on late sessions is reached from every state: all starts pending at the close, begun whenever
   before it, can register in the closed pool.
   */
  lemma PendingStartsFillAClosedPool(c: Caps, s: State) returns (steps: seq<Step>)
    requires EntriesOk(s) && !s.closed
    ensures var s1 := After(c, s, [CloseStep] + steps);
            s1.closed && |s1.live| == |s.starts|
  {
    var s1 := s.(closed := true, live := {});
    assert Next(c, s, CloseStep) == s1;
    steps := AllPendingCanRegister(c, s1);
    assert ([CloseStep] + steps)[1..] == steps;
  }
}
