/** When a browser session leaves the pool: over whole runs, by its owner, the close, or a sweep, and never else. */
module BrowserLifetimes {
  import opened Prelude
  import opened BrowserSteps
  import opened BrowserSafety

  // ----- One step -----

  /** The owner stops it, the pool closes, or a sweep finds it five minutes idle or past its deadline. */
  ghost predicate TakesOut(s: State, id: string, x: Session, step: Step) {
    && !s.closed
    && match step
       case StopStep(other, userId) => other == id && userId == x.userId
       case CloseStep => true
       case SweepStep(now) => now - x.lastActionAt >= 300_000 || now >= x.hardDeadline
       case _ => false
  }

  lemma LeavesExactlyWhen(c: Caps, s: State, id: string, step: Step)
    requires EntriesOk(s) && id in s.live
    ensures id !in Next(c, s, step).live <==> TakesOut(s, id, s.entries[id], step)
  {}

  /** A session joins once, when its start finishes: one page, thirty minutes from now at most, five if idle. */
  lemma JoinsExactlyWhen(c: Caps, s: State, id: string, step: Step)
    requires EntriesOk(s) && id !in s.live
    ensures id in Next(c, s, step).live <==>
              step.FinishStartStep? && step.id == id && step.call in s.starts && id !in s.entries
    ensures id in Next(c, s, step).live ==>
              Next(c, s, step).entries[id]
              == Session(s.starts[step.call], Tabs([step.page], 0), step.now, step.now + 1_800_000)
  {}

  /** The tabs of a session after a step: its owner's switch or closing, or an opening that finishes. */
  function TabsAfter(s: State, id: string, x: Session, step: Step): Tabs {
    match step
    case SwitchStep(other, user, index) =>
      if Mine(s, id, x, other, user) && 0 <= index < |x.tabs.pages| then Tabs(x.tabs.pages, index) else x.tabs
    case CloseTabStep(other, user, index) =>
      if Mine(s, id, x, other, user) && 0 <= index < |x.tabs.pages| && |x.tabs.pages| > 1
      then CloseTab(x.tabs, index).tabs else x.tabs
    case FinishOpenStep(call, page, _) =>
      if call in s.opens && s.opens[call] == id then Tabs(x.tabs.pages + [page], |x.tabs.pages|) else x.tabs
    case _ => x.tabs
  }

  predicate Mine(s: State, id: string, x: Session, other: string, user: string) {
    !s.closed && id in s.live && other == id && user == x.userId
  }

  /** What a step does to the entry of a session, in the pool or not. */
  lemma StepOnEntry(c: Caps, s: State, id: string, step: Step)
    requires EntriesOk(s) && id in s.entries
    ensures var (x, x1) := (s.entries[id], Next(c, s, step).entries[id]);
            && x1.userId == x.userId && x1.tabs == TabsAfter(s, id, x, step)
            && x1.lastActionAt == (if step.TouchStep? && step.id == id then step.now else x.lastActionAt)
            && if step.FinishOpenStep? && step.call in s.opens && s.opens[step.call] == id then
                 x1.hardDeadline == if x.hardDeadline < step.now + 30_000 then step.now + 1_800_000
                                       else x.hardDeadline
               else
                 x1.hardDeadline == x.hardDeadline
  {}

  /** Starts and openings begin exactly below their limits. */
  lemma BeginsExactlyWhen(c: Caps, s: State, call: string, id: string, userId: string)
    requires EntriesOk(s)
    ensures call !in s.starts ==>
              (call in Next(c, s, BeginStartStep(call, userId)).starts <==>
                 !s.closed && |s.live| < c.maxSessions && |OwnedBy(s.entries, s.live, userId)| < c.maxSessionsPerUser)
    ensures call !in s.opens ==>
              (call in Next(c, s, BeginOpenStep(call, id, userId)).opens <==>
                 && !s.closed && id in s.live && s.entries[id].userId == userId
                 && |s.entries[id].tabs.pages| < 5)
  {}

  /** A pending call stays as it was until it succeeds or fails, and then it is pending no more. */
  lemma PendingUntilItEnds(c: Caps, s: State, call: string, step: Step)
    requires EntriesOk(s)
    ensures var s1 := Next(c, s, step);
            && (call in s.starts ==>
                  (call !in s1.starts <==>
                     || (step.FinishStartStep? && step.call == call && step.id !in s.entries)
                     || step == FailStartStep(call)))
            && (call in s.opens ==>
                  (call !in s1.opens <==> (step.FinishOpenStep? && step.call == call) || step == FailOpenStep(call)))
            && (call in s.starts && call in s1.starts ==> s1.starts[call] == s.starts[call])
            && (call in s.opens && call in s1.opens ==> s1.opens[call] == s.opens[call])
  {}

  // ----- Over whole runs -----

  /** Once out of the pool, a session never comes back. */
  lemma {:induction false} GoneForGood(c: Caps, s: State, id: string, steps: seq<Step>)
    requires EntriesOk(s) && id in s.entries && id !in s.live
    ensures id !in After(c, s, steps).live && id in After(c, s, steps).entries
    decreases |steps|
  {
    if steps != [] {
      JoinsExactlyWhen(c, s, id, steps[0]);
      StepKeepsEntries(c, s, steps[0]);
      StepOnEntry(c, s, id, steps[0]);
      GoneForGood(c, Next(c, s, steps[0]), id, steps[1..]);
    }
  }

  /**
   Nobody takes the session out in these steps: its owner does not stop it, the pool does not close, and
   every sweep comes before `deadline` and within five minutes of the last action, which is `last` at first.
   */
  predicate Attended(id: string, userId: string, last: int, deadline: int, steps: seq<Step>)
    decreases |steps|
  {
    if steps == [] then true
    else
      match steps[0]
      case StopStep(other, user) => (other != id || user != userId) && Attended(id, userId, last, deadline, steps[1..])
      case CloseStep => false
      case SweepStep(now) =>
        now < last + 300_000 && now < deadline && Attended(id, userId, last, deadline, steps[1..])
      case TouchStep(other, now) => Attended(id, userId, if other == id then now else last, deadline, steps[1..])
      case _ => Attended(id, userId, last, deadline, steps[1..])
  }

  /** An attended session stays in the pool, and its deadline is never brought forward. */
  lemma {:induction false} AttendedSessionsLive(c: Caps, s: State, id: string, steps: seq<Step>)
    requires EntriesOk(s) && id in s.live && !s.closed
    requires Attended(id, s.entries[id].userId, s.entries[id].lastActionAt, s.entries[id].hardDeadline, steps)
    ensures var s1 := After(c, s, steps);
            id in s1.live && id in s1.entries && s1.entries[id].hardDeadline >= s.entries[id].hardDeadline
    decreases |steps|
  {
    AttendedBefore(c, s, id, s.entries[id].hardDeadline, steps);
  }

  lemma OnlyTheCloseCloses(c: Caps, s: State, step: Step)
    ensures Next(c, s, step).closed <==> s.closed || step.CloseStep?
  {}

  lemma {:induction false} AttendedBefore(c: Caps, s: State, id: string, deadline: int, steps: seq<Step>)
    requires EntriesOk(s) && id in s.live && !s.closed && deadline <= s.entries[id].hardDeadline
    requires Attended(id, s.entries[id].userId, s.entries[id].lastActionAt, deadline, steps)
    ensures var s1 := After(c, s, steps);
            id in s1.live && id in s1.entries && deadline <= s1.entries[id].hardDeadline
    decreases |steps|
  {
    if steps != [] {
      LeavesExactlyWhen(c, s, id, steps[0]);
      StepKeepsEntries(c, s, steps[0]);
      StepOnEntry(c, s, id, steps[0]);
      OnlyTheCloseCloses(c, s, steps[0]);
      AttendedBefore(c, Next(c, s, steps[0]), id, deadline, steps[1..]);
    }
  }

  /** Nobody acts on the session in these steps. */
  predicate Unattended(id: string, steps: seq<Step>) {
    forall i :: 0 <= i < |steps| ==> !(steps[i].TouchStep? && steps[i].id == id)
  }

  lemma {:induction false} UnattendedKeepsTheTime(c: Caps, s: State, id: string, steps: seq<Step>)
    requires EntriesOk(s) && id in s.entries && Unattended(id, steps)
    ensures var s1 := After(c, s, steps);
            EntriesOk(s1) && id in s1.entries && s1.entries[id].lastActionAt == s.entries[id].lastActionAt
    decreases |steps|
  {
    if steps != [] {
      StepKeepsEntries(c, s, steps[0]);
      StepOnEntry(c, s, id, steps[0]);
      assert forall i :: 0 <= i < |steps| - 1 ==> steps[1..][i] == steps[i + 1];
      UnattendedKeepsTheTime(c, Next(c, s, steps[0]), id, steps[1..]);
    }
  }

  /**
   A session left alone is out of the pool after any sweep five minutes later, whatever else happened in
   between, and for good; unless it registered in a pool already closed, which is swept no more.
   */
  lemma UnattendedSessionsGo(c: Caps, s: State, id: string, idle: seq<Step>, now: int, rest: seq<Step>)
    requires EntriesOk(s) && id in s.entries && Unattended(id, idle) && now >= s.entries[id].lastActionAt + 300_000
    requires !After(c, s, idle).closed
    ensures id !in After(c, s, idle + [SweepStep(now)] + rest).live
  {
    var s1 := After(c, s, idle);
    UnattendedKeepsTheTime(c, s, id, idle);
    if id in s1.live { LeavesExactlyWhen(c, s1, id, SweepStep(now)); }
    StepKeepsEntries(c, s1, SweepStep(now));
    AfterOneMore(c, s, idle, SweepStep(now));
    AfterAppend(c, s, idle + [SweepStep(now)], rest);
    GoneForGood(c, Next(c, s1, SweepStep(now)), id, rest);
  }

  /** No tab of the session finishes opening in these steps. */
  predicate OpensNone(s: State, c: Caps, id: string, steps: seq<Step>)
    decreases |steps|
  {
    steps == [] ||
      (!(steps[0].FinishOpenStep? && steps[0].call in s.opens && s.opens[steps[0].call] == id)
       && OpensNone(Next(c, s, steps[0]), c, id, steps[1..]))
  }

  lemma {:induction false} DeadlineStays(c: Caps, s: State, id: string, steps: seq<Step>)
    requires EntriesOk(s) && id in s.entries && OpensNone(s, c, id, steps)
    ensures var s1 := After(c, s, steps);
            EntriesOk(s1) && id in s1.entries && s1.entries[id].hardDeadline == s.entries[id].hardDeadline
    decreases |steps|
  {
    if steps != [] {
      StepKeepsEntries(c, s, steps[0]);
      StepOnEntry(c, s, id, steps[0]);
      DeadlineStays(c, Next(c, s, steps[0]), id, steps[1..]);
    }
  }

  /**
   However busy, a session that opens no tab is out of the pool after any sweep thirty minutes after its
   start, and for good.
   */
  lemma ThirtyMinutesWithoutANewTab(c: Caps, s: State, start: Step, busy: seq<Step>, now: int, rest: seq<Step>)
    requires EntriesOk(s) && start.FinishStartStep? && Enabled(s, start)
    requires var s1 := Next(c, s, start); OpensNone(s1, c, start.id, busy) && !After(c, s1, busy).closed
    requires now >= start.now + 1_800_000
    ensures start.id !in After(c, s, [start] + (busy + [SweepStep(now)] + rest)).live
  {
    var (id, s1) := (start.id, Next(c, s, start));
    var s2 := After(c, s1, busy);
    JoinsExactlyWhen(c, s, id, start);
    StepKeepsEntries(c, s, start);
    DeadlineStays(c, s1, id, busy);
    if id in s2.live { LeavesExactlyWhen(c, s2, id, SweepStep(now)); }
    StepKeepsEntries(c, s2, SweepStep(now));
    AfterOneMore(c, s1, busy, SweepStep(now));
    AfterAppend(c, s1, busy + [SweepStep(now)], rest);
    GoneForGood(c, Next(c, s2, SweepStep(now)), id, rest);
    assert ([start] + (busy + [SweepStep(now)] + rest))[1..] == busy + [SweepStep(now)] + rest;
  }
}
