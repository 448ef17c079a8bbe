/** The pool and its sessions as objects updated in place; each method does what its step says. */
module BrowserPool {
  import opened Prelude
  import opened BrowserSteps

  class SessionEntry {
    const sessionId: string
    const userId: string
    var pages: seq<string>
    var activePageIndex: int
    var lastActionAt: int
    var hardDeadline: int

    ghost function Value(): Session
      reads this
    {
      Session(userId, Tabs(pages, activePageIndex), lastActionAt, hardDeadline)
    }

    constructor (sessionId: string, userId: string, page: string, now: int)
      ensures this.sessionId == sessionId
      ensures Value() == Session(userId, Tabs([page], 0), now, now + 1_800_000)
    {
      this.sessionId, this.userId := sessionId, userId;
      pages, activePageIndex := [page], 0;
      lastActionAt, hardDeadline := now, now + HARD_LIFETIME_MS;
    }

    method Switch(index: int) returns (ok: bool)
      modifies this`activePageIndex
      ensures var r := SwitchTab(old(Value()).tabs, index);
              ok == r.TabsAre? && Value() == if ok then old(Value()).(tabs := r.tabs) else old(Value())
      ensures ok <==> 0 <= index < |pages|
      ensures ok ==> activePageIndex == index
    {
      ok := 0 <= index < |pages|;
      if ok { activePageIndex := index; }
    }

    method Close(index: int) returns (ok: bool)
      modifies this`pages, this`activePageIndex
      ensures var r := CloseTab(old(Value()).tabs, index);
              ok == r.TabsAre? && Value() == if ok then old(Value()).(tabs := r.tabs) else old(Value())
      ensures ok && TabsOk(old(Value()).tabs) ==> TabsOk(Value().tabs)
      ensures ok && TabsOk(old(Value()).tabs) && index != old(activePageIndex) ==>
                ActivePage(Value().tabs) == ActivePage(old(Value()).tabs)
    {
      if TabsOk(Tabs(pages, activePageIndex)) { CloseTabFacts(Tabs(pages, activePageIndex), index); }
      if !(0 <= index < |pages|) || |pages| == 1 { return false; }
      pages := pages[..index] + pages[index + 1..];
      if activePageIndex == index {
        activePageIndex := Max(0, index - 1);
      } else if activePageIndex > index {
        activePageIndex := activePageIndex - 1;
      }
      return true;
    }

    /** The part of opening a tab that comes after the page has loaded. */
    method FinishOpenTab(page: string, now: int)
      modifies this
      ensures Value() == old(Value()).(tabs := OpenTab(old(Value()).tabs, page),
                                       hardDeadline := if old(hardDeadline) - now < 30_000
                                                       then now + 1_800_000 else old(hardDeadline))
      ensures pages == old(pages) + [page] && activePageIndex == |old(pages)|
    {
      pages := pages + [page];
      activePageIndex := |pages| - 1;
      if hardDeadline - now < PAGE_LOAD_TIMEOUT_MS { hardDeadline := now + HARD_LIFETIME_MS; }
    }
  }

  lemma OneMoreCounted(entries: map<string, Session>, live: set<string>, left: set<string>, id: string, userId: string)
    requires id in left && left <= live && id in entries
    ensures |OwnedBy(entries, live - (left - {id}), userId)|
         == |OwnedBy(entries, live - left, userId)| + if entries[id].userId == userId then 1 else 0
  {
    assert OwnedBy(entries, live - (left - {id}), userId)
        == OwnedBy(entries, live - left, userId) + if entries[id].userId == userId then {id} else {};
  }

  class Pool {
    const caps: Caps
    var sessions: map<string, SessionEntry>
    var closed: bool

    /** The sessions in the pool by value. */
    ghost function Values(): map<string, Session>
      reads this, sessions.Values
    {
      map id <- sessions :: sessions[id].Value()
    }

    ghost predicate Valid()
      reads this, sessions.Values
    {
      forall id <- sessions :: sessions[id].sessionId == id
    }

    constructor (caps: Caps)
      ensures Valid() && Values() == map[] && !closed && this.caps == caps
    {
      this.caps, sessions, closed := caps, map[], false;
    }

    /** Counts the user's sessions only if the pool as a whole has room. */
    method EnforceCapacity(userId: string) returns (error: Option<CapacityError>)
      ensures error == Capacity(caps, Values(), sessions.Keys, userId)
      ensures error == Some(GlobalSessionLimit) <==> |sessions.Keys| >= caps.maxSessions
      ensures error == Some(UserSessionLimit) <==>
                |sessions.Keys| < caps.maxSessions
                && |OwnedBy(Values(), sessions.Keys, userId)| >= caps.maxSessionsPerUser
    {
      if |sessions.Keys| >= caps.maxSessions { return Some(GlobalSessionLimit); }
      var userCount := 0;
      var left := sessions.Keys;
      while left != {}
        invariant left <= sessions.Keys
        invariant userCount == |OwnedBy(Values(), sessions.Keys - left, userId)|
        decreases left
      {
        var id :| id in left;
        OneMoreCounted(Values(), sessions.Keys, left, id, userId);
        if sessions[id].userId == userId { userCount := userCount + 1; }
        left := left - {id};
      }
      assert sessions.Keys - left == sessions.Keys;
      return if userCount >= caps.maxSessionsPerUser then Some(UserSessionLimit) else None;
    }

    method RegisterSession(sessionId: string, userId: string, page: string, now: int) returns (entry: SessionEntry)
      requires Valid()
      modifies this`sessions
      ensures Valid() && fresh(entry) && sessions == old(sessions)[sessionId := entry]
      ensures Values() == old(Values())[sessionId := Session(userId, Tabs([page], 0), now, now + 1_800_000)]
    {
      entry := new SessionEntry(sessionId, userId, page, now);
      sessions := sessions[sessionId := entry];
    }

    /** A session of somebody else is as unknown as one that does not exist. */
    method GetOwnedSession(sessionId: string, userId: string) returns (entry: Option<SessionEntry>)
      ensures entry.Some? <==> sessionId in sessions && sessions[sessionId].userId == userId
      ensures entry.Some? ==> entry.value == sessions[sessionId]
    {
      if sessionId !in sessions || sessions[sessionId].userId != userId { return None; }
      return Some(sessions[sessionId]);
    }

    method StopSession(sessionId: string, userId: string) returns (stopped: bool)
      requires Valid()
      modifies this`sessions
      ensures Valid()
      ensures stopped == (!closed && sessionId in old(sessions) && old(sessions)[sessionId].userId == userId)
      ensures sessions == if stopped then old(sessions) - {sessionId} else old(sessions)
    {
      if closed { return false; }
      var entry := GetOwnedSession(sessionId, userId);
      if entry.None? { return false; }
      sessions := sessions - {sessionId};
      return true;
    }

    /** Removes exactly the sessions that are idle for too long or past their deadline. */
    method EvictExpiredSessions(now: int)
      requires Valid()
      modifies this`sessions
      ensures Valid()
      ensures forall id :: id in sessions <==>
                             id in old(sessions)
                             && now < old(sessions[id].lastActionAt) + 300_000 && now < old(sessions[id].hardDeadline)
      ensures forall id <- sessions :: sessions[id] == old(sessions)[id]
    {
      var expired: set<SessionEntry> := {};
      var left := sessions.Keys;
      while left != {}
        invariant left <= sessions.Keys
        invariant expired == set id <- sessions.Keys - left | Expired(sessions[id].Value(), now) :: sessions[id]
        decreases left
      {
        var id :| id in left;
        var entry := sessions[id];
        var idleFor := now - entry.lastActionAt;
        if idleFor >= IDLE_TIMEOUT_MS || now >= entry.hardDeadline { expired := expired + {entry}; }
        left := left - {id};
      }
      var all := sessions;
      while expired != {}
        invariant expired <= set id <- all | Expired(all[id].Value(), now) :: all[id]
        invariant forall id :: id in sessions <==> id in all && (!Expired(all[id].Value(), now) || all[id] in expired)
        invariant forall id <- sessions :: sessions[id] == all[id]
        decreases expired
      {
        var entry :| entry in expired;
        assert forall id <- all :: all[id] == entry <==> id == entry.sessionId;
        sessions := sessions - {entry.sessionId};
        expired := expired - {entry};
      }
    }

    method CloseAll()
      modifies this
      ensures closed && sessions == if old(closed) then old(sessions) else map[]
    {
      if closed { return; }
      closed := true;
      sessions := map[];
    }
  }
}
