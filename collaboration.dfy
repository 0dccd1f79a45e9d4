/** Real-time collaboration state: who is online and where, document
    locks that go stale after five minutes, cursors, comments, an activity
    feed kept newest first, and session counters. The clock is a `now`
    parameter in milliseconds; the socket broadcasts are not modelled. */
module Collaboration {
  import opened Common
  import opened OrderedMaps
  import Values

  // ---------------------------------------------------------------------
  // Users and presence

  datatype UserStatus = Online | Away | Offline

  datatype User = User(
    id: string,
    email: string,
    name: string,
    avatar: Option<string>,
    status: UserStatus,
    currentPage: Option<string>,
    lastActive: int)

  datatype Point = Point(x: real, y: real)

  datatype Selection = Selection(queryId: Option<int>, dashboardId: Option<int>)

  datatype PresenceData = PresenceData(userId: string, page: string, cursor: Option<Point>, selection: Option<Selection>)

  /** A `Partial<PresenceData>`: `None` is a property the update leaves out. */
  datatype PresencePatch = PresencePatch(
    userId: Option<string>,
    page: Option<string>,
    cursor: Option<Point>,
    selection: Option<Selection>)

  /** `{ ...existing, ...data }`. */
  function Patch(existing: PresenceData, data: PresencePatch): (p: PresenceData)
    ensures p.userId == (if data.userId.Some? then data.userId.value else existing.userId)
    ensures p.page == (if data.page.Some? then data.page.value else existing.page)
    ensures data.cursor.Some? ==> p.cursor == data.cursor
    ensures data.cursor.None? ==> p.cursor == existing.cursor
    ensures data.selection.Some? ==> p.selection == data.selection
    ensures data.selection.None? ==> p.selection == existing.selection
  {
    PresenceData(
      if data.userId.Some? then data.userId.value else existing.userId,
      if data.page.Some? then data.page.value else existing.page,
      if data.cursor.Some? then data.cursor else existing.cursor,
      if data.selection.Some? then data.selection else existing.selection)
  }

  /** `data.page || user.currentPage`: an empty page does not count. */
  function NextPage(page: Option<string>, current: Option<string>): (r: Option<string>)
    ensures page.Some? && page.value != "" ==> r == page
    ensures (page.None? || page.value == "") ==> r == current
  {
    if page.Some? && page.value != "" then page else current
  }

  // ---------------------------------------------------------------------
  // Document locks

  datatype Lock = Lock(userId: string, lockedAt: int)

  /** Five minutes, in milliseconds. */
  const LockTimeout: int := 5 * 60 * 1000

  /** A lock older than the timeout is stale. */
  predicate Stale(lock: Lock, now: int)
  {
    now - lock.lockedAt > LockTimeout
  }

  /** Who holds a live lock on the document at time `now`. */
  function LockHolder(locks: map<string, Lock>, documentId: string, now: int): (h: Option<string>)
    ensures h.Some? <==> documentId in locks && !Stale(locks[documentId], now)
    ensures h.Some? ==> h.value == locks[documentId].userId
  {
    if documentId in locks && !Stale(locks[documentId], now) then Some(locks[documentId].userId) else None
  }

  /** The `isDocumentLocked` answer. */
  datatype LockStatus = LockStatus(locked: bool, userId: Option<string>)

  /** The module-level `activeUsers`, `userPresence` and `documentLocks`,
      shared by the presence and the collaboration managers. */
  class Workspace {
    var activeUsers: OMap<string, User>
    var userPresence: map<string, PresenceData>
    var documentLocks: map<string, Lock>

    ghost predicate Valid()
      reads this
    {
      activeUsers.Valid()
    }

    constructor ()
      ensures Valid()
      ensures activeUsers == Empty() && userPresence == map[] && documentLocks == map[]
    {
      activeUsers := Empty();
      userPresence := map[];
      documentLocks := map[];
    }

    /** `getActiveUsers`: the users in the order they first joined. */
    function ActiveUsers(): (users: seq<User>)
      reads this
      requires Valid()
      ensures |users| == |activeUsers.keys|
      ensures forall i :: 0 <= i < |users| ==> users[i] == activeUsers.entries[activeUsers.keys[i]]
    {
      activeUsers.Values()
    }

    /** `userJoined`: the user is stored online, active at `now`. */
    method UserJoined(user: User, now: int) returns (users: seq<User>)
      requires Valid()
      modifies this
      ensures Valid()
      ensures activeUsers == old(activeUsers).Set(user.id, user.(status := Online, lastActive := now))
      ensures userPresence == old(userPresence) && documentLocks == old(documentLocks)
      ensures users == ActiveUsers()
    {
      activeUsers := activeUsers.Set(user.id, user.(status := Online, lastActive := now));
      users := activeUsers.Values();
    }

    /** `userLeft`: a known user is removed with its presence, and every
        lock it holds is released; an unknown user changes nothing. */
    method UserLeft(userId: string)
      requires Valid()
      modifies this
      ensures Valid()
      ensures userId !in old(activeUsers.entries) ==>
        activeUsers == old(activeUsers) && userPresence == old(userPresence) && documentLocks == old(documentLocks)
      ensures userId in old(activeUsers.entries) ==> (
        && activeUsers == old(activeUsers).Remove(userId)
        && userPresence == old(userPresence) - {userId}
        && documentLocks == ReleasedLocks(old(documentLocks), userId))
    {
      if userId !in activeUsers.entries {
        return;
      }
      activeUsers := activeUsers.Remove(userId);
      userPresence := userPresence - {userId};
      var docs := documentLocks.Keys;
      ghost var before := documentLocks;
      while docs != {}
        invariant Valid()
        invariant activeUsers == old(activeUsers).Remove(userId) && userPresence == old(userPresence) - {userId}
        invariant docs <= before.Keys
        invariant forall d :: d in documentLocks <==> d in before && (d in docs || before[d].userId != userId)
        invariant forall d :: d in documentLocks ==> documentLocks[d] == before[d]
        decreases |docs|
      {
        var d :| d in docs;
        if documentLocks[d].userId == userId {
          documentLocks := documentLocks - {d};
        }
        docs := docs - {d};
      }
      assert documentLocks == ReleasedLocks(before, userId);
    }

    /** `updatePresence`: the stored presence (or `{userId, page: '/'}`)
        patched with `data`; a known user is active at `now`, on the new
        page when one is given. */
    method UpdatePresence(userId: string, data: PresencePatch, now: int)
      requires Valid()
      modifies this
      ensures Valid()
      ensures userPresence == old(userPresence)[userId := Patch(
        if userId in old(userPresence) then old(userPresence)[userId] else PresenceData(userId, "/", None, None), data)]
      ensures documentLocks == old(documentLocks)
      ensures userId !in old(activeUsers.entries) ==> activeUsers == old(activeUsers)
      ensures userId in old(activeUsers.entries) ==> (
        var user := old(activeUsers.entries[userId]);
        activeUsers == old(activeUsers).Set(userId,
          user.(lastActive := now, currentPage := NextPage(data.page, user.currentPage))))
    {
      var existing := if userId in userPresence then userPresence[userId] else PresenceData(userId, "/", None, None);
      userPresence := userPresence[userId := Patch(existing, data)];
      if userId in activeUsers.entries {
        var user := activeUsers.entries[userId];
        activeUsers := activeUsers.Set(userId, user.(lastActive := now, currentPage := NextPage(data.page, user.currentPage)));
      }
    }

    /** `getUsersOnPage`: the online users on `page`, in joining order. */
    function UsersOnPage(page: string): (users: seq<User>)
      reads this
      requires Valid()
      ensures IsSubsequence(users, ActiveUsers())
      ensures forall u :: u in users <==> u in ActiveUsers() && u.currentPage == Some(page) && u.status == Online
      ensures forall u :: multiset(users)[u] ==
                          (if u.currentPage == Some(page) && u.status == Online then multiset(ActiveUsers())[u] else 0)
    {
      OnPage(ActiveUsers(), page)
    }

    /** `getUserPresence`. */
    function UserPresence(userId: string): (p: Option<PresenceData>)
      reads this
      ensures p.Some? <==> userId in userPresence
      ensures p.Some? ==> p.value == userPresence[userId]
    {
      if userId in userPresence then Some(userPresence[userId]) else None
    }

    /** `setUserStatus`: only a known user changes. */
    method SetUserStatus(userId: string, status: UserStatus)
      requires Valid()
      modifies this
      ensures Valid()
      ensures userId !in old(activeUsers.entries) ==> activeUsers == old(activeUsers)
      ensures userId in old(activeUsers.entries) ==>
        activeUsers == old(activeUsers).Set(userId, old(activeUsers.entries[userId]).(status := status))
      ensures userPresence == old(userPresence) && documentLocks == old(documentLocks)
    {
      if userId in activeUsers.entries {
        activeUsers := activeUsers.Set(userId, activeUsers.entries[userId].(status := status));
      }
    }

    /** `lockDocument`: granted exactly when nobody else holds a live lock;
        afterwards the caller holds one. A refused request, or a request by
        the holder of a live lock, changes nothing. */
    method LockDocument(documentId: string, userId: string, now: int) returns (granted: bool)
      requires Valid()
      modifies this
      ensures Valid()
      ensures granted <==> LockHolder(old(documentLocks), documentId, now) in {None, Some(userId)}
      ensures granted ==> LockHolder(documentLocks, documentId, now) == Some(userId)
      ensures LockHolder(old(documentLocks), documentId, now).Some? ==> documentLocks == old(documentLocks)
      ensures LockHolder(old(documentLocks), documentId, now).None? ==>
        documentLocks == old(documentLocks)[documentId := Lock(userId, now)]
      ensures activeUsers == old(activeUsers) && userPresence == old(userPresence)
    {
      if documentId in documentLocks {
        var existing := documentLocks[documentId];
        var lockAge := now - existing.lockedAt;
        if lockAge > 5 * 60 * 1000 {
          documentLocks := documentLocks[documentId := Lock(userId, now)];
          return true;
        }
        return existing.userId == userId;
      }
      documentLocks := documentLocks[documentId := Lock(userId, now)];
      granted := true;
    }

    /** `unlockDocument`: only the recorded holder releases a lock, stale
        or not. */
    method UnlockDocument(documentId: string, userId: string) returns (released: bool)
      requires Valid()
      modifies this
      ensures Valid()
      ensures released <==> documentId in old(documentLocks) && old(documentLocks)[documentId].userId == userId
      ensures released ==> documentLocks == old(documentLocks) - {documentId}
      ensures !released ==> documentLocks == old(documentLocks)
      ensures activeUsers == old(activeUsers) && userPresence == old(userPresence)
    {
      if documentId !in documentLocks || documentLocks[documentId].userId != userId {
        return false;
      }
      documentLocks := documentLocks - {documentId};
      released := true;
    }

    /** `isDocumentLocked`: reports the live holder, and forgets a stale
        lock, which changes no document's live holder. */
    method IsDocumentLocked(documentId: string, now: int) returns (status: LockStatus)
      requires Valid()
      modifies this
      ensures Valid()
      ensures status.locked <==> LockHolder(old(documentLocks), documentId, now).Some?
      ensures status.userId == LockHolder(old(documentLocks), documentId, now)
      ensures forall d :: LockHolder(documentLocks, d, now) == LockHolder(old(documentLocks), d, now)
      ensures documentId in old(documentLocks) && Stale(old(documentLocks)[documentId], now) ==>
        documentLocks == old(documentLocks) - {documentId}
      ensures !(documentId in old(documentLocks) && Stale(old(documentLocks)[documentId], now)) ==>
        documentLocks == old(documentLocks)
      ensures activeUsers == old(activeUsers) && userPresence == old(userPresence)
    {
      if documentId !in documentLocks {
        return LockStatus(false, None);
      }
      var lock := documentLocks[documentId];
      var lockAge := now - lock.lockedAt;
      if lockAge > 5 * 60 * 1000 {
        documentLocks := documentLocks - {documentId};
        return LockStatus(false, None);
      }
      status := LockStatus(true, Some(lock.userId));
    }

    /** `getDocumentLocks`: a copy of the lock table. */
    function DocumentLocks(): (locks: map<string, Lock>)
      reads this
      ensures locks == documentLocks
    {
      documentLocks
    }
  }

  /** The lock table once `userId`'s locks are released. */
  function ReleasedLocks(locks: map<string, Lock>, userId: string): (r: map<string, Lock>)
    ensures forall d :: d in r <==> d in locks && locks[d].userId != userId
    ensures forall d :: d in r ==> r[d] == locks[d]
  {
    map d | d in locks && locks[d].userId != userId :: locks[d]
  }

  /** Releasing a user's locks leaves no lock of theirs and keeps everyone
      else's live holders. */
  lemma ReleasedLocksHolders(locks: map<string, Lock>, userId: string, d: string, now: int)
    ensures LockHolder(ReleasedLocks(locks, userId), d, now) ==
      if LockHolder(locks, d, now) == Some(userId) then None else LockHolder(locks, d, now)
    ensures LockHolder(ReleasedLocks(locks, userId), d, now) != Some(userId)
  {
  }

  /** The online users on `page`, in order. */
  function OnPage(users: seq<User>, page: string): (r: seq<User>)
    ensures IsSubsequence(r, users)
    ensures forall u :: u in r <==> u in users && u.currentPage == Some(page) && u.status == Online
    ensures forall u :: multiset(r)[u] ==
                        (if u.currentPage == Some(page) && u.status == Online then multiset(users)[u] else 0)
    decreases |users|
  {
    if |users| == 0 then []
    else
      var init := users[..|users| - 1];
      var u := users[|users| - 1];
      var keep := u.currentPage == Some(page) && u.status == Online;
      assert users == init + [u];
      SubsequenceExtend(OnPage(init, page), init, u, keep);
      if keep then OnPage(init, page) + [u] else OnPage(init, page)
  }

  // ---------------------------------------------------------------------
  // Cursors

  datatype Cursor = Cursor(x: real, y: real, page: string)

  datatype PagePointer = PagePointer(userId: string, x: real, y: real)

  /** The cursors on `page`, following the order of `users`. */
  function PointersOn(users: seq<string>, cursors: map<string, Cursor>, page: string): (r: seq<PagePointer>)
    requires forall u :: u in users ==> u in cursors
    decreases |users|
  {
    if |users| == 0 then []
    else
      var init := users[..|users| - 1];
      var u := users[|users| - 1];
      assert forall v :: v in init ==> v in users;
      var rest := PointersOn(init, cursors, page);
      if cursors[u].page == page then rest + [PagePointer(u, cursors[u].x, cursors[u].y)] else rest
  }

  /** Exactly the users whose cursor is on the page are reported, each
      once and with that cursor's position. */
  lemma {:induction false} PointersOnExact(users: seq<string>, cursors: map<string, Cursor>, page: string)
    requires forall u :: u in users ==> u in cursors
    requires Distinct(users)
    ensures forall p :: p in PointersOn(users, cursors, page) <==>
      p.userId in users && cursors[p.userId].page == page && p == PagePointer(p.userId, cursors[p.userId].x, cursors[p.userId].y)
    ensures |PointersOn(users, cursors, page)| <= |users|
    decreases |users|
  {
    if |users| > 0 {
      var init := users[..|users| - 1];
      assert forall v :: v in init ==> v in users;
      assert forall v :: v in users <==> v in init || v == users[|users| - 1];
      PointersOnExact(init, cursors, page);
    }
  }

  /** The static `cursors` map of `CursorManager`. */
  class CursorManager {
    var cursors: OMap<string, Cursor>

    ghost predicate Valid()
      reads this
    {
      cursors.Valid()
    }

    constructor ()
      ensures Valid() && cursors == Empty()
    {
      cursors := Empty();
    }

    /** `updateCursor`. */
    method UpdateCursor(userId: string, x: real, y: real, page: string)
      requires Valid()
      modifies this
      ensures Valid()
      ensures cursors == old(cursors).Set(userId, Cursor(x, y, page))
    {
      cursors := cursors.Set(userId, Cursor(x, y, page));
    }

    /** `getCursorsOnPage`: one pass over the cursors in insertion order. */
    method CursorsOnPage(page: string) returns (result: seq<PagePointer>)
      requires Valid()
      ensures result == PointersOn(cursors.keys, cursors.entries, page)
    {
      result := [];
      var users := cursors.keys;
      var i := 0;
      while i < |users|
        invariant 0 <= i <= |users|
        invariant result == PointersOn(users[..i], cursors.entries, page)
      {
        assert users[..i + 1][..i] == users[..i];
        var cursor := cursors.entries[users[i]];
        if cursor.page == page {
          result := result + [PagePointer(users[i], cursor.x, cursor.y)];
        }
        i := i + 1;
      }
      assert users[..i] == users;
    }

    /** `removeCursor`. */
    method RemoveCursor(userId: string)
      requires Valid()
      modifies this
      ensures Valid()
      ensures cursors == old(cursors).Remove(userId)
    {
      cursors := cursors.Remove(userId);
    }
  }

  // ---------------------------------------------------------------------
  // Comments

  datatype Comment = Comment(id: string, userId: string, text: string, position: Option<Point>, timestamp: int, resolved: bool)

  /** `comments.find(c => c.id === commentId)`: the first comment with the
      id. */
  function FindComment(comments: seq<Comment>, commentId: string): (i: Option<nat>)
    ensures i.Some? ==> i.value < |comments| && comments[i.value].id == commentId
    ensures i.Some? ==> forall j :: 0 <= j < i.value ==> comments[j].id != commentId
    ensures i.None? ==> forall j :: 0 <= j < |comments| ==> comments[j].id != commentId
    decreases |comments|
  {
    if |comments| == 0 then None
    else if comments[0].id == commentId then Some(0)
    else match FindComment(comments[1..], commentId)
      case None => None
      case Some(j) => Some(j + 1)
  }

  /** The static `comments` map of `CommentManager`: each document's
      comments in the order they were added. */
  class CommentManager {
    var comments: map<string, seq<Comment>>

    constructor ()
      ensures comments == map[]
    {
      comments := map[];
    }

    /** `addComment`: a new unresolved comment at the end of the
        document's list. */
    method AddComment(documentId: string, userId: string, text: string, position: Option<Point>,
                      commentId: string, now: int) returns (r: string)
      modifies this
      ensures r == commentId
      ensures comments == old(comments)[documentId := CommentsOf(old(comments), documentId) +
        [Comment(commentId, userId, text, position, now, false)]]
    {
      if documentId !in comments {
        comments := comments[documentId := []];
      }
      comments := comments[documentId := comments[documentId] + [Comment(commentId, userId, text, position, now, false)]];
      r := commentId;
    }

    /** `resolveComment`: false for an unknown document or comment id;
        otherwise only the first comment with the id becomes resolved. */
    method ResolveComment(documentId: string, commentId: string, userId: string) returns (ok: bool)
      modifies this
      ensures ok <==> documentId in old(comments) && FindComment(old(comments)[documentId], commentId).Some?
      ensures !ok ==> comments == old(comments)
      ensures ok ==> (
        var cs := old(comments)[documentId];
        var i := FindComment(cs, commentId).value;
        comments == old(comments)[documentId := cs[i := cs[i].(resolved := true)]])
    {
      if documentId !in comments {
        return false;
      }
      var cs := comments[documentId];
      var found := FindComment(cs, commentId);
      if found.None? {
        return false;
      }
      var i := found.value;
      comments := comments[documentId := cs[i := cs[i].(resolved := true)]];
      ok := true;
    }

    /** `getComments`. */
    function GetComments(documentId: string): (cs: seq<Comment>)
      reads this
      ensures cs == CommentsOf(comments, documentId)
    {
      CommentsOf(comments, documentId)
    }
  }

  /** A document's comments, `[]` for a document without any. */
  function CommentsOf(comments: map<string, seq<Comment>>, documentId: string): seq<Comment>
  {
    if documentId in comments then comments[documentId] else []
  }

  /** Resolving marks the first comment with the id and keeps the rest. */
  lemma ResolveFirst(cs: seq<Comment>, commentId: string)
    requires FindComment(cs, commentId).Some?
    ensures var i := FindComment(cs, commentId).value;
      var r := cs[i := cs[i].(resolved := true)];
      && |r| == |cs|
      && r[i].resolved && r[i].id == commentId
      && (forall j :: 0 <= j < |cs| && j != i ==> r[j] == cs[j])
      && (forall j :: 0 <= j < i ==> r[j].id != commentId)
  {
  }

  // ---------------------------------------------------------------------
  // Activity feed

  datatype Activity = Activity(id: string, userId: string, kind: string, description: string, timestamp: int, metadata: Option<Values.Value>)

  const ActivityCap: nat := 100

  /** The feed after `addActivity`: the new activity first, at most 100. */
  function Unshift(activities: seq<Activity>, a: Activity): (r: seq<Activity>)
    ensures |r| == Min(|activities| + 1, ActivityCap)
    ensures r[0] == a
    ensures r[1..] == activities[..|r| - 1]
  {
    var r := [a] + activities;
    if |r| > 100 then r[..100] else r
  }

  /** The static `activities` of `ActivityFeedManager`, newest first. */
  class ActivityFeed {
    var activities: seq<Activity>

    ghost predicate Valid()
      reads this
    {
      |activities| <= ActivityCap
    }

    constructor ()
      ensures Valid() && activities == []
    {
      activities := [];
    }

    /** `addActivity`. */
    method AddActivity(userId: string, kind: string, description: string, metadata: Option<Values.Value>,
                       id: string, now: int) returns (a: Activity)
      requires Valid()
      modifies this
      ensures Valid()
      ensures a == Activity(id, userId, kind, description, now, metadata)
      ensures activities == Unshift(old(activities), a)
    {
      a := Activity(id, userId, kind, description, now, metadata);
      activities := [a] + activities;
      if |activities| > 100 {
        activities := activities[..100];
      }
    }

    /** `getRecentActivities(limit = 20)`. */
    function RecentActivities(limit: Option<int>): (r: seq<Activity>)
      reads this
      ensures |r| <= |activities| && r == activities[..|r|]
      ensures limit.Some? && limit.value >= 0 ==> |r| == Min(limit.value, |activities|)
      ensures limit.None? ==> |r| == Min(20, |activities|)
      ensures limit.Some? && limit.value < 0 ==> |r| == Max(|activities| + limit.value, 0)
    {
      SliceTo(activities, if limit.Some? then limit.value else 20)
    }
  }

  /** Adding `k ≤ 100` activities to a feed leaves them first, newest
      first, ahead of what was there. */
  lemma {:induction false} UnshiftAll(activities: seq<Activity>, added: seq<Activity>)
    requires |activities| <= ActivityCap && |added| <= ActivityCap
    ensures var r := UnshiftEach(activities, added);
      && |r| == Min(|activities| + |added|, ActivityCap)
      && (forall i :: 0 <= i < |added| ==> r[i] == added[|added| - 1 - i])
      && r[|added|..] == activities[..|r| - |added|]
    decreases |added|
  {
    if |added| > 0 {
      var init := added[..|added| - 1];
      UnshiftAll(activities, init);
      var r0 := UnshiftEach(activities, init);
      var r := Unshift(r0, added[|added| - 1]);
      assert r == UnshiftEach(activities, added);
      forall i | 0 < i < |added| ensures r[i] == added[|added| - 1 - i] {
        assert r[i] == r[1..][i - 1] == r0[i - 1];
      }
      assert r[|added|..] == r0[|init|..][..|r| - |added|];
    }
  }

  /** The feed after adding each of `added` in turn. */
  function UnshiftEach(activities: seq<Activity>, added: seq<Activity>): seq<Activity>
    decreases |added|
  {
    if |added| == 0 then activities
    else Unshift(UnshiftEach(activities, added[..|added| - 1]), added[|added| - 1])
  }

  // ---------------------------------------------------------------------
  // Sessions

  datatype Session = Session(userId: string, startTime: int, lastActivity: int, pageViews: nat, actions: nat)

  /** The static `sessions` map of `SessionManager`. */
  class SessionManager {
    var sessions: map<string, Session>

    constructor ()
      ensures sessions == map[]
    {
      sessions := map[];
    }

    /** `startSession`: a fresh session with no page views or actions,
        replacing one with the same id. */
    method StartSession(userId: string, sessionId: string, now: int)
      modifies this
      ensures sessions == old(sessions)[sessionId := Session(userId, now, now, 0, 0)]
    {
      sessions := sessions[sessionId := Session(userId, now, now, 0, 0)];
    }

    /** `updateSession`: one more action on a live session. */
    method UpdateSession(sessionId: string, now: int)
      modifies this
      ensures sessionId !in old(sessions) ==> sessions == old(sessions)
      ensures sessionId in old(sessions) ==>
        sessions == old(sessions)[sessionId := old(sessions)[sessionId].(lastActivity := now, actions := old(sessions)[sessionId].actions + 1)]
    {
      if sessionId in sessions {
        var s := sessions[sessionId];
        sessions := sessions[sessionId := s.(lastActivity := now, actions := s.actions + 1)];
      }
    }

    /** `endSession`. */
    method EndSession(sessionId: string)
      modifies this
      ensures sessions == old(sessions) - {sessionId}
    {
      if sessionId in sessions {
        sessions := sessions - {sessionId};
      }
    }

    /** `getActiveSessionCount`. */
    function ActiveSessionCount(): (n: nat)
      reads this
      ensures n == |sessions.Keys|
    {
      |sessions|
    }
  }

  /** Starting a new session adds one to the count; ending a live one takes
      one away. */
  lemma SessionCounts(sessions: map<string, Session>, sessionId: string, s: Session)
    ensures sessionId !in sessions ==> |sessions[sessionId := s].Keys| == |sessions.Keys| + 1
    ensures sessionId in sessions ==> |(sessions - {sessionId}).Keys| == |sessions.Keys| - 1
  {
    if sessionId in sessions {
      assert (sessions - {sessionId}).Keys == sessions.Keys - {sessionId};
    } else {
      assert sessions[sessionId := s].Keys == sessions.Keys + {sessionId};
    }
  }
}
