/** The user aggregate: sessions updated in place, events queued as it goes. */
module SessionAggregate {

  import opened Prelude
  import opened SessionDomain

  class UserAggregate {
    const userId: UserId
    var sessions: seq<Session>
    var pendingEvents: seq<Event>

    constructor (userId: UserId, sessions: seq<Session>)
      ensures this.userId == userId && this.sessions == sessions && pendingEvents == []
    {
      this.userId := userId;
      this.sessions := sessions;
      pendingEvents := [];
    }

    method Find(id: SessionId) returns (k: nat)
      ensures k == IndexOf(sessions, id)
    {
      k := 0;
      while k < |sessions| && sessions[k].id != id
        invariant k <= |sessions|
        invariant IndexOf(sessions, id) == k + IndexOf(sessions[k..], id)
      {
        assert sessions[k..][1..] == sessions[k + 1..];
        k := k + 1;
      }
    }

    /** Refused exactly when 25 sessions are active and unexpired; never touches the sessions. */
    method AddSession(id: SessionId, hash: TokenHash, expiresAt: int, authMethod: AuthMethod, now: int)
      returns (r: AuthResult<NewSession>)
      modifies this
      ensures r == AddResult(userId, sessions, id, hash, expiresAt, authMethod, now)
      ensures sessions == old(sessions)
      ensures pendingEvents == old(pendingEvents) + if r.Ok? then [UserLoggedIn(userId, id, authMethod)] else []
    {
      var active := 0;
      for k := 0 to |sessions|
        invariant active == Count(sessions, s => Usable(s, now), k)
        invariant sessions == old(sessions) && pendingEvents == old(pendingEvents)
      {
        if sessions[k].isActive && !IsExpired(sessions[k], now) {
          active := active + 1;
        }
      }
      if active >= MAX_ACTIVE_SESSIONS {
        return Err(InternalError(TooManySessions));
      }
      pendingEvents := pendingEvents + [UserLoggedIn(userId, id, authMethod)];
      r := Ok(NewSession(id, userId, hash, expiresAt, authMethod));
    }

    method InvalidateSession(id: SessionId, now: int) returns (r: AuthResult<AuthMethod>)
      modifies this
      ensures r == InvalidateResult(userId, old(sessions), id, now)
      ensures var k := IndexOf(old(sessions), id);
              var found := k < |old(sessions)| && old(sessions)[k].userId == userId;
              && (r == Err(SessionNotFound) <==> !found)
              && (r == Err(SessionInvalidated) <==> found && !old(sessions)[k].isActive)
              && (r == Err(SessionExpired) <==>
                    found && old(sessions)[k].isActive && now >= old(sessions)[k].expiresAt)
              && (r.Ok? ==> r.value == old(sessions)[k].authMethod)
      ensures sessions == if r.Ok? then Deactivated(old(sessions), IndexOf(old(sessions), id)) else old(sessions)
      ensures pendingEvents == old(pendingEvents) + if r.Ok? then [UserLoggedOut(userId, id, r.value)] else []
    {
      var k := Find(id);
      if k == |sessions| || sessions[k].userId != userId {
        return Err(SessionNotFound);
      }
      if !sessions[k].isActive {
        return Err(SessionInvalidated);
      }
      if IsExpired(sessions[k], now) {
        return Err(SessionExpired);
      }
      var authMethod := sessions[k].authMethod;
      sessions := Deactivated(sessions, k);
      pendingEvents := pendingEvents + [UserLoggedOut(userId, id, authMethod)];
      r := Ok(authMethod);
    }

    method RotateSession(
      id: SessionId, tokenMatches: bool, newId: SessionId, newHash: TokenHash, expiresAt: int, now: int)
      returns (r: AuthResult<NewSession>)
      modifies this
      ensures r == RotateResult(userId, old(sessions), id, tokenMatches, newId, newHash, expiresAt, now)
      ensures var k := IndexOf(old(sessions), id);
              var found := k < |old(sessions)|;
              && (r == Err(SessionNotFound) <==> !found)
              && (r == Err(SessionInvalidated) <==> found && !old(sessions)[k].isActive)
              && (r == Err(SessionExpired) <==>
                    found && old(sessions)[k].isActive && now >= old(sessions)[k].expiresAt)
              && (r == Err(InvalidRefreshToken) <==>
                    found && old(sessions)[k].isActive && now < old(sessions)[k].expiresAt && !tokenMatches)
              && (r.Ok? ==> r.value == NewSession(newId, userId, newHash, expiresAt, old(sessions)[k].authMethod))
      ensures sessions == if r.Ok? then Deactivated(old(sessions), IndexOf(old(sessions), id)) else old(sessions)
      ensures pendingEvents == old(pendingEvents) + if r.Ok? then [SessionRefreshed(userId, newId, r.value.authMethod)]
              else []
    {
      var k := Find(id);
      if k == |sessions| {
        return Err(SessionNotFound);
      }
      if !sessions[k].isActive {
        return Err(SessionInvalidated);
      }
      if IsExpired(sessions[k], now) {
        return Err(SessionExpired);
      }
      if !tokenMatches {
        return Err(InvalidRefreshToken);
      }
      var authMethod := sessions[k].authMethod;
      sessions := Deactivated(sessions, k);
      pendingEvents := pendingEvents + [SessionRefreshed(userId, newId, authMethod)];
      r := Ok(NewSession(newId, userId, newHash, expiresAt, authMethod));
    }

    /** Flips every active session and queues exactly one event for each, in order. */
    method InvalidateAllActiveSessions()
      modifies this
      ensures sessions == AllInvalidated(old(sessions))
      ensures pendingEvents == old(pendingEvents) + LogoutEvents(userId, old(sessions), |old(sessions)|)
    {
      for k := 0 to |sessions|
        invariant |sessions| == |old(sessions)|
        invariant forall j :: 0 <= j < |sessions| ==>
                    sessions[j] == if j < k then Invalidated(old(sessions)[j]) else old(sessions)[j]
        invariant pendingEvents == old(pendingEvents) + LogoutEvents(userId, old(sessions), k)
      {
        if sessions[k].isActive {
          pendingEvents := pendingEvents + [UserLoggedOut(userId, sessions[k].id, sessions[k].authMethod)];
          sessions := Deactivated(sessions, k);
        }
      }
    }

    method TakeEvents() returns (events: seq<Event>)
      modifies this
      ensures events == old(pendingEvents) && pendingEvents == [] && sessions == old(sessions)
    {
      events := pendingEvents;
      pendingEvents := [];
    }
  }
}
