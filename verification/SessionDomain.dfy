/** Login sessions: the rows, what one aggregate operation decides on the rows it
    loaded, and what saving the aggregate does to the sessions table. */
module SessionDomain {

  import opened Prelude

  type SessionId = nat
  type UserId = nat
  type TokenHash = nat

  const MAX_ACTIVE_SESSIONS: nat := 25

  datatype AuthMethod = Password | GoogleOAuth

  datatype Session = Session(
    id: SessionId, userId: UserId, tokenHash: TokenHash, expiresAt: int,
    isActive: bool, createdAt: int, authMethod: AuthMethod)

  datatype NewSession = NewSession(
    id: SessionId, userId: UserId, tokenHash: TokenHash, expiresAt: int, authMethod: AuthMethod)

  datatype Event =
    | UserLoggedIn(userId: UserId, sessionId: SessionId, authMethod: AuthMethod)
    | UserLoggedOut(userId: UserId, sessionId: SessionId, authMethod: AuthMethod)
    | SessionRefreshed(userId: UserId, sessionId: SessionId, authMethod: AuthMethod)

  /** What an internal error reports: the session cap, or a transaction that did not go through. */
  datatype Failure = TooManySessions | Transaction

  datatype AuthError =
    | SessionNotFound
    | SessionInvalidated
    | SessionExpired
    | InvalidRefreshToken
    | InternalError(failure: Failure)

  type AuthResult<+T> = Result<T, AuthError>

  predicate IsExpired(session: Session, now: int) {
    now >= session.expiresAt
  }

  predicate Usable(session: Session, now: int) {
    session.isActive && !IsExpired(session, now)
  }

  function Invalidated(session: Session): Session {
    session.(isActive := false)
  }

  // -------------------------------------------------- aggregate operations

  /** Index of the first session with this id, or the length if there is none. */
  function IndexOf(sessions: seq<Session>, id: SessionId): (k: nat)
    ensures k <= |sessions| && (k < |sessions| ==> sessions[k].id == id)
    ensures forall j :: 0 <= j < k ==> sessions[j].id != id
  {
    if sessions == [] then 0
    else if sessions[0].id == id then 0
    else 1 + IndexOf(sessions[1..], id)
  }

  /** How many of the first `n` sessions satisfy `p`. */
  function Count(sessions: seq<Session>, p: Session -> bool, n: nat): nat
    requires n <= |sessions|
  {
    if n == 0 then 0 else Count(sessions, p, n - 1) + if p(sessions[n - 1]) then 1 else 0
  }

  function UsableCount(sessions: seq<Session>, now: int): nat {
    Count(sessions, s => Usable(s, now), |sessions|)
  }

  function AddResult(userId: UserId, sessions: seq<Session>, id: SessionId, hash: TokenHash,
                     expiresAt: int, authMethod: AuthMethod, now: int): AuthResult<NewSession> {
    if UsableCount(sessions, now) >= MAX_ACTIVE_SESSIONS then Err(InternalError(TooManySessions))
    else Ok(NewSession(id, userId, hash, expiresAt, authMethod))
  }

  function InvalidateResult(userId: UserId, sessions: seq<Session>, id: SessionId, now: int): AuthResult<AuthMethod> {
    var k := IndexOf(sessions, id);
    if k == |sessions| || sessions[k].userId != userId then Err(SessionNotFound)
    else if !sessions[k].isActive then Err(SessionInvalidated)
    else if IsExpired(sessions[k], now) then Err(SessionExpired)
    else Ok(sessions[k].authMethod)
  }

  /** Found, active, unexpired, token: in that order, whatever the token says. */
  function RotateResult(userId: UserId, sessions: seq<Session>, id: SessionId, tokenMatches: bool,
                        newId: SessionId, newHash: TokenHash, expiresAt: int, now: int): AuthResult<NewSession> {
    var k := IndexOf(sessions, id);
    if k == |sessions| then Err(SessionNotFound)
    else if !sessions[k].isActive then Err(SessionInvalidated)
    else if IsExpired(sessions[k], now) then Err(SessionExpired)
    else if !tokenMatches then Err(InvalidRefreshToken)
    else Ok(NewSession(newId, userId, newHash, expiresAt, sessions[k].authMethod))
  }

  function Deactivated(sessions: seq<Session>, k: nat): seq<Session>
    requires k < |sessions|
  {
    sessions[k := Invalidated(sessions[k])]
  }

  function AllInvalidated(sessions: seq<Session>): seq<Session> {
    seq(|sessions|, k requires 0 <= k < |sessions| => Invalidated(sessions[k]))
  }

  /** One logout event per active session among the first `n`, in their order. */
  function LogoutEvents(userId: UserId, sessions: seq<Session>, n: nat): seq<Event>
    requires n <= |sessions|
  {
    if n == 0 then []
    else if sessions[n - 1].isActive
    then LogoutEvents(userId, sessions, n - 1) + [UserLoggedOut(userId, sessions[n - 1].id, sessions[n - 1].authMethod)]
    else LogoutEvents(userId, sessions, n - 1)
  }

  // ------------------------------------------------------ the sessions table

  type Table = map<SessionId, Session>

  predicate Keyed(table: Table) {
    forall id :: id in table ==> table[id].id == id
  }

  function IdsUpTo(sessions: seq<Session>, n: nat): set<SessionId>
    requires n <= |sessions|
  {
    if n == 0 then {} else IdsUpTo(sessions, n - 1) + {sessions[n - 1].id}
  }

  predicate LoadedAt(table: Table, userId: UserId, sessions: seq<Session>, k: nat)
    requires k < |sessions|
  {
    && sessions[k].userId == userId
    && sessions[k].id in table && table[sessions[k].id] == sessions[k]
    && sessions[k].id !in IdsUpTo(sessions, k)
    && (k > 0 ==> sessions[k - 1].createdAt >= sessions[k].createdAt)
  }

  /** What `SELECT ... WHERE user_id = $1 ORDER BY created_at DESC` may return. */
  predicate Loaded(table: Table, userId: UserId, sessions: seq<Session>) {
    && (forall k :: 0 <= k < |sessions| ==> LoadedAt(table, userId, sessions, k))
    && (forall id :: id in table && table[id].userId == userId ==> id in IdsUpTo(sessions, |sessions|))
  }

  function InactiveIds(sessions: seq<Session>, n: nat): set<SessionId>
    requires n <= |sessions|
  {
    if n == 0 then {}
    else if sessions[n - 1].isActive then InactiveIds(sessions, n - 1)
    else InactiveIds(sessions, n - 1) + {sessions[n - 1].id}
  }

  /** `UPDATE sessions SET is_active = FALSE WHERE id = $1`, for each id. */
  function MarkInactive(table: Table, ids: set<SessionId>): Table {
    map id | id in table :: if id in ids then Invalidated(table[id]) else table[id]
  }

  function InsertedRow(session: NewSession, now: int): Session {
    Session(session.id, session.userId, session.tokenHash, session.expiresAt, true, now, session.authMethod)
  }

  /** The transaction of `save_aggregate`: insert the new session if there is one, then
      mark the aggregate's inactive sessions. A taken primary key aborts it. */
  function Saved(table: Table, sessions: seq<Session>, added: Option<NewSession>, now: int): AuthResult<Table> {
    var inactive := InactiveIds(sessions, |sessions|);
    match added
    case None => Ok(MarkInactive(table, inactive))
    case Some(session) =>
      if session.id in table then Err(InternalError(Transaction))
      else Ok(MarkInactive(table[session.id := InsertedRow(session, now)], inactive))
  }

  // --------------------------------------------------------------- requests

  datatype Request =
    | Login(newId: SessionId, hash: TokenHash, expiresAt: int, authMethod: AuthMethod)
    | Refresh(id: SessionId, tokenMatches: bool, newId: SessionId, hash: TokenHash, expiresAt: int)
    | Logout(id: SessionId)

  /** The session a request replaces by a new one. */
  function ParentOf(request: Request): Option<SessionId> {
    if request.Refresh? then Some(request.id) else None
  }

  /** A use case after its aggregate operation: whether it goes on to save, what it would
      save, the events the aggregate queued, and the answer once the save is through. */
  datatype Operated = Operated(
    saves: bool, sessions: seq<Session>, added: Option<NewSession>, events: seq<Event>,
    answer: AuthResult<Option<NewSession>>)

  function Refused(sessions: seq<Session>, error: AuthError): Operated {
    Operated(false, sessions, None, [], Err(error))
  }

  /** Reuse of a rotated token ends in revoking every session of the user. */
  function Operate(userId: UserId, sessions: seq<Session>, request: Request, now: int): Operated {
    match request
    case Login(newId, hash, expiresAt, authMethod) =>
      (match AddResult(userId, sessions, newId, hash, expiresAt, authMethod, now)
       case Ok(added) => Operated(true, sessions, Some(added), [UserLoggedIn(userId, newId, authMethod)],
                                  Ok(Some(added)))
       case Err(error) => Refused(sessions, error))
    case Refresh(id, tokenMatches, newId, hash, expiresAt) =>
      (match RotateResult(userId, sessions, id, tokenMatches, newId, hash, expiresAt, now)
       case Ok(added) =>
         Operated(true, Deactivated(sessions, IndexOf(sessions, id)), Some(added),
                  [SessionRefreshed(userId, newId, added.authMethod)], Ok(Some(added)))
       case Err(error) =>
         if error == SessionInvalidated
         then Operated(true, AllInvalidated(sessions), None, LogoutEvents(userId, sessions, |sessions|),
                       Err(SessionInvalidated))
         else Refused(sessions, error))
    case Logout(id) =>
      (match InvalidateResult(userId, sessions, id, now)
       case Ok(authMethod) =>
         Operated(true, Deactivated(sessions, IndexOf(sessions, id)), None, [UserLoggedOut(userId, id, authMethod)],
                  Ok(None))
       case Err(error) => Refused(sessions, error))
  }

  predicate Commits(table: Table, op: Operated, now: int, commit: Outcome) {
    op.saves && commit != Failed(false) && Saved(table, op.sessions, op.added, now).Ok?
  }

  function Committed(table: Table, op: Operated, now: int, commit: Outcome): Table {
    if Commits(table, op, now, commit) then Saved(table, op.sessions, op.added, now).value else table
  }

  function Answer(table: Table, op: Operated, now: int, commit: Outcome): AuthResult<Option<NewSession>> {
    if op.saves && (commit.Failed? || !Commits(table, op, now, commit)) then Err(InternalError(Transaction))
    else op.answer
  }

  // ------------------------------------------- saving what was just loaded

  lemma {:induction false} LoadedIndex(table: Table, userId: UserId, sessions: seq<Session>, id: SessionId)
    requires Loaded(table, userId, sessions)
    ensures var k := IndexOf(sessions, id);
            && (k < |sessions| <==> id in table && table[id].userId == userId && table[id].id == id)
            && (k < |sessions| ==> sessions[k] == table[id])
  {
    var k := IndexOf(sessions, id);
    if k < |sessions| {
      assert LoadedAt(table, userId, sessions, k);
    } else if id in table && table[id].userId == userId {
      var j := IdAt(sessions, |sessions|, id);
    }
  }

  lemma {:induction false} IdAt(sessions: seq<Session>, n: nat, id: SessionId) returns (k: nat)
    requires n <= |sessions| && id in IdsUpTo(sessions, n)
    ensures k < n && sessions[k].id == id
  {
    if sessions[n - 1].id == id {
      k := n - 1;
    } else {
      k := IdAt(sessions, n - 1, id);
    }
  }

  lemma {:induction false} InactiveAfterLoad(
    table: Table, userId: UserId, sessions: seq<Session>, n: nat, id: SessionId)
    requires Loaded(table, userId, sessions) && n <= |sessions| && id in InactiveIds(sessions, n)
    ensures id in table && !table[id].isActive
  {
    assert LoadedAt(table, userId, sessions, n - 1);
    if sessions[n - 1].isActive || sessions[n - 1].id != id {
      InactiveAfterLoad(table, userId, sessions, n - 1, id);
    }
  }

  lemma {:induction false} InactiveAfterDeactivating(sessions: seq<Session>, k: nat, n: nat)
    requires k < |sessions| && n <= |sessions|
    ensures InactiveIds(Deactivated(sessions, k), n)
         == InactiveIds(sessions, n) + if k < n then {sessions[k].id} else {}
  {
    if n > 0 {
      InactiveAfterDeactivating(sessions, k, n - 1);
    }
  }

  lemma {:induction false} InactiveAfterInvalidatingAll(sessions: seq<Session>, n: nat)
    requires n <= |sessions|
    ensures InactiveIds(AllInvalidated(sessions), n) == IdsUpTo(sessions, n)
  {
    if n > 0 {
      InactiveAfterInvalidatingAll(sessions, n - 1);
    }
  }

  /** Marking rows that are inactive already changes nothing. */
  lemma MarkingInactiveIsIdle(table: Table, ids: set<SessionId>, more: set<SessionId>)
    requires forall id :: id in ids && id in table ==> !table[id].isActive
    ensures MarkInactive(table, ids + more) == MarkInactive(table, more)
    ensures MarkInactive(table, {}) == table
  {
  }

  lemma {:induction false} LoadedIdsBelongToUser(
    table: Table, userId: UserId, sessions: seq<Session>, n: nat, id: SessionId)
    requires Loaded(table, userId, sessions) && n <= |sessions| && id in IdsUpTo(sessions, n)
    ensures id in table && table[id].userId == userId
  {
    assert LoadedAt(table, userId, sessions, n - 1);
    if sessions[n - 1].id != id {
      LoadedIdsBelongToUser(table, userId, sessions, n - 1, id);
    }
  }
}
