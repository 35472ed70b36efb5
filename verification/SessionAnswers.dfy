/** What a client is told and what happens to the sessions table, request by request, read off
    the table alone: every answer of login, refresh and logout, and the row that comes of it. */
module SessionAnswers {

  import opened Prelude
  import opened SessionDomain
  import opened SessionReference

  /** The row of a session that has ended: everything but the flag as it was. */
  function Ended(s: Session): Session {
    Session(s.id, s.userId, s.tokenHash, s.expiresAt, false, s.createdAt, s.authMethod)
  }

  function Unexpired(table: Table, userId: UserId, now: int): set<SessionId> {
    set id | id in table && table[id].userId == userId && table[id].isActive && now < table[id].expiresAt
  }

  /** A login is refused for the cap exactly at 25 active unexpired sessions, fails in the transaction
      exactly if its id is taken or the commit fails, and otherwise answers with the very session it
      inserts. Only an applied commit changes the table, by that one row. */
  lemma LoginAnswers(
    table: Table, userId: UserId, rows: seq<Session>, newId: SessionId, hash: TokenHash, expiresAt: int,
    authMethod: AuthMethod, now: int, commit: Outcome)
    requires Keyed(table) && Loaded(table, userId, rows)
    ensures var op := Operate(userId, rows, Login(newId, hash, expiresAt, authMethod), now);
            var answer := Answer(table, op, now, commit);
            var room := |Unexpired(table, userId, now)| < 25;
            && (answer == Err(InternalError(TooManySessions)) <==> !room)
            && (answer == Err(InternalError(Transaction)) <==> room && (newId in table || commit.Failed?))
            && (answer.Ok? <==> room && newId !in table && commit.Succeeded?)
            && (answer.Ok? ==> answer.value == Some(NewSession(newId, userId, hash, expiresAt, authMethod)))
            && op.events == (if room then [UserLoggedIn(userId, newId, authMethod)] else [])
            && Committed(table, op, now, commit) ==
               if room && newId !in table && commit != Failed(false)
               then table[newId := Session(newId, userId, hash, expiresAt, true, now, authMethod)] else table
  {
    var request := Login(newId, hash, expiresAt, authMethod);
    LoadedCount(table, userId, rows, s => Usable(s, now));
    assert UsableCount(rows, now) == |UsableIds(table, userId, now)|;
    assert UsableIds(table, userId, now) == Unexpired(table, userId, now);
    ServeMatchesReference(table, userId, rows, request, now, now);
    CommitsIffChanges(table, userId, rows, request, now, now, commit);
  }

  /** The five ways to refuse a refresh, in the order in which they are tried, each told apart. */
  lemma RefreshRefusals(
    table: Table, userId: UserId, rows: seq<Session>, id: SessionId, tokenMatches: bool, newId: SessionId,
    hash: TokenHash, expiresAt: int, now: int)
    requires Keyed(table) && Loaded(table, userId, rows)
    ensures var op := Operate(userId, rows, Refresh(id, tokenMatches, newId, hash, expiresAt), now);
            var answer := Answer(table, op, now, Succeeded);
            var own := Owned(table, userId, id);
            && (answer == Err(SessionNotFound) <==> !own)
            && (answer == Err(SessionInvalidated) <==> own && !table[id].isActive)
            && (answer == Err(SessionExpired) <==> own && table[id].isActive && now >= table[id].expiresAt)
            && (answer == Err(InvalidRefreshToken) <==>
                  own && table[id].isActive && now < table[id].expiresAt && !tokenMatches)
            && (answer == Err(InternalError(Transaction)) <==>
                  own && table[id].isActive && now < table[id].expiresAt && tokenMatches && newId in table)
            && (answer.Ok? <==>
                  own && table[id].isActive && now < table[id].expiresAt && tokenMatches && newId !in table)
            && (answer.Ok? ==>
                  answer.value == Some(NewSession(newId, userId, hash, expiresAt, table[id].authMethod)))
  {
    LoadedIndex(table, userId, rows, id);
  }

  /** A failed commit turns an answer into an internal error exactly where there was something to save. */
  lemma RefreshWithFailedCommit(
    table: Table, userId: UserId, rows: seq<Session>, id: SessionId, tokenMatches: bool, newId: SessionId,
    hash: TokenHash, expiresAt: int, now: int, applied: bool)
    requires Keyed(table) && Loaded(table, userId, rows)
    ensures var op := Operate(userId, rows, Refresh(id, tokenMatches, newId, hash, expiresAt), now);
            var healthy, failed := Answer(table, op, now, Succeeded), Answer(table, op, now, Failed(applied));
            failed == if healthy.Ok? || healthy == Err(SessionInvalidated) then Err(InternalError(Transaction))
                      else healthy
  {
    LoadedIndex(table, userId, rows, id);
  }

  /** What an applied refresh leaves: the old row ended and the new one beside it; on reuse every
      session of the user ended; on any other refusal the table as it was. */
  lemma RefreshChanges(
    table: Table, userId: UserId, rows: seq<Session>, id: SessionId, tokenMatches: bool, newId: SessionId,
    hash: TokenHash, expiresAt: int, now: int, commit: Outcome)
    requires Keyed(table) && Loaded(table, userId, rows) && commit != Failed(false)
    ensures var op := Operate(userId, rows, Refresh(id, tokenMatches, newId, hash, expiresAt), now);
            Committed(table, op, now, commit) ==
            if !Owned(table, userId, id) then table
            else if !table[id].isActive
            then map x | x in table :: if table[x].userId == userId then Ended(table[x]) else table[x]
            else if now >= table[id].expiresAt || !tokenMatches || newId in table then table
            else table[id := Ended(table[id])]
                      [newId := Session(newId, userId, hash, expiresAt, true, now, table[id].authMethod)]
  {
    var request := Refresh(id, tokenMatches, newId, hash, expiresAt);
    ServeMatchesReference(table, userId, rows, request, now, now);
    LoadedIndex(table, userId, rows, id);
  }

  /** The three ways to refuse a logout; otherwise it ends that row, answers Ok and reports the session. */
  lemma LogoutAnswers(table: Table, userId: UserId, rows: seq<Session>, id: SessionId, now: int, commit: Outcome)
    requires Keyed(table) && Loaded(table, userId, rows)
    ensures var op := Operate(userId, rows, Logout(id), now);
            var answer := Answer(table, op, now, commit);
            var own := Owned(table, userId, id);
            var ends := own && table[id].isActive && now < table[id].expiresAt;
            && (answer == Err(SessionNotFound) <==> !own)
            && (answer == Err(SessionInvalidated) <==> own && !table[id].isActive)
            && (answer == Err(SessionExpired) <==> own && table[id].isActive && now >= table[id].expiresAt)
            && (answer == Err(InternalError(Transaction)) <==> ends && commit.Failed?)
            && (answer == Ok(None) <==> ends && commit.Succeeded?)
            && op.events == (if ends then [UserLoggedOut(userId, id, table[id].authMethod)] else [])
            && Committed(table, op, now, commit) ==
               if ends && commit != Failed(false) then table[id := Ended(table[id])] else table
  {
    LoadedIndex(table, userId, rows, id);
    ServeMatchesReference(table, userId, rows, Logout(id), now, now);
    CommitsIffChanges(table, userId, rows, Logout(id), now, now, commit);
  }

  /** Bulk revocation reports the active sessions in the order in which they were loaded: the event of
      each stands after those of the active sessions before it, and there are no others. */
  lemma {:induction false} RevocationsReportedInOrder(userId: UserId, sessions: seq<Session>, n: nat, k: nat)
    requires k < n <= |sessions| && sessions[k].isActive
    ensures var place := Count(sessions, (s: Session) => s.isActive, k);
            && place < |LogoutEvents(userId, sessions, n)|
            && LogoutEvents(userId, sessions, n)[place] ==
               UserLoggedOut(userId, sessions[k].id, sessions[k].authMethod)
    ensures |LogoutEvents(userId, sessions, n)| == Count(sessions, (s: Session) => s.isActive, n)
  {
    EventsCounted(userId, sessions, n);
    EventsCounted(userId, sessions, n - 1);
    if k < n - 1 {
      RevocationsReportedInOrder(userId, sessions, n - 1, k);
    }
  }

  lemma {:induction false} EventsCounted(userId: UserId, sessions: seq<Session>, n: nat)
    requires n <= |sessions|
    ensures |LogoutEvents(userId, sessions, n)| == Count(sessions, (s: Session) => s.isActive, n)
  {
    if n > 0 { EventsCounted(userId, sessions, n - 1); }
  }
}
