/** The sessions table behind `PostgresUserRepo`, and the login, refresh and logout
    use cases run against it one at a time: load, operate, save. */
module SessionStore {

  import opened Prelude
  import opened SessionDomain
  import opened SessionAggregate

  class Store {
    var table: Table

    ghost predicate Valid()
      reads this
    {
      Keyed(table)
    }

    constructor ()
      ensures Valid() && table == map[]
    {
      table := map[];
    }

    /** One SELECT: any answer that holds exactly the user's rows, each once, newest first. */
    method LoadAggregate(userId: UserId) returns (aggregate: UserAggregate)
      requires Valid()
      ensures fresh(aggregate)
      ensures aggregate.userId == userId && aggregate.pendingEvents == []
      ensures Loaded(table, userId, aggregate.sessions)
    {
      LoadHasAnswer(table, userId);
      var rows :| Loaded(table, userId, rows);
      aggregate := new UserAggregate(userId, rows);
    }

    /** All or nothing: the table moves to the saved one, or the transaction leaves no trace.
        A failed commit is an error to the caller and may be either. */
    method SaveAggregate(aggregate: UserAggregate, added: Option<NewSession>, now: int, commit: Outcome)
      returns (ok: bool)
      requires Valid()
      modifies this
      ensures Valid()
      ensures var saved := Saved(old(table), aggregate.sessions, added, now);
              && (ok <==> commit.Succeeded? && saved.Ok?)
              && table == if commit != Failed(false) && saved.Ok? then saved.value else old(table)
    {
      var sessions := aggregate.sessions;
      var invalidated: seq<SessionId> := [];
      for k := 0 to |sessions|
        invariant IdSet(invalidated) == InactiveIds(sessions, k) && table == old(table)
      {
        if !sessions[k].isActive {
          IdSetAppend(invalidated, sessions[k].id);
          invalidated := invalidated + [sessions[k].id];
        }
      }
      var tx := table;
      if added.Some? {
        if added.value.id in tx {
          return false;
        }
        tx := tx[added.value.id := InsertedRow(added.value, now)];
      }
      ghost var inserted := tx;
      assert tx == MarkInactive(inserted, IdSet([]));
      for k := 0 to |invalidated|
        invariant tx == MarkInactive(inserted, IdSet(invalidated[..k])) && table == old(table)
      {
        var id := invalidated[k];
        IdSetAppend(invalidated[..k], id);
        assert invalidated[..k + 1] == invalidated[..k] + [id];
        if id in tx {
          tx := tx[id := Invalidated(tx[id])];
        }
      }
      assert invalidated[..|invalidated|] == invalidated;
      if commit != Failed(false) {
        table := tx;
      }
      ok := commit.Succeeded?;
    }

    method LoginUser(userId: UserId, newId: SessionId, hash: TokenHash, expiresAt: int,
                     authMethod: AuthMethod, now: int, commit: Outcome)
      returns (answer: AuthResult<Option<NewSession>>, events: seq<Event>, ghost rows: seq<Session>)
      requires Valid()
      modifies this
      ensures Valid() && Loaded(old(table), userId, rows)
      ensures var op := Operate(userId, rows, Login(newId, hash, expiresAt, authMethod), now);
              && table == Committed(old(table), op, now, commit)
              && answer == Answer(old(table), op, now, commit)
              && events == if answer.Ok? then op.events else []
    {
      events := [];
      var aggregate := LoadAggregate(userId);
      rows := aggregate.sessions;
      var added := aggregate.AddSession(newId, hash, expiresAt, authMethod, now);
      if added.Err? {
        return Err(added.error), [], rows;
      }
      var ok := SaveAggregate(aggregate, Some(added.value), now, commit);
      if !ok {
        return Err(InternalError(Transaction)), [], rows;
      }
      events := aggregate.TakeEvents();
      answer := Ok(Some(added.value));
    }

    /** Rotation, with reuse of an inactive session revoking everything before the refusal. */
    method RefreshToken(userId: UserId, id: SessionId, tokenMatches: bool, newId: SessionId,
                        hash: TokenHash, expiresAt: int, now: int, commit: Outcome)
      returns (answer: AuthResult<Option<NewSession>>, events: seq<Event>, ghost rows: seq<Session>)
      requires Valid()
      modifies this
      ensures Valid() && Loaded(old(table), userId, rows)
      ensures var op := Operate(userId, rows, Refresh(id, tokenMatches, newId, hash, expiresAt), now);
              && table == Committed(old(table), op, now, commit)
              && answer == Answer(old(table), op, now, commit)
              && events == if answer.Ok? then op.events else []
    {
      events := [];
      var aggregate := LoadAggregate(userId);
      rows := aggregate.sessions;
      var added := aggregate.RotateSession(id, tokenMatches, newId, hash, expiresAt, now);
      if added == Err(SessionInvalidated) {
        aggregate.InvalidateAllActiveSessions();
        var ok := SaveAggregate(aggregate, None, now, commit);
        return Err(if ok then SessionInvalidated else InternalError(Transaction)), [], rows;
      }
      if added.Err? {
        return Err(added.error), [], rows;
      }
      var ok := SaveAggregate(aggregate, Some(added.value), now, commit);
      if !ok {
        return Err(InternalError(Transaction)), [], rows;
      }
      events := aggregate.TakeEvents();
      answer := Ok(Some(added.value));
    }

    method LogoutUser(userId: UserId, id: SessionId, now: int, commit: Outcome)
      returns (answer: AuthResult<Option<NewSession>>, events: seq<Event>, ghost rows: seq<Session>)
      requires Valid()
      modifies this
      ensures Valid() && Loaded(old(table), userId, rows)
      ensures var op := Operate(userId, rows, Logout(id), now);
              && table == Committed(old(table), op, now, commit)
              && answer == Answer(old(table), op, now, commit)
              && events == if answer.Ok? then op.events else []
    {
      events := [];
      var aggregate := LoadAggregate(userId);
      rows := aggregate.sessions;
      var done := aggregate.InvalidateSession(id, now);
      if done.Err? {
        return Err(done.error), [], rows;
      }
      var ok := SaveAggregate(aggregate, None, now, commit);
      if !ok {
        return Err(InternalError(Transaction)), [], rows;
      }
      events := aggregate.TakeEvents();
      answer := Ok(None);
    }
  }

  function IdSet(ids: seq<SessionId>): set<SessionId> {
    set id | id in ids
  }

  lemma IdSetAppend(ids: seq<SessionId>, id: SessionId)
    ensures IdSet(ids + [id]) == IdSet(ids) + {id}
  {
  }

  // ------------------------------------------------- the query has an answer

  function OwnIds(table: Table, userId: UserId): set<SessionId> {
    set id | id in table && table[id].userId == userId
  }

  lemma NewestOf(table: Table, ids: set<SessionId>) returns (newest: SessionId)
    requires ids != {} && ids <= table.Keys
    ensures newest in ids && forall id :: id in ids ==> table[id].createdAt <= table[newest].createdAt
    decreases ids
  {
    var some :| some in ids;
    newest := some;
    var rest := ids - {some};
    assert forall id :: id in ids ==> id == some || id in rest;
    if rest != {} {
      var other := NewestOf(table, rest);
      if table[other].createdAt > table[some].createdAt {
        newest := other;
      }
    }
  }

  lemma {:induction false} IdsUpToPrefix(a: seq<Session>, b: seq<Session>, n: nat)
    requires n <= |a| && a <= b
    ensures IdsUpTo(a, n) == IdsUpTo(b, n)
  {
    if n > 0 { IdsUpToPrefix(a, b, n - 1); }
  }

  /** The `n` newest rows of a user, in the order of the query. */
  ghost predicate Newest(table: Table, userId: UserId, rows: seq<Session>) {
    && (forall k :: 0 <= k < |rows| ==> LoadedAt(table, userId, rows, k))
    && IdsUpTo(rows, |rows|) <= OwnIds(table, userId) && |IdsUpTo(rows, |rows|)| == |rows|
    && (forall id :: id in OwnIds(table, userId) - IdsUpTo(rows, |rows|) && rows != [] ==>
          table[id].createdAt <= rows[|rows| - 1].createdAt)
  }

  lemma NewestAppended(table: Table, userId: UserId, rows: seq<Session>, newest: SessionId)
    requires Keyed(table) && Newest(table, userId, rows)
    requires newest in OwnIds(table, userId) - IdsUpTo(rows, |rows|)
    requires forall id :: id in OwnIds(table, userId) - IdsUpTo(rows, |rows|) ==>
               table[id].createdAt <= table[newest].createdAt
    ensures Newest(table, userId, rows + [table[newest]])
  {
    var longer := rows + [table[newest]];
    IdsUpToPrefix(rows, longer, |rows|);
    forall k | 0 <= k < |longer| ensures LoadedAt(table, userId, longer, k) {
      IdsUpToPrefix(rows, longer, k);
      if k < |rows| {
        assert LoadedAt(table, userId, rows, k);
      }
    }
  }

  lemma {:induction false} NewestRows(table: Table, userId: UserId, n: nat) returns (rows: seq<Session>)
    requires Keyed(table) && n <= |OwnIds(table, userId)|
    ensures |rows| == n && Newest(table, userId, rows)
  {
    rows := [];
    if n > 0 {
      rows := NewestRows(table, userId, n - 1);
      var rest := OwnIds(table, userId) - IdsUpTo(rows, |rows|);
      assert |rest| == |OwnIds(table, userId)| - |rows|;
      var newest := NewestOf(table, rest);
      NewestAppended(table, userId, rows, newest);
      rows := rows + [table[newest]];
    }
  }

  /** Whatever the table, the query has an answer, so a load is always possible. */
  lemma LoadHasAnswer(table: Table, userId: UserId)
    requires Keyed(table)
    ensures exists rows :: Loaded(table, userId, rows)
  {
    var own := OwnIds(table, userId);
    var rows := NewestRows(table, userId, |own|);
    var taken := IdsUpTo(rows, |rows|);
    assert taken == own by {
      if taken != own {
        var id :| id in own && id !in taken;
        SubsetSize(taken + {id}, own);
      }
    }
    assert Loaded(table, userId, rows);
  }

}
