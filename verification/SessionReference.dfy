/** A reference semantics of login, refresh and logout that decides directly on the
    sessions table, and the proof that load-operate-save, when nothing comes between,
    is exactly that. */
module SessionReference {

  import opened Prelude
  import opened SessionDomain

  // ------------------------------------------------------ reference semantics

  function IdsWhere(table: Table, userId: UserId, p: Session -> bool): set<SessionId> {
    set id | id in table && table[id].userId == userId && p(table[id])
  }

  function ActiveIds(table: Table, userId: UserId): set<SessionId> {
    IdsWhere(table, userId, (s: Session) => s.isActive)
  }

  function UsableIds(table: Table, userId: UserId, now: int): set<SessionId> {
    IdsWhere(table, userId, s => Usable(s, now))
  }

  datatype Change =
    | Unchanged
    | Opened(row: Session)
    | Replaced(id: SessionId, row: Session)
    | Closed(id: SessionId)
    | ClosedAll

  predicate Owned(table: Table, userId: UserId, id: SessionId) {
    id in table && table[id].userId == userId
  }

  /** What a request that looks at its clock at `now` and inserts at `savedAt` does to the
      sessions table, if its transaction commits. */
  function Decide(table: Table, userId: UserId, request: Request, now: int, savedAt: int): Change {
    match request
    case Login(newId, hash, expiresAt, authMethod) =>
      if |UsableIds(table, userId, now)| >= MAX_ACTIVE_SESSIONS || newId in table then Unchanged
      else Opened(Session(newId, userId, hash, expiresAt, true, savedAt, authMethod))
    case Refresh(id, tokenMatches, newId, hash, expiresAt) =>
      if !Owned(table, userId, id) then Unchanged
      else if !table[id].isActive then ClosedAll
      else if IsExpired(table[id], now) || !tokenMatches || newId in table then Unchanged
      else Replaced(id, Session(newId, userId, hash, expiresAt, true, savedAt, table[id].authMethod))
    case Logout(id) =>
      if Owned(table, userId, id) && Usable(table[id], now) then Closed(id) else Unchanged
  }

  function Changed(table: Table, userId: UserId, change: Change): Table
    requires (change.Replaced? || change.Closed?) ==> change.id in table
  {
    match change
    case Unchanged => table
    case Opened(row) => table[row.id := row]
    case Replaced(id, row) => table[id := Invalidated(table[id])][row.id := row]
    case Closed(id) => table[id := Invalidated(table[id])]
    case ClosedAll => map id | id in table :: if table[id].userId == userId then Invalidated(table[id]) else table[id]
  }

  // --------------------------------------------- load-operate-save matches it

  /** Counting the loaded rows counts the table's rows. */
  lemma {:induction false} CountIsCardinality(
    table: Table, userId: UserId, sessions: seq<Session>, p: Session -> bool, n: nat)
    returns (ids: set<SessionId>)
    requires Loaded(table, userId, sessions) && n <= |sessions|
    ensures |ids| == Count(sessions, p, n)
    ensures forall id :: id in ids <==> id in IdsUpTo(sessions, n) && id in table && p(table[id])
  {
    ids := {};
    if n > 0 {
      ids := CountIsCardinality(table, userId, sessions, p, n - 1);
      assert LoadedAt(table, userId, sessions, n - 1);
      if p(sessions[n - 1]) {
        ids := ids + {sessions[n - 1].id};
      }
    }
  }

  lemma LoadedCount(table: Table, userId: UserId, sessions: seq<Session>, p: Session -> bool)
    requires Loaded(table, userId, sessions)
    ensures Count(sessions, p, |sessions|) == |IdsWhere(table, userId, p)|
  {
    var ids := CountIsCardinality(table, userId, sessions, p, |sessions|);
    forall id | id in ids ensures id in IdsWhere(table, userId, p) {
      LoadedIdsBelongToUser(table, userId, sessions, |sessions|, id);
    }
    assert ids == IdsWhere(table, userId, p);
  }

  lemma LoginMatches(table: Table, userId: UserId, rows: seq<Session>, request: Request, now: int, savedAt: int)
    requires Keyed(table) && Loaded(table, userId, rows) && request.Login?
    ensures Committed(table, Operate(userId, rows, request, now), savedAt, Succeeded)
         == Changed(table, userId, Decide(table, userId, request, now, savedAt))
  {
    LoadedCount(table, userId, rows, s => Usable(s, now));
    assert UsableCount(rows, now) == |UsableIds(table, userId, now)|;
    var op := Operate(userId, rows, request, now);
    if op.saves && request.newId !in table {
      SavingNoFlip(table, table[request.newId := InsertedRow(op.added.value, savedAt)], userId, rows);
    }
  }

  /** Saving an aggregate in which no session was flipped flips no row. */
  lemma SavingNoFlip(table: Table, base: Table, userId: UserId, rows: seq<Session>)
    requires Keyed(table) && Loaded(table, userId, rows)
    requires base.Keys >= table.Keys && forall x :: x in table ==> base[x] == table[x]
    ensures MarkInactive(base, InactiveIds(rows, |rows|)) == base
  {
    var inactive := InactiveIds(rows, |rows|);
    forall id | id in inactive ensures id in table && !table[id].isActive {
      InactiveAfterLoad(table, userId, rows, |rows|, id);
    }
    MarkingInactiveIsIdle(base, inactive, {});
    assert inactive + {} == inactive;
  }

  /** Saving an aggregate in which only session `id` was flipped flips that row. */
  lemma SavingOneFlip(table: Table, base: Table, userId: UserId, rows: seq<Session>, id: SessionId)
    requires Keyed(table) && Loaded(table, userId, rows) && Owned(table, userId, id)
    requires base.Keys >= table.Keys && forall x :: x in table ==> base[x] == table[x]
    ensures IndexOf(rows, id) < |rows|
    ensures var sessions := Deactivated(rows, IndexOf(rows, id));
            MarkInactive(base, InactiveIds(sessions, |sessions|)) == base[id := Invalidated(base[id])]
  {
    LoadedIndex(table, userId, rows, id);
    var k := IndexOf(rows, id);
    var inactive := InactiveIds(rows, |rows|);
    InactiveAfterDeactivating(rows, k, |rows|);
    forall x | x in inactive ensures x in table && !table[x].isActive {
      InactiveAfterLoad(table, userId, rows, |rows|, x);
    }
    MarkingInactiveIsIdle(base, inactive, {id});
    assert MarkInactive(base, {id}) == base[id := Invalidated(base[id])];
  }

  lemma SavingAllFlips(table: Table, userId: UserId, rows: seq<Session>)
    requires Keyed(table) && Loaded(table, userId, rows)
    ensures MarkInactive(table, InactiveIds(AllInvalidated(rows), |rows|)) == Changed(table, userId, ClosedAll)
  {
    InactiveAfterInvalidatingAll(rows, |rows|);
    var ids := IdsUpTo(rows, |rows|);
    forall id | id in table ensures id in ids <==> table[id].userId == userId {
      if id in ids {
        LoadedIdsBelongToUser(table, userId, rows, |rows|, id);
      }
    }
  }

  lemma RefreshMatches(table: Table, userId: UserId, rows: seq<Session>, request: Request, now: int, savedAt: int)
    requires Keyed(table) && Loaded(table, userId, rows) && request.Refresh?
    ensures Committed(table, Operate(userId, rows, request, now), savedAt, Succeeded)
         == Changed(table, userId, Decide(table, userId, request, now, savedAt))
  {
    var Refresh(id, tokenMatches, newId, hash, expiresAt) := request;
    LoadedIndex(table, userId, rows, id);
    if Owned(table, userId, id) {
      if !table[id].isActive {
        SavingAllFlips(table, userId, rows);
      } else if !IsExpired(table[id], now) && tokenMatches && newId !in table {
        var row := Session(newId, userId, hash, expiresAt, true, savedAt, table[id].authMethod);
        SavingOneFlip(table, table[newId := row], userId, rows, id);
        assert table[newId := row][id := Invalidated(table[id])] == table[id := Invalidated(table[id])][newId := row];
      }
    }
  }

  lemma LogoutMatches(table: Table, userId: UserId, rows: seq<Session>, request: Request, now: int, savedAt: int)
    requires Keyed(table) && Loaded(table, userId, rows) && request.Logout?
    ensures Committed(table, Operate(userId, rows, request, now), savedAt, Succeeded)
         == Changed(table, userId, Decide(table, userId, request, now, savedAt))
  {
    LoadedIndex(table, userId, rows, request.id);
    if Owned(table, userId, request.id) && Usable(table[request.id], now) {
      SavingOneFlip(table, table, userId, rows, request.id);
    }
  }

  /** Load, operate and save, uninterrupted, is the reference transition on the table. */
  lemma ServeMatchesReference(
    table: Table, userId: UserId, rows: seq<Session>, request: Request, now: int, savedAt: int)
    requires Keyed(table) && Loaded(table, userId, rows)
    ensures Committed(table, Operate(userId, rows, request, now), savedAt, Succeeded)
         == Changed(table, userId, Decide(table, userId, request, now, savedAt))
  {
    match request
    case Login(_, _, _, _) => LoginMatches(table, userId, rows, request, now, savedAt);
    case Refresh(_, _, _, _, _) => RefreshMatches(table, userId, rows, request, now, savedAt);
    case Logout(_) => LogoutMatches(table, userId, rows, request, now, savedAt);
  }

  /** A served request commits exactly when the reference decides on a change. */
  lemma CommitsIffChanges(
    table: Table, userId: UserId, rows: seq<Session>, request: Request, now: int, savedAt: int, commit: Outcome)
    requires Keyed(table) && Loaded(table, userId, rows)
    ensures Commits(table, Operate(userId, rows, request, now), savedAt, commit)
        <==> commit != Failed(false) && Decide(table, userId, request, now, savedAt) != Unchanged
  {
    if request.Login? {
      LoadedCount(table, userId, rows, s => Usable(s, now));
      assert UsableCount(rows, now) == |UsableIds(table, userId, now)|;
    } else {
      LoadedIndex(table, userId, rows, request.id);
    }
  }

  /** The row added and the events queued by an operation, matched to a change. */
  predicate Describes(
    table: Table, userId: UserId, rows: seq<Session>, request: Request, op: Operated, change: Change) {
    match change
    case Unchanged => true
    case Opened(row) =>
      && request.Login? && op.added.Some? && op.added.value.id == row.id
      && op.events == [UserLoggedIn(userId, row.id, row.authMethod)]
    case Replaced(id, row) =>
      && request.Refresh? && request.id == id && op.added.Some? && op.added.value.id == row.id
      && op.events == [SessionRefreshed(userId, row.id, row.authMethod)]
    case Closed(id) =>
      && op.added.None? && id in table
      && op.events == [UserLoggedOut(userId, id, table[id].authMethod)]
    case ClosedAll =>
      op.added.None? && op.events == LogoutEvents(userId, rows, |rows|)
  }

  lemma OperationDescribesChange(
    table: Table, userId: UserId, rows: seq<Session>, request: Request, now: int, savedAt: int)
    requires Keyed(table) && Loaded(table, userId, rows)
    ensures Describes(table, userId, rows, request, Operate(userId, rows, request, now),
                      Decide(table, userId, request, now, savedAt))
  {
    if request.Login? {
      LoadedCount(table, userId, rows, s => Usable(s, now));
      assert UsableCount(rows, now) == |UsableIds(table, userId, now)|;
    } else {
      LoadedIndex(table, userId, rows, request.id);
    }
  }
}
