/** Serial runs of login, refresh and logout, each request served before the next
    begins, from an empty table with a monotone clock. */
module SessionRuns {

  import opened Prelude
  import opened SessionDomain
  import opened SessionLineage
  import opened SessionReference

  /** `history` and `events` are history: rotation lineage, and the events queued by
      the aggregates whose transactions committed. */
  datatype State = State(now: int, table: Table, history: History, events: seq<Event>)

  datatype Step =
    | Tick(elapsed: nat)
    | Serve(userId: UserId, rows: seq<Session>, request: Request, commit: Outcome)

  ghost predicate Enabled(s: State, step: Step) {
    step.Serve? ==> Loaded(s.table, step.userId, step.rows)
  }

  function OperatedBy(s: State, step: Step): Operated
    requires step.Serve?
  {
    Operate(step.userId, step.rows, step.request, s.now)
  }

  /** The response to the client. */
  function AnswerTo(s: State, step: Step): AuthResult<Option<NewSession>>
    requires step.Serve?
  {
    Answer(s.table, OperatedBy(s, step), s.now, step.commit)
  }

  function Apply(s: State, step: Step): State {
    match step
    case Tick(elapsed) => s.(now := s.now + elapsed)
    case Serve(_, _, request, commit) =>
      var op := OperatedBy(s, step);
      if !Commits(s.table, op, s.now, commit) then s
      else
        State(s.now, Committed(s.table, op, s.now, commit),
              if op.added.Some? then s.history[op.added.value.id := Birth(ParentOf(request), |s.history|)]
                  else s.history,
              s.events + op.events)
  }

  // ----------------------------------------------------------- the invariant

  ghost predicate LineageOk(table: Table, h: History) {
    HistoryOk(table, h) && OneChildEach(h)
  }

  ghost predicate CapOk(table: Table, now: int) {
    forall userId :: |UsableIds(table, userId, now)| <= MAX_ACTIVE_SESSIONS
  }

  /** Logins minus logouts of one user. */
  function Balance(events: seq<Event>, userId: UserId, n: nat): int
    requires n <= |events|
  {
    if n == 0 then 0
    else Balance(events, userId, n - 1)
         + match events[n - 1]
           case UserLoggedIn(u, _, _) => if u == userId then 1 else 0
           case UserLoggedOut(u, _, _) => if u == userId then -1 else 0
           case SessionRefreshed(_, _, _) => 0
  }

  ghost predicate BalanceOk(table: Table, events: seq<Event>) {
    forall userId :: |ActiveIds(table, userId)| == Balance(events, userId, |events|)
  }

  ghost predicate Inv(s: State) {
    && LineageOk(s.table, s.history)
    && CapOk(s.table, s.now)
    && BalanceOk(s.table, s.events)
  }

  // ------------------------------------------------------------- lineage

  lemma LineageGrows(table: Table, h: History, row: Session, parent: Option<SessionId>)
    requires LineageOk(table, h) && row.id !in table
    requires parent.Some? ==>
               && parent.value in table && !table[parent.value].isActive && !Rotated(h, parent.value)
               && table[parent.value].userId == row.userId && table[parent.value].authMethod == row.authMethod
    ensures LineageOk(table[row.id := row], h[row.id := Birth(parent, |h|)])
  {
    HistoryGrows(table, h, table[row.id := row], row.id, parent);
    FirstChildKeepsChains(h, row.id, Birth(parent, |h|));
  }

  lemma LineageKept(s: State, userId: UserId, request: Request)
    requires LineageOk(s.table, s.history)
    ensures var change := Decide(s.table, userId, request, s.now, s.now);
            LineageOk(Changed(s.table, userId, change),
                      if change.Opened? || change.Replaced?
                      then s.history[change.row.id := Birth(ParentOf(request), |s.history|)] else s.history)
  {
    var change := Decide(s.table, userId, request, s.now, s.now);
    match change
    case Opened(row) =>
      LineageGrows(s.table, s.history, row, None);
    case Replaced(id, row) =>
      if Rotated(s.history, id) { RotatedIsInactive(s.table, s.history, id); }
      var closed := s.table[id := Invalidated(s.table[id])];
      HistorySurvivesClosing(s.table, s.history, closed);
      LineageGrows(closed, s.history, row, Some(id));
    case _ =>
      HistorySurvivesClosing(s.table, s.history, Changed(s.table, userId, change));
  }

  // ------------------------------------------------------------- the cap

  /** A rotation takes one usable session away before it adds one. */
  lemma UsableAfter(table: Table, userId: UserId, request: Request, now: int, u: UserId)
    requires Keyed(table)
    ensures var change := Decide(table, userId, request, now, now);
            && var before, after := UsableIds(table, u, now), UsableIds(Changed(table, userId, change), u, now);
            && (u != userId ==> after == before)
            && (u == userId && change.Opened? ==> |before| < MAX_ACTIVE_SESSIONS && after <= before + {change.row.id})
            && (u == userId && change.Replaced? ==>
                change.id in before && after <= before - {change.id} + {change.row.id})
            && (!change.Opened? && !change.Replaced? ==> after <= before)
  {
  }

  lemma CapKept(table: Table, userId: UserId, request: Request, now: int)
    requires Keyed(table) && CapOk(table, now)
    ensures CapOk(Changed(table, userId, Decide(table, userId, request, now, now)), now)
  {
    var change := Decide(table, userId, request, now, now);
    forall u ensures |UsableIds(Changed(table, userId, change), u, now)| <= MAX_ACTIVE_SESSIONS {
      var before, after := UsableIds(table, u, now), UsableIds(Changed(table, userId, change), u, now);
      UsableAfter(table, userId, request, now, u);
      if u == userId && change.Opened? {
        SubsetSize(after, before + {change.row.id});
      } else if u == userId && change.Replaced? {
        SubsetSize(after, before - {change.id} + {change.row.id});
      } else {
        SubsetSize(after, before);
      }
    }
  }

  lemma CapSurvivesTime(table: Table, now: int, later: int)
    requires CapOk(table, now) && now <= later
    ensures CapOk(table, later)
  {
    forall u ensures |UsableIds(table, u, later)| <= MAX_ACTIVE_SESSIONS {
      SubsetSize(UsableIds(table, u, later), UsableIds(table, u, now));
    }
  }

  // ------------------------------------------------------------- the events

  lemma {:induction false} BalanceAppend(events: seq<Event>, more: seq<Event>, userId: UserId, n: nat)
    requires n <= |more|
    ensures Balance(events + more, userId, |events| + n) == Balance(events, userId, |events|) + Balance(more, userId, n)
  {
    if n == 0 {
      BalancePrefix(events, more, userId, |events|);
    } else {
      BalanceAppend(events, more, userId, n - 1);
    }
  }

  lemma {:induction false} BalancePrefix(events: seq<Event>, more: seq<Event>, userId: UserId, n: nat)
    requires n <= |events|
    ensures Balance(events + more, userId, n) == Balance(events, userId, n)
  {
    if n > 0 { BalancePrefix(events, more, userId, n - 1); }
  }

  /** Bulk revocation queues one logout per active row. */
  lemma {:induction false} BulkBalance(userId: UserId, rows: seq<Session>, n: nat, u: UserId)
    requires n <= |rows|
    ensures var events := LogoutEvents(userId, rows, n);
            Balance(events, u, |events|) == if u == userId then 0 - Count(rows, (s: Session) => s.isActive, n) else 0
  {
    if n > 0 {
      BulkBalance(userId, rows, n - 1, u);
      if rows[n - 1].isActive {
        var last := [UserLoggedOut(userId, rows[n - 1].id, rows[n - 1].authMethod)];
        BalanceAppend(LogoutEvents(userId, rows, n - 1), last, u, 1);
      }
    }
  }

  /** How a change moves the set of active sessions of any user. */
  lemma ActiveAfter(table: Table, userId: UserId, request: Request, now: int, u: UserId)
    requires Keyed(table)
    ensures var change := Decide(table, userId, request, now, now);
            && var before, after := ActiveIds(table, u), ActiveIds(Changed(table, userId, change), u);
            && (u != userId ==> after == before)
            && (u == userId && change.Opened? ==> change.row.id !in before && after == before + {change.row.id})
            && (u == userId && change.Replaced? ==>
                  change.id in before && change.row.id !in before && after == before - {change.id} + {change.row.id})
            && (u == userId && change.Closed? ==> change.id in before && after == before - {change.id})
            && (u == userId && change.ClosedAll? ==> after == {})
  {
  }

  /** The change in a user's active sessions when their own request is served. */
  function Delta(change: Change, active: nat): int {
    match change
    case Unchanged => 0
    case Opened(_) => 1
    case Replaced(_, _) => 0
    case Closed(_) => -1
    case ClosedAll => 0 - active
  }

  lemma ActiveMoves(table: Table, userId: UserId, request: Request, now: int, u: UserId)
    requires Keyed(table)
    ensures var change := Decide(table, userId, request, now, now);
            |ActiveIds(Changed(table, userId, change), u)| ==
            |ActiveIds(table, u)| + if u == userId then Delta(change, |ActiveIds(table, u)|) else 0
  {
    ActiveAfter(table, userId, request, now, u);
  }

  lemma EventsMove(table: Table, userId: UserId, rows: seq<Session>, request: Request, now: int, u: UserId)
    requires Keyed(table) && Loaded(table, userId, rows) && Decide(table, userId, request, now, now) != Unchanged
    ensures var events := Operate(userId, rows, request, now).events;
            Balance(events, u, |events|) ==
            if u == userId then Delta(Decide(table, userId, request, now, now), |ActiveIds(table, u)|) else 0
  {
    var events := Operate(userId, rows, request, now).events;
    OperationDescribesChange(table, userId, rows, request, now, now);
    if Decide(table, userId, request, now, now).ClosedAll? {
      BulkBalance(userId, rows, |rows|, u);
      LoadedCount(table, userId, rows, (x: Session) => x.isActive);
    } else {
      assert |events| == 1 && Balance(events, u, 0) == 0;
    }
  }

  lemma BalanceKept(s: State, userId: UserId, rows: seq<Session>, request: Request, u: UserId)
    requires Keyed(s.table) && Loaded(s.table, userId, rows)
    requires |ActiveIds(s.table, u)| == Balance(s.events, u, |s.events|)
    requires Decide(s.table, userId, request, s.now, s.now) != Unchanged
    ensures var events := s.events + Operate(userId, rows, request, s.now).events;
            |ActiveIds(Changed(s.table, userId, Decide(s.table, userId, request, s.now, s.now)), u)| ==
                Balance(events, u, |events|)
  {
    var more := Operate(userId, rows, request, s.now).events;
    BalanceAppend(s.events, more, u, |more|);
    ActiveMoves(s.table, userId, request, s.now, u);
    EventsMove(s.table, userId, rows, request, s.now, u);
  }

  // ------------------------------------------------------------- every step

  lemma StepKeepsInv(s: State, step: Step)
    requires Inv(s) && Enabled(s, step)
    ensures Inv(Apply(s, step))
  {
    match step
    case Tick(elapsed) => CapSurvivesTime(s.table, s.now, s.now + elapsed);
    case Serve(userId, rows, request, commit) =>
      CommitsIffChanges(s.table, userId, rows, request, s.now, s.now, commit);
      var change := Decide(s.table, userId, request, s.now, s.now);
      if commit != Failed(false) && change != Unchanged {
        ServeMatchesReference(s.table, userId, rows, request, s.now, s.now);
        OperationDescribesChange(s.table, userId, rows, request, s.now, s.now);
        LineageKept(s, userId, request);
        CapKept(s.table, userId, request, s.now);
        var s' := Apply(s, step);
        forall u ensures |ActiveIds(s'.table, u)| == Balance(s'.events, u, |s'.events|) {
          BalanceKept(s, userId, rows, request, u);
        }
      }
  }

  // ------------------------------------------------------------- whole runs

  ghost predicate StepTaken(run: Run<State, Step>, k: nat)
    requires |run.states| == |run.steps| + 1 && k < |run.steps|
  {
    Enabled(run.states[k], run.steps[k]) && run.states[k + 1] == Apply(run.states[k], run.steps[k])
  }

  ghost predicate IsRun(run: Run<State, Step>) {
    && |run.states| == |run.steps| + 1
    && run.states[0] == State(run.states[0].now, map[], map[], [])
    && forall k :: 0 <= k < |run.steps| ==> StepTaken(run, k)
  }

  lemma {:induction false} InvHolds(run: Run<State, Step>, k: nat)
    requires IsRun(run) && k < |run.states|
    ensures Inv(run.states[k])
  {
    if k == 0 {
      assert forall u :: UsableIds(map[], u, run.states[0].now) == {} && ActiveIds(map[], u) == {};
    } else {
      InvHolds(run, k - 1);
      assert StepTaken(run, k - 1);
      StepKeepsInv(run.states[k - 1], run.steps[k - 1]);
    }
  }

  /** At every moment the sessions descending from one login form a chain under
      rotation, and at most one of them is active. */
  lemma FamilyChainHasOneActive(run: Run<State, Step>, k: nat, x: SessionId, y: SessionId)
    requires IsRun(run) && k < |run.states|
    requires x in run.states[k].table && y in run.states[k].table
    ensures var h := run.states[k].history;
            && WellFounded(h) && x in h && y in h
            && (Root(h, x) == Root(h, y) ==> Descends(h, x, y) || Descends(h, y, x))
            && (Root(h, x) == Root(h, y) && run.states[k].table[x].isActive && run.states[k].table[y].isActive ==>
                x == y)
  {
    InvHolds(run, k);
    var s := run.states[k];
    if Root(s.history, x) == Root(s.history, y) {
      FamilyIsChain(s.history, x, y);
      if s.table[x].isActive && s.table[y].isActive {
        OneActivePerFamily(s.table, s.history, x, y);
      }
    }
  }

  /** A user never has more than 25 active unexpired sessions, although rotation never checks. */
  lemma SessionCapHolds(run: Run<State, Step>, k: nat, userId: UserId)
    requires IsRun(run) && k < |run.states|
    ensures |UsableIds(run.states[k].table, userId, run.states[k].now)| <= 25
  {
    InvHolds(run, k);
  }

  /** A user's active rows, expired ones included, are the logins minus the logouts queued. */
  lemma ActiveRowsBalanceEvents(run: Run<State, Step>, k: nat, userId: UserId)
    requires IsRun(run) && k < |run.states|
    ensures |ActiveIds(run.states[k].table, userId)| == Balance(run.states[k].events, userId, |run.states[k].events|)
  {
    InvHolds(run, k);
  }

  lemma TableKeyed(run: Run<State, Step>, k: nat)
    requires IsRun(run) && k < |run.states|
    ensures Keyed(run.states[k].table)
  {
    InvHolds(run, k);
  }

  lemma StepKeepsInactive(s: State, step: Step, id: SessionId)
    requires Keyed(s.table) && Enabled(s, step) && id in s.table && !s.table[id].isActive
    ensures var s' := Apply(s, step); id in s'.table && s'.table[id] == s.table[id]
  {
    if step.Serve? {
      CommitsIffChanges(s.table, step.userId, step.rows, step.request, s.now, s.now, step.commit);
      ServeMatchesReference(s.table, step.userId, step.rows, step.request, s.now, s.now);
    }
  }

  lemma {:induction false} InactiveForGood(run: Run<State, Step>, j: nat, k: nat, id: SessionId)
    requires IsRun(run) && j <= k < |run.states|
    requires id in run.states[j].table && !run.states[j].table[id].isActive
    ensures id in run.states[k].table && run.states[k].table[id] == run.states[j].table[id]
  {
    if j < k {
      InactiveForGood(run, j, k - 1, id);
      TableKeyed(run, k - 1);
      assert StepTaken(run, k - 1);
      StepKeepsInactive(run.states[k - 1], run.steps[k - 1], id);
    }
  }

  predicate Refreshes(step: Step, id: SessionId) {
    step.Serve? && step.request.Refresh? && step.request.id == id
  }

  /** A successful rotation was of an active session of that very user, and leaves it inactive. */
  lemma RotationCloses(s: State, step: Step, id: SessionId)
    requires Keyed(s.table) && Enabled(s, step) && Refreshes(step, id) && AnswerTo(s, step).Ok?
    ensures id in s.table && s.table[id].isActive && s.table[id].userId == step.userId
    ensures var s' := Apply(s, step); id in s'.table && s'.table[id] == Invalidated(s.table[id])
  {
    LoadedIndex(s.table, step.userId, step.rows, id);
    CommitsIffChanges(s.table, step.userId, step.rows, step.request, s.now, s.now, step.commit);
    ServeMatchesReference(s.table, step.userId, step.rows, step.request, s.now, s.now);
  }

  /** Refreshing an inactive session of this user is refused, and once saved it leaves
      the user without active sessions, whatever the token and the expiry say. */
  lemma ReuseClosesAll(s: State, step: Step, id: SessionId)
    requires Keyed(s.table) && Enabled(s, step) && Refreshes(step, id)
    requires id in s.table && !s.table[id].isActive && s.table[id].userId == step.userId
    ensures AnswerTo(s, step) ==
            if step.commit.Succeeded? then Err(SessionInvalidated) else Err(InternalError(Transaction))
    ensures step.commit != Failed(false) ==> ActiveIds(Apply(s, step).table, step.userId) == {}
  {
    LoadedIndex(s.table, step.userId, step.rows, id);
    CommitsIffChanges(s.table, step.userId, step.rows, step.request, s.now, s.now, step.commit);
    ServeMatchesReference(s.table, step.userId, step.rows, step.request, s.now, s.now);
    ActiveAfter(s.table, step.userId, step.request, s.now, step.userId);
  }

  /** After a successful rotation of a session, every later refresh by its user naming it
      is answered SessionInvalidated and, once saved, leaves that user with no active
      session; a refresh naming it on behalf of anyone else finds nothing. */
  lemma ReuseRevokesEverything(run: Run<State, Step>, j: nat, k: nat, id: SessionId)
    requires IsRun(run) && j < k < |run.steps|
    requires Refreshes(run.steps[j], id) && AnswerTo(run.states[j], run.steps[j]).Ok?
    requires Refreshes(run.steps[k], id)
    ensures run.steps[k].userId == run.steps[j].userId ==>
              && AnswerTo(run.states[k], run.steps[k]) ==
                   (if run.steps[k].commit.Succeeded? then Err(SessionInvalidated) else Err(InternalError(Transaction)))
              && (run.steps[k].commit != Failed(false) ==>
                  ActiveIds(run.states[k + 1].table, run.steps[k].userId) == {})
    ensures run.steps[k].userId != run.steps[j].userId ==> AnswerTo(run.states[k], run.steps[k]) == Err(SessionNotFound)
  {
    TableKeyed(run, j);
    TableKeyed(run, k);
    assert StepTaken(run, j);
    assert StepTaken(run, k);
    RotationCloses(run.states[j], run.steps[j], id);
    InactiveForGood(run, j + 1, k, id);
    LoadedIndex(run.states[k].table, run.steps[k].userId, run.steps[k].rows, id);
    if run.steps[k].userId == run.steps[j].userId {
      ReuseClosesAll(run.states[k], run.steps[k], id);
    }
  }

  /** A session is successfully rotated at most once. */
  lemma RotatedAtMostOnce(run: Run<State, Step>, j: nat, k: nat, id: SessionId)
    requires IsRun(run) && j < |run.steps| && k < |run.steps|
    requires Refreshes(run.steps[j], id) && AnswerTo(run.states[j], run.steps[j]).Ok?
    requires Refreshes(run.steps[k], id) && AnswerTo(run.states[k], run.steps[k]).Ok?
    ensures j == k
  {
    if j < k {
      ReuseRevokesEverything(run, j, k, id);
    } else if k < j {
      ReuseRevokesEverything(run, k, j, id);
    }
  }
}
