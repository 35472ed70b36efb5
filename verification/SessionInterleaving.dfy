/** Concurrent login, refresh and logout: a request loads its user's rows, later
    operates on that copy, and later still saves. Load and save are not one
    transaction, so any other request may save in between. */
module SessionInterleaving {

  import opened Prelude
  import opened SessionDomain
  import opened SessionLineage
  import opened SessionReference

  type RequestId = nat

  datatype Flight =
    | Fetched(userId: UserId, request: Request, rows: seq<Session>)
    | Acted(userId: UserId, request: Request, op: Operated)

  datatype State = State(now: int, table: Table, history: History, flights: map<RequestId, Flight>)

  datatype Step =
    | Tick(elapsed: nat)
    | Load(r: RequestId, userId: UserId, request: Request, rows: seq<Session>)
    | Act(r: RequestId)
    | Save(r: RequestId, commit: Outcome)
    | Drop(r: RequestId)

  ghost predicate Enabled(s: State, step: Step) {
    match step
    case Tick(_) => true
    case Load(r, userId, _, rows) => r !in s.flights && Loaded(s.table, userId, rows)
    case Act(r) => r in s.flights && s.flights[r].Fetched?
    case Save(r, _) => r in s.flights && s.flights[r].Acted?
    case Drop(_) => true
  }

  /** A refused operation ends its request; otherwise the save comes later. */
  function ApplyAct(s: State, r: RequestId): State
    requires r in s.flights && s.flights[r].Fetched?
  {
    var Fetched(userId, request, rows) := s.flights[r];
    var op := Operate(userId, rows, request, s.now);
    if op.saves then s.(flights := s.flights[r := Acted(userId, request, op)]) else s.(flights := s.flights - {r})
  }

  function ApplySave(s: State, r: RequestId, commit: Outcome): State
    requires r in s.flights && s.flights[r].Acted?
  {
    var Acted(_, request, op) := s.flights[r];
    var recorded := Commits(s.table, op, s.now, commit) && op.added.Some?;
    State(s.now, Committed(s.table, op, s.now, commit),
          if recorded then s.history[op.added.value.id := Birth(ParentOf(request), |s.history|)] else s.history,
          s.flights - {r})
  }

  function Apply(s: State, step: Step): State
    requires Enabled(s, step)
  {
    match step
    case Tick(elapsed) => s.(now := s.now + elapsed)
    case Load(r, userId, request, rows) => s.(flights := s.flights[r := Fetched(userId, request, rows)])
    case Act(r) => ApplyAct(s, r)
    case Save(r, commit) => ApplySave(s, r, commit)
    case Drop(r) => s.(flights := s.flights - {r})
  }

  // ------------------------------------------------------ what a save can do

  /** Everything that is not this user's is exactly as before. */
  ghost predicate OnlyTouches(table: Table, table': Table, userId: UserId) {
    && (forall id :: id in table && table[id].userId != userId ==> id in table' && table'[id] == table[id])
    && (forall id :: id in table' && id !in table ==> table'[id].userId == userId)
  }

  predicate OwnedAt(table: Table, userId: UserId, sessions: seq<Session>, k: nat)
    requires k < |sessions|
  {
    Owned(table, userId, sessions[k].id)
  }

  /** The copies in an aggregate name rows of its user. */
  ghost predicate AllOwned(table: Table, userId: UserId, sessions: seq<Session>) {
    forall k :: 0 <= k < |sessions| ==> OwnedAt(table, userId, sessions, k)
  }

  lemma {:induction false} InactiveIdsOwned(table: Table, userId: UserId, sessions: seq<Session>, n: nat, id: SessionId)
    requires AllOwned(table, userId, sessions) && n <= |sessions| && id in InactiveIds(sessions, n)
    ensures Owned(table, userId, id)
  {
    assert OwnedAt(table, userId, sessions, n - 1);
    if sessions[n - 1].isActive || sessions[n - 1].id != id {
      InactiveIdsOwned(table, userId, sessions, n - 1, id);
    }
  }

  /** However stale the aggregate, saving it only closes rows of its own user and adds one. */
  lemma SaveIsTame(table: Table, userId: UserId, op: Operated, now: int, commit: Outcome)
    requires Keyed(table) && AllOwned(table, userId, op.sessions)
    requires op.added.Some? ==> op.added.value.userId == userId
    ensures var table' := Committed(table, op, now, commit);
            && Keyed(table') && OnlyCloses(table, table') && OnlyTouches(table, table', userId)
            && table'.Keys ==
                table.Keys + (if Commits(table, op, now, commit) && op.added.Some? then {op.added.value.id} else {})
            && (Commits(table, op, now, commit) ==>
                  forall id :: id in InactiveIds(op.sessions, |op.sessions|) ==> id in table' && !table'[id].isActive)
            && (Commits(table, op, now, commit) && op.added.Some? ==>
                  && op.added.value.id !in table
                  && table'[op.added.value.id].authMethod == op.added.value.authMethod
                  && table'[op.added.value.id].userId == userId)
  {
    var inactive := InactiveIds(op.sessions, |op.sessions|);
    forall id | id in inactive ensures Owned(table, userId, id) {
      InactiveIdsOwned(table, userId, op.sessions, |op.sessions|, id);
    }
  }

  // -------------------------------------------------------------- invariant

  ghost predicate FlightOk(table: Table, flight: Flight) {
    match flight
    case Fetched(userId, _, rows) =>
      AllOwned(table, userId, rows) && forall k :: 0 <= k < |rows| ==> SnapshotAt(table, rows, k)
    case Acted(userId, request, op) =>
      && AllOwned(table, userId, op.sessions)
      && (op.added.Some? ==>
            && op.added.value.userId == userId
            && (request.Refresh? ==>
                  && Owned(table, userId, request.id) && request.id in InactiveIds(op.sessions, |op.sessions|)
                  && table[request.id].authMethod == op.added.value.authMethod))
  }

  predicate SnapshotAt(table: Table, rows: seq<Session>, k: nat)
    requires k < |rows|
  {
    rows[k].id in table && table[rows[k].id].authMethod == rows[k].authMethod
  }

  ghost predicate Inv(s: State) {
    && HistoryOk(s.table, s.history)
    && (forall r :: r in s.flights ==> FlightOk(s.table, s.flights[r]))
  }

  lemma FlightSurvives(table: Table, table': Table, flight: Flight)
    requires FlightOk(table, flight) && OnlyCloses(table, table')
    ensures FlightOk(table', flight)
  {
    match flight
    case Fetched(userId, _, rows) =>
      forall k | 0 <= k < |rows| ensures OwnedAt(table', userId, rows, k) && SnapshotAt(table', rows, k) {
        assert OwnedAt(table, userId, rows, k) && SnapshotAt(table, rows, k);
      }
    case Acted(userId, _, op) =>
      forall k | 0 <= k < |op.sessions| ensures OwnedAt(table', userId, op.sessions, k) {
        assert OwnedAt(table, userId, op.sessions, k);
      }
  }

  lemma LoadIsOk(table: Table, userId: UserId, request: Request, rows: seq<Session>)
    requires Loaded(table, userId, rows)
    ensures FlightOk(table, Fetched(userId, request, rows))
  {
    forall k | 0 <= k < |rows| ensures OwnedAt(table, userId, rows, k) && SnapshotAt(table, rows, k) {
      assert LoadedAt(table, userId, rows, k);
    }
  }

  lemma ActIsOk(table: Table, userId: UserId, request: Request, rows: seq<Session>, now: int)
    requires FlightOk(table, Fetched(userId, request, rows))
    ensures FlightOk(table, Acted(userId, request, Operate(userId, rows, request, now)))
  {
    var op := Operate(userId, rows, request, now);
    assert |op.sessions| == |rows|;
    forall k | 0 <= k < |rows| ensures OwnedAt(table, userId, op.sessions, k) {
      assert OwnedAt(table, userId, rows, k);
      assert op.sessions[k].id == rows[k].id;
    }
    if op.added.Some? && request.Refresh? {
      var k := IndexOf(rows, request.id);
      assert OwnedAt(table, userId, rows, k) && SnapshotAt(table, rows, k);
      InactiveAfterDeactivating(rows, k, |rows|);
    }
  }

  lemma HistoryKept(table: Table, h: History, userId: UserId, request: Request, op: Operated, now: int, commit: Outcome)
    requires HistoryOk(table, h) && FlightOk(table, Acted(userId, request, op))
    ensures var recorded := Commits(table, op, now, commit) && op.added.Some?;
            HistoryOk(Committed(table, op, now, commit),
                      if recorded then h[op.added.value.id := Birth(ParentOf(request), |h|)] else h)
  {
    SaveIsTame(table, userId, op, now, commit);
    var table' := Committed(table, op, now, commit);
    if Commits(table, op, now, commit) && op.added.Some? {
      HistoryGrows(table, h, table', op.added.value.id, ParentOf(request));
    } else {
      HistorySurvivesClosing(table, h, table');
    }
  }

  lemma StepKeepsInv(s: State, step: Step)
    requires Inv(s) && Enabled(s, step)
    ensures Inv(Apply(s, step))
  {
    match step
    case Tick(_) =>
    case Load(r, userId, request, rows) => LoadIsOk(s.table, userId, request, rows);
    case Act(r) =>
      var Fetched(userId, request, rows) := s.flights[r];
      assert FlightOk(s.table, s.flights[r]);
      ActIsOk(s.table, userId, request, rows, s.now);
    case Save(r, commit) =>
      var Acted(userId, request, op) := s.flights[r];
      assert FlightOk(s.table, s.flights[r]);
      HistoryKept(s.table, s.history, userId, request, op, s.now, commit);
      SaveIsTame(s.table, userId, op, s.now, commit);
      forall q | q in s.flights ensures FlightOk(Apply(s, step).table, s.flights[q]) {
        FlightSurvives(s.table, Apply(s, step).table, s.flights[q]);
      }
    case Drop(_) =>
  }

  // -------------------------------------------------------------- whole runs

  ghost predicate StepTaken(run: Run<State, Step>, k: nat)
    requires |run.states| == |run.steps| + 1 && k < |run.steps|
  {
    Enabled(run.states[k], run.steps[k]) && run.states[k + 1] == Apply(run.states[k], run.steps[k])
  }

  ghost predicate IsRun(run: Run<State, Step>) {
    && |run.states| == |run.steps| + 1
    && run.states[0] == State(run.states[0].now, map[], map[], map[])
    && forall k :: 0 <= k < |run.steps| ==> StepTaken(run, k)
  }

  lemma {:induction false} InvHolds(run: Run<State, Step>, k: nat)
    requires IsRun(run) && k < |run.states|
    ensures Inv(run.states[k])
  {
    if k > 0 {
      InvHolds(run, k - 1);
      assert StepTaken(run, k - 1);
      StepKeepsInv(run.states[k - 1], run.steps[k - 1]);
    }
  }

  lemma StepIsTame(run: Run<State, Step>, k: nat)
    requires IsRun(run) && k < |run.steps|
    ensures OnlyCloses(run.states[k].table, run.states[k + 1].table)
    ensures if run.steps[k].Save?
            then run.steps[k].r in run.states[k].flights
                 && OnlyTouches(run.states[k].table, run.states[k + 1].table,
                                run.states[k].flights[run.steps[k].r].userId)
            else run.states[k + 1].table == run.states[k].table
  {
    InvHolds(run, k);
    assert StepTaken(run, k);
    var s := run.states[k];
    if run.steps[k].Save? {
      assert FlightOk(s.table, s.flights[run.steps[k].r]);
      SaveIsTame(s.table, s.flights[run.steps[k].r].userId, s.flights[run.steps[k].r].op, s.now, run.steps[k].commit);
    }
  }

  /** A request never changes another user's sessions, and adds none to them. */
  lemma RequestTouchesOnlyItsUser(run: Run<State, Step>, k: nat)
    requires IsRun(run) && k < |run.steps| && run.steps[k].Save?
    ensures run.steps[k].r in run.states[k].flights
    ensures OnlyTouches(run.states[k].table, run.states[k + 1].table, run.states[k].flights[run.steps[k].r].userId)
  {
    StepIsTame(run, k);
  }

  /** A session row once inactive never becomes active again; nor does it ever vanish,
      change owner, expiry, token or auth method. */
  lemma {:induction false} InactiveForGood(run: Run<State, Step>, j: nat, k: nat, id: SessionId)
    requires IsRun(run) && j <= k < |run.states| && id in run.states[j].table
    ensures id in run.states[k].table
    ensures Invalidated(run.states[k].table[id]) == Invalidated(run.states[j].table[id])
    ensures !run.states[j].table[id].isActive ==> !run.states[k].table[id].isActive
  {
    if j < k {
      InactiveForGood(run, j, k - 1, id);
      StepIsTame(run, k - 1);
    }
  }

  lemma {:induction false} RootShares(table: Table, h: History, id: SessionId)
    requires HistoryOk(table, h) && id in h
    ensures Root(h, id) in h && Root(h, id) in table
    ensures table[Root(h, id)].authMethod == table[id].authMethod && table[Root(h, id)].userId == table[id].userId
    decreases h[id].rank
  {
    assert BornAfterParent(h, id);
    if h[id].parent.Some? {
      assert ChildOk(table, h, id);
      RootShares(table, h, h[id].parent.value);
    }
  }

  /** Every session has the auth method and the user of the login at the root of its rotations. */
  lemma AuthMethodIsThatOfLogin(run: Run<State, Step>, k: nat, id: SessionId)
    requires IsRun(run) && k < |run.states| && id in run.states[k].table
    ensures var s := run.states[k];
            && WellFounded(s.history) && id in s.history && Root(s.history, id) in s.table &&
                Root(s.history, id) in s.history
            && s.history[Root(s.history, id)].parent.None?
            && s.table[id].authMethod == s.table[Root(s.history, id)].authMethod
            && s.table[id].userId == s.table[Root(s.history, id)].userId
  {
    InvHolds(run, k);
    RootShares(run.states[k].table, run.states[k].history, id);
    RootIsALogin(run.states[k].history, id);
  }

  // --------------------------------------- when interleaving does not matter

  /** Other users' saves leave a loaded copy current. */
  lemma LoadStaysCurrent(table: Table, table': Table, userId: UserId, other: UserId, rows: seq<Session>)
    requires Loaded(table, userId, rows) && OnlyCloses(table, table') && OnlyTouches(table, table', other) &&
             other != userId
    ensures Loaded(table', userId, rows)
  {
    forall k | 0 <= k < |rows| ensures LoadedAt(table', userId, rows, k) {
      assert LoadedAt(table, userId, rows, k);
    }
    forall id | id in table' && table'[id].userId == userId ensures id in IdsUpTo(rows, |rows|) {
      assert id in table;
    }
  }

  predicate Concerns(step: Step, r: RequestId) {
    !step.Tick? && step.r == r
  }

  /** Between the load and the save nothing else saved for this user or handled this request. */
  ghost predicate Undisturbed(run: Run<State, Step>, l: nat, a: nat, v: nat, r: RequestId, userId: UserId)
    requires |run.states| == |run.steps| + 1 && v < |run.steps|
  {
    forall k {:trigger run.steps[k]} :: l < k < v && k != a ==>
      && !Concerns(run.steps[k], r)
      && (run.steps[k].Save? && run.steps[k].r in run.states[k].flights ==>
          run.states[k].flights[run.steps[k].r].userId != userId)
  }

  lemma OthersKeepFlight(s: State, step: Step, r: RequestId)
    requires Enabled(s, step) && !Concerns(step, r) && r in s.flights
    ensures r in Apply(s, step).flights && Apply(s, step).flights[r] == s.flights[r]
  {
  }

  lemma OthersKeepLoad(run: Run<State, Step>, k: nat, userId: UserId, rows: seq<Session>)
    requires IsRun(run) && k < |run.steps| && Loaded(run.states[k].table, userId, rows)
    requires run.steps[k].Save? && run.steps[k].r in run.states[k].flights ==>
               run.states[k].flights[run.steps[k].r].userId != userId
    ensures Loaded(run.states[k + 1].table, userId, rows)
  {
    StepIsTame(run, k);
    if run.steps[k].Save? {
      LoadStaysCurrent(run.states[k].table, run.states[k + 1].table, userId,
                       run.states[k].flights[run.steps[k].r].userId, rows);
    }
  }

  /** The flight of the request loaded at step `l` and operated at step `a`. */
  ghost predicate FlightAt(run: Run<State, Step>, l: nat, a: nat, k: nat)
    requires |run.states| == |run.steps| + 1 && l < |run.steps| && a < |run.steps| && k < |run.states| &&
             run.steps[l].Load?
  {
    var Load(r, userId, request, rows) := run.steps[l];
    && r in run.states[k].flights && Loaded(run.states[k].table, userId, rows)
    && run.states[k].flights[r] == (if k <= a then Fetched(userId, request, rows)
                                    else Acted(userId, request, Operate(userId, rows, request, run.states[a].now)))
  }

  lemma {:induction false} FlightUntil(run: Run<State, Step>, l: nat, a: nat, v: nat, k: nat)
    requires IsRun(run) && l < a < v < |run.steps| && l < k <= v
    requires run.steps[l].Load? && run.steps[a] == Act(run.steps[l].r)
    requires Undisturbed(run, l, a, v, run.steps[l].r, run.steps[l].userId)
    requires Operate(run.steps[l].userId, run.steps[l].rows, run.steps[l].request, run.states[a].now).saves
    ensures FlightAt(run, l, a, k)
  {
    assert StepTaken(run, k - 1);
    if k > l + 1 {
      FlightUntil(run, l, a, v, k - 1);
      if k - 1 != a {
        OthersKeepFlight(run.states[k - 1], run.steps[k - 1], run.steps[l].r);
        OthersKeepLoad(run, k - 1, run.steps[l].userId, run.steps[l].rows);
      }
    }
  }

  /** If no other save for the same user falls between a request's load and its save, the save
      does exactly what the reference semantics decides on the table at that moment. */
  lemma UndisturbedSaveIsSerial(run: Run<State, Step>, l: nat, a: nat, v: nat)
    requires IsRun(run) && l < a < v < |run.steps|
    requires run.steps[l].Load? && run.steps[a] == Act(run.steps[l].r) && run.steps[v].Save? &&
             run.steps[v].r == run.steps[l].r
    requires Undisturbed(run, l, a, v, run.steps[l].r, run.steps[l].userId)
    requires Operate(run.steps[l].userId, run.steps[l].rows, run.steps[l].request, run.states[a].now).saves
    ensures var Load(_, userId, request, _) := run.steps[l];
            run.states[v + 1].table ==
            if run.steps[v].commit != Failed(false)
            then Changed(run.states[v].table, userId,
                         Decide(run.states[v].table, userId, request, run.states[a].now, run.states[v].now))
            else run.states[v].table
  {
    var Load(r, userId, request, rows) := run.steps[l];
    FlightUntil(run, l, a, v, v);
    InvHolds(run, v);
    assert StepTaken(run, v);
    ServeMatchesReference(run.states[v].table, userId, rows, request, run.states[a].now, run.states[v].now);
  }
}
