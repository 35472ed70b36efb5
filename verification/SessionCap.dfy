/** The cap of 25 active sessions under concurrent requests: exactly when it holds, that requests
    which do not overlap with an insertion keep it, and that overlapping logins know no bound. */
module SessionCap {

  import opened Prelude
  import opened SessionDomain
  import opened SessionLineage
  import opened SessionReference
  import opened SessionInterleaving
  import opened SessionOverlap

  // ------------------------------------------------------- what a save can add

  /** The step commits a new session, of a login or of a rotation. */
  predicate Inserting(s: State, step: Step) {
    && step.Save? && step.r in s.flights && s.flights[step.r].Acted?
    && s.flights[step.r].op.added.Some? && Commits(s.table, s.flights[step.r].op, s.now, step.commit)
  }

  predicate InsertsFor(s: State, step: Step, userId: UserId) {
    Inserting(s, step) && s.flights[step.r].userId == userId
  }

  /** The user's usable sessions that the save does not close. */
  function Staying(s: State, step: Step): set<SessionId>
    requires Inserting(s, step)
  {
    var Acted(userId, _, op) := s.flights[step.r];
    UsableIds(s.table, userId, s.now) - InactiveIds(op.sessions, |op.sessions|)
  }

  /** At the moment of the save there is room for the new session, or it is expired already. */
  predicate HasRoom(s: State, step: Step)
    requires Inserting(s, step)
  {
    s.now >= s.flights[step.r].op.added.value.expiresAt || |Staying(s, step)| < MAX_ACTIVE_SESSIONS
  }

  ghost predicate CapAt(s: State) {
    forall u :: |UsableIds(s.table, u, s.now)| <= MAX_ACTIVE_SESSIONS
  }

  lemma UsableAfterInsert(table: Table, userId: UserId, op: Operated, now: int, commit: Outcome)
    requires Keyed(table) && AllOwned(table, userId, op.sessions) && Commits(table, op, now, commit)
    requires op.added.Some? && op.added.value.userId == userId
    ensures var added := op.added.value;
            var staying := UsableIds(table, userId, now) - InactiveIds(op.sessions, |op.sessions|);
            && added.id !in table
            && UsableIds(Committed(table, op, now, commit), userId, now) ==
               staying + (if now >= added.expiresAt then {} else {added.id})
  {
    var added, inactive := op.added.value, InactiveIds(op.sessions, |op.sessions|);
    assert added.id !in inactive by {
      if added.id in inactive {
        InactiveIdsOwned(table, userId, op.sessions, |op.sessions|, added.id);
      }
    }
    assert Committed(table, op, now, commit) == MarkInactive(table[added.id := InsertedRow(added, now)], inactive);
  }

  lemma OthersUsableAlike(table: Table, table': Table, userId: UserId, u: UserId, now: int)
    requires OnlyTouches(table, table', userId) && OnlyCloses(table, table') && u != userId
    ensures UsableIds(table', u, now) == UsableIds(table, u, now)
  {
  }

  lemma InsertUsable(s: State, step: Step)
    requires Inv(s) && Enabled(s, step) && Inserting(s, step)
    ensures var Acted(userId, _, op) := s.flights[step.r];
            var s' := Apply(s, step);
            && op.added.value.id !in Staying(s, step)
            && UsableIds(s'.table, userId, s'.now) ==
               Staying(s, step) + (if s.now >= op.added.value.expiresAt then {} else {op.added.value.id})
            && forall u :: u != userId ==> UsableIds(s'.table, u, s'.now) == UsableIds(s.table, u, s.now)
  {
    var Acted(userId, _, op) := s.flights[step.r];
    assert FlightOk(s.table, s.flights[step.r]);
    UsableAfterInsert(s.table, userId, op, s.now, step.commit);
    SaveIsTame(s.table, userId, op, s.now, step.commit);
    var s' := Apply(s, step);
    forall u | u != userId ensures UsableIds(s'.table, u, s'.now) == UsableIds(s.table, u, s.now) {
      OthersUsableAlike(s.table, s'.table, userId, u, s.now);
    }
  }

  /** Time and saves without a new session only make usable sessions fewer. */
  lemma OtherStepsShrink(s: State, step: Step, u: UserId)
    requires Inv(s) && Enabled(s, step) && !Inserting(s, step)
    ensures UsableIds(Apply(s, step).table, u, Apply(s, step).now) <= UsableIds(s.table, u, s.now)
  {
    if step.Save? {
      var Acted(userId, _, op) := s.flights[step.r];
      assert FlightOk(s.table, s.flights[step.r]);
      SaveIsTame(s.table, userId, op, s.now, step.commit);
    }
  }

  lemma StepKeepsCapIff(s: State, step: Step)
    requires Inv(s) && Enabled(s, step) && CapAt(s)
    ensures CapAt(Apply(s, step)) <==> (Inserting(s, step) ==> HasRoom(s, step))
  {
    if Inserting(s, step) {
      InsertUsable(s, step);
      var userId := s.flights[step.r].userId;
      SubsetSize(Staying(s, step), UsableIds(s.table, userId, s.now));
      forall u ensures u != userId ==> |UsableIds(Apply(s, step).table, u, s.now)| <= MAX_ACTIVE_SESSIONS {
      }
      assert CapAt(Apply(s, step)) <==> |UsableIds(Apply(s, step).table, userId, s.now)| <= MAX_ACTIVE_SESSIONS;
    } else {
      forall u ensures |UsableIds(Apply(s, step).table, u, Apply(s, step).now)| <= MAX_ACTIVE_SESSIONS {
        OtherStepsShrink(s, step, u);
        SubsetSize(UsableIds(Apply(s, step).table, u, Apply(s, step).now), UsableIds(s.table, u, s.now));
      }
    }
  }

  // -------------------------------------------------------------- whole runs

  ghost predicate RoomAt(run: Run<State, Step>, v: nat)
    requires |run.states| == |run.steps| + 1 && v < |run.steps|
  {
    Inserting(run.states[v], run.steps[v]) ==> HasRoom(run.states[v], run.steps[v])
  }

  ghost predicate RoomSoFar(run: Run<State, Step>, k: nat)
    requires |run.states| == |run.steps| + 1 && k < |run.states|
  {
    forall v :: 0 <= v < k ==> RoomAt(run, v)
  }

  ghost predicate CapSoFar(run: Run<State, Step>, k: nat)
    requires k < |run.states|
  {
    forall j :: 0 <= j <= k ==> CapAt(run.states[j])
  }

  lemma EmptyTableCap(run: Run<State, Step>)
    requires IsRun(run)
    ensures CapAt(run.states[0])
  {
    forall u ensures |UsableIds(run.states[0].table, u, run.states[0].now)| <= MAX_ACTIVE_SESSIONS {
      assert UsableIds(run.states[0].table, u, run.states[0].now) == {};
    }
  }

  /** In every interleaving, no user ever has more than 25 usable sessions if and only if every
      save that committed a new session found room for it at that moment, a check the
      transaction does not make. */
  lemma {:induction false} CapHoldsIff(run: Run<State, Step>, k: nat)
    requires IsRun(run) && k < |run.states|
    ensures CapSoFar(run, k) <==> RoomSoFar(run, k)
  {
    if k == 0 {
      EmptyTableCap(run);
    } else {
      CapHoldsIff(run, k - 1);
      assert CapSoFar(run, k) <==> CapSoFar(run, k - 1) && CapAt(run.states[k]);
      assert RoomSoFar(run, k) <==> RoomSoFar(run, k - 1) && RoomAt(run, k - 1);
      if CapSoFar(run, k - 1) {
        InvHolds(run, k - 1);
        assert StepTaken(run, k - 1);
        StepKeepsCapIff(run.states[k - 1], run.steps[k - 1]);
      }
    }
  }

  // ------------------------------------------ what is checked at the load suffices

  ghost predicate NoInsertFor(run: Run<State, Step>, from: nat, to: nat, userId: UserId)
    requires |run.states| == |run.steps| + 1 && to <= |run.steps|
  {
    forall j :: from <= j < to ==> !InsertsFor(run.states[j], run.steps[j], userId)
  }

  /** The save at `v` has its load at `l`, and no other new session of the user was saved in between. */
  ghost predicate InsertsAlone(run: Run<State, Step>, l: nat, v: nat)
    requires |run.states| == |run.steps| + 1
  {
    Spans(run, l, v) && NoInsertFor(run, l + 1, v, run.steps[l].userId)
  }

  lemma StepAddsNoRow(s: State, step: Step, userId: UserId, id: SessionId)
    requires Inv(s) && Enabled(s, step) && !InsertsFor(s, step, userId)
    requires Owned(Apply(s, step).table, userId, id)
    ensures Owned(s.table, userId, id)
  {
    if step.Save? {
      var Acted(u, _, op) := s.flights[step.r];
      assert FlightOk(s.table, s.flights[step.r]);
      SaveIsTame(s.table, u, op, s.now, step.commit);
    }
  }

  lemma {:induction false} NoNewRows(run: Run<State, Step>, l: nat, k: nat, userId: UserId, id: SessionId)
    requires IsRun(run) && l <= k < |run.states| && NoInsertFor(run, l, k, userId)
    requires Owned(run.states[k].table, userId, id)
    ensures Owned(run.states[l].table, userId, id)
  {
    if l < k {
      InvHolds(run, k - 1);
      assert StepTaken(run, k - 1);
      StepAddsNoRow(run.states[k - 1], run.steps[k - 1], userId, id);
      NoNewRows(run, l, k - 1, userId, id);
    }
  }

  lemma {:induction false} LaterStateLaterTime(run: Run<State, Step>, j: nat, k: nat)
    requires IsRun(run) && j <= k < |run.states|
    ensures run.states[j].now <= run.states[k].now
  {
    if j < k {
      LaterStateLaterTime(run, j, k - 1);
      assert StepTaken(run, k - 1);
    }
  }

  /** Without insertions, what is usable later was usable at the load, by any clock reading since. */
  lemma UsableWasLoaded(run: Run<State, Step>, l: nat, v: nat, userId: UserId, t: int)
    requires IsRun(run) && l <= v < |run.states| && NoInsertFor(run, l, v, userId) && t <= run.states[v].now
    ensures UsableIds(run.states[v].table, userId, run.states[v].now) <= UsableIds(run.states[l].table, userId, t)
  {
    forall id | id in UsableIds(run.states[v].table, userId, run.states[v].now)
      ensures id in UsableIds(run.states[l].table, userId, t)
    {
      NoNewRows(run, l, v, userId, id);
      InactiveForGood(run, l, v, id);
    }
  }

  /** A login counted fewer than 25 usable sessions among the rows it had loaded. */
  lemma LoginCountedLoaded(run: Run<State, Step>, l: nat, a: nat, v: nat)
    requires IsRun(run) && Spans(run, l, v) && run.steps[l].request.Login?
    requires Inserting(run.states[v], run.steps[v]) && Traced(run, v, run.steps[v].r, l, a)
    ensures |UsableIds(run.states[l].table, run.steps[l].userId, run.states[a].now)| < MAX_ACTIVE_SESSIONS
  {
    var Load(_, userId, _, rows) := run.steps[l];
    var t := run.states[a].now;
    assert StepTaken(run, l);
    LoadedCount(run.states[l].table, userId, rows, x => Usable(x, t));
    assert UsableCount(rows, t) == |UsableIds(run.states[l].table, userId, t)|;
  }

  /** So at the save it has room. */
  lemma LoginHasRoom(run: Run<State, Step>, l: nat, a: nat, v: nat)
    requires IsRun(run) && InsertsAlone(run, l, v) && run.steps[l].request.Login?
    requires Inserting(run.states[v], run.steps[v]) && Traced(run, v, run.steps[v].r, l, a)
    ensures RoomAt(run, v)
  {
    var userId, t := run.steps[l].userId, run.states[a].now;
    LoginCountedLoaded(run, l, a, v);
    LaterStateLaterTime(run, a, v);
    UsableWasLoaded(run, l, v, userId, t);
    SubsetSize(Staying(run.states[v], run.steps[v]), UsableIds(run.states[l].table, userId, t));
  }

  /** A rotation found its session usable among the rows it had loaded, and closes it. */
  lemma RotationReplacesLoaded(run: Run<State, Step>, l: nat, a: nat, v: nat)
    requires IsRun(run) && Spans(run, l, v) && run.steps[l].request.Refresh?
    requires Inserting(run.states[v], run.steps[v]) && Traced(run, v, run.steps[v].r, l, a)
    ensures var id := run.steps[l].request.id;
            && id in UsableIds(run.states[l].table, run.steps[l].userId, run.states[a].now)
            && id !in Staying(run.states[v], run.steps[v])
  {
    var Load(_, userId, request, rows) := run.steps[l];
    assert StepTaken(run, l);
    InvHolds(run, l);
    InvHolds(run, v);
    LoadedIndex(run.states[l].table, userId, rows, request.id);
    assert FlightOk(run.states[v].table, run.states[v].flights[run.steps[v].r]);
  }

  /** So it takes the place of one. */
  lemma RotationHasRoom(run: Run<State, Step>, l: nat, a: nat, v: nat)
    requires IsRun(run) && InsertsAlone(run, l, v) && run.steps[l].request.Refresh? && CapAt(run.states[l])
    requires Inserting(run.states[v], run.steps[v]) && Traced(run, v, run.steps[v].r, l, a)
    ensures RoomAt(run, v)
  {
    var userId, id := run.steps[l].userId, run.steps[l].request.id;
    var loaded := UsableIds(run.states[l].table, userId, run.states[a].now);
    RotationReplacesLoaded(run, l, a, v);
    LaterStateLaterTime(run, l, a);
    LaterStateLaterTime(run, a, v);
    UsableWasLoaded(run, l, v, userId, run.states[a].now);
    SubsetSize(Staying(run.states[v], run.steps[v]), loaded - {id});
    SubsetSize(loaded, UsableIds(run.states[l].table, userId, run.states[l].now));
  }

  lemma LoneInsertHasRoom(run: Run<State, Step>, l: nat, v: nat)
    requires IsRun(run) && InsertsAlone(run, l, v) && CapAt(run.states[l])
    ensures RoomAt(run, v)
  {
    if Inserting(run.states[v], run.steps[v]) {
      var a := SpanTraced(run, l, v);
      if run.steps[l].request.Login? {
        LoginHasRoom(run, l, a, v);
      } else {
        RotationHasRoom(run, l, a, v);
      }
    }
  }

  /** A save that no other save for the user disturbed is such a save. */
  lemma UndisturbedInsertsAlone(run: Run<State, Step>, l: nat, a: nat, v: nat)
    requires IsRun(run) && SavesAlone(run, l, a, v)
    ensures InsertsAlone(run, l, v)
  {
    var r, userId := run.steps[l].r, run.steps[l].userId;
    forall k | l + 1 <= k <= v ensures r in run.states[k].flights {
      FlightUntil(run, l, a, v, k);
    }
    forall j | l + 1 <= j < v ensures !InsertsFor(run.states[j], run.steps[j], userId) {
      assert run.steps[j] == run.steps[j];
    }
  }

  ghost predicate AllInsertAlone(run: Run<State, Step>, k: nat)
    requires |run.states| == |run.steps| + 1 && k < |run.states|
  {
    forall v :: 0 <= v < k && Inserting(run.states[v], run.steps[v]) ==> exists l: nat :: InsertsAlone(run, l, v)
  }

  /** In every interleaving in which no new session of a user is saved between the load and the save of
      another one of theirs, no user ever has more than 25 usable sessions. */
  lemma {:induction false} CapHoldsWithoutOverlap(run: Run<State, Step>, k: nat)
    requires IsRun(run) && k < |run.states| && AllInsertAlone(run, k)
    ensures CapSoFar(run, k)
  {
    if k == 0 {
      EmptyTableCap(run);
    } else {
      CapHoldsWithoutOverlap(run, k - 1);
      CapHoldsIff(run, k - 1);
      if Inserting(run.states[k - 1], run.steps[k - 1]) {
        var l: nat :| InsertsAlone(run, l, k - 1);
        LoneInsertHasRoom(run, l, k - 1);
      }
      assert RoomSoFar(run, k);
      CapHoldsIff(run, k);
    }
  }

  // ---------------------------------------------------- overlapping logins

  function LoginAs(id: SessionId): Request {
    Login(id, 0, 100, Password)
  }

  function OpenRow(id: SessionId): Session {
    Session(id, 1, 0, 100, true, 0, Password)
  }

  /** Requests `from` to `n`, all loaded from the empty table. */
  function Waiting(from: nat, n: nat): map<RequestId, Flight> {
    map r: nat | from <= r < n :: Fetched(1, LoginAs(r), [])
  }

  function OpenTable(n: nat): Table {
    map id: nat | 0 <= id < n :: OpenRow(id)
  }

  lemma {:induction false} AllLoad(n: nat) returns (run: Run<State, Step>)
    ensures IsRun(run) && Last(run).now == 0 && Last(run).table == map[] && Last(run).flights == Waiting(0, n)
  {
    if n == 0 {
      run := Run([State(0, map[], map[], map[])], []);
    } else {
      run := AllLoad(n - 1);
      var step := Load(n - 1, 1, LoginAs(n - 1), []);
      TakingIsRun(run, step);
      run := Taking(run, step);
      assert Waiting(0, n) == Waiting(0, n - 1)[n - 1 := Fetched(1, LoginAs(n - 1), [])];
    }
  }

  lemma LoginOnEmptyLoad(table: Table, id: SessionId)
    requires id !in table
    ensures var op := Operate(1, [], LoginAs(id), 0);
            && op.saves && Commits(table, op, 0, Succeeded)
            && Committed(table, op, 0, Succeeded) == table[id := OpenRow(id)]
  {
    assert MarkInactive(table[id := OpenRow(id)], {}) == table[id := OpenRow(id)];
  }

  lemma WaitingShrinks(i: nat, n: nat)
    requires i < n
    ensures i in Waiting(i, n) && Waiting(i, n)[i] == Fetched(1, LoginAs(i), [])
    ensures Waiting(i + 1, n) == Waiting(i, n) - {i}
    ensures i !in OpenTable(i) && OpenTable(i + 1) == OpenTable(i)[i := OpenRow(i)]
  {
  }

  /** One of the waiting requests acts and saves. */
  lemma WaitingLoginServed(s: State, i: nat, flights: map<RequestId, Flight>) returns (s': State)
    requires s.now == 0 && s.flights == flights && i !in s.table
    requires i in flights && flights[i] == Fetched(1, LoginAs(i), [])
    ensures Enabled(s, Act(i)) && Enabled(Apply(s, Act(i)), Save(i, Succeeded))
    ensures s' == Apply(Apply(s, Act(i)), Save(i, Succeeded))
    ensures s'.now == 0 && s'.table == s.table[i := OpenRow(i)] && s'.flights == flights - {i}
  {
    LoginOnEmptyLoad(s.table, i);
    var acted := Acted(1, LoginAs(i), Operate(1, [], LoginAs(i), 0));
    assert Apply(s, Act(i)) == s.(flights := flights[i := acted]);
    s' := Apply(Apply(s, Act(i)), Save(i, Succeeded));
    assert flights[i := acted] - {i} == flights - {i};
  }

  lemma OneMoreLogin(run0: Run<State, Step>, i: nat, n: nat) returns (run: Run<State, Step>)
    requires i < n && IsRun(run0)
    requires Last(run0).now == 0 && Last(run0).table == OpenTable(i) && Last(run0).flights == Waiting(i, n)
    ensures IsRun(run)
    ensures Last(run).now == 0 && Last(run).table == OpenTable(i + 1) && Last(run).flights == Waiting(i + 1, n)
  {
    WaitingShrinks(i, n);
    var served := WaitingLoginServed(Last(run0), i, Waiting(i, n));
    TakingIsRun(run0, Act(i));
    run := Taking(run0, Act(i));
    TakingIsRun(run, Save(i, Succeeded));
    run := Taking(run, Save(i, Succeeded));
  }

  lemma {:induction false} SomeSave(i: nat, n: nat) returns (run: Run<State, Step>)
    requires i <= n
    ensures IsRun(run)
    ensures Last(run).now == 0 && Last(run).table == OpenTable(i) && Last(run).flights == Waiting(i, n)
  {
    if i == 0 {
      run := AllLoad(n);
      assert OpenTable(0) == map[];
    } else {
      run := SomeSave(i - 1, n);
      run := OneMoreLogin(run, i - 1, n);
    }
  }

  lemma {:induction false} OpenedUsable(n: nat)
    ensures |UsableIds(OpenTable(n), 1, 0)| == n
  {
    if n == 0 {
      assert UsableIds(OpenTable(0), 1, 0) == {};
    } else {
      OpenedUsable(n - 1);
      assert UsableIds(OpenTable(n), 1, 0) == UsableIds(OpenTable(n - 1), 1, 0) + {n - 1};
    }
  }

  /** Logins that all load before any saves all pass the check: for every n there is a run that
      leaves one user with n usable sessions. */
  lemma OverlappingLoginsKnowNoCap(n: nat) returns (run: Run<State, Step>)
    ensures IsRun(run) && |UsableIds(Last(run).table, 1, Last(run).now)| == n
  {
    run := SomeSave(n, n);
    OpenedUsable(n);
  }
}
