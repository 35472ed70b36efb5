/** What concurrent requests of one user do to each other: exactly when rotation families
    stay chains, exactly when the session cap holds, and what reuse detection still promises
    when load, operation and save of several requests overlap. */
module SessionOverlap {

  import opened Prelude
  import opened SessionDomain
  import opened SessionLineage
  import opened SessionReference
  import opened SessionInterleaving

  // --------------------------------------------------- a request, load to save

  /** Step `v` saves the request that step `l` loaded. */
  ghost predicate Spans(run: Run<State, Step>, l: nat, v: nat)
    requires |run.states| == |run.steps| + 1
  {
    && l < v < |run.steps| && run.steps[l].Load? && run.steps[v].Save? && run.steps[v].r == run.steps[l].r
    && InFlight(run, l + 1, v, run.steps[l].r)
  }

  ghost predicate InFlight(run: Run<State, Step>, from: nat, to: nat, r: RequestId)
    requires to < |run.states|
  {
    forall k :: from <= k <= to ==> r in run.states[k].flights
  }

  /** A request in flight in state `k` was loaded at step `l` and, if it has acted, acted at step `a`. */
  ghost predicate Traced(run: Run<State, Step>, k: nat, r: RequestId, l: nat, a: nat)
    requires |run.states| == |run.steps| + 1 && k < |run.states| && r in run.states[k].flights
  {
    && l < k && run.steps[l].Load? && run.steps[l].r == r && InFlight(run, l + 1, k, r)
    && var Load(_, userId, request, rows) := run.steps[l];
       match run.states[k].flights[r]
       case Fetched(u, q, loaded) => u == userId && q == request && loaded == rows
       case Acted(u, q, op) =>
         u == userId && q == request && l < a < k && op == Operate(userId, rows, request, run.states[a].now)
  }

  lemma TraceGoesOn(run: Run<State, Step>, k: nat, r: RequestId, l: nat, a: nat) returns (a': nat)
    requires IsRun(run) && k < |run.steps| && r in run.states[k].flights && r in run.states[k + 1].flights
    requires Traced(run, k, r, l, a)
    ensures Traced(run, k + 1, r, l, a')
  {
    assert StepTaken(run, k);
    a' := if run.steps[k] == Act(r) then k else a;
  }

  /** Every request in flight has a load. */
  lemma {:induction false} FlightHasLoad(run: Run<State, Step>, k: nat, r: RequestId) returns (l: nat, a: nat)
    requires IsRun(run) && k < |run.states| && r in run.states[k].flights
    ensures Traced(run, k, r, l, a)
  {
    assert k > 0;
    assert StepTaken(run, k - 1);
    if r in run.states[k - 1].flights {
      l, a := FlightHasLoad(run, k - 1, r);
      a := TraceGoesOn(run, k - 1, r, l, a);
    } else {
      l, a := k - 1, 0;
    }
  }

  /** So every save has one, and only one. */
  lemma SaveHasLoad(run: Run<State, Step>, v: nat) returns (l: nat, a: nat)
    requires IsRun(run) && v < |run.steps| && run.steps[v].Save?
    ensures run.steps[v].r in run.states[v].flights && run.states[v].flights[run.steps[v].r].Acted?
    ensures Spans(run, l, v) && Traced(run, v, run.steps[v].r, l, a)
  {
    assert StepTaken(run, v);
    l, a := FlightHasLoad(run, v, run.steps[v].r);
  }

  lemma LoadIsUnique(run: Run<State, Step>, l: nat, l': nat, v: nat)
    requires IsRun(run) && Spans(run, l, v) && Spans(run, l', v)
    ensures l == l'
  {
    assert StepTaken(run, l) && StepTaken(run, l');
  }

  /** What the save at `v` is about to save, in terms of its load. */
  lemma SpanTraced(run: Run<State, Step>, l: nat, v: nat) returns (a: nat)
    requires IsRun(run) && Spans(run, l, v)
    ensures run.steps[v].r in run.states[v].flights && run.states[v].flights[run.steps[v].r].Acted?
    ensures Traced(run, v, run.steps[v].r, l, a)
    ensures Loaded(run.states[l].table, run.steps[l].userId, run.steps[l].rows)
  {
    var l';
    l', a := SaveHasLoad(run, v);
    LoadIsUnique(run, l, l', v);
    assert StepTaken(run, l);
  }

  // ------------------------------------------------------- rotations and lineage

  /** The step commits a rotation. */
  predicate Rotating(s: State, step: Step) {
    && step.Save? && step.r in s.flights && s.flights[step.r].Acted? && s.flights[step.r].request.Refresh?
    && s.flights[step.r].op.added.Some? && Commits(s.table, s.flights[step.r].op, s.now, step.commit)
  }

  predicate Rotates(s: State, step: Step, id: SessionId) {
    Rotating(s, step) && s.flights[step.r].request.id == id
  }

  /** The step commits a rotation of a session that has been rotated already. */
  ghost predicate RotatesAgain(s: State, step: Step) {
    Rotating(s, step) && Rotated(s.history, s.flights[step.r].request.id)
  }

  /** What a step does to the lineage. */
  lemma StepBirths(s: State, step: Step)
    requires Inv(s) && Enabled(s, step)
    ensures var h' := Apply(s, step).history;
            && (forall id :: id in s.history ==> id in h' && h'[id] == s.history[id])
            && (forall id :: id in h' && id !in s.history && h'[id].parent.Some? ==>
                  Rotates(s, step, h'[id].parent.value))
            && (forall x, y :: x in h' && y in h' && x !in s.history && y !in s.history ==> x == y)
  {
    if step.Save? {
      var Acted(userId, _, op) := s.flights[step.r];
      assert FlightOk(s.table, s.flights[step.r]);
      SaveIsTame(s.table, userId, op, s.now, step.commit);
    }
  }

  lemma RotationIsRecorded(s: State, step: Step, id: SessionId)
    requires Inv(s) && Enabled(s, step) && Rotates(s, step, id)
    ensures var newId := s.flights[step.r].op.added.value.id;
            newId !in s.history && newId in Apply(s, step).history
            && Apply(s, step).history[newId].parent == Some(id)
  {
    var Acted(userId, _, op) := s.flights[step.r];
    assert FlightOk(s.table, s.flights[step.r]);
    SaveIsTame(s.table, userId, op, s.now, step.commit);
  }

  lemma RotatedStays(run: Run<State, Step>, j: nat, id: SessionId)
    requires IsRun(run) && j < |run.steps| && Rotated(run.states[j].history, id)
    ensures Rotated(run.states[j + 1].history, id)
  {
    InvHolds(run, j);
    assert StepTaken(run, j);
    StepBirths(run.states[j], run.steps[j]);
    var child :| child in run.states[j].history && run.states[j].history[child].parent == Some(id);
    assert child in run.states[j + 1].history && run.states[j + 1].history[child].parent == Some(id);
  }

  /** One step breaks the chains exactly if it rotates a session once more. */
  lemma StepKeepsChainsIff(s: State, step: Step)
    requires Inv(s) && Enabled(s, step)
    ensures OneChildEach(Apply(s, step).history) <==> OneChildEach(s.history) && !RotatesAgain(s, step)
  {
    var h, h' := s.history, Apply(s, step).history;
    StepBirths(s, step);
    if RotatesAgain(s, step) {
      var id := s.flights[step.r].request.id;
      RotationIsRecorded(s, step, id);
      var child :| child in h && h[child].parent == Some(id);
      assert h'[child].parent == h'[s.flights[step.r].op.added.value.id].parent;
    } else if OneChildEach(h) {
      forall x, y | x in h' && y in h' && h'[x].parent.Some? && h'[x].parent == h'[y].parent ensures x == y {
        var parent := h'[x].parent.value;
        assert x in h || y in h ==> Rotated(h, parent);
      }
    } else {
      var x, y :| x in h && y in h && h[x].parent.Some? && h[x].parent == h[y].parent && x != y;
      assert h'[x].parent == h'[y].parent;
    }
  }

  ghost predicate AgainAt(run: Run<State, Step>, j: nat)
    requires |run.states| == |run.steps| + 1 && j < |run.steps|
  {
    RotatesAgain(run.states[j], run.steps[j])
  }

  ghost predicate NoneAgain(run: Run<State, Step>, k: nat)
    requires |run.states| == |run.steps| + 1 && k < |run.states|
  {
    forall j :: 0 <= j < k ==> !AgainAt(run, j)
  }

  lemma NoneAgainStep(run: Run<State, Step>, k: nat)
    requires |run.states| == |run.steps| + 1 && 0 < k < |run.states|
    ensures NoneAgain(run, k) <==> NoneAgain(run, k - 1) && !AgainAt(run, k - 1)
  {
  }

  lemma ChainsAfterStep(run: Run<State, Step>, k: nat)
    requires IsRun(run) && k < |run.steps|
    ensures OneChildEach(run.states[k + 1].history) <==> OneChildEach(run.states[k].history) && !AgainAt(run, k)
  {
    InvHolds(run, k);
    assert StepTaken(run, k);
    StepKeepsChainsIff(run.states[k], run.steps[k]);
  }

  lemma {:induction false} OneChildEachIffNoneAgain(run: Run<State, Step>, k: nat)
    requires IsRun(run) && k < |run.states|
    ensures OneChildEach(run.states[k].history) <==> NoneAgain(run, k)
  {
    if k > 0 {
      OneChildEachIffNoneAgain(run, k - 1);
      ChainsAfterStep(run, k - 1);
      NoneAgainStep(run, k);
    }
  }

  lemma {:induction false} RotatedSince(run: Run<State, Step>, j: nat, k: nat, id: SessionId)
    requires IsRun(run) && j < k < |run.states| && Rotates(run.states[j], run.steps[j], id)
    ensures Rotated(run.states[k].history, id)
  {
    if k == j + 1 {
      InvHolds(run, j);
      assert StepTaken(run, j);
      RotationIsRecorded(run.states[j], run.steps[j], id);
    } else {
      RotatedSince(run, j, k - 1, id);
      RotatedStays(run, k - 1, id);
    }
  }

  lemma {:induction false} RotatedBySomeStep(run: Run<State, Step>, k: nat, id: SessionId) returns (j: nat)
    requires IsRun(run) && k < |run.states| && Rotated(run.states[k].history, id)
    ensures j < k && Rotates(run.states[j], run.steps[j], id)
  {
    assert k > 0;
    if Rotated(run.states[k - 1].history, id) {
      j := RotatedBySomeStep(run, k - 1, id);
    } else {
      j := k - 1;
      InvHolds(run, j);
      assert StepTaken(run, j);
      StepBirths(run.states[j], run.steps[j]);
      var child :| child in run.states[k].history && run.states[k].history[child].parent == Some(id);
      assert child !in run.states[j].history;
    }
  }

  /** A session that is still active when its rotation is saved was not rotated before. */
  lemma ActiveParentIsFirst(run: Run<State, Step>, k: nat, id: SessionId)
    requires IsRun(run) && k < |run.steps| && Rotates(run.states[k], run.steps[k], id)
    requires id in run.states[k].table && run.states[k].table[id].isActive
    ensures !AgainAt(run, k)
  {
    InvHolds(run, k);
    if Rotated(run.states[k].history, id) {
      RotatedIsInactive(run.states[k].table, run.states[k].history, id);
    }
  }

  // ------------------------------------- twice rotated means overlapping requests

  /** A rotation found its session active when it loaded it. */
  lemma RotationLoadedActive(run: Run<State, Step>, l: nat, v: nat, id: SessionId)
    requires IsRun(run) && Spans(run, l, v) && Rotates(run.states[v], run.steps[v], id)
    ensures id in run.states[l].table && run.states[l].table[id].isActive
    ensures !Rotated(run.states[l].history, id)
  {
    var a := SpanTraced(run, l, v);
    InvHolds(run, l);
    LoadedIndex(run.states[l].table, run.steps[l].userId, run.steps[l].rows, id);
    if Rotated(run.states[l].history, id) {
      RotatedIsInactive(run.states[l].table, run.states[l].history, id);
    }
  }

  /** Two committed rotations of one session always overlap: the later one to be saved had been
      loaded before the earlier one was saved. */
  lemma RotationsOfOneSessionOverlap(run: Run<State, Step>, j: nat, l: nat, v: nat, id: SessionId)
    requires IsRun(run) && Spans(run, l, v) && j < v
    requires Rotates(run.states[j], run.steps[j], id) && Rotates(run.states[v], run.steps[v], id)
    ensures l < j
  {
    RotationLoadedActive(run, l, v, id);
    if j < l {
      RotatedSince(run, j, l, id);
    }
  }

  /** Step `j` saves a rotation of the session that the rotation saved at `v` has loaded already. */
  ghost predicate Overlap(run: Run<State, Step>, j: nat, v: nat)
    requires |run.states| == |run.steps| + 1 && j < v < |run.steps|
  {
    && Rotating(run.states[v], run.steps[v])
    && Rotates(run.states[j], run.steps[j], run.states[v].flights[run.steps[v].r].request.id)
    && exists l: nat :: l < j && Spans(run, l, v)
  }

  /** A save rotates a session that has been rotated already if and only if another rotation of
      that session was saved between its own load and save. */
  lemma RotatesAgainIffOverlap(run: Run<State, Step>, v: nat)
    requires IsRun(run) && v < |run.steps|
    ensures AgainAt(run, v) <==> exists j :: 0 <= j < v && Overlap(run, j, v)
  {
    if Rotating(run.states[v], run.steps[v]) {
      var id := run.states[v].flights[run.steps[v].r].request.id;
      if AgainAt(run, v) {
        var j := RotatedBySomeStep(run, v, id);
        var l, a := SaveHasLoad(run, v);
        RotationsOfOneSessionOverlap(run, j, l, v, id);
        assert Overlap(run, j, v);
      }
      if exists j :: 0 <= j < v && Overlap(run, j, v) {
        var j :| 0 <= j < v && Overlap(run, j, v);
        RotatedSince(run, j, v, id);
      }
    }
  }

  /** No two rotations of one session saved before state `k` overlap, load to save. */
  ghost predicate NoOverlap(run: Run<State, Step>, k: nat)
    requires |run.states| == |run.steps| + 1 && k < |run.states|
  {
    forall j, v :: 0 <= j < v < k ==> !Overlap(run, j, v)
  }

  lemma NoOverlapIffNoneAgain(run: Run<State, Step>, k: nat)
    requires IsRun(run) && k < |run.states|
    ensures NoOverlap(run, k) <==> NoneAgain(run, k)
  {
    if !NoneAgain(run, k) {
      var v :| 0 <= v < k && AgainAt(run, v);
      RotatesAgainIffOverlap(run, v);
      var j :| 0 <= j < v && Overlap(run, j, v);
    }
    if !NoOverlap(run, k) {
      var j, v :| 0 <= j < v < k && Overlap(run, j, v);
      RotatesAgainIffOverlap(run, v);
    }
  }

  /** In every interleaving, the descendants of every login form a chain if and only if no two
      rotations of one session overlap, load to save. */
  lemma FamiliesAreChainsIff(run: Run<State, Step>, k: nat)
    requires IsRun(run) && k < |run.states|
    ensures WellFounded(run.states[k].history)
    ensures (forall x, y :: x in run.states[k].history && y in run.states[k].history ==>
                              Comparable(run.states[k].history, x, y))
            <==> NoOverlap(run, k)
  {
    InvHolds(run, k);
    ChainsIffOneChildEach(run.states[k].history);
    OneChildEachIffNoneAgain(run, k);
    NoOverlapIffNoneAgain(run, k);
  }

  /** And then at most one session of a family is active. */
  lemma FamilyHasOneActive(run: Run<State, Step>, k: nat, x: SessionId, y: SessionId)
    requires IsRun(run) && k < |run.states| && NoOverlap(run, k)
    requires x in run.states[k].table && y in run.states[k].table
    ensures var s := run.states[k];
            && WellFounded(s.history) && x in s.history && y in s.history && Comparable(s.history, x, y)
            && (Root(s.history, x) == Root(s.history, y) && s.table[x].isActive && s.table[y].isActive ==> x == y)
  {
    FamiliesAreChainsIff(run, k);
    InvHolds(run, k);
    var s := run.states[k];
    if Root(s.history, x) == Root(s.history, y) && s.table[x].isActive && s.table[y].isActive {
      OneActivePerFamily(s.table, s.history, x, y);
    }
  }

  // --------------------------------------------- undisturbed saves do not overlap

  /** The save at step `v` has its load at `l` and its operation at `a`, undisturbed. */
  ghost predicate SavesAlone(run: Run<State, Step>, l: nat, a: nat, v: nat)
    requires |run.states| == |run.steps| + 1
  {
    && l < a < v < |run.steps| && run.steps[l].Load? && run.steps[a] == Act(run.steps[l].r)
    && run.steps[v].Save? && run.steps[v].r == run.steps[l].r
    && Undisturbed(run, l, a, v, run.steps[l].r, run.steps[l].userId)
    && Operate(run.steps[l].userId, run.steps[l].rows, run.steps[l].request, run.states[a].now).saves
  }

  /** An undisturbed rotation finds its session active. */
  lemma UndisturbedParentIsActive(run: Run<State, Step>, l: nat, a: nat, v: nat, id: SessionId)
    requires IsRun(run) && SavesAlone(run, l, a, v) && Rotates(run.states[v], run.steps[v], id)
    ensures id in run.states[v].table && run.states[v].table[id].isActive
  {
    var Load(r, userId, request, rows) := run.steps[l];
    FlightUntil(run, l, a, v, v);
    LoadedIndex(run.states[v].table, userId, rows, id);
  }

  ghost predicate RotationsSaveAlone(run: Run<State, Step>, k: nat)
    requires |run.states| == |run.steps| + 1 && k < |run.states|
  {
    forall v, id :: 0 <= v < k && Rotates(run.states[v], run.steps[v], id) ==> exists l, a :: SavesAlone(run, l, a, v)
  }

  /** So in an interleaving in which no other save for the user falls between the load and the
      save of a rotation, nothing is rotated again: families are chains with one active session. */
  lemma UndisturbedRotationsKeepChains(run: Run<State, Step>, k: nat)
    requires IsRun(run) && k < |run.states| && RotationsSaveAlone(run, k)
    ensures NoOverlap(run, k)
  {
    NoOverlapIffNoneAgain(run, k);
    forall v | 0 <= v < k ensures !AgainAt(run, v) {
      if AgainAt(run, v) {
        var id := run.states[v].flights[run.steps[v].r].request.id;
        assert Rotates(run.states[v], run.steps[v], id);
        var l, a :| SavesAlone(run, l, a, v);
        UndisturbedParentIsActive(run, l, a, v, id);
        ActiveParentIsFirst(run, v, id);
      }
    }
  }

  // -------------------------------------------------- reuse under interleaving

  /** A rotated session keeps its owner and stays inactive. */
  lemma RotatedSessionAt(run: Run<State, Step>, j: nat, k: nat, id: SessionId)
    requires IsRun(run) && j < k < |run.states| && Rotates(run.states[j], run.steps[j], id)
    ensures id in run.states[k].table && !run.states[k].table[id].isActive
    ensures run.states[k].table[id].userId == run.states[j].flights[run.steps[j].r].userId
  {
    InvHolds(run, j);
    InvHolds(run, k);
    assert FlightOk(run.states[j].table, run.states[j].flights[run.steps[j].r]);
    InactiveForGood(run, j, k, id);
    RotatedSince(run, j, k, id);
    RotatedIsInactive(run.states[k].table, run.states[k].history, id);
  }

  /** In every interleaving, a refresh that loads after a rotation of its session was saved is refused,
      whatever its token and whenever it acts: for the owner with SessionInvalidated, on the way to
      revoking every session it loaded; for anyone else the session is not found. */
  lemma ReuseIsRefused(run: Run<State, Step>, j: nat, l: nat, id: SessionId, now: int)
    requires IsRun(run) && j < l < |run.steps| && Rotates(run.states[j], run.steps[j], id)
    requires run.steps[l].Load? && run.steps[l].request.Refresh? && run.steps[l].request.id == id
    ensures var Load(_, userId, request, rows) := run.steps[l];
            var op := Operate(userId, rows, request, now);
            && op.added.None?
            && if userId == run.states[j].flights[run.steps[j].r].userId
               then op.saves && op.answer == Err(SessionInvalidated) && op.sessions == AllInvalidated(rows)
               else !op.saves && op.answer == Err(SessionNotFound)
  {
    RotatedSessionAt(run, j, l, id);
    InvHolds(run, l);
    assert StepTaken(run, l);
    LoadedIndex(run.states[l].table, run.steps[l].userId, run.steps[l].rows, id);
  }

  /** And its save, once applied, leaves inactive every session the user had when it loaded. */
  lemma ReuseClosesAllLoaded(run: Run<State, Step>, j: nat, l: nat, v: nat, id: SessionId, x: SessionId)
    requires IsRun(run) && j < l && Spans(run, l, v) && Rotates(run.states[j], run.steps[j], id)
    requires run.steps[l].request.Refresh? && run.steps[l].request.id == id
    requires Owned(run.states[l].table, run.steps[l].userId, x)
    ensures run.steps[v].r in run.states[v].flights && run.states[v].flights[run.steps[v].r].Acted?
    ensures Commits(run.states[v].table, run.states[v].flights[run.steps[v].r].op, run.states[v].now,
                    run.steps[v].commit) ==>
              x in run.states[v + 1].table && !run.states[v + 1].table[x].isActive
  {
    var a := SpanTraced(run, l, v);
    ReuseIsRefused(run, j, l, id, run.states[a].now);
    InvHolds(run, v);
    assert StepTaken(run, v);
    var s, step, rows := run.states[v], run.steps[v], run.steps[l].rows;
    assert FlightOk(s.table, s.flights[step.r]);
    var op := s.flights[step.r].op;
    if Commits(s.table, op, s.now, step.commit) {
      assert x in IdsUpTo(rows, |rows|);
      InvalidatedRowsClose(s.table, run.steps[l].userId, rows, op, s.now, step.commit, x);
    }
  }

  lemma InvalidatedRowsClose(
    table: Table, userId: UserId, rows: seq<Session>, op: Operated, now: int, commit: Outcome, x: SessionId)
    requires Keyed(table) && AllOwned(table, userId, op.sessions) && op.sessions == AllInvalidated(rows)
    requires op.added.None? && Commits(table, op, now, commit) && x in IdsUpTo(rows, |rows|)
    ensures x in Committed(table, op, now, commit) && !Committed(table, op, now, commit)[x].isActive
  {
    InactiveAfterInvalidatingAll(rows, |rows|);
    SaveIsTame(table, userId, op, now, commit);
  }

  // ------------------------------------------- what overlapping loads can do

  ghost function Taking(run: Run<State, Step>, step: Step): Run<State, Step>
    requires |run.states| > 0 && Enabled(Last(run), step)
  {
    Extended(run, step, Apply(Last(run), step))
  }

  lemma TakingIsRun(run: Run<State, Step>, step: Step)
    requires IsRun(run) && Enabled(Last(run), step)
    ensures IsRun(Taking(run, step)) && Last(Taking(run, step)) == Apply(Last(run), step)
  {
    var longer := Taking(run, step);
    forall k | 0 <= k < |longer.steps| ensures StepTaken(longer, k) {
      if k < |run.steps| {
        assert StepTaken(run, k);
      }
    }
  }

  /** One request, load to save, with nothing between. */
  lemma Serve(
    run: Run<State, Step>, r: RequestId, userId: UserId, request: Request, rows: seq<Session>)
    returns (longer: Run<State, Step>)
    requires IsRun(run) && r !in Last(run).flights && Loaded(Last(run).table, userId, rows)
    requires Operate(userId, rows, request, Last(run).now).saves
    ensures IsRun(longer)
    ensures var acted := Acted(userId, request, Operate(userId, rows, request, Last(run).now));
            Last(longer) == ApplySave(Last(run).(flights := Last(run).flights[r := acted]), r, Succeeded)
  {
    TakingIsRun(run, Load(r, userId, request, rows));
    longer := Taking(run, Load(r, userId, request, rows));
    TakingIsRun(longer, Act(r));
    longer := Taking(longer, Act(r));
    TakingIsRun(longer, Save(r, Succeeded));
    longer := Taking(longer, Save(r, Succeeded));
  }

  const ForkedRow: Session := Session(10, 1, 0, 100, true, 0, Password)

  lemma OneLogin() returns (run: Run<State, Step>)
    ensures IsRun(run)
    ensures Last(run) == State(0, map[10 := ForkedRow], map[10 := Birth(None, 0)], map[])
  {
    run := Run([State(0, map[], map[], map[])], []);
    run := Serve(run, 0, 1, Login(10, 0, 100, Password), []);
    assert Last(run).table == map[10 := ForkedRow];
  }

  function RefreshInto(newId: SessionId): Request {
    Refresh(10, true, newId, 0, 100)
  }

  lemma RotatingForkedRow(table: Table, newId: SessionId)
    requires 10 in table && newId !in table
    ensures var op := Operate(1, [ForkedRow], RefreshInto(newId), 0);
            && op.saves && op.added == Some(NewSession(newId, 1, 0, 100, Password))
            && Commits(table, op, 0, Succeeded)
            && Committed(table, op, 0, Succeeded) ==
                table[10 := Invalidated(table[10])][newId := ForkedRow.(id := newId)]
  {
    var sessions := Deactivated([ForkedRow], 0);
    assert InactiveIds(sessions, 0) == {} && InactiveIds(sessions, 1) == {10};
  }

  /** The second request loads first and is still in flight when the first one is served. */
  lemma OneRefreshOverlapped() returns (run: Run<State, Step>)
    ensures IsRun(run)
    ensures Last(run) == State(0, map[10 := Invalidated(ForkedRow), 11 := ForkedRow.(id := 11)],
                               map[10 := Birth(None, 0), 11 := Birth(Some(10), 1)],
                               map[2 := Fetched(1, RefreshInto(12), [ForkedRow])])
  {
    run := OneLogin();
    var table := map[10 := ForkedRow];
    assert Loaded(table, 1, [ForkedRow]) by {
      assert LoadedAt(table, 1, [ForkedRow], 0);
    }
    TakingIsRun(run, Load(2, 1, RefreshInto(12), [ForkedRow]));
    run := Taking(run, Load(2, 1, RefreshInto(12), [ForkedRow]));
    RotatingForkedRow(table, 11);
    run := Serve(run, 1, 1, RefreshInto(11), [ForkedRow]);
    assert table[10 := Invalidated(table[10])][11 := ForkedRow.(id := 11)] ==
           map[10 := Invalidated(ForkedRow), 11 := ForkedRow.(id := 11)];
  }

  /** Two refreshes of one session that both load before either saves both succeed: the
      family forks, and two of its sessions are active. Serial runs rule this out. */
  lemma OverlappingRefreshesForkFamily() returns (run: Run<State, Step>)
    ensures IsRun(run) && var s := Last(run);
            && WellFounded(s.history) && 11 in s.history && 12 in s.history &&
                Root(s.history, 11) == Root(s.history, 12)
            && 11 in s.table && s.table[11].isActive && 12 in s.table && s.table[12].isActive
  {
    run := OneRefreshOverlapped();
    RotatingForkedRow(Last(run).table, 12);
    TakingIsRun(run, Act(2));
    run := Taking(run, Act(2));
    TakingIsRun(run, Save(2, Succeeded));
    run := Taking(run, Save(2, Succeeded));
    var h := Last(run).history;
    assert h == map[10 := Birth(None, 0), 11 := Birth(Some(10), 1), 12 := Birth(Some(10), 2)];
    assert Root(h, 10) == 10;
  }
}
