/** What durable revocation promises over whole runs. A run starts with empty
    stores and no instances; each step is one enabled effect. */
module RevocationRuns {

  import opened Prelude
  import opened RevocationStore
  import opened RevocationProtocol

  ghost predicate StepTaken(exp: Jti -> int, run: Run<State, Step>, k: nat)
    requires |run.states| == |run.steps| + 1 && k < |run.steps|
  {
    Enabled(run.states[k], run.steps[k]) && run.states[k + 1] == Apply(exp, run.states[k], run.steps[k])
  }

  ghost predicate IsRun(exp: Jti -> int, run: Run<State, Step>) {
    && |run.states| == |run.steps| + 1
    && run.states[0] == Init(run.states[0].world.now)
    && forall k :: 0 <= k < |run.steps| ==> StepTaken(exp, run, k)
  }

  lemma {:induction false} InvHolds(exp: Jti -> int, run: Run<State, Step>, k: nat)
    requires IsRun(exp, run) && k < |run.states|
    ensures Inv(exp, run.states[k])
  {
    if k > 0 {
      InvHolds(exp, run, k - 1);
      assert StepTaken(exp, run, k - 1);
      StepKeepsInv(exp, run.states[k - 1], run.steps[k - 1]);
    }
  }

  predicate Begins(step: Step, jti: Jti) {
    step.OfRevoke? && step.revoke.BeginRevoke? && step.revoke.jti == jti
  }

  /** The clock never goes back, acknowledgements stay, and only `revoke` adds to the requested. */
  ghost predicate Ages(w: World, w': World, begun: set<Jti>) {
    w.now <= w'.now && w.acked <= w'.acked && w'.requested == w.requested + begun
  }

  lemma RevokeStepAges(exp: Jti -> int, s: State, step: RevokeStep)
    requires RevokeEnabled(s, step)
    ensures Ages(s.world, ApplyRevoke(exp, s, step).world, if step.BeginRevoke? then {step.jti} else {})
  {
  }

  lemma SweepStepAges(s: State, i: InstanceId, step: SweepStep)
    requires SweepEnabled(s, i, step)
    ensures Ages(s.world, ApplySweep(s, i, step).world, {})
  {
  }

  lemma StepAges(exp: Jti -> int, s: State, step: Step)
    requires Enabled(s, step)
    ensures Ages(s.world, Apply(exp, s, step).world,
                 if step.OfRevoke? && step.revoke.BeginRevoke? then {step.revoke.jti} else {})
  {
    match step
    case OfEnv(_) =>
    case OfRevoke(revoke) => RevokeStepAges(exp, s, revoke);
    case OfCheck(_) =>
    case OfSweep(i, sweep) => SweepStepAges(s, i, sweep);
  }

  lemma {:induction false} AckedForGood(exp: Jti -> int, run: Run<State, Step>, m: nat, k: nat, i: InstanceId, jti: Jti)
    requires IsRun(exp, run) && m < k < |run.states|
    requires Acknowledges(run.states[m], run.steps[m], i, jti)
    ensures jti in run.states[k].world.acked
  {
    assert StepTaken(exp, run, k - 1);
    if k > m + 1 {
      AckedForGood(exp, run, m, k - 1, i, jti);
      StepAges(exp, run.states[k - 1], run.steps[k - 1]);
    }
  }

  /** Once `revoke(jti)` has returned Ok anywhere, then at every later moment before
      the token's deadline Redis holds a live key or the outbox an unexpired row. */
  lemma AcknowledgedStaysDurable(exp: Jti -> int, run: Run<State, Step>, m: nat, k: nat, i: InstanceId, jti: Jti)
    requires IsRun(exp, run) && m < k < |run.states|
    requires Acknowledges(run.states[m], run.steps[m], i, jti)
    requires run.states[k].world.now < 1000 * (exp(jti) + 60)
    ensures var w := run.states[k].world;
            (jti in w.redis && w.now < w.redis[jti]) || (jti in w.outbox && w.now < w.outbox[jti].expiresAt)
  {
    AckedForGood(exp, run, m, k, i, jti);
    InvHolds(exp, run, k);
    assert Durable(exp, run.states[k].world, jti);
    assert jti in run.states[k].world.outbox ==> RowOk(exp, run.states[k].world, jti, run.states[k].world.outbox[jti]);
  }

  /** After an acknowledgement, any instance that answers "not revoked" before the
      deadline does so while the revocation sits unflushed in the outbox. */
  lemma DenialNeedsUnflushedRow(
    exp: Jti -> int, run: Run<State, Step>, m: nat, e: nat, i: InstanceId, jti: Jti, c: CallId)
    requires IsRun(exp, run) && m < e < |run.steps|
    requires Acknowledges(run.states[m], run.steps[m], i, jti)
    requires Answers(run.states[e], run.steps[e], c, NotRevoked) && run.states[e].checks[c].jti == jti
    requires run.states[e].world.now < 1000 * (exp(jti) + 60)
    ensures jti in run.states[e].world.outbox && run.states[e].world.now < run.states[e].world.outbox[jti].expiresAt
  {
    AcknowledgedStaysDurable(exp, run, m, e, i, jti);
  }

  ghost predicate NoRestart(run: Run<State, Step>, from: nat, to: nat, i: InstanceId)
    requires to <= |run.steps|
  {
    forall k :: from <= k < to ==> run.steps[k] != OfEnv(Restart(i))
  }

  lemma InstanceAckSurvivesStep(exp: Jti -> int, s: State, step: Step, i: InstanceId, jti: Jti)
    requires Enabled(s, step) && step != OfEnv(Restart(i)) && i in s.instances && jti in s.instances[i].acked
    ensures var s' := Apply(exp, s, step); i in s'.instances && jti in s'.instances[i].acked
  {
    match step
    case OfRevoke(RevokeSet(c, redis)) => assert c in s.revokes;
    case OfRevoke(_) =>
    case OfSweep(i', sweep) => assert i' in s.instances;
    case _ =>
  }

  /** This call's pending lookup is behind it. */
  predicate HasLooked(s: State, c: CallId) {
    c in s.checks && s.checks[c].pendingMissed
  }

  lemma MarkSurvivesStep(exp: Jti -> int, s: State, step: Step, i: InstanceId, jti: Jti, c: CallId)
    requires Enabled(s, step) && i in s.instances && jti in s.instances[i].acked
    requires HasLooked(s, c) && s.checks[c].inst == i && s.checks[c].jti == jti ==> s.checks[c].ackedAtMiss
    ensures var s' := Apply(exp, s, step);
            HasLooked(s', c) && s'.checks[c].inst == i && s'.checks[c].jti == jti ==> s'.checks[c].ackedAtMiss
  {
  }

  /** Between an acknowledgement and the next restart the instance remembers it, and every
      check whose pending lookup comes afterwards carries the mark. */
  lemma {:induction false} MarkedAfterAck(
    exp: Jti -> int, run: Run<State, Step>, m: nat, k: nat, i: InstanceId, jti: Jti, c: CallId)
    requires IsRun(exp, run) && m < k < |run.states|
    requires Acknowledges(run.states[m], run.steps[m], i, jti) && NoRestart(run, m + 1, k, i)
    requires !HasLooked(run.states[m + 1], c)
    ensures var s := run.states[k];
            && i in s.instances && jti in s.instances[i].acked
            && (HasLooked(s, c) && s.checks[c].inst == i && s.checks[c].jti == jti ==> s.checks[c].ackedAtMiss)
  {
    assert StepTaken(exp, run, k - 1);
    if k > m + 1 {
      MarkedAfterAck(exp, run, m, k - 1, i, jti, c);
      InstanceAckSurvivesStep(exp, run.states[k - 1], run.steps[k - 1], i, jti);
      MarkSurvivesStep(exp, run.states[k - 1], run.steps[k - 1], i, jti, c);
    }
  }

  /** The acknowledging instance, until restarted, never answers "not revoked" before the
      deadline to a check whose pending lookup was not yet behind it at the acknowledgement. */
  lemma AcknowledgingInstanceNeverDenies(
    exp: Jti -> int, run: Run<State, Step>, m: nat, e: nat, i: InstanceId, jti: Jti, c: CallId, verdict: Verdict)
    requires IsRun(exp, run) && m < e < |run.steps|
    requires Acknowledges(run.states[m], run.steps[m], i, jti) && NoRestart(run, m + 1, e, i)
    requires !HasLooked(run.states[m + 1], c)
    requires Answers(run.states[e], run.steps[e], c, verdict)
    requires run.states[e].checks[c].inst == i && run.states[e].checks[c].jti == jti
    requires run.states[e].world.now < 1000 * (exp(jti) + 60)
    ensures verdict != NotRevoked
  {
    MarkedAfterAck(exp, run, m, e, i, jti, c);
    InvHolds(exp, run, e);
    assert StepTaken(exp, run, e);
  }

  // -------------------------------------- a check that looked too early may deny

  ghost function Taking(exp: Jti -> int, run: Run<State, Step>, step: Step): Run<State, Step>
    requires |run.states| > 0 && Enabled(Last(run), step)
  {
    Extended(run, step, Apply(exp, Last(run), step))
  }

  lemma TakingIsRun(exp: Jti -> int, run: Run<State, Step>, step: Step)
    requires IsRun(exp, run) && Enabled(Last(run), step)
    ensures IsRun(exp, Taking(exp, run, step))
    ensures Last(Taking(exp, run, step)) == Apply(exp, Last(run), step)
  {
    var longer := Taking(exp, run, step);
    forall k | 0 <= k < |longer.steps| ensures StepTaken(exp, longer, k) {
      if k < |run.steps| {
        assert StepTaken(exp, run, k);
      }
    }
  }

  /** One instance, just started. */
  lemma OneInstance(exp: Jti -> int, now: int) returns (run: Run<State, Step>)
    ensures IsRun(exp, run) && |run.steps| == 1
    ensures Last(run) == Init(now).(instances := map[0 := Instance(map[], Idle, {})])
  {
    run := Run([Init(now)], []);
    TakingIsRun(exp, run, OfEnv(Restart(0)));
    run := Taking(exp, run, OfEnv(Restart(0)));
    assert Last(run).revokes == map[] && Last(run).checks == map[] && Last(run).world.lateSets == {};
  }

  /** A check of this token has looked at the pending map and not yet at Redis. */
  lemma CheckHasLooked(exp: Jti -> int, jti: Jti, now: int) returns (run: Run<State, Step>)
    ensures IsRun(exp, run) && |run.steps| == 3
    ensures Last(run) == Init(now).(instances := map[0 := Instance(map[], Idle, {})],
                                    checks := map[1 := CheckCall(0, jti, now, true, false)])
  {
    run := OneInstance(exp, now);
    TakingIsRun(exp, run, OfCheck(BeginCheck(1, 0, jti)));
    run := Taking(exp, run, OfCheck(BeginCheck(1, 0, jti)));
    TakingIsRun(exp, run, OfCheck(LookPending(1)));
    run := Taking(exp, run, OfCheck(LookPending(1)));
    assert Last(run).instances[0].pending == map[];
  }

  /** Redis refuses the revocation, Postgres journals it, and `revoke` is about to return. */
  lemma RevokeIsJournaled(exp: Jti -> int, run0: Run<State, Step>, jti: Jti) returns (run: Run<State, Step>)
    requires IsRun(exp, run0) && 0 in Last(run0).instances && 2 !in Last(run0).revokes
    requires jti !in Last(run0).world.outbox && Last(run0).world.now < Deadline(exp(jti))
    ensures IsRun(exp, run) && |run.steps| == |run0.steps| + 3
    ensures RevokeAt(Last(run), 2, Journaled) && Last(run).revokes[2].inst == 0 && Last(run).revokes[2].jti == jti
    ensures Last(run).instances == Last(run0).instances && Last(run).checks == Last(run0).checks
    ensures Last(run).world.redis == Last(run0).world.redis && Last(run).world.now == Last(run0).world.now
  {
    run := run0;
    TakingIsRun(exp, run, OfRevoke(BeginRevoke(2, 0, jti)));
    run := Taking(exp, run, OfRevoke(BeginRevoke(2, 0, jti)));
    TakingIsRun(exp, run, OfRevoke(RevokeSet(2, SetFailed)));
    run := Taking(exp, run, OfRevoke(RevokeSet(2, SetFailed)));
    TakingIsRun(exp, run, OfRevoke(Journal(2, Succeeded)));
    run := Taking(exp, run, OfRevoke(Journal(2, Succeeded)));
  }

  /** For every token and every moment before its deadline there is a run in which the
      acknowledging instance denies it afterwards: the check had missed the pending map before
      the revocation came, and asks Redis, which never got it, after the acknowledgement. */
  lemma EarlyLookMayDeny(exp: Jti -> int, jti: Jti, now: int) returns (run: Run<State, Step>)
    requires now < Deadline(exp(jti))
    ensures IsRun(exp, run) && |run.steps| == 8
    ensures Acknowledges(run.states[6], run.steps[6], 0, jti) && NoRestart(run, 7, 7, 0)
    ensures HasLooked(run.states[7], 1) && Answers(run.states[7], run.steps[7], 1, NotRevoked)
    ensures run.states[7].checks[1].inst == 0 && run.states[7].checks[1].jti == jti
    ensures run.states[7].world.now == now
  {
    var early := CheckHasLooked(exp, jti, now);
    var journaled := RevokeIsJournaled(exp, early, jti);
    TakingIsRun(exp, journaled, OfRevoke(RecordPending(2)));
    var acked := Taking(exp, journaled, OfRevoke(RecordPending(2)));
    TakingIsRun(exp, acked, OfCheck(LookRedis(1, true)));
    run := Taking(exp, acked, OfCheck(LookRedis(1, true)));
  }

  lemma {:induction false} RequestedMeansBegun(
    exp: Jti -> int, run: Run<State, Step>, k: nat, jti: Jti) returns (b: nat)
    requires IsRun(exp, run) && k < |run.states| && jti in run.states[k].world.requested
    ensures b < k && Begins(run.steps[b], jti)
  {
    assert k > 0;
    assert StepTaken(exp, run, k - 1);
    if jti in run.states[k - 1].world.requested {
      b := RequestedMeansBegun(exp, run, k - 1, jti);
    } else {
      StepAges(exp, run.states[k - 1], run.steps[k - 1]);
      b := k - 1;
    }
  }

  /** No instance answers "revoked" for a jti on which `revoke` was never called. */
  lemma RevokedOnlyIfRequested(exp: Jti -> int, run: Run<State, Step>, e: nat, c: CallId)
    requires IsRun(exp, run) && e < |run.steps|
    requires Answers(run.states[e], run.steps[e], c, Revoked)
    ensures exists b :: 0 <= b < e && Begins(run.steps[b], run.states[e].checks[c].jti)
  {
    InvHolds(exp, run, e);
    var s := run.states[e];
    var jti := s.checks[c].jti;
    assert s.checks[c].inst in s.instances;
    assert InstanceOk(exp, s.world, s.instances[s.checks[c].inst]);
    var b := RequestedMeansBegun(exp, run, e, jti);
  }
}
