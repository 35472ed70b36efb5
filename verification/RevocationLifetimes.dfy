/** How long a revocation key lives, measured against its token: where the ttl of every
    key in every run came from, and when it was applied. */
module RevocationLifetimes {

  import opened Prelude
  import opened RevocationStore
  import opened RevocationProtocol
  import opened RevocationRuns

  /** A ttl computed at `begun` and applied at `setAt`, however it travelled in between. */
  function KeyEnd(exp: int, begun: int, setAt: int): int {
    setAt + Millis(RevocationTtlSecs(exp, Timestamp(begun)))
  }

  /** The key ends after the token's deadline by exactly the time that passed between the start
      of the second in which its ttl was computed and the moment it was applied. */
  lemma KeyEndAgainstDeadline(exp: int, begun: int, setAt: int)
    requires begun < Deadline(exp)
    ensures KeyEnd(exp, begun, setAt) - Deadline(exp) == setAt - Millis(Timestamp(begun))
  {
    assert Millis(Timestamp(begun)) <= begun < Millis(Timestamp(begun) + 1);
  }

  // ----------------------------------------------- every ttl comes from a `revoke`

  predicate SweepFrom(sweep: Sweep, issued: set<(Jti, nat)>) {
    sweep.Flushing? ==> forall k :: 0 <= k < |sweep.todo| ==> sweep.todo[k] in issued
  }

  /** All ttls held anywhere, in calls, commands, rows and batches, are among the issued ones. */
  ghost predicate AllFrom(s: State, issued: set<(Jti, nat)>) {
    && (forall c :: c in s.revokes ==> (s.revokes[c].jti, s.revokes[c].ttlSecs) in issued)
    && s.world.lateSets <= issued
    && (forall jti :: jti in s.world.outbox ==> (jti, s.world.outbox[jti].ttlSecs) in issued)
    && (forall i :: i in s.instances ==> SweepFrom(s.instances[i].sweep, issued))
  }

  /** The ttl a step computes, if it begins a `revoke`. */
  function NewTtl(exp: Jti -> int, s: State, step: Step): set<(Jti, nat)> {
    if step.OfRevoke? && step.revoke.BeginRevoke?
    then {(step.revoke.jti, RevocationTtlSecs(exp(step.revoke.jti), Timestamp(s.world.now)))}
    else {}
  }

  lemma RevokeStepFrom(exp: Jti -> int, s: State, step: RevokeStep, issued: set<(Jti, nat)>)
    requires AllFrom(s, issued) && RevokeEnabled(s, step)
    ensures AllFrom(ApplyRevoke(exp, s, step), issued + NewTtl(exp, s, OfRevoke(step)))
  {
  }

  lemma BatchFrom(s: State, batch: seq<(Jti, nat)>, issued: set<(Jti, nat)>)
    requires AllFrom(s, issued) && FromOutbox(s.world.outbox, batch)
    ensures SweepFrom(Flushing(batch, {}, 0), issued)
  {
    forall k | 0 <= k < |batch| ensures batch[k] in issued {
      assert RowAt(s.world.outbox, batch, k);
    }
  }

  lemma SweepFromAdvances(s: State, i: InstanceId, sweep: Sweep, world: World, issued: set<(Jti, nat)>)
    requires AllFrom(s, issued) && i in s.instances && SweepFrom(sweep, issued)
    requires world.lateSets <= issued && world.outbox.Keys <= s.world.outbox.Keys
    requires forall jti :: jti in world.outbox ==> world.outbox[jti] == s.world.outbox[jti]
    ensures AllFrom(WithSweep(s.(world := world), i, sweep), issued)
  {
  }

  lemma SweepStepFrom(s: State, i: InstanceId, step: SweepStep, issued: set<(Jti, nat)>)
    requires AllFrom(s, issued) && SweepEnabled(s, i, step)
    ensures AllFrom(ApplySweep(s, i, step), issued)
  {
    var s', sweep := ApplySweep(s, i, step), s.instances[i].sweep;
    assert SweepFrom(sweep, issued);
    match step
    case Prune =>
    case Retain =>
    case Select(batch, ok) =>
      if ok { BatchFrom(s, batch, issued); }
      SweepFromAdvances(s, i, s'.instances[i].sweep, s'.world, issued);
    case FlushOne(_) =>
      assert sweep.todo[0] in issued;
      SweepFromAdvances(s, i, s'.instances[i].sweep, s'.world, issued);
    case _ => SweepFromAdvances(s, i, s'.instances[i].sweep, s'.world, issued);
  }

  lemma EnvStepFrom(s: State, step: EnvStep, issued: set<(Jti, nat)>)
    requires AllFrom(s, issued) && EnvEnabled(s, step)
    ensures AllFrom(ApplyEnv(s, step), issued)
  {
    if step.Restart? {
      assert step.i in s.instances ==> SweepFrom(s.instances[step.i].sweep, issued);
      assert SentCommands(s, step.i) <= issued;
    }
  }

  lemma StepFrom(exp: Jti -> int, s: State, step: Step, issued: set<(Jti, nat)>)
    requires AllFrom(s, issued) && Enabled(s, step)
    ensures AllFrom(Apply(exp, s, step), issued + NewTtl(exp, s, step))
  {
    assert step.OfRevoke? || issued + NewTtl(exp, s, step) == issued;
    match step
    case OfEnv(env) => EnvStepFrom(s, env, issued);
    case OfRevoke(revoke) => RevokeStepFrom(exp, s, revoke, issued);
    case OfCheck(_) =>
    case OfSweep(i, sweep) => SweepStepFrom(s, i, sweep, issued);
  }

  /** Redis stays as it is, or takes one SET with an issued ttl. */
  ghost predicate SetsFrom(w: World, w': World, issued: set<(Jti, nat)>) {
    w'.redis == w.redis || exists cmd :: cmd in issued && w'.redis == SetKey(w.redis, cmd.0, cmd.1, w.now)
  }

  lemma RevokeSetsFrom(exp: Jti -> int, s: State, step: RevokeStep, issued: set<(Jti, nat)>)
    requires AllFrom(s, issued) && RevokeEnabled(s, step)
    ensures SetsFrom(s.world, ApplyRevoke(exp, s, step).world, issued)
  {
    if step.RevokeSet? {
      assert (s.revokes[step.c].jti, s.revokes[step.c].ttlSecs) in issued;
    }
  }

  lemma SweepSetsFrom(s: State, i: InstanceId, step: SweepStep, issued: set<(Jti, nat)>)
    requires AllFrom(s, issued) && SweepEnabled(s, i, step)
    ensures SetsFrom(s.world, ApplySweep(s, i, step).world, issued)
  {
    if step.FlushOne? {
      assert SweepFrom(s.instances[i].sweep, issued);
      assert s.instances[i].sweep.todo[0] in issued;
    }
  }

  lemma StepSetsFrom(exp: Jti -> int, s: State, step: Step, issued: set<(Jti, nat)>)
    requires AllFrom(s, issued) && Enabled(s, step)
    ensures SetsFrom(s.world, Apply(exp, s, step).world, issued)
  {
    match step
    case OfEnv(env) => assert env.LateSet? ==> env.late in issued;
    case OfRevoke(revoke) => RevokeSetsFrom(exp, s, revoke, issued);
    case OfCheck(_) =>
    case OfSweep(i, sweep) => SweepSetsFrom(s, i, sweep, issued);
  }

  // -------------------------------------------------------------- whole runs

  ghost function Issued(exp: Jti -> int, run: Run<State, Step>, k: nat): set<(Jti, nat)>
    requires |run.states| == |run.steps| + 1 && k < |run.states|
  {
    if k == 0 then {} else Issued(exp, run, k - 1) + NewTtl(exp, run.states[k - 1], run.steps[k - 1])
  }

  lemma {:induction false} AllFromIssued(exp: Jti -> int, run: Run<State, Step>, k: nat)
    requires IsRun(exp, run) && k < |run.states|
    ensures AllFrom(run.states[k], Issued(exp, run, k))
  {
    if k > 0 {
      AllFromIssued(exp, run, k - 1);
      assert StepTaken(exp, run, k - 1);
      StepFrom(exp, run.states[k - 1], run.steps[k - 1], Issued(exp, run, k - 1));
    }
  }

  lemma {:induction false} IssuedByRevoke(exp: Jti -> int, run: Run<State, Step>, k: nat, cmd: (Jti, nat))
    returns (b: nat)
    requires IsRun(exp, run) && k < |run.states| && cmd in Issued(exp, run, k)
    ensures b < k && Begins(run.steps[b], cmd.0)
    ensures cmd.1 == RevocationTtlSecs(exp(cmd.0), Timestamp(run.states[b].world.now))
  {
    if cmd in Issued(exp, run, k - 1) {
      b := IssuedByRevoke(exp, run, k - 1, cmd);
    } else {
      b := k - 1;
    }
  }

  lemma {:induction false} LaterStateLaterTime(exp: Jti -> int, run: Run<State, Step>, b: nat, j: nat)
    requires IsRun(exp, run) && b <= j < |run.states|
    ensures run.states[b].world.now <= run.states[j].world.now
  {
    if b < j {
      LaterStateLaterTime(exp, run, b, j - 1);
      assert StepTaken(exp, run, j - 1);
      StepAges(exp, run.states[j - 1], run.steps[j - 1]);
    }
  }

  /** A key that step `k - 1` did not leave alone was set by it, with an issued ttl. */
  lemma SetJustNow(exp: Jti -> int, run: Run<State, Step>, k: nat, jti: Jti) returns (b: nat)
    requires IsRun(exp, run) && 0 < k < |run.states| && jti in run.states[k].world.redis
    requires jti in run.states[k - 1].world.redis ==>
               run.states[k - 1].world.redis[jti] != run.states[k].world.redis[jti]
    ensures b < k - 1 && Begins(run.steps[b], jti) && run.states[b].world.now < Deadline(exp(jti))
    ensures run.states[k].world.redis[jti] == KeyEnd(exp(jti), run.states[b].world.now, run.states[k - 1].world.now)
  {
    AllFromIssued(exp, run, k - 1);
    assert StepTaken(exp, run, k - 1);
    StepSetsFrom(exp, run.states[k - 1], run.steps[k - 1], Issued(exp, run, k - 1));
    var w, w' := run.states[k - 1].world, run.states[k].world;
    var cmd :| cmd in Issued(exp, run, k - 1) && w'.redis == SetKey(w.redis, cmd.0, cmd.1, w.now);
    b := IssuedByRevoke(exp, run, k - 1, cmd);
    assert Millis(Timestamp(run.states[b].world.now) + 1) > run.states[b].world.now;
  }

  /** In every run, every key in Redis was set by some step `j` with the ttl some earlier step `b`
      computed, and ends after its token's deadline by exactly the time from the start of the
      second of `b` to `j`: at the deadline or later, and later unless it was applied at once. */
  lemma {:induction false} KeyLifetime(exp: Jti -> int, run: Run<State, Step>, k: nat, jti: Jti)
    returns (b: nat, j: nat)
    requires IsRun(exp, run) && k < |run.states| && jti in run.states[k].world.redis
    ensures b < j < k && Begins(run.steps[b], jti)
    ensures jti in run.states[j + 1].world.redis
    ensures run.states[j + 1].world.redis[jti] == run.states[k].world.redis[jti]
    ensures Millis(Timestamp(run.states[b].world.now)) <= run.states[b].world.now <= run.states[j].world.now
    ensures run.states[k].world.redis[jti] ==
            Deadline(exp(jti)) + (run.states[j].world.now - Millis(Timestamp(run.states[b].world.now)))
  {
    assert k > 0;
    if jti in run.states[k - 1].world.redis && run.states[k - 1].world.redis[jti] == run.states[k].world.redis[jti] {
      b, j := KeyLifetime(exp, run, k - 1, jti);
    } else {
      b := SetJustNow(exp, run, k, jti);
      j := k - 1;
      LaterStateLaterTime(exp, run, b, j);
      KeyEndAgainstDeadline(exp(jti), run.states[b].world.now, run.states[j].world.now);
    }
  }
}
