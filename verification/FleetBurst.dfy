/** The bound on a fleet of rate limiters is attained: a client that times its attempts, and
    meets an unreachable Redis at every instance but one, gets all of it. */
module FleetBurst {

  import opened Prelude
  import opened RateWindow
  import opened MemoryLimiter
  import opened RedisLimiter
  import opened RedisFleet
  import LimiterRuns

  /** Attempt `k` at every decider happens at this time, in rounds. */
  function RoundTime(cfg: Config, k: nat): int {
    LimiterRuns.BurstTime(cfg, k)
  }

  /** Passes within the interval after `k` rounds and `d` deciders of the next. */
  function Expected(instances: nat, k: nat, d: nat): nat {
    if k == 0 then 0 else (k - 1) * (instances + 1) + d
  }

  /** The window of each decider: those below `d` have had their attempt of round `k`. */
  predicate HasWindow(cfg: Config, s: State, k: nat, d: nat, x: nat)
    requires x <= |s.shadows|
  {
    Agrees(cfg, Stored(cfg, s, 1, x), LimiterRuns.BurstEntry(cfg, if x < d then k + 1 else k), s.now)
  }

  ghost predicate InRound(cfg: Config, s: State, instances: nat, k: nat, d: nat) {
    && |s.shadows| == instances && s.flights == map[] && AllExpire(s.keys)
    && (forall i :: 0 <= i < instances ==> i in s.alive)
    && (k > 0 ==> RoundTime(cfg, k - 1) <= s.now)
    && s.now <= RoundTime(cfg, k)
    && (forall i :: 0 <= i < instances ==> s.shadows[i].Keys <= {1})
    && (forall x :: 0 <= x <= instances ==> HasWindow(cfg, s, k, d, x))
    && Passes(cfg, s.passes, 1, cfg.window - 1, |s.passes|) == Expected(instances, k, d)
  }

  // ------------------------------------------------------------- one attempt

  lemma {:induction false} PassesPrefix(cfg: Config, passes: seq<Pass>, more: seq<Pass>, ip: Ip, from: int, n: nat)
    requires n <= |passes|
    ensures Passes(cfg, passes + more, ip, from, n) == Passes(cfg, passes, ip, from, n)
  {
    if n > 0 { PassesPrefix(cfg, passes, more, ip, from, n - 1); }
  }

  lemma PassCounts(cfg: Config, passes: seq<Pass>, at: int, d: nat)
    ensures var longer := passes + PassIf(true, 1, at, d);
            Passes(cfg, longer, 1, cfg.window - 1, |longer|) ==
            Passes(cfg, passes, 1, cfg.window - 1, |passes|) + Counted(cfg, cfg.window - 1, true, at)
  {
    PassesPrefix(cfg, passes, PassIf(true, 1, at, d), 1, cfg.window - 1, |passes|);
  }

  lemma RoundCounts(cfg: Config, instances: nat, k: nat, d: nat)
    requires cfg.max >= 1 && cfg.window >= 2
    ensures Expected(instances, k, d) + Counted(cfg, cfg.window - 1, true, RoundTime(cfg, k)) ==
            Expected(instances, k, d + 1)
  {
  }

  /** Redis answers: its window moves on, the shadows stay. */
  lemma RedisServes(cfg: Config, s: State, s': State, instances: nat, k: nat)
    requires cfg.max >= 1 && cfg.window >= 2 && k < 2 * cfg.max
    requires InRound(cfg, s, instances, k, 0) && s.now == RoundTime(cfg, k)
    requires s'.now == s.now && s'.shadows == s.shadows && s'.alive == s.alive && s'.flights == map[]
    requires s'.keys == Script(cfg, s.keys, 1, s.now)
    requires s'.passes == s.passes + PassIf(ScriptAllows(cfg, s.keys, 1, s.now), 1, s.now, 0)
    ensures InRound(cfg, s', instances, k, 1)
  {
    assert HasWindow(cfg, s, k, 0, 0);
    LimiterRuns.BurstStep(cfg, k);
    ScriptIsTried(cfg, s.keys, 1, LimiterRuns.BurstEntry(cfg, k), s.now, s.now);
    ScriptKeepsExpiry(cfg, s.keys, 1, s.now);
    PassCounts(cfg, s.passes, s.now, 0);
    RoundCounts(cfg, instances, k, 0);
    forall x | 0 <= x <= instances ensures HasWindow(cfg, s', k, 1, x) {
      assert HasWindow(cfg, s, k, 0, x);
    }
  }

  function Attempt(now: int): LimiterRuns.Call {
    LimiterRuns.Call(LimiterRuns.Try, 1, now, now, None)
  }

  /** A shadow decides: its window moves on, everything else stays. */
  lemma ShadowServes(cfg: Config, s: State, s': State, instances: nat, k: nat, d: nat)
    requires cfg.max >= 1 && cfg.window >= 2 && k < 2 * cfg.max && 1 <= d <= instances
    requires InRound(cfg, s, instances, k, d) && s.now == RoundTime(cfg, k)
    requires ShadowServed(cfg, s, s', d - 1, Attempt(s.now)) && s'.flights == map[] && s'.alive == s.alive
    ensures InRound(cfg, s', instances, k, d + 1)
  {
    assert HasWindow(cfg, s, k, d, d);
    LimiterRuns.BurstStep(cfg, k);
    LimiterRuns.StepAgrees(cfg, s.shadows[d - 1], LimiterRuns.BurstEntry(cfg, k), Attempt(s.now), 1, s.now);
    PassCounts(cfg, s.passes, s.now, d);
    RoundCounts(cfg, instances, k, d);
    var next := d + 1;
    forall x | 0 <= x <= instances ensures HasWindow(cfg, s', k, next, x) {
      assert HasWindow(cfg, s, k, d, x);
    }
  }

  lemma RoundBegins(cfg: Config, s: State, s': State, instances: nat, k: nat)
    requires cfg.max >= 1 && cfg.window >= 2 && InRound(cfg, s, instances, k, instances + 1)
    requires s.now == RoundTime(cfg, k) && s' == s.(now := RoundTime(cfg, k + 1))
    ensures InRound(cfg, s', instances, k + 1, 0)
  {
    var next, all := k + 1, instances + 1;
    forall x | 0 <= x <= instances ensures HasWindow(cfg, s', next, 0, x) {
      assert HasWindow(cfg, s, k, all, x);
      var last := LimiterRuns.BurstEntry(cfg, next);
      if x == 0 {
        SeenLater(cfg, s.keys, 1, last, s.now, s'.now);
      } else {
        AgreementLasts(cfg, Stored(cfg, s, 1, x), last, s.now, s'.now);
      }
    }
    assert k > 0 ==> k * (instances + 1) == (k - 1) * (instances + 1) + (instances + 1);
  }

  // --------------------------------------------------------------------- runs

  ghost predicate Burst(cfg: Config, run: Run<State, Step>, instances: nat) {
    IsRun(cfg, run, instances) && forall j :: 0 <= j < |run.steps| ==> Burstlike(run.steps[j])
  }

  /** Nothing but attempts and waiting. */
  predicate Burstlike(step: Step) {
    Spares(step, 1) && !step.Restart?
  }

  ghost function Taking(cfg: Config, run: Run<State, Step>, step: Step): Run<State, Step>
    requires |run.states| > 0 && Enabled(cfg, Last(run), step)
  {
    Extended(run, step, Apply(cfg, Last(run), step))
  }

  lemma TakingIsBurst(cfg: Config, run: Run<State, Step>, instances: nat, step: Step)
    requires Burst(cfg, run, instances) && Enabled(cfg, Last(run), step) && Burstlike(step)
    ensures Burst(cfg, Taking(cfg, run, step), instances)
    ensures Last(Taking(cfg, run, step)) == Apply(cfg, Last(run), step)
  {
    var longer := Taking(cfg, run, step);
    forall k | 0 <= k < |longer.steps| ensures StepTaken(cfg, longer, k) {
      if k < |run.steps| {
        assert StepTaken(cfg, run, k);
      }
    }
  }

  lemma AskRedis(cfg: Config, run0: Run<State, Step>, instances: nat, k: nat) returns (run: Run<State, Step>)
    requires cfg.max >= 1 && cfg.window >= 2 && k < 2 * cfg.max && instances >= 1 && Burst(cfg, run0, instances)
    requires InRound(cfg, Last(run0), instances, k, 0) && Last(run0).now == RoundTime(cfg, k)
    ensures Burst(cfg, run, instances) && InRound(cfg, Last(run), instances, k, 1)
    ensures Last(run).now == RoundTime(cfg, k)
  {
    var s := Last(run0);
    TakingIsBurst(cfg, run0, instances, Begin(0, 0, 1));
    run := Taking(cfg, run0, Begin(0, 0, 1));
    TakingIsBurst(cfg, run, instances, Answer(0));
    run := Taking(cfg, run, Answer(0));
    assert Last(run).flights == map[];
    RedisServes(cfg, s, Last(run), instances, k);
  }

  lemma RoomForOne(cfg: Config, entries: Entries, now: int)
    requires entries.Keys <= {1}
    ensures RoomMade(cfg, entries, 1, now, None)
  {
    var cleaned := Cleaned(cfg, entries, now);
    if 1 !in cleaned {
      assert cleaned.Keys == {};
    }
  }

  /** A call of instance `i` that Redis does not answer, left to the shadow. */
  lemma ShadowAsked(cfg: Config, s: State, i: nat) returns (s2: State, s3: State)
    requires i < |s.shadows| && i in s.alive && s.shadows[i].Keys <= {1} && s.flights == map[]
    ensures Enabled(cfg, s, Begin(0, i, 1)) && Enabled(cfg, Apply(cfg, s, Begin(0, i, 1)), Lose(0, false))
    ensures s2 == Apply(cfg, Apply(cfg, s, Begin(0, i, 1)), Lose(0, false))
    ensures Enabled(cfg, s2, Fallback(0, s.now, None)) && s3 == Apply(cfg, s2, Fallback(0, s.now, None))
    ensures ShadowServed(cfg, s, s3, i, Attempt(s.now)) && s3.flights == map[] && s3.alive == s.alive
  {
    s2 := Apply(cfg, Apply(cfg, s, Begin(0, i, 1)), Lose(0, false));
    assert s2 == s.(flights := map[0 := Flight(i, 1, true)]);
    RoomForOne(cfg, s.shadows[i], s.now);
    var step := Fallback(0, s.now, None);
    ShadowStepServes(cfg, s2, step);
    s3 := Apply(cfg, s2, step);
    assert s3.flights == map[];
  }

  lemma AskShadow(cfg: Config, run0: Run<State, Step>, instances: nat, k: nat, d: nat) returns (run: Run<State, Step>)
    requires cfg.max >= 1 && cfg.window >= 2 && k < 2 * cfg.max && 1 <= d <= instances && Burst(cfg, run0, instances)
    requires InRound(cfg, Last(run0), instances, k, d) && Last(run0).now == RoundTime(cfg, k)
    ensures Burst(cfg, run, instances) && InRound(cfg, Last(run), instances, k, d + 1)
    ensures Last(run).now == RoundTime(cfg, k)
  {
    var s := Last(run0);
    var s2, s3 := ShadowAsked(cfg, s, d - 1);
    TakingIsBurst(cfg, run0, instances, Begin(0, d - 1, 1));
    run := Taking(cfg, run0, Begin(0, d - 1, 1));
    TakingIsBurst(cfg, run, instances, Lose(0, false));
    run := Taking(cfg, run, Lose(0, false));
    TakingIsBurst(cfg, run, instances, Fallback(0, s.now, None));
    run := Taking(cfg, run, Fallback(0, s.now, None));
    ShadowServes(cfg, s, s3, instances, k, d);
  }

  lemma {:induction false} AskAll(cfg: Config, run0: Run<State, Step>, instances: nat, k: nat, d: nat)
    returns (run: Run<State, Step>)
    requires cfg.max >= 1 && cfg.window >= 2 && k < 2 * cfg.max && d <= instances + 1 && instances >= 1
    requires Burst(cfg, run0, instances)
    requires InRound(cfg, Last(run0), instances, k, 0) && Last(run0).now == RoundTime(cfg, k)
    ensures Burst(cfg, run, instances) && InRound(cfg, Last(run), instances, k, d)
    ensures Last(run).now == RoundTime(cfg, k)
  {
    if d == 0 {
      run := run0;
    } else {
      run := AskAll(cfg, run0, instances, k, d - 1);
      if d == 1 {
        run := AskRedis(cfg, run, instances, k);
      } else {
        run := AskShadow(cfg, run, instances, k, d - 1);
      }
    }
  }

  /** The first `k` rounds, and the clock at the start of the next one. */
  lemma {:induction false} Rounds(cfg: Config, instances: nat, k: nat) returns (run: Run<State, Step>)
    requires cfg.max >= 1 && cfg.window >= 2 && k < 2 * cfg.max && instances >= 1
    ensures Burst(cfg, run, instances) && InRound(cfg, Last(run), instances, k, 0)
    ensures Last(run).now == RoundTime(cfg, k)
  {
    if k == 0 {
      run := Start(cfg, instances);
    } else {
      run := Rounds(cfg, instances, k - 1);
      run := AskAll(cfg, run, instances, k - 1, instances + 1);
      var s := Last(run);
      var step := Tick(RoundTime(cfg, k) - RoundTime(cfg, k - 1));
      TakingIsBurst(cfg, run, instances, step);
      run := Taking(cfg, run, step);
      RoundBegins(cfg, s, Last(run), instances, k - 1);
    }
  }

  lemma Start(cfg: Config, instances: nat) returns (run: Run<State, Step>)
    requires cfg.max >= 1 && cfg.window >= 2
    ensures Burst(cfg, run, instances) && InRound(cfg, Last(run), instances, 0, 0) && Last(run).now == 0
  {
    var s := Init(0, instances);
    run := Run([s], []);
    forall x | 0 <= x <= instances ensures HasWindow(cfg, s, 0, 0, x) {
    }
  }

  lemma {:induction false} NoRestarts(steps: seq<Step>, k: nat)
    requires k <= |steps| && forall j :: 0 <= j < k ==> Burstlike(steps[j])
    ensures Restarts(steps, k) == 0
  {
    if k > 0 { NoRestarts(steps, k - 1); }
  }

  /** However many instances and whatever the budget, some run without a restart lets the client
      through (N + 1) * (2 * max - 1) times within one window's length. */
  lemma FleetBoundIsAttained(cfg: Config, instances: nat) returns (run: Run<State, Step>)
    requires cfg.max >= 1 && cfg.window >= 2 && instances >= 1
    ensures IsRun(cfg, run, instances) && forall j :: 0 <= j < |run.steps| ==> Spares(run.steps[j], 1)
    ensures Restarts(run.steps, |run.steps|) == 0
    ensures var passes := Last(run).passes;
            Passes(cfg, passes, 1, cfg.window - 1, |passes|) == (instances + 1) * (2 * cfg.max - 1)
  {
    var k := 2 * cfg.max - 1;
    run := Rounds(cfg, instances, k);
    run := AskAll(cfg, run, instances, k, instances + 1);
    NoRestarts(run.steps, |run.steps|);
    assert (k - 1) * (instances + 1) + (instances + 1) == k * (instances + 1);
  }
}
