/** Any number of instances rate limiting through one Redis, in every pattern of
    answers, failures and timeouts: what a client can get past all of them. */
module RedisFleet {

  import opened Prelude
  import opened RateWindow
  import opened MemoryLimiter
  import opened RedisLimiter
  import LimiterRuns

  type CallId = nat

  datatype Flight = Flight(i: nat, ip: Ip, unanswered: bool)

  /** An attempt let through; decider 0 is Redis, decider i + 1 the shadow of process i. */
  datatype Pass = Pass(ip: Ip, at: int, decider: nat)

  /** A process is one life of an instance: `shadows` has one shadow for each process ever started,
      `alive` are those running now, one for each instance, and the others are history. `late` holds
      clients for which a script was sent and not answered: Redis may execute it at any later time,
      or never. `passes` is history. */
  datatype State = State(
    now: int, keys: Keys, late: set<Ip>, shadows: seq<Entries>, alive: set<nat>,
    flights: map<CallId, Flight>, passes: seq<Pass>)

  datatype Step =
    | Tick(elapsed: nat)
    | Begin(c: CallId, i: nat, ip: Ip)
    | Answer(c: CallId)
    | Lose(c: CallId, sent: bool)
    | LateScript(ip: Ip)
    | Fallback(c: CallId, cleanAt: int, victim: Option<Ip>)
    | ShadowCall(i: nat, call: LimiterRuns.Call)
    | RecordScript(ip: Ip)
    | ResetKey(ip: Ip)
    | Restart(i: nat)

  function ShadowTry(s: State, c: CallId, cleanAt: int, victim: Option<Ip>): LimiterRuns.Call
    requires c in s.flights
  {
    LimiterRuns.Call(LimiterRuns.Try, s.flights[c].ip, cleanAt, s.now, victim)
  }

  ghost predicate Enabled(cfg: Config, s: State, step: Step) {
    match step
    case Begin(c, i, _) => c !in s.flights && i in s.alive && i < |s.shadows|
    case Answer(c) => c in s.flights && !s.flights[c].unanswered
    case Lose(c, _) => c in s.flights && !s.flights[c].unanswered
    case LateScript(ip) => ip in s.late
    case Fallback(c, cleanAt, victim) =>
      && c in s.flights && s.flights[c].unanswered && s.flights[c].i < |s.shadows| && cleanAt <= s.now
      && RoomMade(cfg, s.shadows[s.flights[c].i], s.flights[c].ip, cleanAt, victim)
    case ShadowCall(i, call) =>
      i in s.alive && i < |s.shadows| && !call.op.Try? && call.cleanAt <= call.now == s.now
    case Restart(i) => i in s.alive
    case _ => true
  }

  /** The shadow answers an attempt with yes. */
  predicate Lets(cfg: Config, entries: Entries, call: LimiterRuns.Call) {
    call.op.Try? && LimiterRuns.ReplyTo(cfg, entries, call) == LimiterRuns.Allowed(true)
  }

  function PassIf(yes: bool, ip: Ip, at: int, decider: nat): seq<Pass> {
    if yes then [Pass(ip, at, decider)] else []
  }

  function Apply(cfg: Config, s: State, step: Step): State
    requires Enabled(cfg, s, step)
  {
    match step
    case Tick(elapsed) => s.(now := s.now + elapsed)
    case Begin(c, i, ip) => s.(flights := s.flights[c := Flight(i, ip, false)])
    case Answer(c) =>
      var ip := s.flights[c].ip;
      s.(keys := Script(cfg, s.keys, ip, s.now), flights := s.flights - {c},
         passes := s.passes + PassIf(ScriptAllows(cfg, s.keys, ip, s.now), ip, s.now, 0))
    case Lose(c, sent) =>
      s.(flights := s.flights[c := s.flights[c].(unanswered := true)],
         late := if sent then s.late + {s.flights[c].ip} else s.late)
    case LateScript(ip) => s.(keys := Script(cfg, s.keys, ip, s.now))
    case Fallback(c, cleanAt, victim) =>
      var Flight(i, ip, _) := s.flights[c];
      var call := ShadowTry(s, c, cleanAt, victim);
      s.(shadows := s.shadows[i := LimiterRuns.Stepped(cfg, s.shadows[i], call)], flights := s.flights - {c},
         passes := s.passes + PassIf(Lets(cfg, s.shadows[i], call), ip, s.now, i + 1))
    case ShadowCall(i, call) => s.(shadows := s.shadows[i := LimiterRuns.Stepped(cfg, s.shadows[i], call)])
    case RecordScript(ip) => s.(keys := Script(cfg, s.keys, ip, s.now))
    case ResetKey(ip) => s.(keys := s.keys - {ip})
    case Restart(i) => Restarted(s, i)
  }

  /** An instance dies and starts again with an empty shadow; its calls are gone, and scripts it
      had sent may still be executed. */
  function Restarted(s: State, i: nat): State {
    s.(shadows := s.shadows + [map[]], alive := s.alive - {i} + {|s.shadows|},
       flights := map c | c in s.flights && s.flights[c].i != i :: s.flights[c],
       late := s.late + set c | c in s.flights && s.flights[c].i == i :: s.flights[c].ip)
  }

  /** A script that was sent and not answered may be executed any time later, also after a restart. */
  lemma UnansweredScriptMayRun(cfg: Config, s: State, c: CallId, i: nat)
    requires c in s.flights && !s.flights[c].unanswered
    ensures Enabled(cfg, Apply(cfg, s, Lose(c, true)), LateScript(s.flights[c].ip))
    ensures i in s.alive && s.flights[c].i == i ==>
              Enabled(cfg, Apply(cfg, s, Restart(i)), LateScript(s.flights[c].ip))
    ensures i in s.alive ==>
              var s' := Apply(cfg, s, Restart(i));
              && s'.shadows == s.shadows + [map[]] && |s.shadows| in s'.alive
              && forall x :: x in s'.flights <==> x in s.flights && s.flights[x].i != i
  {
  }

  /** A reset removes this client's counter and no other. */
  lemma ResetForgetsCounter(cfg: Config, s: State, ip: Ip, other: Ip)
    ensures var s' := Apply(cfg, s, ResetKey(ip));
            && ip !in s'.keys && s'.shadows == s.shadows && s'.passes == s.passes
            && (other != ip ==> (other in s'.keys <==> other in s.keys))
            && (other != ip && other in s.keys ==> s'.keys[other] == s.keys[other])
  {
  }

  /** The step neither resets this client anywhere nor evicts it or records for it in a shadow. */
  predicate Spares(step: Step, ip: Ip) {
    match step
    case Fallback(_, _, victim) => victim != Some(ip)
    case ShadowCall(_, call) => LimiterRuns.Spares(call, ip)
    case ResetKey(ip') => ip' != ip
    case _ => true
  }

  // ------------------------------------------------------------- the counts

  /** Passes of `ip` in `[from, from + window)` given by one decider. */
  function PassesBy(cfg: Config, passes: seq<Pass>, ip: Ip, from: int, decider: nat, n: nat): nat
    requires n <= |passes|
  {
    if n == 0 then 0
    else
      PassesBy(cfg, passes, ip, from, decider, n - 1)
      + Counted(cfg, from, passes[n - 1].ip == ip && passes[n - 1].decider == decider, passes[n - 1].at)
  }

  /** Passes given by any decider below `deciders`. */
  function PassesBelow(cfg: Config, passes: seq<Pass>, ip: Ip, from: int, deciders: nat, n: nat): nat
    requires n <= |passes|
  {
    if n == 0 then 0
    else
      PassesBelow(cfg, passes, ip, from, deciders, n - 1)
      + Counted(cfg, from, passes[n - 1].ip == ip && passes[n - 1].decider < deciders, passes[n - 1].at)
  }

  /** All passes of `ip` in the interval. */
  function Passes(cfg: Config, passes: seq<Pass>, ip: Ip, from: int, n: nat): nat
    requires n <= |passes|
  {
    if n == 0 then 0
    else Passes(cfg, passes, ip, from, n - 1) + Counted(cfg, from, passes[n - 1].ip == ip, passes[n - 1].at)
  }

  lemma {:induction false} OneMoreDecider(cfg: Config, passes: seq<Pass>, ip: Ip, from: int, d: nat, n: nat)
    requires n <= |passes|
    ensures PassesBelow(cfg, passes, ip, from, d + 1, n)
         == PassesBelow(cfg, passes, ip, from, d, n) + PassesBy(cfg, passes, ip, from, d, n)
    ensures PassesBelow(cfg, passes, ip, from, 0, n) == 0
  {
    if n > 0 { OneMoreDecider(cfg, passes, ip, from, d, n - 1); }
  }

  lemma {:induction false} AllDeciders(cfg: Config, passes: seq<Pass>, ip: Ip, from: int, deciders: nat, n: nat)
    requires n <= |passes| && forall k :: 0 <= k < n ==> passes[k].decider < deciders
    ensures PassesBelow(cfg, passes, ip, from, deciders, n) == Passes(cfg, passes, ip, from, n)
  {
    if n > 0 { AllDeciders(cfg, passes, ip, from, deciders, n - 1); }
  }

  lemma {:induction false} PassesByPrefix(
    cfg: Config, passes: seq<Pass>, more: seq<Pass>, ip: Ip, from: int, d: nat, n: nat)
    requires n <= |passes|
    ensures PassesBy(cfg, passes + more, ip, from, d, n) == PassesBy(cfg, passes, ip, from, d, n)
  {
    if n > 0 { PassesByPrefix(cfg, passes, more, ip, from, d, n - 1); }
  }

  lemma PassesByAppend(cfg: Config, passes: seq<Pass>, yes: bool, ip': Ip, at: int, d': nat, ip: Ip, from: int, d: nat)
    ensures var longer := passes + PassIf(yes, ip', at, d');
            PassesBy(cfg, longer, ip, from, d, |longer|) ==
            PassesBy(cfg, passes, ip, from, d, |passes|) + Counted(cfg, from, yes && ip' == ip && d' == d, at)
  {
    PassesByPrefix(cfg, passes, PassIf(yes, ip', at, d'), ip, from, d, |passes|);
    if !yes {
      assert passes + PassIf(yes, ip', at, d') == passes;
    }
  }

  // ------------------------------------------------------------ the invariant

  /** What decider `d` stores for the client, or would if it never forgot. */
  function Stored(cfg: Config, s: State, ip: Ip, d: nat): Option<Entry>
    requires d <= |s.shadows|
  {
    if d == 0 then Seen(cfg, s.keys, ip, s.now) else At(s.shadows[d - 1], ip)
  }

  /** `last` is the latest window of the client at decider `d`, and the passes are within it. */
  predicate Tracks(cfg: Config, s: State, ip: Ip, from: int, d: nat, last: Option<Entry>)
    requires d <= |s.shadows|
  {
    && Agrees(cfg, Stored(cfg, s, ip, d), last, s.now)
    && Budgeted(cfg, from, last, PassesBy(cfg, s.passes, ip, from, d, |s.passes|), s.now)
  }

  /** Nothing of decider `d` moved except the clock. */
  lemma TracksIdle(cfg: Config, s: State, s': State, ip: Ip, from: int, d: nat, last: Option<Entry>)
    requires d <= |s.shadows| <= |s'.shadows| && Tracks(cfg, s, ip, from, d, last) && AllExpire(s.keys)
    requires s.now <= s'.now
    requires if d == 0 then Seen(cfg, s'.keys, ip, s'.now) == Seen(cfg, s.keys, ip, s'.now)
             else At(s'.shadows[d - 1], ip) == At(s.shadows[d - 1], ip)
    requires PassesBy(cfg, s'.passes, ip, from, d, |s'.passes|) == PassesBy(cfg, s.passes, ip, from, d, |s.passes|)
    ensures Tracks(cfg, s', ip, from, d, last)
  {
    TimeStaysBudgeted(cfg, from, last, PassesBy(cfg, s.passes, ip, from, d, |s.passes|), s.now, s'.now);
    if d == 0 {
      SeenLater(cfg, s.keys, ip, last, s.now, s'.now);
    } else {
      AgreementLasts(cfg, Stored(cfg, s, ip, d), last, s.now, s'.now);
    }
  }

  /** The script ran for the client, whether or not anybody was told. */
  lemma TracksScript(cfg: Config, s: State, ip: Ip, from: int, last: Option<Entry>, told: bool)
    requires cfg.max >= 1 && cfg.window > 0 && AllExpire(s.keys) && Tracks(cfg, s, ip, from, 0, last)
    ensures var passes := s.passes + PassIf(told && ScriptAllows(cfg, s.keys, ip, s.now), ip, s.now, 0);
            Tracks(cfg, s.(keys := Script(cfg, s.keys, ip, s.now), passes := passes), ip, from, 0,
                   Some(Tried(cfg, last, s.now)))
  {
    ScriptIsTried(cfg, s.keys, ip, last, s.now, s.now);
    PassesByAppend(cfg, s.passes, told && ScriptAllows(cfg, s.keys, ip, s.now), ip, s.now, 0, ip, from, 0);
    AttemptStaysBudgeted(cfg, from, last, PassesBy(cfg, s.passes, ip, from, 0, |s.passes|), s.now, s.now, told);
  }

  /** All that the shadow of instance `i` serving a call changes, apart from calls in flight. */
  predicate ShadowServed(cfg: Config, s: State, s': State, i: nat, call: LimiterRuns.Call) {
    && i < |s.shadows|
    && s'.now == s.now && s'.keys == s.keys
    && s'.shadows == s.shadows[i := LimiterRuns.Stepped(cfg, s.shadows[i], call)]
    && s'.passes == s.passes + PassIf(Lets(cfg, s.shadows[i], call), call.ip, s.now, i + 1)
  }

  lemma TracksShadow(
    cfg: Config, s: State, s': State, ip: Ip, from: int, i: nat, last: Option<Entry>, call: LimiterRuns.Call)
    requires cfg.max >= 1 && cfg.window > 0 && ShadowServed(cfg, s, s', i, call)
    requires Tracks(cfg, s, ip, from, i + 1, last)
    requires LimiterRuns.Spares(call, ip) && call.cleanAt <= call.now == s.now
    ensures Tracks(cfg, s', ip, from, i + 1, LimiterRuns.IdealEntry(cfg, last, call, ip))
  {
    LimiterRuns.StepAgrees(cfg, s.shadows[i], last, call, ip, s.now);
    PassesByAppend(cfg, s.passes, Lets(cfg, s.shadows[i], call), call.ip, s.now, i + 1, ip, from, i + 1);
    if call.op.Try? && call.ip == ip {
      AttemptStaysBudgeted(cfg, from, last, PassesBy(cfg, s.passes, ip, from, i + 1, |s.passes|), s.now, s.now, true);
    }
  }

  lemma TracksOtherShadow(
    cfg: Config, s: State, s': State, ip: Ip, from: int, i: nat, last: Option<Entry>, call: LimiterRuns.Call, d: nat)
    requires ShadowServed(cfg, s, s', i, call) && AllExpire(s.keys)
    requires d <= |s.shadows| && d != i + 1 && Tracks(cfg, s, ip, from, d, last)
    ensures Tracks(cfg, s', ip, from, d, last)
  {
    PassesByAppend(cfg, s.passes, Lets(cfg, s.shadows[i], call), call.ip, s.now, i + 1, ip, from, d);
    TracksIdle(cfg, s, s', ip, from, d, last);
  }

  ghost predicate Inv(cfg: Config, s: State, ip: Ip, from: int, lasts: seq<Option<Entry>>) {
    && AllExpire(s.keys)
    && |lasts| == |s.shadows| + 1
    && (forall k :: 0 <= k < |s.passes| ==> s.passes[k].decider <= |s.shadows|)
    && (forall d :: 0 <= d < |lasts| ==> Tracks(cfg, s, ip, from, d, lasts[d]))
  }

  /** Only the decider that acted, if any, has a new latest window; a restart adds a decider. */
  function NextLasts(cfg: Config, s: State, step: Step, ip: Ip, lasts: seq<Option<Entry>>): seq<Option<Entry>>
    requires |lasts| == |s.shadows| + 1
  {
    match step
    case Answer(c) =>
      if c in s.flights && s.flights[c].ip == ip then lasts[0 := Some(Tried(cfg, lasts[0], s.now))] else lasts
    case LateScript(ip') => if ip' == ip then lasts[0 := Some(Tried(cfg, lasts[0], s.now))] else lasts
    case RecordScript(ip') => if ip' == ip then lasts[0 := Some(Tried(cfg, lasts[0], s.now))] else lasts
    case Fallback(c, cleanAt, victim) =>
      if c in s.flights && s.flights[c].i < |s.shadows|
      then lasts[s.flights[c].i + 1 := LimiterRuns.IdealEntry(cfg, lasts[s.flights[c].i + 1],
                                                              ShadowTry(s, c, cleanAt, victim), ip)]
      else lasts
    case ShadowCall(i, call) =>
      if i < |s.shadows| then lasts[i + 1 := LimiterRuns.IdealEntry(cfg, lasts[i + 1], call, ip)] else lasts
    case Restart(_) => lasts + [None]
    case _ => lasts
  }

  lemma ScriptOfOther(cfg: Config, keys: Keys, ip': Ip, ip: Ip, now: int)
    requires ip' != ip
    ensures Seen(cfg, Script(cfg, keys, ip', now), ip, now) == Seen(cfg, keys, ip, now)
  {
  }

  lemma RedisStepTracks(cfg: Config, s: State, step: Step, ip: Ip, from: int, lasts: seq<Option<Entry>>, d: nat)
    requires cfg.max >= 1 && cfg.window > 0 && Inv(cfg, s, ip, from, lasts) && d < |lasts|
    requires Enabled(cfg, s, step) && (step.Answer? || step.LateScript? || step.RecordScript?)
    ensures Tracks(cfg, Apply(cfg, s, step), ip, from, d, NextLasts(cfg, s, step, ip, lasts)[d])
  {
    var ip' := if step.Answer? then s.flights[step.c].ip else step.ip;
    var yes := step.Answer? && ScriptAllows(cfg, s.keys, ip', s.now);
    var s' := Apply(cfg, s, step);
    assert s.passes + PassIf(false, ip', s.now, 0) == s.passes;
    assert Tracks(cfg, s, ip, from, d, lasts[d]);
    PassesByAppend(cfg, s.passes, yes, ip', s.now, 0, ip, from, d);
    if d == 0 && ip' == ip {
      TracksScript(cfg, s, ip, from, lasts[0], step.Answer?);
    } else {
      if ip' != ip { ScriptOfOther(cfg, s.keys, ip', ip, s.now); }
      TracksIdle(cfg, s, s', ip, from, d, lasts[d]);
    }
  }

  function ShadowOf(s: State, step: Step): nat
    requires step.ShadowCall? || (step.Fallback? && step.c in s.flights)
  {
    if step.Fallback? then s.flights[step.c].i else step.i
  }

  function CallOf(s: State, step: Step): LimiterRuns.Call
    requires step.ShadowCall? || (step.Fallback? && step.c in s.flights)
  {
    if step.Fallback? then ShadowTry(s, step.c, step.cleanAt, step.victim) else step.call
  }

  lemma ShadowStepServes(cfg: Config, s: State, step: Step)
    requires Enabled(cfg, s, step) && (step.Fallback? || step.ShadowCall?)
    ensures ShadowServed(cfg, s, Apply(cfg, s, step), ShadowOf(s, step), CallOf(s, step))
    ensures CallOf(s, step).cleanAt <= CallOf(s, step).now == s.now
  {
  }

  lemma ShadowStepLasts(cfg: Config, s: State, step: Step, ip: Ip, lasts: seq<Option<Entry>>)
    requires Enabled(cfg, s, step) && (step.Fallback? || step.ShadowCall?) && |lasts| == |s.shadows| + 1
    ensures var i := ShadowOf(s, step);
            i < |s.shadows| && NextLasts(cfg, s, step, ip, lasts) ==
                               lasts[i + 1 := LimiterRuns.IdealEntry(cfg, lasts[i + 1], CallOf(s, step), ip)]
  {
  }

  lemma ShadowStepTracks(
    cfg: Config, s: State, s': State, ip: Ip, from: int,
    i: nat, call: LimiterRuns.Call, lasts: seq<Option<Entry>>, d: nat)
    requires cfg.max >= 1 && cfg.window > 0 && AllExpire(s.keys) && ShadowServed(cfg, s, s', i, call)
    requires LimiterRuns.Spares(call, ip) && call.cleanAt <= call.now == s.now
    requires d < |lasts| == |s.shadows| + 1 && Tracks(cfg, s, ip, from, d, lasts[d])
    ensures Tracks(cfg, s', ip, from, d, lasts[i + 1 := LimiterRuns.IdealEntry(cfg, lasts[i + 1], call, ip)][d])
  {
    if d == i + 1 {
      TracksShadow(cfg, s, s', ip, from, i, lasts[d], call);
    } else {
      TracksOtherShadow(cfg, s, s', ip, from, i, lasts[d], call, d);
    }
  }

  lemma AfterShadowStep(cfg: Config, s: State, step: Step, ip: Ip, from: int, lasts: seq<Option<Entry>>, d: nat)
    requires cfg.max >= 1 && cfg.window > 0 && AllExpire(s.keys)
    requires d < |lasts| == |s.shadows| + 1 && Tracks(cfg, s, ip, from, d, lasts[d])
    requires Enabled(cfg, s, step) && Spares(step, ip) && (step.Fallback? || step.ShadowCall?)
    ensures Tracks(cfg, Apply(cfg, s, step), ip, from, d, NextLasts(cfg, s, step, ip, lasts)[d])
  {
    var s', i, call := Apply(cfg, s, step), ShadowOf(s, step), CallOf(s, step);
    ShadowStepServes(cfg, s, step);
    ShadowStepLasts(cfg, s, step, ip, lasts);
    ShadowStepSpares(s, step, ip);
    ShadowStepTracks(cfg, s, s', ip, from, i, call, lasts, d);
  }

  lemma ShadowStepSpares(s: State, step: Step, ip: Ip)
    requires step.ShadowCall? || (step.Fallback? && step.c in s.flights)
    requires Spares(step, ip)
    ensures LimiterRuns.Spares(CallOf(s, step), ip)
  {
  }

  lemma AfterOtherStep(cfg: Config, s: State, step: Step, ip: Ip, from: int, lasts: seq<Option<Entry>>, d: nat)
    requires AllExpire(s.keys) && d < |lasts| == |s.shadows| + 1 && Tracks(cfg, s, ip, from, d, lasts[d])
    requires Enabled(cfg, s, step) && Spares(step, ip)
    requires step.Tick? || step.Begin? || step.Lose? || step.ResetKey? || step.Restart?
    ensures Tracks(cfg, Apply(cfg, s, step), ip, from, d, NextLasts(cfg, s, step, ip, lasts)[d])
  {
    TracksIdle(cfg, s, Apply(cfg, s, step), ip, from, d, lasts[d]);
  }

  lemma StepTracks(cfg: Config, s: State, step: Step, ip: Ip, from: int, lasts: seq<Option<Entry>>, d: nat)
    requires cfg.max >= 1 && cfg.window > 0 && Inv(cfg, s, ip, from, lasts) && d < |lasts|
    requires Enabled(cfg, s, step) && Spares(step, ip)
    ensures Tracks(cfg, Apply(cfg, s, step), ip, from, d, NextLasts(cfg, s, step, ip, lasts)[d])
  {
    assert Tracks(cfg, s, ip, from, d, lasts[d]);
    if step.Answer? || step.LateScript? || step.RecordScript? {
      RedisStepTracks(cfg, s, step, ip, from, lasts, d);
    } else if step.Fallback? || step.ShadowCall? {
      AfterShadowStep(cfg, s, step, ip, from, lasts, d);
    } else {
      AfterOtherStep(cfg, s, step, ip, from, lasts, d);
    }
  }

  /** No counter key ever exists without an expiry, whatever the steps. */
  lemma StepKeepsExpiry(cfg: Config, s: State, step: Step)
    requires AllExpire(s.keys) && Enabled(cfg, s, step)
    ensures AllExpire(Apply(cfg, s, step).keys)
  {
    match step
    case Answer(c) => ScriptKeepsExpiry(cfg, s.keys, s.flights[c].ip, s.now);
    case LateScript(ip) => ScriptKeepsExpiry(cfg, s.keys, ip, s.now);
    case RecordScript(ip) => ScriptKeepsExpiry(cfg, s.keys, ip, s.now);
    case _ =>
  }

  lemma StepKeepsDeciders(cfg: Config, s: State, step: Step)
    requires Enabled(cfg, s, step) && forall k :: 0 <= k < |s.passes| ==> s.passes[k].decider <= |s.shadows|
    ensures var s' := Apply(cfg, s, step);
            && |s'.shadows| == |s.shadows| + (if step.Restart? then 1 else 0)
            && forall k :: 0 <= k < |s'.passes| ==> s'.passes[k].decider <= |s'.shadows|
  {
  }

  lemma {:induction false} NoPassesYet(cfg: Config, passes: seq<Pass>, ip: Ip, from: int, d: nat, n: nat)
    requires n <= |passes| && forall k :: 0 <= k < n ==> passes[k].decider < d
    ensures PassesBy(cfg, passes, ip, from, d, n) == 0
  {
    if n > 0 { NoPassesYet(cfg, passes, ip, from, d, n - 1); }
  }

  /** The shadow of a process just started has let nobody through. */
  lemma NewShadowTracks(cfg: Config, s: State, i: nat, ip: Ip, from: int)
    requires forall k :: 0 <= k < |s.passes| ==> s.passes[k].decider <= |s.shadows|
    ensures Tracks(cfg, Restarted(s, i), ip, from, |s.shadows| + 1, None)
  {
    NoPassesYet(cfg, s.passes, ip, from, |s.shadows| + 1, |s.passes|);
  }

  lemma StepKeepsInv(cfg: Config, s: State, step: Step, ip: Ip, from: int, lasts: seq<Option<Entry>>)
    requires cfg.max >= 1 && cfg.window > 0 && Inv(cfg, s, ip, from, lasts)
    requires Enabled(cfg, s, step) && Spares(step, ip)
    ensures Inv(cfg, Apply(cfg, s, step), ip, from, NextLasts(cfg, s, step, ip, lasts))
  {
    StepKeepsExpiry(cfg, s, step);
    StepKeepsDeciders(cfg, s, step);
    var s', next := Apply(cfg, s, step), NextLasts(cfg, s, step, ip, lasts);
    assert |next| == |s'.shadows| + 1;
    forall d | 0 <= d < |next| ensures Tracks(cfg, s', ip, from, d, next[d]) {
      if d < |lasts| {
        StepTracks(cfg, s, step, ip, from, lasts, d);
      } else {
        NewShadowTracks(cfg, s, step.i, ip, from);
      }
    }
  }

  // -------------------------------------------------------------- whole runs

  /** The first `n` processes. */
  function Processes(n: nat): (ids: set<nat>)
    ensures forall i :: i in ids <==> 0 <= i < n
  {
    if n == 0 then {} else Processes(n - 1) + {n - 1}
  }

  function Init(now: int, instances: nat): State {
    State(now, map[], {}, seq(instances, _ => map[]), Processes(instances), map[], [])
  }

  ghost predicate StepTaken(cfg: Config, run: Run<State, Step>, k: nat)
    requires |run.states| == |run.steps| + 1 && k < |run.steps|
  {
    Enabled(cfg, run.states[k], run.steps[k]) && run.states[k + 1] == Apply(cfg, run.states[k], run.steps[k])
  }

  ghost predicate IsRun(cfg: Config, run: Run<State, Step>, instances: nat) {
    && |run.states| == |run.steps| + 1
    && run.states[0] == Init(run.states[0].now, instances)
    && forall k :: 0 <= k < |run.steps| ==> StepTaken(cfg, run, k)
  }

  lemma {:induction false} KeysAlwaysExpire(cfg: Config, run: Run<State, Step>, instances: nat, k: nat)
    requires IsRun(cfg, run, instances) && k < |run.states|
    ensures AllExpire(run.states[k].keys)
  {
    if k > 0 {
      KeysAlwaysExpire(cfg, run, instances, k - 1);
      assert StepTaken(cfg, run, k - 1);
      StepKeepsExpiry(cfg, run.states[k - 1], run.steps[k - 1]);
    }
  }

  /** How many of the first `k` steps restart an instance. */
  function Restarts(steps: seq<Step>, k: nat): nat
    requires k <= |steps|
  {
    if k == 0 then 0 else Restarts(steps, k - 1) + if steps[k - 1].Restart? then 1 else 0
  }

  lemma InitInv(cfg: Config, now: int, instances: nat, ip: Ip, from: int) returns (lasts: seq<Option<Entry>>)
    ensures |lasts| == instances + 1 && Inv(cfg, Init(now, instances), ip, from, lasts)
  {
    lasts := seq(instances + 1, _ => None);
    forall d | 0 <= d < |lasts| ensures Tracks(cfg, Init(now, instances), ip, from, d, lasts[d]) {
    }
  }

  lemma {:induction false} InvHolds(
    cfg: Config, run: Run<State, Step>, instances: nat, k: nat, ip: Ip, from: int) returns (lasts: seq<Option<Entry>>)
    requires cfg.max >= 1 && cfg.window > 0 && IsRun(cfg, run, instances) && k < |run.states|
    requires forall j :: 0 <= j < k ==> Spares(run.steps[j], ip)
    ensures |run.states[k].shadows| == instances + Restarts(run.steps, k)
    ensures Inv(cfg, run.states[k], ip, from, lasts)
  {
    if k == 0 {
      lasts := InitInv(cfg, run.states[0].now, instances, ip, from);
    } else {
      var before := InvHolds(cfg, run, instances, k - 1, ip, from);
      assert StepTaken(cfg, run, k - 1);
      StepKeepsInv(cfg, run.states[k - 1], run.steps[k - 1], ip, from, before);
      StepKeepsDeciders(cfg, run.states[k - 1], run.steps[k - 1]);
      lasts := NextLasts(cfg, run.states[k - 1], run.steps[k - 1], ip, before);
    }
  }

  lemma DeciderBound(cfg: Config, s: State, ip: Ip, from: int, d: nat, last: Option<Entry>)
    requires cfg.max >= 1 && d <= |s.shadows| && Tracks(cfg, s, ip, from, d, last)
    ensures PassesBy(cfg, s.passes, ip, from, d, |s.passes|) <= 2 * cfg.max - 1
  {
    BudgetedBound(cfg, from, last, PassesBy(cfg, s.passes, ip, from, d, |s.passes|), s.now);
  }

  lemma {:induction false} DecidersBound(
    cfg: Config, s: State, ip: Ip, from: int, lasts: seq<Option<Entry>>, deciders: nat, each: nat)
    requires cfg.max >= 1 && each == 2 * cfg.max - 1 && Inv(cfg, s, ip, from, lasts) && deciders <= |lasts|
    ensures PassesBelow(cfg, s.passes, ip, from, deciders, |s.passes|) <= deciders * each
  {
    if deciders == 0 {
      OneMoreDecider(cfg, s.passes, ip, from, 0, |s.passes|);
    } else {
      var d := deciders - 1;
      DecidersBound(cfg, s, ip, from, lasts, d, each);
      OneMoreDecider(cfg, s.passes, ip, from, d, |s.passes|);
      DeciderBound(cfg, s, ip, from, d, lasts[d]);
      assert deciders * each == d * each + each;
    }
  }

  /** N instances sharing one Redis, restarted R times in all, let a client through at most
      (N + 1 + R) * (2 * max - 1) times in any half-open interval of one window's length, in any pattern
      of failures, timeouts and late scripts, unless the client is reset or a shadow evicts it or
      records for it. A pass is timed when it is decided, by Redis executing the script or by the
      shadow, not when its caller returns. */
  lemma FleetBound(cfg: Config, run: Run<State, Step>, instances: nat, k: nat, ip: Ip, from: int)
    requires cfg.max >= 1 && cfg.window > 0 && IsRun(cfg, run, instances) && k < |run.states|
    requires forall j :: 0 <= j < k ==> Spares(run.steps[j], ip)
    ensures Passes(cfg, run.states[k].passes, ip, from, |run.states[k].passes|) <=
            (instances + 1 + Restarts(run.steps, k)) * (2 * cfg.max - 1)
  {
    var s, deciders := run.states[k], instances + 1 + Restarts(run.steps, k);
    var lasts := InvHolds(cfg, run, instances, k, ip, from);
    DecidersBound(cfg, s, ip, from, lasts, deciders, 2 * cfg.max - 1);
    AllDeciders(cfg, s.passes, ip, from, deciders, |s.passes|);
  }
}
