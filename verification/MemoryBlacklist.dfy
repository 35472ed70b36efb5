/** `MemoryAccessTokenBlacklist`: the single-instance revocation list, swept on
    revoke and checked in two phases under different locks. */
module MemoryBlacklist {

  import opened Prelude

  datatype Revocation = Revocation(at: int, ttl: nat)

  type Log = map<Jti, Revocation>

  predicate Live(r: Revocation, now: int) {
    DurationSince(now, r.at) < r.ttl
  }

  predicate RevokedIn(log: Log, jti: Jti, now: int) {
    jti in log && Live(log[jti], now)
  }

  function Swept(entries: Log, now: int): Log {
    map jti | jti in entries && Live(entries[jti], now) :: entries[jti]
  }

  /** The stored entries are the latest revocations, minus some that are over. */
  ghost predicate Faithful(entries: Log, log: Log, now: int) {
    && (forall jti :: jti in log ==> log[jti].at <= now)
    && (forall jti :: jti in entries ==> jti in log && entries[jti] == log[jti])
    && (forall jti :: jti in log && jti !in entries ==> !Live(log[jti], now))
  }

  // --------------------------------------------------------------- the object

  class MemoryAccessTokenBlacklist {
    var entries: Log
    /** The latest revocation of every jti, never pruned, and the latest clock reading. */
    ghost var log: Log
    ghost var time: int

    ghost predicate Valid()
      reads this
    {
      Faithful(entries, log, time)
    }

    constructor (ghost now: int)
      ensures Valid() && entries == map[] && log == map[] && time == now
    {
      entries := map[];
      log := map[];
      time := now;
    }

    method Revoke(jti: Jti, ttl: nat, now: int)
      requires Valid() && time <= now
      modifies this
      ensures Valid() && time == now && log == old(log)[jti := Revocation(now, ttl)]
      ensures forall j :: j in entries <==>
                j == jti || (j in old(entries) && now < old(entries)[j].at + old(entries)[j].ttl)
      ensures forall j :: j in entries ==> entries[j] == if j == jti then Revocation(now, ttl) else old(entries)[j]
    {
      entries := Swept(entries, now);
      entries := entries[jti := Revocation(now, ttl)];
      log := log[jti := Revocation(now, ttl)];
      time := now;
    }

    /** Revoked exactly when the latest revocation of the jti is younger than its ttl; the
        second phase, at `again`, only ever removes an entry that is over. */
    method IsRevoked(jti: Jti, now: int, again: int) returns (revoked: bool)
      requires Valid() && time <= now <= again
      modifies this
      ensures Valid() && log == old(log) && time == again
      ensures revoked <==> jti in log && now < log[jti].at + log[jti].ttl
      ensures revoked ==> entries == old(entries)
      ensures !revoked ==> entries == old(entries) - {jti}
    {
      time := again;
      if jti !in entries {
        assert entries == entries - {jti};
        return false;
      }
      if Live(entries[jti], now) {
        return true;
      }
      if Live(entries[jti], again) {
        return true;
      }
      entries := entries - {jti};
      revoked := false;
    }
  }

  // ----------------------------------------------------- interleaved checks

  type CallId = nat

  datatype Phase = Fast | BetweenLocks | Slow

  /** `readAt` is the clock reading taken before the lock. `hadMoment` is history: the jti has
      been revoked at some moment since the call began. */
  datatype Check = Check(jti: Jti, readAt: int, phase: Phase, hadMoment: bool)

  datatype State = State(now: int, entries: Log, log: Log, checks: map<CallId, Check>)

  datatype Step =
    | Tick(elapsed: nat)
    | Revoke(jti: Jti, ttl: nat)
    | Begin(c: CallId, jti: Jti)
    | LookFast(c: CallId)
    | ReadAgain(c: CallId)
    | LookSlow(c: CallId)

  predicate At(s: State, c: CallId, phase: Phase) {
    c in s.checks && s.checks[c].phase == phase
  }

  predicate Enabled(s: State, step: Step) {
    match step
    case Begin(c, _) => c !in s.checks
    case LookFast(c) => At(s, c, Fast)
    case ReadAgain(c) => At(s, c, BetweenLocks)
    case LookSlow(c) => At(s, c, Slow)
    case _ => true
  }

  /** Whether the jti is revoked right now, by the log that forgets nothing. */
  predicate Truth(s: State, jti: Jti) {
    RevokedIn(s.log, jti, s.now)
  }

  predicate FoundLive(s: State, call: Check) {
    call.jti in s.entries && Live(s.entries[call.jti], call.readAt)
  }

  /** One step, before the history of the calls in flight is brought up to date. */
  function Moved(s: State, step: Step): State
    requires Enabled(s, step)
  {
    match step
    case Tick(elapsed) => s.(now := s.now + elapsed)
    case Revoke(jti, ttl) =>
      s.(entries := Swept(s.entries, s.now)[jti := Revocation(s.now, ttl)], log := s.log[jti := Revocation(s.now, ttl)])
    case Begin(c, jti) => s.(checks := s.checks[c := Check(jti, s.now, Fast, false)])
    case LookFast(c) =>
      var call := s.checks[c];
      if FoundLive(s, call) || call.jti !in s.entries then s.(checks := s.checks - {c})
      else s.(checks := s.checks[c := call.(phase := BetweenLocks)])
    case ReadAgain(c) => s.(checks := s.checks[c := s.checks[c].(readAt := s.now, phase := Slow)])
    case LookSlow(c) =>
      var call := s.checks[c];
      s.(entries := if FoundLive(s, call) then s.entries else s.entries - {call.jti}, checks := s.checks - {c})
  }

  function Marked(s: State, call: Check): Check {
    call.(hadMoment := call.hadMoment || Truth(s, call.jti))
  }

  function Apply(s: State, step: Step): State
    requires Enabled(s, step)
  {
    var s' := Moved(s, step);
    s'.(checks := map c | c in s'.checks :: Marked(s', s'.checks[c]))
  }

  /** The step makes the call return this answer. */
  predicate Answers(s: State, step: Step, c: CallId, answer: bool) {
    match step
    case LookFast(c') => c' == c && At(s, c, Fast) && (FoundLive(s, s.checks[c]) || s.checks[c].jti !in s.entries)
                         && answer == FoundLive(s, s.checks[c])
    case LookSlow(c') => c' == c && At(s, c, Slow) && answer == FoundLive(s, s.checks[c])
    case _ => false
  }

  predicate CheckOk(s: State, call: Check) {
    call.readAt <= s.now && (RevokedIn(s.log, call.jti, call.readAt) ==> call.hadMoment)
  }

  ghost predicate Inv(s: State) {
    && Faithful(s.entries, s.log, s.now)
    && forall c :: c in s.checks ==> CheckOk(s, s.checks[c])
  }

  lemma MovedStaysFaithful(s: State, step: Step)
    requires Inv(s) && Enabled(s, step)
    ensures var s' := Moved(s, step); Faithful(s'.entries, s'.log, s'.now)
  {
    if step.LookSlow? {
      assert CheckOk(s, s.checks[step.c]);
    }
  }

  lemma StepKeepsInv(s: State, step: Step)
    requires Inv(s) && Enabled(s, step)
    ensures Inv(Apply(s, step))
  {
    MovedStaysFaithful(s, step);
    var s' := Apply(s, step);
    forall c | c in s'.checks ensures CheckOk(s', s'.checks[c]) {
      if c in s.checks {
        assert CheckOk(s, s.checks[c]);
      }
    }
  }

  predicate StepTaken(run: Run<State, Step>, k: nat)
    requires |run.states| == |run.steps| + 1 && k < |run.steps|
  {
    Enabled(run.states[k], run.steps[k]) && run.states[k + 1] == Apply(run.states[k], run.steps[k])
  }

  ghost predicate IsRun(run: Run<State, Step>) {
    && |run.states| == |run.steps| + 1
    && run.states[0] == State(run.states[0].now, map[], map[], map[])
    && forall k :: 0 <= k < |run.steps| ==> StepTaken(run, k)
  }

  lemma {:induction false} InvHolds(run: Run<State, Step>, k: nat)
    requires IsRun(run) && k < |run.states|
    ensures Inv(run.states[k])
  {
    if k > 0 {
      InvHolds(run, k - 1);
      assert StepTaken(run, k - 1);
      StepKeepsInv(run.states[k - 1], run.steps[k - 1]);
    }
  }

  /** The latest `revoke` of the jti among the first `k` steps, and when it came. */
  function Latest(run: Run<State, Step>, k: nat, jti: Jti): Option<Revocation>
    requires k < |run.states| == |run.steps| + 1
  {
    if k == 0 then None
    else
      match run.steps[k - 1]
      case Revoke(j, ttl) =>
        if j == jti then Some(Revocation(run.states[k - 1].now, ttl)) else Latest(run, k - 1, jti)
      case _ => Latest(run, k - 1, jti)
  }

  lemma {:induction false} LogIsLatest(run: Run<State, Step>, k: nat, jti: Jti)
    requires IsRun(run) && k < |run.states|
    ensures Latest(run, k, jti) == if jti in run.states[k].log then Some(run.states[k].log[jti]) else None
  {
    if k > 0 {
      LogIsLatest(run, k - 1, jti);
      assert StepTaken(run, k - 1);
    }
  }

  /** However checks and revokes interleave, an entry still in force is never missing. */
  lemma LiveEntryIsNeverLost(run: Run<State, Step>, k: nat, jti: Jti)
    requires IsRun(run) && k < |run.states|
    requires Latest(run, k, jti).Some?
    requires run.states[k].now < Latest(run, k, jti).value.at + Latest(run, k, jti).value.ttl
    ensures jti in run.states[k].entries && run.states[k].entries[jti] == Latest(run, k, jti).value
  {
    InvHolds(run, k);
    LogIsLatest(run, k, jti);
  }

  /** A mark on a call in flight was set at a state since which the call has been in flight. */
  lemma {:induction false} MarkHasMoment(run: Run<State, Step>, e: nat, c: CallId) returns (k: nat)
    requires IsRun(run) && e < |run.states| && c in run.states[e].checks && run.states[e].checks[c].hadMoment
    ensures k <= e && Truth(run.states[k], run.states[e].checks[c].jti)
    ensures forall j :: k <= j <= e ==>
            c in run.states[j].checks && run.states[j].checks[c].jti == run.states[e].checks[c].jti
  {
    k := e;
    if !Truth(run.states[e], run.states[e].checks[c].jti) {
      assert e > 0;
      assert StepTaken(run, e - 1);
      k := MarkHasMoment(run, e - 1, c);
    }
  }

  /** "Not revoked" is true at the moment it is decided; "revoked" was true at some moment
      while the call was in flight. So every answer is that of a list that never forgets,
      asked at one instant between the call and its return. */
  lemma EveryAnswerHasAnInstant(run: Run<State, Step>, e: nat, c: CallId, answer: bool) returns (k: nat)
    requires IsRun(run) && e < |run.steps| && Answers(run.states[e], run.steps[e], c, answer)
    ensures k <= e
    ensures var latest := Latest(run, k, run.states[e].checks[c].jti);
            answer <==> latest.Some? && run.states[k].now < latest.value.at + latest.value.ttl
    ensures forall j :: k <= j <= e ==>
            c in run.states[j].checks && run.states[j].checks[c].jti == run.states[e].checks[c].jti
  {
    InvHolds(run, e);
    k := e;
    assert CheckOk(run.states[e], run.states[e].checks[c]);
    if answer {
      k := MarkHasMoment(run, e, c);
    }
    InvHolds(run, k);
    LogIsLatest(run, k, run.states[e].checks[c].jti);
  }
}
