/** The accept/reject decision of the `AuthenticatedUser` extractor, and logout's
    revocation ttl, joined to the revocation protocol end to end. */
module AccessDecision {

  import opened Prelude
  import opened RevocationStore
  import opened RevocationProtocol
  import opened RevocationRuns
  import opened RevocationLifetimes

  /** Whether the JWT library still accepts a token in the second exp + 60 itself. The theorems
      hold for either answer. */
  datatype Boundary = Exclusive | Inclusive

  /** The `exp` check of token validation with the 60 s leeway, in whole seconds. */
  predicate ValidAtSecond(b: Boundary, exp: int, second: int) {
    second < exp + JWT_EXP_LEEWAY_SECS || (b.Inclusive? && second == exp + JWT_EXP_LEEWAY_SECS)
  }

  predicate Validates(b: Boundary, exp: int, now: int) {
    ValidAtSecond(b, exp, Timestamp(now))
  }

  function Grace(b: Boundary): int {
    if b.Inclusive? then MS_PER_SEC else 0
  }

  /** First instant at which the token no longer validates. */
  function AcceptedUntil(b: Boundary, exp: int): int {
    Deadline(exp) + Grace(b)
  }

  datatype Decision = Accept | Reject

  /** A token that does not decode is rejected before the list is asked; a failing list check lets it pass. */
  function Extract(decoded: bool, verdict: Verdict): Decision {
    if !decoded then Reject
    else match verdict
      case Revoked => Reject
      case NotRevoked => Accept
      case BackendError => Accept
  }

  lemma ValidatesUntil(b: Boundary, exp: int, now: int)
    ensures Validates(b, exp, now) <==> now < AcceptedUntil(b, exp)
    ensures AcceptedUntil(b, exp) == 1000 * (exp + 60) + if b.Inclusive? then 1000 else 0
  {
    assert Millis(Timestamp(now)) <= now < Millis(Timestamp(now) + 1);
  }

  // ------------------------------------------------- the ttl against the token

  /** Counted in whole seconds, the ttl computed at logout second `t` keeps the revocation live
      at second `u` exactly while u < exp + 60. The token validates without being covered only
      in the second exp + 60, and only if the library accepts it there. */
  lemma RevocationLiveExactlyWhileTokenIs(b: Boundary, exp: int, t: int, u: int)
    requires t <= u
    ensures u < t + RevocationTtlSecs(exp, t) <==> u < exp + 60
    ensures ValidAtSecond(b, exp, u) <==> u < exp + 60 || (b.Inclusive? && u == exp + 60)
    ensures ValidAtSecond(b, exp, u) && !(u < t + RevocationTtlSecs(exp, t)) <==> b.Inclusive? && u == exp + 60
  {
  }

  /** Below the second: a key written the moment the ttl is computed ends at the
      deadline or less than one second after it. */
  lemma KeyEndsWithinASecondOfDeadline(exp: int, now: int)
    requires now < Deadline(exp)
    ensures Deadline(exp) <= KeyEnd(exp, now, now) < Deadline(exp) + MS_PER_SEC
  {
    assert Millis(Timestamp(now)) <= now < Millis(Timestamp(now) + 1);
  }

  /** The documented claim that a key never outlives its token, decided for every key of every
      run: set at `j` with the ttl computed at `s`, it does so if and only if it was set after the
      start of the second of `s`, or, if that second counts as valid, more than a second after. */
  lemma KeyOutlivesTokenIff(b: Boundary, exp: Jti -> int, run: Run<State, Step>, k: nat, jti: Jti)
    returns (s: nat, j: nat)
    requires IsRun(exp, run) && k < |run.states| && jti in run.states[k].world.redis
    ensures s < j < k && Begins(run.steps[s], jti)
    ensures jti in run.states[j + 1].world.redis
    ensures run.states[j + 1].world.redis[jti] == run.states[k].world.redis[jti]
    ensures run.states[k].world.redis[jti] > AcceptedUntil(b, exp(jti)) <==>
            run.states[j].world.now > Millis(Timestamp(run.states[s].world.now)) + Grace(b)
  {
    s, j := KeyLifetime(exp, run, k, jti);
  }

  /** A row journaled for 60 s and flushed 30 s later is still live when the token is dead. */
  lemma FlushedKeyOutlivesTokenExample()
    ensures var row := JournalRow(map[], 7, RevocationTtlSecs(0, Timestamp(0)), 0)[7];
            && AcceptedUntil(Exclusive, 0) == 60_000 && AcceptedUntil(Inclusive, 0) == 61_000
            && KeyLive(SetKey(map[], 7, row.ttlSecs, 30_000), 7, 89_999)
  {
  }

  // ---------------------------------------------------------------- end to end

  /** The check ends by asking Redis, which answers that there is no live key. */
  predicate FindsNoKey(s: State, step: Step, jti: Jti) {
    && step.OfCheck? && step.check.LookRedis? && step.check.reachable
    && !KeyLive(s.world.redis, jti, s.world.now)
  }

  /** After an acknowledged logout, on the acknowledging instance until it restarts: a request
      decoded at `d` whose pending lookup was still ahead at the acknowledgement is accepted if and
      only if the token validated at `d` and the list check errored, or found no key although
      answered at or after the deadline. Before the deadline it is never accepted otherwise. */
  lemma LoggedOutTokenIsRejected(
    b: Boundary, exp: Jti -> int, run: Run<State, Step>, m: nat, d: nat, e: nat,
    i: InstanceId, jti: Jti, c: CallId, verdict: Verdict)
    requires IsRun(exp, run) && m < e < |run.steps| && d <= e
    requires Acknowledges(run.states[m], run.steps[m], i, jti) && NoRestart(run, m + 1, e, i)
    requires !HasLooked(run.states[m + 1], c)
    requires Answers(run.states[e], run.steps[e], c, verdict)
    requires run.states[e].checks[c].inst == i && run.states[e].checks[c].jti == jti
    ensures Extract(Validates(b, exp(jti), run.states[d].world.now), verdict) == Accept <==>
            && run.states[d].world.now < AcceptedUntil(b, exp(jti))
            && (|| verdict == BackendError
                || (Deadline(exp(jti)) <= run.states[e].world.now && FindsNoKey(run.states[e], run.steps[e], jti)))
  {
    ValidatesUntil(b, exp(jti), run.states[d].world.now);
    if run.states[e].world.now < Deadline(exp(jti)) {
      AcknowledgingInstanceNeverDenies(exp, run, m, e, i, jti, c, verdict);
    }
  }

  /** With one clock reading for the whole request and no backend error, the token is rejected
      at every later time, with one exception: where the library accepts the second exp + 60,
      in that second, if no key is live any more. */
  lemma LoggedOutTokenIsRejectedAtOneInstant(
    b: Boundary, exp: Jti -> int, run: Run<State, Step>, m: nat, e: nat,
    i: InstanceId, jti: Jti, c: CallId, verdict: Verdict)
    requires IsRun(exp, run) && m < e < |run.steps|
    requires Acknowledges(run.states[m], run.steps[m], i, jti) && NoRestart(run, m + 1, e, i)
    requires !HasLooked(run.states[m + 1], c)
    requires Answers(run.states[e], run.steps[e], c, verdict) && verdict != BackendError
    requires run.states[e].checks[c].inst == i && run.states[e].checks[c].jti == jti
    ensures Extract(Validates(b, exp(jti), run.states[e].world.now), verdict) == Accept <==>
            && b.Inclusive?
            && Deadline(exp(jti)) <= run.states[e].world.now < Deadline(exp(jti)) + MS_PER_SEC
            && FindsNoKey(run.states[e], run.steps[e], jti)
  {
    LoggedOutTokenIsRejected(b, exp, run, m, e, e, i, jti, c, verdict);
  }

  /** A revocation acknowledged by Redis at the start of a second. */
  lemma RevokedOnTheSecond(exp: Jti -> int, jti: Jti, t: int) returns (run: Run<State, Step>)
    requires t < exp(jti) + JWT_EXP_LEEWAY_SECS
    ensures IsRun(exp, run) && |run.steps| == 3
    ensures Acknowledges(run.states[2], run.steps[2], 0, jti)
    ensures Last(run).world.now == Millis(t) && Last(run).checks == map[]
    ensures Last(run).world.redis == map[jti := Deadline(exp(jti))]
    ensures 0 in Last(run).instances && Last(run).instances[0].pending == map[]
  {
    run := OneInstance(exp, Millis(t));
    TakingIsRun(exp, run, OfRevoke(BeginRevoke(2, 0, jti)));
    run := Taking(exp, run, OfRevoke(BeginRevoke(2, 0, jti)));
    TakingIsRun(exp, run, OfRevoke(RevokeSet(2, SetOk)));
    run := Taking(exp, run, OfRevoke(RevokeSet(2, SetOk)));
  }

  /** The exception occurs: for every token, every logout at the start of a second and every
      instant of the second exp + 60 there is a run in which an inclusive comparison lets the
      logged-out token pass at that instant. */
  lemma InclusiveBoundaryLetsTokenPass(exp: Jti -> int, jti: Jti, t: int, late: nat)
    returns (run: Run<State, Step>)
    requires t < exp(jti) + JWT_EXP_LEEWAY_SECS && late < MS_PER_SEC
    ensures IsRun(exp, run) && |run.steps| == 7
    ensures Acknowledges(run.states[2], run.steps[2], 0, jti) && NoRestart(run, 3, 6, 0)
    ensures !HasLooked(run.states[3], 1) && Answers(run.states[6], run.steps[6], 1, NotRevoked)
    ensures run.states[6].checks[1].inst == 0 && run.states[6].checks[1].jti == jti
    ensures run.states[6].world.now == Deadline(exp(jti)) + late
    ensures Extract(Validates(Inclusive, exp(jti), run.states[6].world.now), NotRevoked) == Accept
  {
    run := RevokedOnTheSecond(exp, jti, t);
    var wait := Deadline(exp(jti)) + late - Millis(t);
    TakingIsRun(exp, run, OfEnv(Tick(wait)));
    run := Taking(exp, run, OfEnv(Tick(wait)));
    TakingIsRun(exp, run, OfCheck(BeginCheck(1, 0, jti)));
    run := Taking(exp, run, OfCheck(BeginCheck(1, 0, jti)));
    TakingIsRun(exp, run, OfCheck(LookPending(1)));
    run := Taking(exp, run, OfCheck(LookPending(1)));
    TakingIsRun(exp, run, OfCheck(LookRedis(1, true)));
    run := Taking(exp, run, OfCheck(LookRedis(1, true)));
    ValidatesUntil(Inclusive, exp(jti), run.states[6].world.now);
  }
}
