/** What every single effect of the revocation protocol does, in plain arithmetic: the statements
    and commands of `revoke`, `is_revoked`, the sweep and a restart, one by one. */
module RevocationEffects {

  import opened Prelude
  import opened RevocationStore
  import opened RevocationProtocol

  /** A row that stays in the outbox is never changed, whatever anyone does. */
  lemma OutboxRowsNeverChange(exp: Jti -> int, s: State, step: Step, jti: Jti)
    requires Enabled(s, step) && jti in s.world.outbox && jti in Apply(exp, s, step).world.outbox
    ensures Apply(exp, s, step).world.outbox[jti] == s.world.outbox[jti]
  {
    match step
    case OfEnv(_) =>
    case OfRevoke(_) =>
    case OfCheck(_) =>
    case OfSweep(i, sweep) =>
  }

  /** Journaling, if it is applied, adds the row of a jti that has none, with its ttl from now on. The
      call goes on if it succeeded, and otherwise ends with an error. */
  lemma JournalAddsRow(s: State, c: CallId, sql: Outcome)
    requires RevokeEnabled(s, Journal(c, sql))
    ensures var call := s.revokes[c];
            var s' := ApplyJournal(s, c, sql);
            && s'.world.outbox ==
               (if sql == Failed(false) || call.jti in s.world.outbox then s.world.outbox
                else s.world.outbox[call.jti := Row(call.ttlSecs, s.world.now, s.world.now + 1000 * call.ttlSecs)])
            && s'.world.redis == s.world.redis && s'.world.acked == s.world.acked
            && s'.instances == s.instances && s'.checks == s.checks
            && s'.revokes == if sql.Succeeded? then s.revokes[c := call.(stage := Journaled)] else s.revokes - {c}
  {
  }

  /** A `revoke` begins with the seconds the token has left, and nothing sent or stored yet. */
  lemma RevokeBegins(exp: Jti -> int, s: State, c: CallId, i: InstanceId, jti: Jti)
    requires RevokeEnabled(s, BeginRevoke(c, i, jti))
    ensures var left := exp(jti) + 60 - s.world.now / 1000;
            var s' := ApplyRevoke(exp, s, BeginRevoke(c, i, jti));
            && s'.revokes == s.revokes[c := RevokeCall(i, jti, if left < 0 then 0 else left, AwaitingRedis)]
            && s'.world.redis == s.world.redis && s'.world.outbox == s.world.outbox && s'.instances == s.instances
  {
  }

  /** Only an answered SET acknowledges; a refused one goes on to the journal, and so does one that timed
      out, which may still land. */
  lemma RevokeSets(s: State, c: CallId, redis: RedisOutcome)
    requires RevokeEnabled(s, RevokeSet(c, redis))
    ensures var RevokeCall(i, jti, ttlSecs, _) := s.revokes[c];
            var s' := ApplyRevokeSet(s, c, redis);
            && s'.world.redis ==
               (if redis == SetOk && ttlSecs > 0
                then s.world.redis[jti := s.world.now + 1000 * ttlSecs] else s.world.redis)
            && s'.world.lateSets == s.world.lateSets + (if redis == SetTimedOut then {(jti, ttlSecs)} else {})
            && s'.world.acked == s.world.acked + (if redis == SetOk then {jti} else {})
            && s'.world.outbox == s.world.outbox && s'.instances[i].pending == s.instances[i].pending
            && s'.revokes == if redis == SetOk then s.revokes - {c}
                             else s.revokes[c := s.revokes[c].(stage := RedisRejected)]
  {
  }

  /** A journaled revocation enters the pending map, with its ttl from now on, and is acknowledged. */
  lemma PendingRecorded(s: State, c: CallId)
    requires RevokeEnabled(s, RecordPending(c))
    ensures var RevokeCall(i, jti, ttlSecs, _) := s.revokes[c];
            var s' := ApplyRecordPending(s, c);
            && s'.instances[i].pending == s.instances[i].pending[jti := PendingEntry(s.world.now, ttlSecs)]
            && s'.world == s.world.(acked := s.world.acked + {jti}) && s'.revokes == s.revokes - {c}
            && forall x :: x in s.instances && x != i ==> s'.instances[x] == s.instances[x]
  {
  }

  /** A pending lookup that misses forgets the entry it found expired, and nothing else. */
  lemma MissForgetsExpired(s: State, c: CallId)
    requires CheckEnabled(s, LookPending(c))
    ensures var call := s.checks[c];
            var pending := s.instances[call.inst].pending;
            var s' := ApplyLookPending(s, c);
            var hit := call.jti in pending
                       && Elapsed(pending[call.jti], call.readAt) < 1000 * pending[call.jti].ttlSecs;
            && s'.instances[call.inst].pending == (if hit then pending else pending - {call.jti})
            && s'.world == s.world
            && (if hit then c !in s'.checks else c in s'.checks && s'.checks[c].pendingMissed)
  {
  }

  /** A restarted instance remembers nothing and has no calls; every SET it was waiting for may still land. */
  lemma RestartForgets(s: State, i: InstanceId)
    ensures var s' := RestartInstance(s, i);
            && i in s'.instances && s'.instances[i] == Instance(map[], Idle, {})
            && (forall c :: c in s'.revokes <==> c in s.revokes && s.revokes[c].inst != i)
            && (forall c :: c in s'.checks <==> c in s.checks && s.checks[c].inst != i)
            && (forall c :: c in s.revokes && s.revokes[c].inst == i && s.revokes[c].stage == AwaitingRedis ==>
                  (s.revokes[c].jti, s.revokes[c].ttlSecs) in s'.world.lateSets)
            && (Sweeping(s, i) && s.instances[i].sweep.todo != [] ==> s.instances[i].sweep.todo[0] in s'.world.lateSets)
            && s.world.lateSets <= s'.world.lateSets
            && s'.world.redis == s.world.redis && s'.world.outbox == s.world.outbox
  {
  }

  /** One row of a sweep: landed only if Redis answered, refused otherwise, and counted either way. */
  lemma FlushOneCounts(s: State, i: InstanceId, redis: RedisOutcome)
    requires SweepEnabled(s, i, FlushOne(redis))
    ensures var Flushing(todo, flushed, remaining) := s.instances[i].sweep;
            var s' := ApplySweep(s, i, FlushOne(redis));
            && s'.instances[i].sweep ==
               (if redis == SetOk then Flushing(todo[1..], flushed + {todo[0].0}, remaining)
                else Flushing(todo[1..], flushed, remaining + 1))
            && s'.world.redis ==
               (if redis == SetOk && todo[0].1 > 0
                then s.world.redis[todo[0].0 := s.world.now + 1000 * todo[0].1] else s.world.redis)
            && s'.world.lateSets == s.world.lateSets + (if redis == SetTimedOut then {todo[0]} else {})
            && s'.world.outbox == s.world.outbox && s'.instances[i].pending == s.instances[i].pending
  {
  }

  /** Counting the pending entries prunes those whose ttl is over. */
  lemma PruneForgetsExpired(s: State, i: InstanceId)
    requires SweepEnabled(s, i, Prune)
    ensures Kept(s.instances[i].pending, {}, s.world.now, ApplySweep(s, i, Prune).instances[i].pending)
  {
  }

  /** The expiry DELETE, if it is applied, leaves exactly the rows that have not expired. */
  lemma DropExpiredLeavesLive(s: State, i: InstanceId, sql: Outcome, jti: Jti)
    requires SweepEnabled(s, i, DropExpired(sql)) && sql != Failed(false)
    ensures jti in ApplySweep(s, i, DropExpired(sql)).world.outbox <==>
            jti in s.world.outbox && s.world.now < s.world.outbox[jti].expiresAt
  {
  }

  /** The DELETE of the flushed rows, if it is applied, takes exactly those. */
  lemma DeleteTakesFlushed(s: State, i: InstanceId, sql: Outcome, jti: Jti)
    requires SweepEnabled(s, i, DeleteFlushed(sql)) && sql != Failed(false)
    ensures jti in ApplySweep(s, i, DeleteFlushed(sql)).world.outbox <==>
            jti in s.world.outbox && jti !in s.instances[i].sweep.flushed
  {
  }

  /** How a sweep goes on: a failed statement ends it, and so does a loop in which nothing was flushed. */
  lemma SweepGoesOn(s: State, i: InstanceId, sql: Outcome, batch: seq<(Jti, nat)>)
    requires i in s.instances
    ensures SweepEnabled(s, i, DropExpired(sql)) ==>
              ApplySweep(s, i, DropExpired(sql)).instances[i].sweep == if sql.Succeeded? then Selecting else Idle
    ensures SweepEnabled(s, i, Select(batch, sql.Succeeded?)) ==>
              ApplySweep(s, i, Select(batch, sql.Succeeded?)).instances[i].sweep ==
              if sql.Succeeded? then Flushing(batch, {}, 0) else Idle
    ensures SweepEnabled(s, i, DeleteFlushed(sql)) ==>
              ApplySweep(s, i, DeleteFlushed(sql)).instances[i].sweep ==
              if s.instances[i].sweep.flushed != {} && sql.Succeeded?
              then Retaining(s.instances[i].sweep.flushed, s.world.now) else Idle
    ensures SweepEnabled(s, i, Retain) ==> ApplySweep(s, i, Retain).instances[i].sweep == Idle
  {
  }

  /** The retain at the end of a sweep keeps what was not flushed and has not expired. */
  lemma RetainKeepsRest(s: State, i: InstanceId)
    requires SweepEnabled(s, i, Retain)
    ensures Kept(s.instances[i].pending, s.instances[i].sweep.landed, s.instances[i].sweep.readAt,
                 ApplySweep(s, i, Retain).instances[i].pending)
  {
  }

  /** What a check answers, read off the pending map and then off Redis. */
  lemma CheckAnswers(s: State, c: CallId, verdict: Verdict)
    requires c in s.checks && s.checks[c].inst in s.instances
    ensures var call := s.checks[c];
            var pending := s.instances[call.inst].pending;
            && (Answers(s, OfCheck(LookPending(c)), c, verdict) <==>
                  && !call.pendingMissed && verdict == Revoked && call.jti in pending
                  && Elapsed(pending[call.jti], call.readAt) < 1000 * pending[call.jti].ttlSecs)
            && (Answers(s, OfCheck(LookRedis(c, true)), c, verdict) <==>
                  && call.pendingMissed
                  && verdict == (if call.jti in s.world.redis && s.world.now < s.world.redis[call.jti]
                                 then Revoked else NotRevoked))
            && (Answers(s, OfCheck(LookRedis(c, false)), c, verdict) <==>
                  call.pendingMissed && verdict == BackendError)
  {
  }

  /** A SET that is executed makes the key live for its ttl from now on; a ttl of zero sets nothing. */
  lemma SetMakesKey(w: World, jti: Jti, ttlSecs: nat)
    ensures WithKey(w, jti, ttlSecs).redis ==
            if ttlSecs == 0 then w.redis else w.redis[jti := w.now + 1000 * ttlSecs]
  {
  }
}
