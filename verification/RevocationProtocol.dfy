/** Durable token revocation as a step machine: any number of instances share
    one Redis and one outbox, and every call gives up control between effects.
    A step is one effect, so a run is any interleaving of `revoke`, `is_revoked`
    and `flush_pending` with backend failures, late Redis writes and restarts. */
module RevocationProtocol {

  import opened Prelude
  import opened RevocationStore

  type InstanceId = nat
  type CallId = nat

  /** What all instances share. `lateSets` holds SET commands whose caller stopped
      waiting: Redis may still execute each of them, at any later time and (client
      retries) repeatedly. `requested` and `acked` are history: jtis `revoke` was
      called on, and jtis for which some call returned Ok. */
  datatype World = World(
    now: int,
    redis: Redis,
    lateSets: set<(Jti, nat)>,
    outbox: Outbox,
    requested: set<Jti>,
    acked: set<Jti>)

  datatype RevokeStage = AwaitingRedis | RedisRejected | Journaled

  datatype RevokeCall = RevokeCall(inst: InstanceId, jti: Jti, ttlSecs: nat, stage: RevokeStage)

  /** `ackedAtMiss` is history: this instance had acknowledged the jti when the pending lookup missed. */
  datatype CheckCall = CheckCall(inst: InstanceId, jti: Jti, readAt: int, pendingMissed: bool, ackedAtMiss: bool)

  datatype Sweep =
    | Idle
    | Selecting
    | Flushing(todo: seq<(Jti, nat)>, flushed: set<Jti>, remaining: nat)
    | Retaining(landed: set<Jti>, readAt: int)

  /** `acked` is history: jtis this instance acknowledged since it last started. */
  datatype Instance = Instance(pending: PendingMap, sweep: Sweep, acked: set<Jti>)

  datatype State = State(
    world: World,
    instances: map<InstanceId, Instance>,
    revokes: map<CallId, RevokeCall>,
    checks: map<CallId, CheckCall>)

  datatype RedisOutcome = SetOk | SetFailed | SetTimedOut

  datatype RevokeStep =
    | BeginRevoke(c: CallId, i: InstanceId, jti: Jti)
    | RevokeSet(c: CallId, redis: RedisOutcome)
    | Journal(c: CallId, sql: Outcome)
    | RecordPending(c: CallId)

  datatype CheckStep =
    | BeginCheck(c: CallId, i: InstanceId, jti: Jti)
    | LookPending(c: CallId)
    | LookRedis(c: CallId, reachable: bool)

  datatype SweepStep =
    | DropExpired(sql: Outcome)
    | Select(batch: seq<(Jti, nat)>, ok: bool)
    | FlushOne(redis: RedisOutcome)
    | DeleteFlushed(sql: Outcome)
    | Retain
    | Prune

  datatype EnvStep =
    | Tick(elapsed: nat)
    | Restart(i: InstanceId)
    | LateSet(late: (Jti, nat))

  datatype Step =
    | OfEnv(env: EnvStep)
    | OfRevoke(revoke: RevokeStep)
    | OfCheck(check: CheckStep)
    | OfSweep(i: InstanceId, sweep: SweepStep)

  function Init(now: int): State {
    State(World(now, map[], {}, map[], {}, {}), map[], map[], map[])
  }

  // ------------------------------------------------------------------- steps

  predicate Sweeping(s: State, i: InstanceId) {
    i in s.instances && s.instances[i].sweep.Flushing?
  }

  /** The call exists, has reached this stage, and its process is alive. */
  predicate RevokeAt(s: State, c: CallId, stage: RevokeStage) {
    c in s.revokes && s.revokes[c].stage == stage && s.revokes[c].inst in s.instances
  }

  predicate CheckAt(s: State, c: CallId, pendingMissed: bool) {
    c in s.checks && s.checks[c].pendingMissed == pendingMissed && s.checks[c].inst in s.instances
  }

  /** A zero ttl never reaches Redis, so such a `revoke` cannot fail. */
  predicate RevokeEnabled(s: State, step: RevokeStep) {
    match step
    case BeginRevoke(c, i, _) => i in s.instances && c !in s.revokes
    case RevokeSet(c, redis) => RevokeAt(s, c, AwaitingRedis) && (s.revokes[c].ttlSecs == 0 ==> redis == SetOk)
    case Journal(c, _) => RevokeAt(s, c, RedisRejected)
    case RecordPending(c) => RevokeAt(s, c, Journaled)
  }

  predicate CheckEnabled(s: State, step: CheckStep) {
    match step
    case BeginCheck(c, i, _) => i in s.instances && c !in s.checks
    case LookPending(c) => CheckAt(s, c, false)
    case LookRedis(c, _) => CheckAt(s, c, true)
  }

  ghost predicate SweepEnabled(s: State, i: InstanceId, step: SweepStep) {
    && i in s.instances
    && var sweep := s.instances[i].sweep;
       match step
       case DropExpired(_) => sweep == Idle
       case Select(batch, ok) => sweep == Selecting && (ok ==> OldestBatch(s.world.outbox, batch))
       case FlushOne(redis) => sweep.Flushing? && sweep.todo != [] && (sweep.todo[0].1 == 0 ==> redis == SetOk)
       case DeleteFlushed(_) => sweep.Flushing? && sweep.todo == []
       case Retain => sweep.Retaining?
       case Prune => true
  }

  predicate EnvEnabled(s: State, step: EnvStep) {
    step.LateSet? ==> step.late in s.world.lateSets
  }

  ghost predicate Enabled(s: State, step: Step) {
    match step
    case OfEnv(env) => EnvEnabled(s, env)
    case OfRevoke(revoke) => RevokeEnabled(s, revoke)
    case OfCheck(check) => CheckEnabled(s, check)
    case OfSweep(i, sweep) => SweepEnabled(s, i, sweep)
  }

  function WithKey(w: World, jti: Jti, ttlSecs: nat): World {
    w.(redis := SetKey(w.redis, jti, ttlSecs, w.now))
  }

  function WithLateSet(w: World, jti: Jti, ttlSecs: nat): World {
    w.(lateSets := w.lateSets + {(jti, ttlSecs)})
  }

  function WithSweep(s: State, i: InstanceId, sweep: Sweep): State
    requires i in s.instances
  {
    s.(instances := s.instances[i := s.instances[i].(sweep := sweep)])
  }

  function WithPending(s: State, i: InstanceId, pending: PendingMap): State
    requires i in s.instances
  {
    s.(instances := s.instances[i := s.instances[i].(pending := pending)])
  }

  function WithStage(s: State, c: CallId, stage: RevokeStage): State
    requires c in s.revokes
  {
    s.(revokes := s.revokes[c := s.revokes[c].(stage := stage)])
  }

  /** `revoke` returns Ok to its caller. */
  function Acknowledge(s: State, c: CallId): State
    requires c in s.revokes && s.revokes[c].inst in s.instances
  {
    var RevokeCall(i, jti, _, _) := s.revokes[c];
    s.(world := s.world.(acked := s.world.acked + {jti}),
       instances := s.instances[i := s.instances[i].(acked := s.instances[i].acked + {jti})],
       revokes := s.revokes - {c})
  }

  function SentCommands(s: State, i: InstanceId): set<(Jti, nat)> {
    var revoking := set c | c in s.revokes && s.revokes[c].inst == i && s.revokes[c].stage == AwaitingRedis
                    :: (s.revokes[c].jti, s.revokes[c].ttlSecs);
    if Sweeping(s, i) && s.instances[i].sweep.todo != []
    then revoking + {s.instances[i].sweep.todo[0]} else revoking
  }

  /** A process dies: its memory and its calls are gone, commands already sent may still land. */
  function RestartInstance(s: State, i: InstanceId): State {
    State(s.world.(lateSets := s.world.lateSets + SentCommands(s, i)),
          s.instances[i := Instance(map[], Idle, {})],
          map c | c in s.revokes && s.revokes[c].inst != i :: s.revokes[c],
          map c | c in s.checks && s.checks[c].inst != i :: s.checks[c])
  }

  function ApplyRevokeSet(s: State, c: CallId, redis: RedisOutcome): State
    requires c in s.revokes && s.revokes[c].inst in s.instances
  {
    var RevokeCall(_, jti, ttlSecs, _) := s.revokes[c];
    match redis
    case SetOk => Acknowledge(s.(world := WithKey(s.world, jti, ttlSecs)), c)
    case SetFailed => WithStage(s, c, RedisRejected)
    case SetTimedOut => WithStage(s.(world := WithLateSet(s.world, jti, ttlSecs)), c, RedisRejected)
  }

  function ApplyJournal(s: State, c: CallId, sql: Outcome): State
    requires c in s.revokes
  {
    var RevokeCall(_, jti, ttlSecs, _) := s.revokes[c];
    var written := s.world.(outbox := JournalRow(s.world.outbox, jti, ttlSecs, s.world.now));
    match sql
    case Succeeded => WithStage(s.(world := written), c, Journaled)
    case Failed(applied) => s.(world := if applied then written else s.world, revokes := s.revokes - {c})
  }

  function ApplyRecordPending(s: State, c: CallId): State
    requires c in s.revokes && s.revokes[c].inst in s.instances
  {
    var RevokeCall(i, jti, ttlSecs, _) := s.revokes[c];
    Acknowledge(WithPending(s, i, s.instances[i].pending[jti := PendingEntry(s.world.now, ttlSecs)]), c)
  }

  function Missed(s: State, call: CheckCall): CheckCall
    requires call.inst in s.instances
  {
    call.(pendingMissed := true, ackedAtMiss := call.jti in s.instances[call.inst].acked)
  }

  /** First phase of `is_revoked`, under the pending lock. */
  function ApplyLookPending(s: State, c: CallId): State
    requires c in s.checks && s.checks[c].inst in s.instances
  {
    var call := s.checks[c];
    var pending := s.instances[call.inst].pending;
    if call.jti in pending && EntryLive(pending[call.jti], call.readAt) then
      s.(checks := s.checks - {c})
    else
      WithPending(s, call.inst, pending - {call.jti}).(checks := s.checks[c := Missed(s, call)])
  }

  /** `exp` gives each token's expiry claim, in seconds. */
  function ApplyRevoke(exp: Jti -> int, s: State, step: RevokeStep): State
    requires RevokeEnabled(s, step)
  {
    match step
    case BeginRevoke(c, i, jti) =>
      var ttlSecs := RevocationTtlSecs(exp(jti), Timestamp(s.world.now));
      s.(world := s.world.(requested := s.world.requested + {jti}),
         revokes := s.revokes[c := RevokeCall(i, jti, ttlSecs, AwaitingRedis)])
    case RevokeSet(c, redis) => ApplyRevokeSet(s, c, redis)
    case Journal(c, sql) => ApplyJournal(s, c, sql)
    case RecordPending(c) => ApplyRecordPending(s, c)
  }

  function ApplyCheck(s: State, step: CheckStep): State
    requires CheckEnabled(s, step)
  {
    match step
    case BeginCheck(c, i, jti) =>
      s.(checks := s.checks[c := CheckCall(i, jti, s.world.now, false, false)])
    case LookPending(c) => ApplyLookPending(s, c)
    case LookRedis(c, _) => s.(checks := s.checks - {c})
  }

  function ApplyDropExpired(s: State, i: InstanceId, sql: Outcome): State
    requires i in s.instances
  {
    var w' := if sql == Failed(false) then s.world
              else s.world.(outbox := DropExpiredRows(s.world.outbox, s.world.now));
    WithSweep(s.(world := w'), i, if sql == Succeeded then Selecting else Idle)
  }

  /** One iteration of the flush loop is over. */
  function Advanced(sweep: Sweep, landed: bool): Sweep
    requires sweep.Flushing? && sweep.todo != []
  {
    if landed then Flushing(sweep.todo[1..], sweep.flushed + {sweep.todo[0].0}, sweep.remaining)
    else Flushing(sweep.todo[1..], sweep.flushed, sweep.remaining + 1)
  }

  function ApplyFlushOne(s: State, i: InstanceId, redis: RedisOutcome): State
    requires Sweeping(s, i) && s.instances[i].sweep.todo != []
  {
    var sweep := s.instances[i].sweep;
    var (jti, ttlSecs) := sweep.todo[0];
    match redis
    case SetOk => WithSweep(s.(world := WithKey(s.world, jti, ttlSecs)), i, Advanced(sweep, true))
    case SetFailed => WithSweep(s, i, Advanced(sweep, false))
    case SetTimedOut => WithSweep(s.(world := WithLateSet(s.world, jti, ttlSecs)), i, Advanced(sweep, false))
  }

  /** With nothing flushed the sweep returns without a DELETE or a retain. */
  function ApplyDeleteFlushed(s: State, i: InstanceId, sql: Outcome): State
    requires Sweeping(s, i)
  {
    var flushed := s.instances[i].sweep.flushed;
    if flushed == {} then WithSweep(s, i, Idle)
    else
      var w' := if sql == Failed(false) then s.world else s.world.(outbox := DeleteRows(s.world.outbox, flushed));
      WithSweep(s.(world := w'), i, if sql == Succeeded then Retaining(flushed, s.world.now) else Idle)
  }

  function ApplyRetain(s: State, i: InstanceId): State
    requires i in s.instances && s.instances[i].sweep.Retaining?
  {
    var sweep := s.instances[i].sweep;
    WithSweep(WithPending(s, i, RetainPending(s.instances[i].pending, sweep.landed, sweep.readAt)), i, Idle)
  }

  function ApplySweep(s: State, i: InstanceId, step: SweepStep): State
    requires SweepEnabled(s, i, step)
  {
    match step
    case DropExpired(sql) => ApplyDropExpired(s, i, sql)
    case Select(batch, ok) => WithSweep(s, i, if ok then Flushing(batch, {}, 0) else Idle)
    case FlushOne(redis) => ApplyFlushOne(s, i, redis)
    case DeleteFlushed(sql) => ApplyDeleteFlushed(s, i, sql)
    case Retain => ApplyRetain(s, i)
    case Prune => WithPending(s, i, RetainPending(s.instances[i].pending, {}, s.world.now))
  }

  function ApplyEnv(s: State, step: EnvStep): State {
    match step
    case Tick(elapsed) => s.(world := s.world.(now := s.world.now + elapsed))
    case Restart(i) => RestartInstance(s, i)
    case LateSet(late) => s.(world := WithKey(s.world, late.0, late.1))
  }

  function Apply(exp: Jti -> int, s: State, step: Step): State
    requires Enabled(s, step)
  {
    match step
    case OfEnv(env) => ApplyEnv(s, env)
    case OfRevoke(revoke) => ApplyRevoke(exp, s, revoke)
    case OfCheck(check) => ApplyCheck(s, check)
    case OfSweep(i, sweep) => ApplySweep(s, i, sweep)
  }

  /** The step makes `revoke(jti)` return Ok on instance `i`. */
  predicate Acknowledges(s: State, step: Step, i: InstanceId, jti: Jti) {
    match step
    case OfRevoke(RevokeSet(c, redis)) =>
      c in s.revokes && redis == SetOk && s.revokes[c].inst == i && s.revokes[c].jti == jti
    case OfRevoke(RecordPending(c)) => c in s.revokes && s.revokes[c].inst == i && s.revokes[c].jti == jti
    case _ => false
  }

  /** The step makes the `is_revoked` call `c` return this verdict. */
  predicate Answers(s: State, step: Step, c: CallId, verdict: Verdict) {
    match step
    case OfCheck(LookPending(c')) =>
      && c' == c && CheckAt(s, c, false)
      && s.checks[c].jti in s.instances[s.checks[c].inst].pending
      && EntryLive(s.instances[s.checks[c].inst].pending[s.checks[c].jti], s.checks[c].readAt)
      && verdict == Revoked
    case OfCheck(LookRedis(c', reachable)) =>
      && c' == c && CheckAt(s, c, true)
      && verdict == (if !reachable then BackendError
                     else if KeyLive(s.world.redis, s.checks[c].jti, s.world.now) then Revoked else NotRevoked)
    case _ => false
  }

  // --------------------------------------------------------------- invariant

  /** Applied now or later, this ttl lasts until the token's deadline. */
  predicate Reaches(exp: Jti -> int, w: World, jti: Jti, ttlSecs: nat) {
    w.now + Millis(ttlSecs) >= Deadline(exp(jti)) && jti in w.requested
  }

  predicate InRedis(exp: Jti -> int, w: World, jti: Jti) {
    w.now < Deadline(exp(jti)) ==> jti in w.redis
  }

  predicate Durable(exp: Jti -> int, w: World, jti: Jti) {
    w.now < Deadline(exp(jti)) ==> jti in w.redis || jti in w.outbox
  }

  predicate RowOk(exp: Jti -> int, w: World, jti: Jti, row: Row) {
    && row.expiresAt >= Deadline(exp(jti)) && jti in w.requested
    && row.expiresAt == row.createdAt + Millis(row.ttlSecs)
    && row.createdAt <= w.now
  }

  ghost predicate WorldOk(exp: Jti -> int, w: World) {
    && (forall jti :: jti in w.redis ==> w.redis[jti] >= Deadline(exp(jti)) && jti in w.requested)
    && (forall jti :: jti in w.outbox ==> RowOk(exp, w, jti, w.outbox[jti]))
    && (forall late :: late in w.lateSets ==> Reaches(exp, w, late.0, late.1))
    && (forall jti :: jti in w.acked ==> Durable(exp, w, jti))
  }

  ghost predicate SweepOk(exp: Jti -> int, w: World, sweep: Sweep) {
    match sweep
    case Flushing(todo, flushed, _) =>
      && (forall k :: 0 <= k < |todo| ==> Reaches(exp, w, todo[k].0, todo[k].1))
      && (forall jti :: jti in flushed ==> InRedis(exp, w, jti))
    case Retaining(landed, readAt) =>
      && readAt <= w.now
      && (forall jti :: jti in landed ==> InRedis(exp, w, jti))
    case _ => true
  }

  predicate EntryOk(exp: Jti -> int, w: World, jti: Jti, entry: PendingEntry) {
    && entry.addedAt <= w.now && jti in w.requested
    && entry.addedAt + Millis(entry.ttlSecs) >= Deadline(exp(jti))
  }

  ghost predicate InstanceOk(exp: Jti -> int, w: World, inst: Instance) {
    && SweepOk(exp, w, inst.sweep)
    && (forall jti :: jti in inst.pending ==> EntryOk(exp, w, jti, inst.pending[jti]))
    && (forall jti :: jti in inst.acked ==> InRedis(exp, w, jti) || jti in inst.pending)
  }

  predicate RevokeOk(exp: Jti -> int, w: World, call: RevokeCall) {
    && Reaches(exp, w, call.jti, call.ttlSecs)
    && (call.stage == Journaled ==> Durable(exp, w, call.jti))
  }

  predicate CheckOk(exp: Jti -> int, w: World, call: CheckCall) {
    call.readAt <= w.now && (call.ackedAtMiss ==> InRedis(exp, w, call.jti))
  }

  ghost predicate Inv(exp: Jti -> int, s: State) {
    && WorldOk(exp, s.world)
    && (forall i :: i in s.instances ==> InstanceOk(exp, s.world, s.instances[i]))
    && (forall c :: c in s.revokes ==> RevokeOk(exp, s.world, s.revokes[c]))
    && (forall c :: c in s.checks ==> CheckOk(exp, s.world, s.checks[c]))
  }

  /** All that one party may rely on when the others move. */
  ghost predicate Grows(exp: Jti -> int, w: World, w': World) {
    && w.now <= w'.now
    && w.redis.Keys <= w'.redis.Keys
    && w.requested <= w'.requested
    && (forall jti :: jti in w.outbox && w'.now < Deadline(exp(jti)) ==> jti in w'.outbox || jti in w'.redis)
  }

  lemma InstanceSurvives(exp: Jti -> int, w: World, w': World, inst: Instance)
    requires InstanceOk(exp, w, inst) && Grows(exp, w, w')
    ensures InstanceOk(exp, w', inst)
  {
  }

  /** Local state stays valid whenever the world only grows. */
  lemma WorldMoves(exp: Jti -> int, s: State, w': World)
    requires Inv(exp, s) && Grows(exp, s.world, w') && WorldOk(exp, w')
    ensures Inv(exp, s.(world := w'))
  {
    forall i | i in s.instances ensures InstanceOk(exp, w', s.instances[i]) {
      InstanceSurvives(exp, s.world, w', s.instances[i]);
    }
  }

  lemma InstanceMoves(exp: Jti -> int, s: State, i: InstanceId, inst: Instance)
    requires Inv(exp, s) && InstanceOk(exp, s.world, inst)
    ensures Inv(exp, s.(instances := s.instances[i := inst]))
  {
  }

  lemma SweepMoves(exp: Jti -> int, s: State, i: InstanceId, sweep: Sweep)
    requires Inv(exp, s) && i in s.instances && SweepOk(exp, s.world, sweep)
    ensures Inv(exp, WithSweep(s, i, sweep))
  {
    InstanceMoves(exp, s, i, s.instances[i].(sweep := sweep));
  }

  lemma RevokeMoves(exp: Jti -> int, s: State, c: CallId, call: RevokeCall)
    requires Inv(exp, s) && RevokeOk(exp, s.world, call)
    ensures Inv(exp, s.(revokes := s.revokes[c := call]))
  {
  }

  lemma RevokeEnds(exp: Jti -> int, s: State, c: CallId)
    requires Inv(exp, s)
    ensures Inv(exp, s.(revokes := s.revokes - {c}))
  {
  }

  lemma CheckMoves(exp: Jti -> int, s: State, c: CallId, call: CheckCall)
    requires Inv(exp, s) && CheckOk(exp, s.world, call)
    ensures Inv(exp, s.(checks := s.checks[c := call]))
  {
  }

  lemma CheckEnds(exp: Jti -> int, s: State, c: CallId)
    requires Inv(exp, s)
    ensures Inv(exp, s.(checks := s.checks - {c}))
  {
  }

  // -------------------------------------------------- each step keeps it

  lemma SetKeyKeeps(exp: Jti -> int, s: State, jti: Jti, ttlSecs: nat)
    requires Inv(exp, s) && Reaches(exp, s.world, jti, ttlSecs)
    ensures Inv(exp, s.(world := WithKey(s.world, jti, ttlSecs)))
    ensures InRedis(exp, WithKey(s.world, jti, ttlSecs), jti)
  {
    WorldMoves(exp, s, WithKey(s.world, jti, ttlSecs));
  }

  lemma LateSetKeeps(exp: Jti -> int, s: State, jti: Jti, ttlSecs: nat)
    requires Inv(exp, s) && Reaches(exp, s.world, jti, ttlSecs)
    ensures Inv(exp, s.(world := WithLateSet(s.world, jti, ttlSecs)))
  {
    WorldMoves(exp, s, WithLateSet(s.world, jti, ttlSecs));
  }

  /** Deleting rows is safe when each lost row is in Redis or past its deadline. */
  lemma ShrinkOutboxKeeps(exp: Jti -> int, s: State, outbox: Outbox)
    requires Inv(exp, s)
    requires forall jti :: jti in outbox ==> jti in s.world.outbox && outbox[jti] == s.world.outbox[jti]
    requires forall jti :: jti in s.world.outbox && jti !in outbox ==> InRedis(exp, s.world, jti)
    ensures Inv(exp, s.(world := s.world.(outbox := outbox)))
  {
    WorldMoves(exp, s, s.world.(outbox := outbox));
  }

  lemma TickKeeps(exp: Jti -> int, s: State, elapsed: nat)
    requires Inv(exp, s)
    ensures Inv(exp, s.(world := s.world.(now := s.world.now + elapsed)))
  {
    WorldMoves(exp, s, s.world.(now := s.world.now + elapsed));
  }

  lemma BeginRevokeKeeps(exp: Jti -> int, s: State, c: CallId, i: InstanceId, jti: Jti)
    requires Inv(exp, s) && RevokeEnabled(s, BeginRevoke(c, i, jti))
    ensures Inv(exp, ApplyRevoke(exp, s, BeginRevoke(c, i, jti)))
  {
    TtlReachesDeadline(exp(jti), s.world.now, s.world.now);
    var w' := s.world.(requested := s.world.requested + {jti});
    WorldMoves(exp, s, w');
    RevokeMoves(exp, s.(world := w'), c,
                RevokeCall(i, jti, RevocationTtlSecs(exp(jti), Timestamp(s.world.now)), AwaitingRedis));
  }

  lemma AcknowledgeKeeps(exp: Jti -> int, s: State, c: CallId)
    requires Inv(exp, s) && c in s.revokes && s.revokes[c].inst in s.instances
    requires Durable(exp, s.world, s.revokes[c].jti)
    requires InRedis(exp, s.world, s.revokes[c].jti) || s.revokes[c].jti in s.instances[s.revokes[c].inst].pending
    ensures Inv(exp, Acknowledge(s, c))
  {
    var RevokeCall(i, jti, _, _) := s.revokes[c];
    var w' := s.world.(acked := s.world.acked + {jti});
    WorldMoves(exp, s, w');
    var s1 := s.(world := w');
    var inst := s1.instances[i].(acked := s1.instances[i].acked + {jti});
    InstanceMoves(exp, s1, i, inst);
    RevokeEnds(exp, s1.(instances := s1.instances[i := inst]), c);
  }

  lemma RevokeSetKeeps(exp: Jti -> int, s: State, c: CallId, redis: RedisOutcome)
    requires Inv(exp, s) && RevokeEnabled(s, RevokeSet(c, redis))
    ensures Inv(exp, ApplyRevokeSet(s, c, redis))
  {
    var RevokeCall(_, jti, ttlSecs, _) := s.revokes[c];
    match redis
    case SetOk =>
      SetKeyKeeps(exp, s, jti, ttlSecs);
      AcknowledgeKeeps(exp, s.(world := WithKey(s.world, jti, ttlSecs)), c);
    case SetFailed =>
      RevokeMoves(exp, s, c, s.revokes[c].(stage := RedisRejected));
    case SetTimedOut =>
      LateSetKeeps(exp, s, jti, ttlSecs);
      RevokeMoves(exp, s.(world := WithLateSet(s.world, jti, ttlSecs)), c, s.revokes[c].(stage := RedisRejected));
  }

  lemma JournalKeeps(exp: Jti -> int, s: State, c: CallId, sql: Outcome)
    requires Inv(exp, s) && RevokeEnabled(s, Journal(c, sql))
    ensures Inv(exp, ApplyJournal(s, c, sql))
  {
    var RevokeCall(_, jti, ttlSecs, _) := s.revokes[c];
    if sql == Failed(false) {
      RevokeEnds(exp, s, c);
    } else {
      var w' := s.world.(outbox := JournalRow(s.world.outbox, jti, ttlSecs, s.world.now));
      WorldMoves(exp, s, w');
      if sql == Succeeded {
        RevokeMoves(exp, s.(world := w'), c, s.revokes[c].(stage := Journaled));
      } else {
        RevokeEnds(exp, s.(world := w'), c);
      }
    }
  }

  lemma RecordPendingKeeps(exp: Jti -> int, s: State, c: CallId)
    requires Inv(exp, s) && RevokeEnabled(s, RecordPending(c))
    ensures Inv(exp, ApplyRecordPending(s, c))
  {
    var RevokeCall(i, jti, ttlSecs, _) := s.revokes[c];
    var inst := s.instances[i];
    var inst' := inst.(pending := inst.pending[jti := PendingEntry(s.world.now, ttlSecs)]);
    InstanceMoves(exp, s, i, inst');
    AcknowledgeKeeps(exp, s.(instances := s.instances[i := inst']), c);
  }

  /** An entry that looks expired to an earlier clock reading belongs to a token past its deadline. */
  lemma ExpiredEntryPastDeadline(exp: Jti -> int, w: World, jti: Jti, entry: PendingEntry, readAt: int)
    requires EntryOk(exp, w, jti, entry) && readAt <= w.now && !EntryLive(entry, readAt)
    ensures w.now >= Deadline(exp(jti))
  {
  }

  /** Forgetting flushed or expired entries keeps every acknowledged jti covered. */
  lemma ForgetKeeps(exp: Jti -> int, s: State, i: InstanceId, pending: PendingMap, landed: set<Jti>, readAt: int)
    requires Inv(exp, s) && i in s.instances && readAt <= s.world.now
    requires forall jti :: jti in landed ==> InRedis(exp, s.world, jti)
    requires forall jti :: jti in pending ==>
             jti in s.instances[i].pending && pending[jti] == s.instances[i].pending[jti]
    requires forall jti :: jti in s.instances[i].pending && jti !in pending ==>
               jti in landed || !EntryLive(s.instances[i].pending[jti], readAt)
    ensures Inv(exp, WithPending(s, i, pending))
  {
    var inst := s.instances[i];
    forall jti | jti in inst.acked ensures InRedis(exp, s.world, jti) || jti in pending {
      if jti in inst.pending && jti !in pending && jti !in landed {
        ExpiredEntryPastDeadline(exp, s.world, jti, inst.pending[jti], readAt);
      }
    }
    InstanceMoves(exp, s, i, inst.(pending := pending));
  }

  lemma LookPendingKeeps(exp: Jti -> int, s: State, c: CallId)
    requires Inv(exp, s) && CheckEnabled(s, LookPending(c))
    ensures Inv(exp, ApplyLookPending(s, c))
  {
    var call := s.checks[c];
    var inst := s.instances[call.inst];
    if call.jti in inst.pending && EntryLive(inst.pending[call.jti], call.readAt) {
      CheckEnds(exp, s, c);
    } else {
      if call.jti in inst.pending {
        ExpiredEntryPastDeadline(exp, s.world, call.jti, inst.pending[call.jti], call.readAt);
      }
      ForgetKeeps(exp, s, call.inst, inst.pending - {call.jti}, {}, call.readAt);
      CheckMoves(exp, WithPending(s, call.inst, inst.pending - {call.jti}), c, Missed(s, call));
    }
  }

  lemma DropExpiredKeeps(exp: Jti -> int, s: State, i: InstanceId, sql: Outcome)
    requires Inv(exp, s) && SweepEnabled(s, i, DropExpired(sql))
    ensures Inv(exp, ApplyDropExpired(s, i, sql))
  {
    var outbox := DropExpiredRows(s.world.outbox, s.world.now);
    ShrinkOutboxKeeps(exp, s, outbox);
    SweepMoves(exp, if sql == Failed(false) then s else s.(world := s.world.(outbox := outbox)), i,
               if sql == Succeeded then Selecting else Idle);
  }

  lemma SelectedRowsReach(exp: Jti -> int, w: World, batch: seq<(Jti, nat)>)
    requires WorldOk(exp, w) && OldestBatch(w.outbox, batch)
    ensures SweepOk(exp, w, Flushing(batch, {}, 0))
  {
    forall k | 0 <= k < |batch| ensures Reaches(exp, w, batch[k].0, batch[k].1) {
      assert RowAt(w.outbox, batch, k) && RowOk(exp, w, batch[k].0, w.outbox[batch[k].0]);
    }
  }

  lemma AdvanceKeeps(exp: Jti -> int, s: State, i: InstanceId, landed: bool)
    requires Inv(exp, s) && Sweeping(s, i) && s.instances[i].sweep.todo != []
    requires landed ==> InRedis(exp, s.world, s.instances[i].sweep.todo[0].0)
    ensures Inv(exp, WithSweep(s, i, Advanced(s.instances[i].sweep, landed)))
  {
    var sweep := s.instances[i].sweep;
    assert SweepOk(exp, s.world, sweep);
    SweepMoves(exp, s, i, Advanced(sweep, landed));
  }

  lemma FlushOneKeeps(exp: Jti -> int, s: State, i: InstanceId, redis: RedisOutcome)
    requires Inv(exp, s) && SweepEnabled(s, i, FlushOne(redis))
    ensures Inv(exp, ApplyFlushOne(s, i, redis))
  {
    var (jti, ttlSecs) := s.instances[i].sweep.todo[0];
    assert SweepOk(exp, s.world, s.instances[i].sweep);
    match redis
    case SetOk =>
      SetKeyKeeps(exp, s, jti, ttlSecs);
      AdvanceKeeps(exp, s.(world := WithKey(s.world, jti, ttlSecs)), i, true);
    case SetFailed =>
      AdvanceKeeps(exp, s, i, false);
    case SetTimedOut =>
      LateSetKeeps(exp, s, jti, ttlSecs);
      AdvanceKeeps(exp, s.(world := WithLateSet(s.world, jti, ttlSecs)), i, false);
  }

  lemma DeleteFlushedKeeps(exp: Jti -> int, s: State, i: InstanceId, sql: Outcome)
    requires Inv(exp, s) && SweepEnabled(s, i, DeleteFlushed(sql))
    ensures Inv(exp, ApplyDeleteFlushed(s, i, sql))
  {
    var flushed := s.instances[i].sweep.flushed;
    assert SweepOk(exp, s.world, s.instances[i].sweep);
    if flushed == {} {
      SweepMoves(exp, s, i, Idle);
    } else {
      var outbox := DeleteRows(s.world.outbox, flushed);
      ShrinkOutboxKeeps(exp, s, outbox);
      SweepMoves(exp, if sql == Failed(false) then s else s.(world := s.world.(outbox := outbox)), i,
                 if sql == Succeeded then Retaining(flushed, s.world.now) else Idle);
    }
  }

  lemma RetainKeeps(exp: Jti -> int, s: State, i: InstanceId)
    requires Inv(exp, s) && SweepEnabled(s, i, Retain)
    ensures Inv(exp, ApplyRetain(s, i))
  {
    var Retaining(landed, readAt) := s.instances[i].sweep;
    assert SweepOk(exp, s.world, s.instances[i].sweep);
    var pending := RetainPending(s.instances[i].pending, landed, readAt);
    ForgetKeeps(exp, s, i, pending, landed, readAt);
    SweepMoves(exp, WithPending(s, i, pending), i, Idle);
  }

  /** Commands a dying instance had already sent still reach the deadline. */
  lemma SentCommandsReach(exp: Jti -> int, s: State, i: InstanceId)
    requires Inv(exp, s)
    ensures forall late :: late in SentCommands(s, i) ==> Reaches(exp, s.world, late.0, late.1)
  {
    if i in s.instances {
      assert SweepOk(exp, s.world, s.instances[i].sweep);
    }
  }

  lemma ForgetInstanceKeeps(exp: Jti -> int, s: State, i: InstanceId)
    requires Inv(exp, s)
    ensures Inv(exp, s.(instances := s.instances[i := Instance(map[], Idle, {})],
                        checks := map c | c in s.checks && s.checks[c].inst != i :: s.checks[c]))
  {
    assert InstanceOk(exp, s.world, Instance(map[], Idle, {}));
  }

  lemma RestartKeeps(exp: Jti -> int, s: State, i: InstanceId)
    requires Inv(exp, s)
    ensures Inv(exp, RestartInstance(s, i))
  {
    var w' := s.world.(lateSets := s.world.lateSets + SentCommands(s, i));
    SentCommandsReach(exp, s, i);
    WorldMoves(exp, s, w');
    ForgetInstanceKeeps(exp, s.(world := w'), i);
  }

  lemma LateSetLands(exp: Jti -> int, s: State, late: (Jti, nat))
    requires Inv(exp, s) && late in s.world.lateSets
    ensures Inv(exp, s.(world := WithKey(s.world, late.0, late.1)))
  {
    assert Reaches(exp, s.world, late.0, late.1);
    SetKeyKeeps(exp, s, late.0, late.1);
  }

  lemma EnvStepKeeps(exp: Jti -> int, s: State, step: EnvStep)
    requires Inv(exp, s) && EnvEnabled(s, step)
    ensures Inv(exp, ApplyEnv(s, step))
  {
    match step
    case Tick(elapsed) =>
      TickKeeps(exp, s, elapsed);
      assert ApplyEnv(s, step) == s.(world := s.world.(now := s.world.now + elapsed));
    case Restart(i) =>
      RestartKeeps(exp, s, i);
      assert ApplyEnv(s, step) == RestartInstance(s, i);
    case LateSet(late) =>
      LateSetLands(exp, s, late);
      assert ApplyEnv(s, step) == s.(world := WithKey(s.world, late.0, late.1));
  }

  lemma SweepStepKeeps(exp: Jti -> int, s: State, i: InstanceId, step: SweepStep)
    requires Inv(exp, s) && SweepEnabled(s, i, step)
    ensures Inv(exp, ApplySweep(s, i, step))
  {
    match step
    case DropExpired(sql) => DropExpiredKeeps(exp, s, i, sql);
    case Select(batch, ok) =>
      if ok { SelectedRowsReach(exp, s.world, batch); }
      SweepMoves(exp, s, i, if ok then Flushing(batch, {}, 0) else Idle);
    case FlushOne(redis) => FlushOneKeeps(exp, s, i, redis);
    case DeleteFlushed(sql) => DeleteFlushedKeeps(exp, s, i, sql);
    case Retain => RetainKeeps(exp, s, i);
    case Prune => ForgetKeeps(exp, s, i, RetainPending(s.instances[i].pending, {}, s.world.now), {}, s.world.now);
  }

  lemma RevokeStepKeeps(exp: Jti -> int, s: State, step: RevokeStep)
    requires Inv(exp, s) && RevokeEnabled(s, step)
    ensures Inv(exp, ApplyRevoke(exp, s, step))
  {
    match step
    case BeginRevoke(c, i, jti) => BeginRevokeKeeps(exp, s, c, i, jti);
    case RevokeSet(c, redis) => RevokeSetKeeps(exp, s, c, redis);
    case Journal(c, sql) => JournalKeeps(exp, s, c, sql);
    case RecordPending(c) => RecordPendingKeeps(exp, s, c);
  }

  lemma CheckStepKeeps(exp: Jti -> int, s: State, step: CheckStep)
    requires Inv(exp, s) && CheckEnabled(s, step)
    ensures Inv(exp, ApplyCheck(s, step))
  {
    match step
    case BeginCheck(c, i, jti) =>
      CheckMoves(exp, s, c, CheckCall(i, jti, s.world.now, false, false));
    case LookPending(c) => LookPendingKeeps(exp, s, c);
    case LookRedis(c, _) => CheckEnds(exp, s, c);
  }

  lemma StepKeepsInv(exp: Jti -> int, s: State, step: Step)
    requires Inv(exp, s) && Enabled(s, step)
    ensures Inv(exp, Apply(exp, s, step))
  {
    match step
    case OfEnv(env) =>
      EnvStepKeeps(exp, s, env);
      assert Apply(exp, s, step) == ApplyEnv(s, env);
    case OfRevoke(revoke) =>
      RevokeStepKeeps(exp, s, revoke);
      assert Apply(exp, s, step) == ApplyRevoke(exp, s, revoke);
    case OfCheck(check) =>
      CheckStepKeeps(exp, s, check);
      assert Apply(exp, s, step) == ApplyCheck(s, check);
    case OfSweep(i, sweep) =>
      SweepStepKeeps(exp, s, i, sweep);
      assert Apply(exp, s, step) == ApplySweep(s, i, sweep);
  }
}
