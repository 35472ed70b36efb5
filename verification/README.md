# Verified model of the home-services authentication core

A Dafny model of the parts of the service whose correctness spans several calls,
processes or failures, with proofs of what they promise:

- **Durable token revocation** (`RevocationStore`, `RevocationProtocol`,
  `RevocationEffects`, `RevocationRuns`, `RevocationLifetimes`, `AccessDecision`, `DurableBlacklist`). Any number of instances
  share one Redis and one Postgres outbox. `RevocationProtocol` is a step machine in
  which every Redis command, SQL statement and access to the pending map is a step of
  its own, so that its runs are all interleavings of `revoke`, `is_revoked` and
  `flush_pending` with failures, commands that land after their caller gave up, and
  restarts. `DurableBlacklist` is the same code as an object, its loop included, for
  what one call does when nothing comes between its effects.
- **Session rotation and reuse detection** (`SessionDomain`, `SessionAggregate`,
  `SessionStore`, `SessionReference`, `SessionAnswers`, `SessionLineage`, `SessionRuns`,
  `SessionInterleaving`, `SessionOverlap`, `SessionCap`): refresh token rotation as in section 5.2.2.3 of RFC 6819 and
  section 4.14.2 of RFC 9700. The aggregate and the use cases are objects, proved
  against value functions. `SessionReference` states directly on the table what a
  request should do, and load-operate-save is proved equal to it. Serial runs treat a
  request as one step; interleaved runs load, operate and save in separate steps.
- **Rate limiting** (`RateWindow`, `MemoryLimiter`, `LimiterRuns`, `RedisLimiter`,
  `RedisFleet`, `FleetBurst`): the pruning, capped in-memory limiter, the Redis scripts, and a fleet
  of instances that fall back to their own shadow whenever Redis does not answer.
- **Smaller algorithms**: the in-memory revocation list with its two-phase check
  (`MemoryBlacklist`), the admin user list (`UserListing`), bcrypt work padding
  (`PasswordWork`) and proxy-chain resolution (`ClientIp`, with `Text`).

`Prelude` holds what they share. `dafny verify dfyconfig.toml` checks all of it.

## Conventions and assumptions

- Backend outcomes, clock readings and database answers are parameters of methods and
  labels of steps, so every theorem quantifies over all of them. A query is answered by
  any sequence that satisfies its `WHERE`, `ORDER BY` and `LIMIT`.
- Revocation: one monotone clock in milliseconds; Redis keeps a key until its ttl ends;
  an SQL statement is atomic, and a failed one may or may not have been applied; every
  ttl of a jti comes from that token's `exp` as logout computes it. A Redis command whose
  caller stopped waiting may land at any later time, any number of times, or never.
- Token validation has a 60 second leeway (section 4.1.4 of RFC 7519 allows one). Whether the
  JWT library still accepts a token in the second exp + 60 itself is foreign code, and
  `crates/auth/tests/access_token_revocation_test.rs:160-164` leaves it open, so it is a
  parameter (`Boundary`) and every theorem covers both answers.
- Sessions: token match is a boolean of the request; a taken primary key aborts the
  transaction, so new ids need not be assumed fresh; a commit that fails may still have been
  applied; a save inserts at most one session,
  as all callers do; a serial request reads the clock once.
- Rate limiting: each call reads the clock twice, for pruning and for deciding, and both
  readings are arbitrary as long as time does not run backwards.

## Promises that do not hold as documented

- `docs/modules/auth.md:115` says a revocation entry never outlives its token. In every run a
  key outlives its token's deadline by exactly the time from the start of the second in which
  its ttl was computed to the moment it was set, so it does if and only if it was set after
  that (`KeyLifetime`, `KeyOutlivesTokenIff`); a flush applies the full ttl again.
- The acknowledging instance can deny a revocation it has acknowledged. It never does so to a
  check whose pending lookup was still ahead when `revoke` returned
  (`AcknowledgingInstanceNeverDenies`); for every token there is a run in which it denies
  a check that had already looked (`EarlyLookMayDeny`).
- A logged-out token is rejected at every later instant if the library treats exp + 60 as
  expired. If it accepts that second, the token passes if and only if the request falls in it
  and finds no live key (`LoggedOutTokenIsRejectedAtOneInstant`), and that does happen
  (`InclusiveBoundaryLetsTokenPass`).
- `README.md:182` calls the limiter a sliding window. At most `max` attempts in every
  interval holds if and only if `max` is one or the window is one clock tick
  (`SlidingPromiseHoldsIff`); what always holds is `2 * max - 1`, and it is attained.
- A limiter that prunes is indistinguishable from one that does not if and only if the budget
  is at least one or the window is empty (`PruningIsInvisibleIff`).
- One active session per rotation family and rotation at most once are properties of serial
  runs. Two refreshes that overlap fork the family (`OverlappingRefreshesForkFamily`). In every
  interleaving, families are chains if and only if no two rotations of one session overlap, load
  to save (`FamiliesAreChainsIff`), and a session is rotated again only by a request that had
  loaded it before the other rotation was saved (`RotatesAgainIffOverlap`).
- The cap of 25 active sessions is a property of serial runs. Logins that all load before any
  saves leave a user with any number of sessions (`OverlappingLoginsKnowNoCap`). In every
  interleaving it holds if and only if every new session still found room at its save
  (`CapHoldsIff`), and it does hold when no new session of a user is saved between the load and
  the save of another one of theirs (`CapHoldsWithoutOverlap`).
- A stored hash costs what an unknown user costs, once that dummy hash is cached, if and only if
  its cost can be read, lies between 4 and the configured cost and, where bcrypt answers, is the
  configured one or has its dummy cached; a hash that bcrypt refuses is not evaluated, and comes
  out the same only below the configured cost and without a cached dummy
  (`StoredHashCostsLikeUnknownUserIff`).

## Model

| member | source | states |
|---|---|---|
| `RevocationRuns.AcknowledgedStaysDurable` | crates/infrastructure/src/access_token_blacklist/durable.rs:83-209 | In every interleaving, once `revoke` returned Ok anywhere, at every later moment before exp + 60 s Redis holds a live key or the outbox an unexpired row |
| `RevocationRuns.AcknowledgingInstanceNeverDenies` | crates/infrastructure/src/access_token_blacklist/durable.rs:156-235 | Until restarted, the acknowledging instance never answers "not revoked" before the deadline to a check whose pending lookup was still ahead at the acknowledgement, begun before it or after |
| `RevocationRuns.EarlyLookMayDeny` | crates/infrastructure/src/access_token_blacklist/durable.rs:186-235 | For every token and every moment before its deadline, a run in which the acknowledging instance denies it to a check that had looked at the pending map before: the condition is needed |
| `RevocationRuns.DenialNeedsUnflushedRow` | crates/infrastructure/src/access_token_blacklist/durable.rs:211-235 | Any instance that answers "not revoked" before the deadline does so while an unexpired, unflushed row exists |
| `RevocationRuns.RevokedOnlyIfRequested` | crates/infrastructure/src/access_token_blacklist/durable.rs:186-235 | No instance answers "revoked" unless an earlier step of the run began a `revoke` of that jti |
| `RevocationRuns.AckedForGood` | crates/infrastructure/src/access_token_blacklist/durable.rs:186-209 | An acknowledgement, once given, is never forgotten by the history the theorems speak about |
| `RevocationRuns.MarkedAfterAck` | crates/infrastructure/src/access_token_blacklist/durable.rs:186-235 | Between acknowledgement and restart the instance keeps its mark, and so does every check whose pending lookup came since |
| `RevocationRuns.StepAges` | crates/infrastructure/src/access_token_blacklist/durable.rs:83-235 | No step turns the clock back, takes an acknowledgement away, or adds a requested jti other than by beginning its `revoke` |
| `RevocationRuns.InvHolds` | crates/infrastructure/src/access_token_blacklist/durable.rs:83-235 | The protocol invariant holds in every state of every run |
| `RevocationProtocol.StepKeepsInv` | crates/infrastructure/src/access_token_blacklist/durable.rs:83-235 | Every enabled effect of any party keeps the invariant tying keys, rows, pending maps, sweeps, calls in flight and late commands to the deadline |
| `RevocationProtocol.RevokeStepKeeps` | crates/infrastructure/src/access_token_blacklist/durable.rs:186-209 | The same for the effects of `revoke`: the Redis command with its three outcomes, the journal insert, the pending insert |
| `RevocationProtocol.SweepStepKeeps` | crates/infrastructure/src/access_token_blacklist/durable.rs:118-171 | The same for the effects of a sweep, each interruptible after any one of them |
| `RevocationProtocol.CheckStepKeeps` | crates/infrastructure/src/access_token_blacklist/durable.rs:211-235 | The same for the two lookups of `is_revoked` |
| `RevocationProtocol.RestartKeeps` | crates/infrastructure/src/access_token_blacklist/durable.rs:57-73 | A restart loses the pending map and all calls of the instance, while commands already sent may still land |
| `RevocationEffects.RevokeBegins` | crates/infrastructure/src/access_token_blacklist/durable.rs:186-209 | A `revoke` begins with exp + 60 less the current second, at least zero, and touches no store |
| `RevocationEffects.RevokeSets` | crates/infrastructure/src/access_token_blacklist/durable.rs:186-192 | Only an answered SET acknowledges, setting the key for its ttl; a refused or timed-out one goes on to the journal, and a timed-out one may still land |
| `RevocationEffects.JournalAddsRow` | crates/infrastructure/src/access_token_blacklist/durable.rs:83-104 | An applied journal insert adds the row with its ttl from now on unless the jti has one; the call goes on only if it succeeded |
| `RevocationEffects.PendingRecorded` | crates/infrastructure/src/access_token_blacklist/durable.rs:198-208 | A journaled revocation enters this instance's pending map and is acknowledged |
| `RevocationEffects.OutboxRowsNeverChange` | crates/infrastructure/src/access_token_blacklist/durable.rs:79-104 | Whatever the step, a row that stays in the outbox is the same row |
| `RevocationEffects.DropExpiredLeavesLive` | crates/infrastructure/src/access_token_blacklist/durable.rs:125-127 | An applied expiry DELETE leaves exactly the rows that have not expired |
| `RevocationEffects.FlushOneCounts` | crates/infrastructure/src/access_token_blacklist/durable.rs:143-154 | A row counts as flushed only if Redis answered and as remaining otherwise; its key lasts its ttl from then on |
| `RevocationEffects.DeleteTakesFlushed` | crates/infrastructure/src/access_token_blacklist/durable.rs:156-160 | The second DELETE takes exactly the flushed rows |
| `RevocationEffects.SweepGoesOn` | crates/infrastructure/src/access_token_blacklist/durable.rs:118-171 | A failed statement ends the sweep, and so does a loop in which nothing was flushed |
| `RevocationEffects.RetainKeepsRest` | crates/infrastructure/src/access_token_blacklist/durable.rs:162-167 | The retain keeps exactly the entries not flushed and not expired |
| `RevocationEffects.PruneForgetsExpired` | crates/infrastructure/src/access_token_blacklist/durable.rs:75-77 | Pruning forgets exactly the entries whose ttl is over |
| `RevocationEffects.CheckAnswers` | crates/infrastructure/src/access_token_blacklist/durable.rs:211-235 | What a check answers: a pending entry within its ttl, then a live key, or the backend's error |
| `RevocationEffects.MissForgetsExpired` | crates/infrastructure/src/access_token_blacklist/durable.rs:211-228 | A lookup that misses forgets the expired entry of that jti and nothing else |
| `RevocationEffects.RestartForgets` | crates/infrastructure/src/access_token_blacklist/durable.rs:57-73 | A restart forgets the pending map and all calls of the instance; every SET it waited for may still land |
| `RevocationStore.TtlReachesDeadline` | crates/auth/src/adapters/inbound/logout_routes.rs:125-134 | The ttl computed at any moment, applied then or later, reaches the token's deadline in spite of rounding to seconds |
| `AccessDecision.LoggedOutTokenIsRejected` | crates/shared/src/auth.rs:152-184 | After an acknowledged logout, on that instance until restarted, a request whose pending lookup was still ahead is accepted if and only if the token validated when decoded and the list check errored, or found no live key at or after the deadline; for both boundaries |
| `AccessDecision.LoggedOutTokenIsRejectedAtOneInstant` | crates/shared/src/auth.rs:152-184 | With one clock reading and no backend error the token is accepted if and only if the library accepts the second exp + 60, the request falls in it and no key is live |
| `AccessDecision.InclusiveBoundaryLetsTokenPass` | crates/shared/src/auth.rs:152-184 | For every token, logout at the start of a second and instant of the second exp + 60, a run in which the inclusive comparison accepts the logged-out token |
| `AccessDecision.ValidatesUntil` | crates/shared/src/auth.rs:152-184 | In milliseconds, a token validates exactly before its deadline, or before a second after it with the inclusive comparison |
| `AccessDecision.RevocationLiveExactlyWhileTokenIs` | crates/auth/src/adapters/inbound/logout_routes.rs:125-134 | For every exp, logout second t and later second u, the revocation is live at u if and only if u < exp + 60; a valid second is uncovered only at exp + 60 itself, with the inclusive comparison |
| `AccessDecision.KeyEndsWithinASecondOfDeadline` | crates/auth/src/adapters/inbound/logout_routes.rs:125-134 | A key written when its ttl is computed ends at the deadline or less than a second after |
| `AccessDecision.KeyOutlivesTokenIff` | docs/modules/auth.md:115 | For every key of every run, the steps that computed its ttl and set it, and that it outlives its token if and only if it was set after the start of the second of the former (plus a second with the inclusive comparison) |
| `RevocationLifetimes.KeyLifetime` | crates/infrastructure/src/access_token_blacklist/durable.rs:143-147 | In every run every key was set with the ttl of an earlier `revoke` of that jti, and ends after the deadline by exactly the time from the start of that second to its being set |
| `RevocationLifetimes.KeyEndAgainstDeadline` | crates/auth/src/adapters/inbound/logout_routes.rs:125-134 | A ttl computed at one instant and applied at another ends after the deadline by their distance, counted from the start of the first second |
| `RevocationLifetimes.AllFromIssued` | crates/infrastructure/src/access_token_blacklist/durable.rs:83-171 | In every run every ttl in a call, late command, outbox row or batch was computed by an earlier `revoke` of the same jti |
| `AccessDecision.FlushedKeyOutlivesTokenExample` | docs/modules/auth.md:115 | A concrete entry that is live 30 s after its token is dead |
| `DurableBlacklist.DurableRevocationBlacklist.InnerRevoke` | crates/infrastructure/src/access_token_blacklist/redis.rs:118-157 | A zero ttl succeeds without effect; otherwise the key is set unless the command was lost, and Ok only if Redis answered |
| `DurableBlacklist.DurableRevocationBlacklist.Revoke` | crates/infrastructure/src/access_token_blacklist/durable.rs:186-209 | Ok exactly when Redis or else the journal accepted; then the jti is live in Redis, or journaled and live in `pending`; the whole new state of Redis, outbox and `pending` |
| `DurableBlacklist.DurableRevocationBlacklist.IsRevoked` | crates/infrastructure/src/access_token_blacklist/durable.rs:211-235 | A live pending entry answers "revoked" whatever Redis does; "not revoked" needs an answer of Redis without a live key; only expired entries are forgotten |
| `DurableBlacklist.DurableRevocationBlacklist.PendingCount` | crates/infrastructure/src/access_token_blacklist/durable.rs:177-181 | Prunes what is expired and counts the rest |
| `DurableBlacklist.DurableRevocationBlacklist.FlushPending` | crates/infrastructure/src/access_token_blacklist/durable.rs:118-171 | After an applied expiry DELETE no expired row is left; on every path no live row is lost and no key outside the batch of at most 500 changes; a sweep that returns leaves exactly the rows that were there, had not expired and were not taken by Redis, reports how many of its batch those are, and keeps exactly the pending entries neither flushed nor expired |
| `DurableBlacklist.LandedIffTaken` | crates/infrastructure/src/access_token_blacklist/durable.rs:143-154 | A row landed if and only if the backend accepted it, or its ttl is zero |
| `DurableBlacklist.SweepLeavesExactly` | crates/infrastructure/src/access_token_blacklist/durable.rs:118-171 | What is left after both DELETEs, row by row |
| `DurableBlacklist.DurableRevocationBlacklist.FlushWhileHealthy` | crates/infrastructure/src/telemetry/pollers.rs:149-165 | The flush worker on healthy backends: after ceil(n / 500) sweeps the outbox is empty, and every original row still unexpired is in Redis until at least its expiry |
| `DurableBlacklist.DurableRevocationBlacklist.FlushHealthy` | crates/infrastructure/src/access_token_blacklist/durable.rs:118-171 | One sweep with all statements succeeding is a healthy sweep of both stores |
| `DurableBlacklist.DurableRevocationBlacklist.FlushBatch` | crates/infrastructure/src/access_token_blacklist/durable.rs:140-171 | The part after the SELECT, with its early return when nothing was flushed; keys outside the batch unchanged |
| `DurableBlacklist.DurableRevocationBlacklist.FlushRows` | crates/infrastructure/src/access_token_blacklist/durable.rs:140-154 | The loop: which rows landed, how many did not, that Redis outlives every landed row, and that keys outside the batch are unchanged |
| `DurableBlacklist.DurableRevocationBlacklist.FinishSweep` | crates/infrastructure/src/access_token_blacklist/durable.rs:156-168 | `pending` is only cut down once the DELETE succeeded |
| `DurableBlacklist.SweepLosesNothing` | crates/infrastructure/src/access_token_blacklist/durable.rs:118-171 | Expiry and deletion, applied or not, lose no live row whose key Redis does not hold as long |
| `DurableBlacklist.RefusedCount` | crates/infrastructure/src/access_token_blacklist/durable.rs:140-154 | The rows of the batch still journaled after deletion number batch size minus landed |
| `DurableBlacklist.BatchExists` | crates/infrastructure/src/access_token_blacklist/durable.rs:129-135 | The oldest-first batch query has an answer on every outbox |
| `DurableBlacklist.AllOkIsHealthy` | crates/infrastructure/src/access_token_blacklist/durable.rs:118-171 | A sweep in which every row landed and was deleted is a healthy sweep of outbox and Redis, and leaves no batch row |
| `DurableBlacklist.HealthySweepShrinks` | crates/infrastructure/src/access_token_blacklist/durable.rs:29-29 | A healthy sweep removes 500 rows, or all of them if there are no more |
| `DurableBlacklist.HealthySweepKeeps` | crates/infrastructure/src/access_token_blacklist/durable.rs:118-171 | A healthy sweep moves live rows to Redis for at least their lifetime and disturbs none that earlier sweeps moved |
| `DurableBlacklist.BacklogDrains` | crates/infrastructure/src/access_token_blacklist/durable.rs:118-171 | With nothing new journaled, after ceil(n / 500) healthy sweeps the outbox is empty and every original row still unexpired is in Redis until at least its expiry |
| `SessionRuns.FamilyChainHasOneActive` | crates/auth/src/domain/aggregate.rs:126-171 | In every serial run the descendants of one login form a chain under rotation, and at most one of them is active |
| `SessionRuns.ReuseRevokesEverything` | crates/auth/src/application/use_cases/refresh_token.rs:80-103 | Every later refresh naming a rotated session, whatever its token or expiry, is refused with SessionInvalidated and, once saved, leaves that user no active session; for another user it finds nothing |
| `SessionRuns.RotatedAtMostOnce` | crates/auth/src/domain/aggregate.rs:126-171 | In every serial run a session is successfully rotated at most once |
| `SessionRuns.SessionCapHolds` | crates/auth/src/domain/aggregate.rs:35-70 | In every serial run no user ever has more than 25 active unexpired sessions, although rotation never checks the cap |
| `SessionRuns.ActiveRowsBalanceEvents` | crates/auth/src/domain/aggregate.rs:62-187 | In every serial run a user's active rows equal login events minus logout events queued by committed operations |
| `SessionRuns.BulkBalance` | crates/auth/src/domain/aggregate.rs:173-187 | Bulk revocation queues one logout event per session it flips |
| `SessionRuns.InactiveForGood` | crates/auth/src/adapters/postgres_user_repo.rs:171-206 | In serial runs an inactive row never changes again |
| `SessionRuns.StepKeepsInv` | crates/auth/src/application/use_cases/refresh_token.rs:21-119 | Login, refresh, logout and the passing of time keep lineage, cap and event balance |
| `SessionRuns.RotationCloses` | crates/auth/src/domain/aggregate.rs:126-171 | A successful refresh was of an active session of that very user, and flips exactly that row's flag |
| `SessionLineage.FamilyIsChain` | crates/auth/src/domain/aggregate.rs:126-171 | If no session has two children, any two descendants of one login lie on one line |
| `SessionLineage.ChainsIffOneChildEach` | crates/auth/src/domain/aggregate.rs:126-171 | All families are chains if and only if no session has two children |
| `SessionLineage.OneActivePerFamily` | crates/auth/src/domain/aggregate.rs:126-171 | Where a family is a chain and rotated sessions are inactive, at most one of it is active |
| `SessionLineage.OnePerDepth` | crates/auth/src/domain/aggregate.rs:126-171 | The n-th rotation of a login is one session |
| `SessionReference.ServeMatchesReference` | crates/auth/src/adapters/postgres_user_repo.rs:171-231 | Load, operate and save, uninterrupted, make exactly the change the reference semantics decides on the table |
| `SessionReference.CommitsIffChanges` | crates/auth/src/application/use_cases/refresh_token.rs:80-103 | A request commits if and only if the reference decides on a change and the transaction goes through |
| `SessionReference.OperationDescribesChange` | crates/auth/src/domain/aggregate.rs:35-187 | The session added and the events queued are those of the change decided on |
| `SessionReference.LoadedCount` | crates/auth/src/adapters/postgres_user_repo.rs:36-54 | Counting over the loaded list counts the user's rows of the table |
| `SessionAnswers.LoginAnswers` | crates/auth/src/application/use_cases/login_with_password.rs:58-97 | A login is refused for the cap exactly at 25 active unexpired rows, fails exactly if its id is taken or the commit fails, and otherwise answers with the very session it inserts; the whole table after it |
| `SessionAnswers.RefreshRefusals` | crates/auth/src/domain/aggregate.rs:134-171 | Each answer to a refresh if and only if: no such row of the user, inactive, active and expired, token mismatch, id taken, rotated; and the session handed out |
| `SessionAnswers.RefreshWithFailedCommit` | crates/auth/src/application/use_cases/refresh_token.rs:80-119 | A failed commit gives an internal error exactly where there was something to save |
| `SessionAnswers.RefreshChanges` | crates/auth/src/application/use_cases/refresh_token.rs:80-119 | The whole table after a refresh: old row ended and new one beside it, all the user's rows ended on reuse, unchanged otherwise |
| `SessionAnswers.LogoutAnswers` | crates/auth/src/application/use_cases/logout.rs:7-22 | Each answer to a logout if and only if, its event, and the whole table after it |
| `SessionAnswers.RevocationsReportedInOrder` | crates/auth/src/domain/aggregate.rs:173-187 | Bulk revocation queues one event per active session and no other, in their order |
| `SessionInterleaving.InactiveForGood` | crates/auth/src/adapters/postgres_user_repo.rs:171-206 | In every interleaving a row once inactive stays so, and no row ever vanishes or changes in anything else |
| `SessionInterleaving.RequestTouchesOnlyItsUser` | crates/auth/src/adapters/postgres_user_repo.rs:36-231 | In every interleaving a save neither changes nor adds rows of another user |
| `SessionInterleaving.AuthMethodIsThatOfLogin` | crates/auth/src/domain/aggregate.rs:152-161 | In every interleaving a session has the user and auth method of the login at the root of its rotations |
| `SessionInterleaving.SaveIsTame` | crates/auth/src/adapters/postgres_user_repo.rs:171-231 | Saving a stale copy can only add the request's own session and flip the user's rows to inactive |
| `SessionInterleaving.UndisturbedSaveIsSerial` | crates/auth/src/adapters/postgres_user_repo.rs:36-206 | If no other save for the user falls between load and save, the save does what the reference decides on the table at that moment |
| `SessionOverlap.FamiliesAreChainsIff` | crates/auth/src/adapters/postgres_user_repo.rs:36-231 | In every interleaving, all families are chains if and only if no two rotations of one session overlap, load to save |
| `SessionOverlap.FamilyHasOneActive` | crates/auth/src/adapters/postgres_user_repo.rs:36-231 | And then, in every interleaving, at most one session of a family is active |
| `SessionOverlap.RotatesAgainIffOverlap` | crates/auth/src/domain/aggregate.rs:126-171 | In every interleaving, a save rotates a session already rotated if and only if another rotation of it was saved between that save and its own load |
| `SessionOverlap.RotationsOfOneSessionOverlap` | crates/auth/src/domain/aggregate.rs:126-171 | Of two committed rotations of one session, the later had been loaded before the earlier was saved |
| `SessionOverlap.SaveHasLoad` | crates/auth/src/adapters/postgres_user_repo.rs:36-206 | Every save has its load and its operation, and saves what that operation made of the loaded rows |
| `SessionOverlap.LoadIsUnique` | crates/auth/src/adapters/postgres_user_repo.rs:36-206 | And it has only one load |
| `SessionOverlap.ActiveParentIsFirst` | crates/auth/src/adapters/postgres_user_repo.rs:171-206 | A session still active when its rotation is saved was never rotated before |
| `SessionOverlap.UndisturbedParentIsActive` | crates/auth/src/adapters/postgres_user_repo.rs:36-206 | If no other save for the user falls between load and save of a rotation, the session is still active at the save |
| `SessionOverlap.UndisturbedRotationsKeepChains` | crates/auth/src/adapters/postgres_user_repo.rs:36-206 | An interleaving in which all rotations save undisturbed has no overlapping rotations, so that its families are chains with one active session |
| `SessionOverlap.ReuseIsRefused` | crates/auth/src/application/use_cases/refresh_token.rs:80-103 | In every interleaving, a refresh that loads after a rotation of its session was saved adds nothing and is refused: SessionInvalidated for the owner, SessionNotFound for others |
| `SessionOverlap.ReuseClosesAllLoaded` | crates/auth/src/application/use_cases/refresh_token.rs:88-97 | And its save, once applied, leaves inactive every session the user had at that load |
| `SessionCap.CapHoldsIff` | crates/auth/src/domain/aggregate.rs:35-70 | In every interleaving, no user ever has more than 25 usable sessions if and only if every committed new session found room at its save |
| `SessionCap.CapHoldsWithoutOverlap` | crates/auth/src/domain/aggregate.rs:35-161 | In every interleaving in which no new session of a user is saved between load and save of another one of theirs, the cap holds |
| `SessionCap.LoneInsertHasRoom` | crates/auth/src/domain/aggregate.rs:35-161 | The check a login makes on loaded rows, and the place a rotation takes, still hold at the save if nothing was inserted in between |
| `SessionCap.UndisturbedInsertsAlone` | crates/auth/src/adapters/postgres_user_repo.rs:36-206 | A save that no other save for the user disturbed is such a save |
| `SessionCap.OverlappingLoginsKnowNoCap` | crates/auth/src/domain/aggregate.rs:42-52 | For every n, a run of overlapping logins that leaves one user with n usable sessions |
| `SessionOverlap.OverlappingRefreshesForkFamily` | crates/auth/src/application/use_cases/refresh_token.rs:80-103 | A run in which two overlapping refreshes both succeed and leave two active sessions of one family |
| `SessionAggregate.UserAggregate.AddSession` | crates/auth/src/domain/aggregate.rs:35-70 | Refused exactly at 25 active unexpired sessions; otherwise one login event and the sessions untouched |
| `SessionAggregate.UserAggregate.InvalidateSession` | crates/auth/src/domain/aggregate.rs:72-102 | Not found (or foreign), invalidated, expired, in that order; otherwise flips that session and queues one event |
| `SessionAggregate.UserAggregate.RotateSession` | crates/auth/src/domain/aggregate.rs:126-171 | Not found, invalidated, expired, token mismatch, in that order; otherwise flips the old session and yields one with its auth method |
| `SessionAggregate.UserAggregate.InvalidateAllActiveSessions` | crates/auth/src/domain/aggregate.rs:173-187 | Every session ends inactive and one event per flipped session is queued, in order |
| `SessionAggregate.UserAggregate.TakeEvents` | crates/auth/src/domain/aggregate.rs:189-191 | Hands over the queued events and empties the queue |
| `SessionAggregate.UserAggregate.Find` | crates/auth/src/domain/aggregate.rs:134-138 | The first session with this id |
| `SessionStore.Store.LoadAggregate` | crates/auth/src/adapters/postgres_user_repo.rs:36-54 | Whatever the database answers, exactly the user's rows, each once, newest first, and no events queued |
| `SessionStore.LoadHasAnswer` | crates/auth/src/adapters/postgres_user_repo.rs:36-54 | On every table and for every user the ordered query has an answer, so that every request can load |
| `SessionStore.Store.SaveAggregate` | crates/auth/src/adapters/postgres_user_repo.rs:171-206 | All or nothing: the new row inserted, every inactive session marked; a taken id leaves no trace, and a failed commit is an error whether or not it was applied |
| `SessionStore.Store.LoginUser` | crates/auth/src/application/use_cases/login_with_password.rs:58-97 | Table, answer and published events of a login, error paths included |
| `SessionStore.Store.RefreshToken` | crates/auth/src/application/use_cases/refresh_token.rs:80-119 | Table, answer and published events of a refresh, with revocation on reuse before the refusal |
| `SessionStore.Store.LogoutUser` | crates/auth/src/application/use_cases/logout.rs:7-22 | Table, answer and published events of a logout |
| `RedisFleet.FleetBound` | crates/infrastructure/src/rate_limiter/redis.rs:202-236 | N instances on one Redis, restarted R times in all, in any pattern of failures, timeouts and late scripts, decide to allow a client at most (N + 1 + R) * (2 * max - 1) attempts in any interval of one window's length |
| `FleetBurst.FleetBoundIsAttained` | crates/infrastructure/src/rate_limiter/redis.rs:202-236 | For every budget, window of at least two ticks and N >= 1, a run without restarts in which (N + 1) * (2 * max - 1) are allowed |
| `RedisFleet.KeysAlwaysExpire` | crates/infrastructure/src/rate_limiter/redis.rs:18-39 | In every run no counter key exists without an expiry |
| `RedisFleet.StepKeepsInv` | crates/infrastructure/src/rate_limiter/redis.rs:138-318 | Every step keeps each decider's count of passes within the budget of its latest window |
| `RedisFleet.UnansweredScriptMayRun` | crates/infrastructure/src/rate_limiter/redis.rs:202-236 | A script sent and not answered may still be executed, also after a restart, which starts with an empty shadow |
| `RedisFleet.ResetForgetsCounter` | crates/infrastructure/src/rate_limiter/redis.rs:267-269 | A reset removes this client's counter and no other |
| `RedisLimiter.ScriptIsTried` | crates/infrastructure/src/rate_limiter/redis.rs:18-39 | Executing the script on the counter is an attempt on a fixed window, an expired key being a finished window |
| `RedisLimiter.CounterForetellsScript` | crates/infrastructure/src/rate_limiter/redis.rs:14-165 | What the script does to the counter, and that reading the counter foretells its decision |
| `RedisLimiter.ScriptKeepsExpiry` | crates/infrastructure/src/rate_limiter/redis.rs:18-39 | Incrementing and setting the expiry in one script never leaves a key without one |
| `RedisLimiter.SeenLater` | crates/infrastructure/src/rate_limiter/redis.rs:18-39 | A counter that expires in the meantime agrees with a window that ends |
| `RedisLimiter.RedisRateLimiter.TryCheckAndRecord` | crates/infrastructure/src/rate_limiter/redis.rs:202-236 | Redis decides if it answers; otherwise the shadow does, whether or not the script was executed |
| `RedisLimiter.RedisRateLimiter.Check` | crates/infrastructure/src/rate_limiter/redis.rs:138-165 | Reads the live counter, or the shadow on failure; Redis unchanged |
| `RedisLimiter.RedisRateLimiter.RecordAttempt` | crates/infrastructure/src/rate_limiter/redis.rs:167-200 | Increments the counter, and records in the shadow when unanswered |
| `RedisLimiter.RedisRateLimiter.RemainingAttempts` | crates/infrastructure/src/rate_limiter/redis.rs:238-265 | What is left by the counter, never negative, or by the shadow on failure |
| `RedisLimiter.RedisRateLimiter.Reset` | crates/infrastructure/src/rate_limiter/redis.rs:267-318 | Clears the shadow whatever Redis does |
| `LimiterRuns.IntervalBound` | crates/infrastructure/src/rate_limiter/memory.rs:118-145 | In every run that neither resets nor evicts a client, any half-open interval of one window's length allows it at most 2 * max - 1 attempts |
| `LimiterRuns.WindowAllowsMax` | crates/infrastructure/src/rate_limiter/memory.rs:118-145 | Each window allows at most max, and the next one starts at least a window's length later |
| `LimiterRuns.PruningIsInvisible` | crates/infrastructure/src/rate_limiter/memory.rs:51-160 | With max >= 1 and below capacity, every call of every run gets the reply of a limiter that never prunes |
| `LimiterRuns.StepAgrees` | crates/infrastructure/src/rate_limiter/memory.rs:51-160 | One call keeps a client's entry equal to the never-pruned one or absent with that window over, and replies alike |
| `LimiterRuns.ZeroBudgetTellsThemApart` | crates/infrastructure/src/rate_limiter/memory.rs:118-145 | For every window of at least one tick and max = 0, a run on which the two limiters answer differently |
| `LimiterRuns.PruningIsInvisibleIff` | crates/infrastructure/src/rate_limiter/memory.rs:51-160 | Every call of every run below capacity gets the reply of a limiter that never prunes if and only if max >= 1 or the window is empty |
| `LimiterRuns.NeverOverCapacity` | crates/infrastructure/src/rate_limiter/memory.rs:62-73 | At any load the map never exceeds 100 000 entries |
| `LimiterRuns.SlidingPromiseHoldsIff` | README.md:182 | At most max in every interval holds in every run if and only if max is one or the window is one tick |
| `RateWindow.AgreementIsInvisible` | crates/infrastructure/src/rate_limiter/memory.rs:78-160 | With max >= 1 no operation can tell a forgotten window from a finished one |
| `RateWindow.AttemptStaysBudgeted` | crates/infrastructure/src/rate_limiter/memory.rs:118-145 | An attempt keeps the count of an interval within what its latest window can account for |
| `RateWindow.WindowsAreApart` | crates/infrastructure/src/rate_limiter/memory.rs:118-145 | An attempt stays in its window within max, or opens one at least a window's length later |
| `RateWindow.RemainingIsHowManyAreAllowed` | crates/infrastructure/src/rate_limiter/memory.rs:78-160 | Exactly `remaining_attempts` attempts in a row are allowed, max of them without a running window; `check` says whether one is |
| `RateWindow.RecordedTakesOneAway` | crates/infrastructure/src/rate_limiter/memory.rs:95-116 | Recording takes one attempt away, in the running window or in a new one, and all are back when it ends |
| `MemoryLimiter.MemoryRateLimiter.EvictOldestIfFull` | crates/infrastructure/src/rate_limiter/memory.rs:62-73 | Removes one entry with the smallest window start of all, and only at capacity |
| `MemoryLimiter.MemoryRateLimiter.MakeRoom` | crates/infrastructure/src/rate_limiter/memory.rs:95-102 | Keeps exactly the entries whose window is running, less one evicted only at 100 000 and only for a client not yet tracked |
| `MemoryLimiter.MemoryRateLimiter.Check` | crates/infrastructure/src/rate_limiter/memory.rs:78-93 | Keeps exactly the entries whose window is running, and allows a client without a full one |
| `MemoryLimiter.MemoryRateLimiter.RecordAttempt` | crates/infrastructure/src/rate_limiter/memory.rs:95-116 | Counts in the running window or opens a new one; the cap is kept |
| `MemoryLimiter.MemoryRateLimiter.TryCheckAndRecord` | crates/infrastructure/src/rate_limiter/memory.rs:118-145 | Allows and counts, or refuses and leaves the count; the cap is kept |
| `MemoryLimiter.MemoryRateLimiter.RemainingAttempts` | crates/infrastructure/src/rate_limiter/memory.rs:147-160 | What the running window leaves, never negative |
| `MemoryLimiter.MemoryRateLimiter.Reset` | crates/infrastructure/src/rate_limiter/memory.rs:162-165 | Forgets exactly this client |
| `MemoryBlacklist.MemoryAccessTokenBlacklist.Revoke` | crates/infrastructure/src/access_token_blacklist/memory.rs:61-83 | Keeps exactly the entries within their ttl and adds this one, in step with a log that never forgets |
| `MemoryBlacklist.MemoryAccessTokenBlacklist.IsRevoked` | crates/infrastructure/src/access_token_blacklist/memory.rs:85-118 | Revoked if and only if now is before the latest revocation's time plus its ttl; an entry in force is never removed |
| `MemoryBlacklist.LiveEntryIsNeverLost` | crates/infrastructure/src/access_token_blacklist/memory.rs:85-118 | In every interleaving of two-phase checks and revokes an entry in force is stored, although clocks are read before locks |
| `MemoryBlacklist.EveryAnswerHasAnInstant` | crates/infrastructure/src/access_token_blacklist/memory.rs:85-118 | Every answer says whether, at some instant between call and return, the latest `revoke` step of the jti was younger than its ttl |
| `UserListing.PagesConcatenate` | crates/admin/src/adapters/outbound/postgres_admin_repo.rs:93-125 | Pages requested one by one over an unchanged directory show its newest-first listing from the start, nobody omitted, repeated or out of order, each with the role of a lookup of their own |
| `UserListing.PagesCoverDirectory` | crates/admin/src/adapters/outbound/postgres_admin_repo.rs:93-125 | Enough pages show the whole directory |
| `UserListing.PagesShowNewestFirst` | crates/auth/src/adapters/postgres_user_directory.rs:50-54 | Across all pages users come by descending created_at, then descending id |
| `UserListing.PageAnswer` | crates/admin/src/adapters/outbound/postgres_admin_repo.rs:93-125 | A page fails if and only if one of its users has a role row that spells neither role; otherwise it is that slice of the listing, Admin exactly for "admin" and User exactly for "user" or no row |
| `UserListing.BatchedRolesAreSingleLookups` | crates/admin/src/adapters/outbound/postgres_admin_repo.rs:40-88 | The batch fails if and only if some single lookup fails, which is for a row spelling neither role, and otherwise agrees with all of them |
| `UserListing.Collected` | crates/admin/src/adapters/outbound/postgres_admin_repo.rs:81-88 | Collecting succeeds if and only if every row parses, and then maps exactly those users |
| `UserListing.ListingIsUnique` | crates/auth/src/adapters/postgres_user_directory.rs:42-62 | The order by created_at and id is total, so that all queries see one listing |
| `UserListing.ListingCounts` | crates/auth/src/adapters/postgres_user_directory.rs:42-62 | A listing holds each user of the directory once |
| `UserListing.ListingExists` | crates/auth/src/adapters/postgres_user_directory.rs:42-62 | Every directory has a listing |
| `UserListing.OffsetFits` | crates/auth/src/adapters/postgres_user_directory.rs:47-49 | Every 32-bit page number with a page size up to 500 gives an offset below 2^63 |
| `PasswordWork.Bcrypt.PadTimingTo` | crates/auth/src/domain/services/password_verification.rs:59-74 | For a stored cost from 4 up to the configured one, padding costs exactly the missing work; no parse or a higher cost, nothing; an unusable cost, one nap |
| `PasswordWork.Bcrypt.VerifyPasswordTimingSafe` | crates/auth/src/domain/services/password_verification.rs:104-127 | True only for a stored hash that verifies; the work of every path: unknown user with and without a cached dummy, stored hash answered or refused by bcrypt |
| `PasswordWork.StoredHashCostsOneEvaluationIff` | crates/auth/src/domain/services/password_verification.rs:59-127 | A stored hash does the work of one evaluation at the configured cost if and only if its cost can be read, lies between 4 and that cost and, where bcrypt answers, is that cost or has its dummy cached; where bcrypt refuses, is lower and has none |
| `PasswordWork.StoredHashCostsLikeUnknownUserIff` | crates/auth/src/domain/services/password_verification.rs:94-127 | The exact condition for costing what an unknown user costs, with the configured dummy cached or not |
| `PasswordWork.Bcrypt.DummyPasswordHash` | crates/auth/src/domain/services/password_verification.rs:16-39 | A dummy exists exactly for costs bcrypt accepts, and its hashing is paid once |
| `PasswordWork.Bcrypt.VerifyRepeatedly` | crates/auth/src/domain/services/password_verification.rs:70-73 | The loop spends its count times the work of one verification |
| `PasswordWork.ShiftFits` | crates/auth/src/domain/services/password_verification.rs:70-70 | A shift by fewer than 32 places, which is what costs up to 31 give, is below 2^32 |
| `PasswordWork.RenderedCostIsRead` | crates/auth/src/domain/services/password_verification.rs:42-49 | A hash rendered with a two-digit cost is read back with that cost |
| `PasswordWork.NoCostInOtherText` | crates/auth/src/domain/services/password_verification.rs:42-49 | No cost is read without a leading separator or a second field |
| `PasswordWork.NoCostInOtherField` | crates/auth/src/domain/services/password_verification.rs:42-49 | Nor from a field that is not a number |
| `PasswordWork.CostFitsU32` | crates/auth/src/domain/services/password_verification.rs:42-49 | A cost that is read fits 32 bits |
| `ClientIp.ChainResolvesToRightmostForeign` | crates/shared/src/net.rs:28-48 | Behind a trusted peer the client is the rightmost parseable untrusted entry, whatever is prepended and whichever trusted hops are appended |
| `ClientIp.OtherwiseRealIpOrPeer` | crates/shared/src/net.rs:24-59 | An untrusted peer is its own client; without an untrusted entry `X-Real-IP` decides, and the peer if it does not parse |
| `ClientIp.ScanFailsIffNoneForeign` | crates/shared/src/net.rs:41-47 | The scan fails if and only if no entry is a parseable untrusted address |

## Left out

- HTTP handlers, routing, CORS, security headers, OpenAPI, TLS and start-up wiring: plumbing.
- JWT signing, bcrypt, address parsing, Google token verification: foreign code, reduced to an outcome or an uninterpreted function.
- Redis data loss and eviction, clock skew between hosts: outside the stated assumptions.
- `RevocationProtocol.StepKeepsInv`: an upper bound on how long a flushed key lives is not part of the invariant, because the sweep applies the original ttl again; `KeyLifetime` gives the exact end of every key instead.
- `RedisFleet.FleetBound`: assumes that the client is not reset, not evicted from a shadow and not the subject of `record_attempt` in a shadow; no handler calls `record_attempt`. That the bound is attained is shown without restarts.
- `MemoryLimiter.MemoryRateLimiter.RecordAttempt`: the 32-bit attempt counter is unbounded here.
- `DurableBlacklist.DurableRevocationBlacklist.Revoke`: conversions between 64-bit signed and unsigned ttls are not modelled; ttls are natural numbers.
- `SessionStore.Store.RefreshToken`: the user lookup and token decoding before the aggregate is loaded, and signing the new tokens after it is saved, are not modelled.
- `SessionStore.Store.SaveAggregate`: more than one new session per save, and the user row itself, are not modelled.
- `UserListing.PageAnswer`: failing database statements, which end the request with an internal error, are not modelled; of the summary only the columns that matter for order are kept.
- `PasswordWork.Bcrypt.VerifyPasswordTimingSafe`: time is counted in bcrypt work; two threads filling the dummy cache at once are not modelled.
- Profiles, value-object constructors, role updates, secret strength checks, the JWKS cache, `BcryptLimiter`: correct but easy.
- Metrics, logging, audit, event bus and migrations: I/O and configuration.
