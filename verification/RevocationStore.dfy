/** The two stores behind token revocation, and the effect of each single
    statement sent to them: the Redis key per revoked `jti`, the Postgres outbox
    row per journaled `jti`, and one instance's in-memory pending map.

    Times are milliseconds on one monotone clock; ttls are whole seconds. */
module RevocationStore {

  import opened Prelude

  const MS_PER_SEC: int := 1000
  const JWT_EXP_LEEWAY_SECS: int := 60
  const FLUSH_BATCH_SIZE: nat := 500

  /** Redis: the instant at which the key stops existing. */
  type Redis = map<Jti, int>

  datatype Row = Row(ttlSecs: nat, createdAt: int, expiresAt: int)
  type Outbox = map<Jti, Row>

  datatype PendingEntry = PendingEntry(addedAt: int, ttlSecs: nat)
  type PendingMap = map<Jti, PendingEntry>

  /** An answer of `is_revoked`. */
  datatype Verdict = Revoked | NotRevoked | BackendError

  function Millis(secs: int): int {
    secs * MS_PER_SEC
  }

  /** `chrono::Utc::now().timestamp()`: whole seconds, rounded down. */
  function Timestamp(now: int): int {
    now / MS_PER_SEC
  }

  /** Remaining acceptance window of a token, the ttl that logout hands to `revoke`. */
  function RevocationTtlSecs(exp: int, nowSecs: int): nat {
    var remaining := exp + JWT_EXP_LEEWAY_SECS - nowSecs;
    if remaining < 0 then 0 else remaining
  }

  /** First instant at which a token with this `exp` can no longer validate. */
  function Deadline(exp: int): int {
    Millis(exp + JWT_EXP_LEEWAY_SECS)
  }

  predicate KeyLive(redis: Redis, jti: Jti, now: int) {
    jti in redis && now < redis[jti]
  }

  predicate RowLive(outbox: Outbox, jti: Jti, now: int) {
    jti in outbox && now < outbox[jti].expiresAt
  }

  predicate EntryLive(entry: PendingEntry, now: int) {
    DurationSince(now, entry.addedAt) < Millis(entry.ttlSecs)
  }

  /** `SET key 1 EX ttl`; a zero ttl skips the round-trip. */
  function SetKey(redis: Redis, jti: Jti, ttlSecs: nat, now: int): Redis {
    if ttlSecs == 0 then redis else redis[jti := now + Millis(ttlSecs)]
  }

  /** `INSERT ... ON CONFLICT (jti) DO NOTHING`. */
  function JournalRow(outbox: Outbox, jti: Jti, ttlSecs: nat, now: int): Outbox {
    if jti in outbox then outbox else outbox[jti := Row(ttlSecs, now, now + Millis(ttlSecs))]
  }

  /** `DELETE ... WHERE expires_at <= NOW()`. */
  function DropExpiredRows(outbox: Outbox, now: int): Outbox {
    map jti | jti in outbox && now < outbox[jti].expiresAt :: outbox[jti]
  }

  /** `DELETE ... WHERE jti = ANY(flushed)`. */
  function DeleteRows(outbox: Outbox, flushed: set<Jti>): Outbox {
    map jti | jti in outbox && jti !in flushed :: outbox[jti]
  }

  /** `pending.retain(...)` with nothing flushed is `prune_pending`. */
  function RetainPending(pending: PendingMap, flushed: set<Jti>, now: int): PendingMap {
    map jti | jti in pending && jti !in flushed && EntryLive(pending[jti], now) :: pending[jti]
  }

  /** Time since the entry was made, none if the clock is behind it. */
  function Elapsed(entry: PendingEntry, now: int): int {
    if now < entry.addedAt then 0 else now - entry.addedAt
  }

  /** The pending map without the flushed jtis and without the entries whose ttl is over. */
  ghost predicate Kept(before: PendingMap, flushed: set<Jti>, now: int, after: PendingMap) {
    && (forall j :: j in after <==>
          j in before && j !in flushed && Elapsed(before[j], now) < 1000 * before[j].ttlSecs)
    && (forall j :: j in after ==> after[j] == before[j])
  }

  /** The jtis of the first `n` rows of a batch. */
  function BatchIds(batch: seq<(Jti, nat)>, n: nat): set<Jti>
    requires n <= |batch|
  {
    if n == 0 then {} else BatchIds(batch, n - 1) + {batch[n - 1].0}
  }

  /** Row `k` of the batch is an outbox row that did not come before. */
  predicate RowAt(outbox: Outbox, batch: seq<(Jti, nat)>, k: nat)
    requires k < |batch|
  {
    && batch[k].0 in outbox && batch[k].1 == outbox[batch[k].0].ttlSecs
    && batch[k].0 !in BatchIds(batch, k)
  }

  ghost predicate FromOutbox(outbox: Outbox, batch: seq<(Jti, nat)>) {
    forall k :: 0 <= k < |batch| ==> RowAt(outbox, batch, k)
  }

  /** Row `k` of the batch is no younger than any row after it or outside the batch. */
  ghost predicate OldestAt(outbox: Outbox, batch: seq<(Jti, nat)>, k: nat)
    requires k < |batch|
  {
    && RowAt(outbox, batch, k)
    && forall jti :: jti in outbox && jti !in BatchIds(batch, k) ==>
        outbox[batch[k].0].createdAt <= outbox[jti].createdAt
  }

  /** What `SELECT jti, ttl_secs ... ORDER BY created_at LIMIT 500` may return;
      rows with the same `created_at` come in any order. */
  ghost predicate OldestBatch(outbox: Outbox, batch: seq<(Jti, nat)>) {
    && |batch| == (if |outbox| < FLUSH_BATCH_SIZE then |outbox| else FLUSH_BATCH_SIZE)
    && FromOutbox(outbox, batch)
    && forall k :: 0 <= k < |batch| ==> OldestAt(outbox, batch, k)
  }

  /** A ttl computed at `at` and applied at any later instant reaches the deadline. */
  lemma TtlReachesDeadline(exp: int, at: int, later: int)
    requires at <= later
    ensures later + Millis(RevocationTtlSecs(exp, Timestamp(at))) >= Deadline(exp)
  {
    assert Millis(Timestamp(at)) <= at;
  }
}
