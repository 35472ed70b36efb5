/** `DurableRevocationBlacklist` as the object it is: methods that update the
    pending map in place and send statements to Redis and the outbox. Each
    backend outcome is a parameter; the clock may advance at every effect.
    The same effects, interleaved, are the steps of `RevocationProtocol`. */
module DurableBlacklist {

  import opened Prelude
  import opened RevocationStore

  class Clock {
    var now: int

    method Read() returns (t: int)
      modifies this
      ensures old(now) <= now == t
    {
      var elapsed :| 0 <= elapsed;
      now := now + elapsed;
      t := now;
    }
  }

  class RevocationKeys {
    var keys: Redis
  }

  class OutboxTable {
    var rows: Outbox
  }

  predicate WellTimed(outbox: Outbox, now: int) {
    forall jti :: jti in outbox ==>
      && outbox[jti].expiresAt == outbox[jti].createdAt + Millis(outbox[jti].ttlSecs)
      && outbox[jti].createdAt <= now
  }

  predicate Accepted(row: (Jti, nat), outcome: Outcome) {
    outcome.Succeeded? || row.1 == 0
  }

  /** Which of the first `n` batch rows the inner backend accepted; a zero ttl always is. */
  function Landed(batch: seq<(Jti, nat)>, flush: nat -> Outcome, n: nat): (ids: set<Jti>)
    requires n <= |batch|
    ensures ids <= BatchIds(batch, n)
    ensures (forall k: nat :: flush(k).Succeeded?) ==> ids == BatchIds(batch, n)
  {
    if n == 0 then {}
    else if Accepted(batch[n - 1], flush(n - 1)) then Landed(batch, flush, n - 1) + {batch[n - 1].0}
    else Landed(batch, flush, n - 1)
  }

  /** Each of these rows had no lifetime at all, or Redis keeps its key at least as long. */
  predicate OutlivedInRedis(ids: set<Jti>, rows: Outbox, keys: Redis) {
    forall jti :: jti in ids ==>
      jti in rows && (rows[jti].ttlSecs == 0 || (jti in keys && keys[jti] >= rows[jti].expiresAt))
  }

  /** The keys of all other jtis are as they were. */
  ghost predicate SameOutside(ids: set<Jti>, keys: Redis, keys': Redis) {
    forall jti :: jti !in ids ==> (jti in keys' <==> jti in keys) && (jti in keys ==> keys'[jti] == keys[jti])
  }

  /** Every row of `before` still live at `at` is unchanged in `after`, or Redis keeps its
      key at least as long; and `after` has no other rows. */
  ghost predicate NothingLost(before: Outbox, after: Outbox, keys: Redis, at: int) {
    && (forall jti :: jti in after ==> jti in before && after[jti] == before[jti])
    && (forall jti :: jti in before && jti !in after && at < before[jti].expiresAt ==>
          jti in keys && keys[jti] >= before[jti].expiresAt)
  }

  /** The two stores at some moment. */
  datatype Stores = Stores(now: int, rows: Outbox, keys: Redis)

  /** What one sweep does to the stores when every statement succeeds. */
  ghost predicate HealthySweep(before: Stores, after: Stores) {
    exists at, batch :: SweptBy(before, after, at, batch)
  }

  ghost predicate SweptBy(before: Stores, after: Stores, at: int, batch: seq<(Jti, nat)>) {
    && before.now <= at <= after.now
    && var live := DropExpiredRows(before.rows, at);
       var ids := BatchIds(batch, |batch|);
       && OldestBatch(live, batch) && after.rows == DeleteRows(live, ids)
       && OutlivedInRedis(ids, live, after.keys) && SameOutside(ids, before.keys, after.keys)
  }

  /** The backend took row `k` of the batch, for this jti. */
  predicate TakenAt(batch: seq<(Jti, nat)>, flush: nat -> Outcome, k: nat, jti: Jti)
    requires k < |batch|
  {
    batch[k].0 == jti && (flush(k).Succeeded? || batch[k].1 == 0)
  }

  lemma {:induction false} LandedIffTaken(batch: seq<(Jti, nat)>, flush: nat -> Outcome, n: nat, jti: Jti)
    requires n <= |batch|
    ensures jti in Landed(batch, flush, n) <==> exists k :: 0 <= k < n && TakenAt(batch, flush, k, jti)
  {
    if n > 0 {
      LandedIffTaken(batch, flush, n - 1, jti);
      assert TakenAt(batch, flush, n - 1, jti) <==>
             batch[n - 1].0 == jti && Accepted(batch[n - 1], flush(n - 1));
    }
  }

  ghost predicate NoneExpired(rows: Outbox, at: int) {
    forall jti :: jti in rows ==> at < rows[jti].expiresAt
  }

  /** The rows left are those that were there, had not expired and were not taken by the backend. */
  ghost predicate ExactlyLeft(
    before: Outbox, at: int, batch: seq<(Jti, nat)>, flush: nat -> Outcome, after: Outbox)
  {
    forall jti :: jti in after <==>
      && jti in before && at < before[jti].expiresAt
      && !exists k :: 0 <= k < |batch| && TakenAt(batch, flush, k, jti)
  }

  lemma LiveRowsUnexpired(before: Outbox, at: int, after: Outbox)
    ensures after.Keys <= DropExpiredRows(before, at).Keys
            && (forall jti :: jti in after ==> jti in before && after[jti] == before[jti]) ==>
              NoneExpired(after, at)
    ensures NoneExpired(DropExpiredRows(before, at), at)
  {
  }

  lemma SweepLeavesExactly(
    before: Outbox, at: int, batch: seq<(Jti, nat)>, flush: nat -> Outcome, after: Outbox)
    requires after == DeleteRows(DropExpiredRows(before, at), Landed(batch, flush, |batch|))
    ensures ExactlyLeft(before, at, batch, flush, after)
  {
    forall jti ensures jti in after <==>
        jti in before && at < before[jti].expiresAt
        && !exists k :: 0 <= k < |batch| && TakenAt(batch, flush, k, jti)
    {
      LandedIffTaken(batch, flush, |batch|, jti);
    }
  }

  class DurableRevocationBlacklist {
    const clock: Clock
    const redis: RevocationKeys
    const table: OutboxTable
    var pending: PendingMap

    constructor (clock: Clock, redis: RevocationKeys, table: OutboxTable)
      ensures this.clock == clock && this.redis == redis && this.table == table
      ensures pending == map[]
    {
      this.clock := clock;
      this.redis := redis;
      this.table := table;
      pending := map[];
    }

    /** `RedisAccessTokenBlacklist::revoke`. */
    method InnerRevoke(jti: Jti, ttlSecs: nat, outcome: Outcome) returns (ok: bool)
      modifies clock, redis
      ensures old(clock.now) <= clock.now
      ensures ok <==> ttlSecs == 0 || outcome.Succeeded?
      ensures redis.keys == if outcome == Failed(false) || ttlSecs == 0 then old(redis.keys)
                            else old(redis.keys)[jti := clock.now + 1000 * ttlSecs]
    {
      if ttlSecs == 0 {
        return true;
      }
      var now := clock.Read();
      if outcome != Failed(false) {
        redis.keys := SetKey(redis.keys, jti, ttlSecs, now);
      }
      ok := outcome.Succeeded?;
    }

    /** An acknowledged revocation with time left is live in Redis, or journaled and
        live in this instance's pending map; a refused one leaves `pending` alone. */
    method Revoke(jti: Jti, ttlSecs: nat, set_: Outcome, insert: Outcome)
      returns (ok: bool, ghost setAt: int, ghost journaledAt: int)
      modifies this, clock, redis, table
      ensures old(clock.now) <= clock.now
      ensures ok <==> ttlSecs == 0 || set_.Succeeded? || insert.Succeeded?
      ensures ok && ttlSecs > 0 && set_.Succeeded? ==> jti in redis.keys
      ensures ok && ttlSecs > 0 && !set_.Succeeded? ==>
              jti in table.rows && jti in pending && EntryLive(pending[jti], clock.now)
      ensures old(clock.now) <= setAt <= journaledAt <= clock.now
      ensures redis.keys == if set_ == Failed(false) || ttlSecs == 0 then old(redis.keys)
                            else old(redis.keys)[jti := setAt + 1000 * ttlSecs]
      ensures jti in old(table.rows) ==> table.rows == old(table.rows)
      ensures jti !in old(table.rows) ==>
                table.rows == if ttlSecs == 0 || set_.Succeeded? || insert == Failed(false) then old(table.rows)
                              else old(table.rows)[jti := Row(ttlSecs, journaledAt, journaledAt + 1000 * ttlSecs)]
      ensures pending == if ttlSecs == 0 || set_.Succeeded? || !insert.Succeeded? then old(pending)
                         else old(pending)[jti := PendingEntry(clock.now, ttlSecs)]
    {
      ok := InnerRevoke(jti, ttlSecs, set_);
      setAt, journaledAt := clock.now, clock.now;
      if ok {
        return;
      }
      var now := clock.Read();
      journaledAt := now;
      if insert != Failed(false) {
        table.rows := JournalRow(table.rows, jti, ttlSecs, now);
      }
      if !insert.Succeeded? {
        return;
      }
      now := clock.Read();
      pending := pending[jti := PendingEntry(now, ttlSecs)];
      ok := true;
    }

    /** The pending map answers first; otherwise the backend decides. Only an entry
        already expired is forgotten. */
    method IsRevoked(jti: Jti, exists_: Outcome) returns (verdict: Verdict)
      modifies this, clock
      ensures old(clock.now) <= clock.now
      ensures jti in old(pending) && Elapsed(old(pending)[jti], clock.now) < 1000 * old(pending)[jti].ttlSecs ==>
                verdict == Revoked
      ensures verdict == NotRevoked ==> exists_.Succeeded? && !(jti in redis.keys && clock.now < redis.keys[jti])
      ensures verdict == Revoked ==>
                || (exists_.Succeeded? && jti in redis.keys && clock.now < redis.keys[jti])
                || (jti in old(pending)
                    && Elapsed(old(pending)[jti], old(clock.now)) < 1000 * old(pending)[jti].ttlSecs)
      ensures verdict == BackendError ==> !exists_.Succeeded?
      ensures jti in old(pending) && Elapsed(old(pending)[jti], old(clock.now)) >= 1000 * old(pending)[jti].ttlSecs ==>
                jti !in pending
      ensures pending == old(pending)
              || (pending == old(pending) - {jti} && jti in old(pending)
                  && Elapsed(old(pending)[jti], clock.now) >= 1000 * old(pending)[jti].ttlSecs)
    {
      var now := clock.Read();
      if jti in pending {
        if EntryLive(pending[jti], now) {
          return Revoked;
        }
        pending := pending - {jti};
      }
      now := clock.Read();
      if !exists_.Succeeded? {
        return BackendError;
      }
      verdict := if KeyLive(redis.keys, jti, now) then Revoked else NotRevoked;
    }

    method PendingCount() returns (count: nat)
      modifies this, clock
      ensures Kept(old(pending), {}, clock.now, pending)
      ensures count == |pending|
    {
      var now := clock.Read();
      pending := RetainPending(pending, {}, now);
      count := |pending|;
    }

    /** One sweep, undisturbed. `select` is the database's answer to the batch query, `at` the
        moment of the expiry DELETE. On every path no row live then is lost: it is unchanged in the
        outbox, or Redis keeps it at least as long as the row would have; and no key outside the
        batch changes. A sweep that returns leaves exactly the batch rows the backend refused, and
        returns how many they are; with all statements succeeding it is a healthy sweep. */
    method FlushPending(
      drop: Outcome, select: Outbox -> Option<seq<(Jti, nat)>>, flush: nat -> Outcome, delete: Outcome)
      returns (r: Option<nat>, ghost at: int, ghost batch: seq<(Jti, nat)>)
      requires WellTimed(table.rows, clock.now)
      requires forall rows :: select(rows).Some? ==> OldestBatch(rows, select(rows).value)
      modifies this, clock, redis, table
      ensures old(clock.now) <= at <= clock.now && WellTimed(table.rows, clock.now)
      ensures var live := DropExpiredRows(old(table.rows), at);
              var landed := Landed(batch, flush, |batch|);
              && batch == (if drop.Succeeded? && select(live).Some? then select(live).value else [])
              && (r.Some? <==> drop.Succeeded? && select(live).Some? && (landed == {} || delete.Succeeded?))
              && (r.Some? ==> table.rows == DeleteRows(live, landed)
                              && r.value == |BatchIds(batch, |batch|) * table.rows.Keys|)
              && (if r.Some? && landed != {} then Kept(old(pending), landed, clock.now, pending)
                  else pending == old(pending))
      ensures |batch| <= 500
      ensures drop != Failed(false) ==> NoneExpired(table.rows, at)
      ensures r.Some? ==> ExactlyLeft(old(table.rows), at, batch, flush, table.rows)
      ensures NothingLost(old(table.rows), table.rows, redis.keys, at)
      ensures SameOutside(BatchIds(batch, |batch|), old(redis.keys), redis.keys)
      ensures r.Some? && (forall k: nat :: flush(k).Succeeded?) ==>
                && r.value == 0
                && HealthySweep(Stores(old(clock.now), old(table.rows), old(redis.keys)),
                                Stores(clock.now, table.rows, redis.keys))
    {
      batch := [];
      var now := clock.Read();
      at := now;
      DroppingLosesNothing(table.rows, redis.keys, now);
      LiveRowsUnexpired(table.rows, now, table.rows);
      if drop != Failed(false) {
        table.rows := DropExpiredRows(table.rows, now);
      }
      if !drop.Succeeded? {
        return None, at, [];
      }
      ghost var live := table.rows;
      var answer := select(table.rows);
      if answer.None? {
        return None, at, [];
      }
      batch := answer.value;
      r := FlushBatch(answer.value, flush, delete);
      SweepLosesNothing(old(table.rows), now, Landed(batch, flush, |batch|), table.rows, redis.keys);
      LiveRowsUnexpired(old(table.rows), at, table.rows);
      if r.Some? {
        SweepLeavesExactly(old(table.rows), at, batch, flush, table.rows);
      }
      if r.Some? && forall k: nat :: flush(k).Succeeded? {
        AllOkIsHealthy(Stores(old(clock.now), old(table.rows), old(redis.keys)),
                       Stores(clock.now, table.rows, redis.keys), at, batch, flush);
      }
    }

    /** One sweep in which every statement succeeds. */
    method FlushHealthy(select: Outbox -> seq<(Jti, nat)>)
      requires WellTimed(table.rows, clock.now)
      requires forall rows :: OldestBatch(rows, select(rows))
      modifies this, clock, redis, table
      ensures WellTimed(table.rows, clock.now)
      ensures HealthySweep(Stores(old(clock.now), old(table.rows), old(redis.keys)),
                           Stores(clock.now, table.rows, redis.keys))
    {
      var r, at, batch := FlushPending(Succeeded, rows => Some(select(rows)), _ => Succeeded, Succeeded);
    }

    /** The flush worker while both backends are healthy and nothing new is journaled: every sweep
        takes 500 rows off the backlog, and every row still unexpired is in the outbox or, for at
        least its lifetime, in Redis. */
    method FlushWhileHealthy(sweeps: nat, select: Outbox -> seq<(Jti, nat)>)
      requires WellTimed(table.rows, clock.now)
      requires forall rows :: OldestBatch(rows, select(rows))
      modifies this, clock, redis, table
      ensures NothingLost(old(table.rows), table.rows, redis.keys, clock.now)
      ensures |old(table.rows)| <= 500 * sweeps ==> table.rows == map[]
    {
      ghost var chain := [Stores(clock.now, table.rows, redis.keys)];
      for k := 0 to sweeps
        invariant |chain| == k + 1 && HealthySweeps(chain) && WellTimed(table.rows, clock.now)
        invariant chain[0] == Stores(old(clock.now), old(table.rows), old(redis.keys))
        invariant chain[k] == Stores(clock.now, table.rows, redis.keys)
      {
        FlushHealthy(select);
        ghost var next := Stores(clock.now, table.rows, redis.keys);
        OneMoreSweep(chain, next);
        chain := chain + [next];
      }
      BacklogDrains(chain);
    }

    /** Everything after the SELECT: the loop, the DELETE and the retain. */
    method FlushBatch(rows: seq<(Jti, nat)>, flush: nat -> Outcome, delete: Outcome) returns (r: Option<nat>)
      requires WellTimed(table.rows, clock.now) && FromOutbox(table.rows, rows)
      modifies this, clock, redis, table
      ensures old(clock.now) <= clock.now
      ensures var landed := Landed(rows, flush, |rows|);
              && (r.Some? <==> landed == {} || delete.Succeeded?)
              && OutlivedInRedis(landed, old(table.rows), redis.keys)
              && SameOutside(BatchIds(rows, |rows|), old(redis.keys), redis.keys)
              && (table.rows == old(table.rows) || table.rows == DeleteRows(old(table.rows), landed))
              && (r.Some? ==> table.rows == DeleteRows(old(table.rows), landed)
                              && r.value == |BatchIds(rows, |rows|) * table.rows.Keys|)
              && (if r.Some? && landed != {} then Kept(old(pending), landed, clock.now, pending)
                  else pending == old(pending))
    {
      var flushed, remaining := FlushRows(rows, flush);
      RefusedCount(table.rows, rows, flush);
      if flushed == {} {
        assert table.rows == DeleteRows(table.rows, {});
        return Some(remaining);
      }
      var deleted := FinishSweep(flushed, delete);
      r := if deleted then Some(remaining) else None;
    }

    /** The DELETE of the flushed rows, then the retain over the pending map. */
    method FinishSweep(flushed: set<Jti>, delete: Outcome) returns (ok: bool)
      modifies this, clock, table
      ensures old(clock.now) <= clock.now && ok == delete.Succeeded?
      ensures table.rows == if delete == Failed(false) then old(table.rows) else DeleteRows(old(table.rows), flushed)
      ensures if ok then Kept(old(pending), flushed, clock.now, pending) else pending == old(pending)
    {
      if delete != Failed(false) {
        table.rows := DeleteRows(table.rows, flushed);
      }
      if !delete.Succeeded? {
        return false;
      }
      var now := clock.Read();
      pending := RetainPending(pending, flushed, now);
      ok := true;
    }

    /** The flush loop: every row that landed is in Redis for at least the row's lifetime. */
    method FlushRows(rows: seq<(Jti, nat)>, flush: nat -> Outcome) returns (flushed: set<Jti>, remaining: nat)
      requires WellTimed(table.rows, clock.now) && FromOutbox(table.rows, rows)
      modifies clock, redis
      ensures old(clock.now) <= clock.now
      ensures flushed == Landed(rows, flush, |rows|) && remaining == |rows| - |flushed|
      ensures OutlivedInRedis(flushed, table.rows, redis.keys)
      ensures SameOutside(BatchIds(rows, |rows|), old(redis.keys), redis.keys)
    {
      flushed, remaining := {}, 0;
      for i := 0 to |rows|
        invariant old(clock.now) <= clock.now
        invariant flushed == Landed(rows, flush, i) && remaining == i - |flushed|
        invariant OutlivedInRedis(flushed, table.rows, redis.keys)
        invariant SameOutside(BatchIds(rows, i), old(redis.keys), redis.keys)
      {
        var (jti, ttlSecs) := rows[i];
        assert RowAt(table.rows, rows, i);
        var ok := InnerRevoke(jti, ttlSecs, flush(i));
        if ok {
          flushed := flushed + {jti};
        } else {
          remaining := remaining + 1;
        }
      }
    }
  }

  lemma DroppingLosesNothing(before: Outbox, keys: Redis, at: int)
    ensures NothingLost(before, DropExpiredRows(before, at), keys, at) && NothingLost(before, before, keys, at)
  {
  }

  /** Whether or not the DELETE of the flushed rows took effect. */
  lemma SweepLosesNothing(before: Outbox, at: int, flushed: set<Jti>, after: Outbox, keys: Redis)
    requires WellTimed(before, at) && OutlivedInRedis(flushed, DropExpiredRows(before, at), keys)
    requires after == DropExpiredRows(before, at) || after == DeleteRows(DropExpiredRows(before, at), flushed)
    ensures NothingLost(before, after, keys, at)
  {
  }

  // ------------------------------------------------------------ batch facts

  lemma {:induction false} BatchIdsCount(outbox: Outbox, batch: seq<(Jti, nat)>, n: nat)
    requires FromOutbox(outbox, batch) && n <= |batch|
    ensures |BatchIds(batch, n)| == n && BatchIds(batch, n) <= outbox.Keys
  {
    if n > 0 {
      BatchIdsCount(outbox, batch, n - 1);
      assert RowAt(outbox, batch, n - 1);
    }
  }

  lemma RefusedCount(live: Outbox, batch: seq<(Jti, nat)>, flush: nat -> Outcome)
    requires FromOutbox(live, batch)
    ensures var landed := Landed(batch, flush, |batch|);
            |BatchIds(batch, |batch|) * DeleteRows(live, landed).Keys| == |batch| - |landed|
  {
    var landed := Landed(batch, flush, |batch|);
    var ids := BatchIds(batch, |batch|);
    BatchIdsCount(live, batch, |batch|);
    assert ids * DeleteRows(live, landed).Keys == ids - landed;
    assert ids == (ids - landed) + landed;
  }

  lemma OldestRowExists(rows: Outbox) returns (oldest: Jti)
    requires rows != map[]
    ensures oldest in rows && forall jti :: jti in rows ==> rows[oldest].createdAt <= rows[jti].createdAt
    decreases |rows|
  {
    var some :| some in rows;
    oldest := some;
    var rest := rows - {some};
    assert forall jti :: jti in rows ==> jti == some || jti in rest;
    if rest != map[] {
      assert rest.Keys == rows.Keys - {some};
      var other := OldestRowExists(rest);
      if rows[other].createdAt < rows[some].createdAt {
        oldest := other;
      }
    }
  }

  lemma {:induction false} BatchIdsPrefix(a: seq<(Jti, nat)>, b: seq<(Jti, nat)>, n: nat)
    requires n <= |a| && a <= b
    ensures BatchIds(a, n) == BatchIds(b, n)
  {
    if n > 0 { BatchIdsPrefix(a, b, n - 1); }
  }

  /** Appending the oldest row not yet taken. */
  lemma TakeOldest(outbox: Outbox, batch: seq<(Jti, nat)>, oldest: Jti)
    requires FromOutbox(outbox, batch) && forall k :: 0 <= k < |batch| ==> OldestAt(outbox, batch, k)
    requires oldest in outbox && oldest !in BatchIds(batch, |batch|)
    requires forall jti :: jti in outbox && jti !in BatchIds(batch, |batch|) ==>
             outbox[oldest].createdAt <= outbox[jti].createdAt
    ensures var longer := batch + [(oldest, outbox[oldest].ttlSecs)];
            FromOutbox(outbox, longer) && forall k :: 0 <= k < |longer| ==> OldestAt(outbox, longer, k)
  {
    var longer := batch + [(oldest, outbox[oldest].ttlSecs)];
    forall k | 0 <= k < |longer| ensures OldestAt(outbox, longer, k) {
      BatchIdsPrefix(batch, longer, k);
      if k < |batch| {
        assert OldestAt(outbox, batch, k);
      }
    }
    forall k | 0 <= k < |longer| ensures RowAt(outbox, longer, k) {
      assert OldestAt(outbox, longer, k);
    }
  }

  lemma NextOldest(outbox: Outbox, batch: seq<(Jti, nat)>) returns (oldest: Jti)
    requires FromOutbox(outbox, batch) && |batch| < |outbox|
    ensures oldest in outbox && oldest !in BatchIds(batch, |batch|)
    ensures forall jti :: jti in outbox && jti !in BatchIds(batch, |batch|) ==>
            outbox[oldest].createdAt <= outbox[jti].createdAt
  {
    var ids := BatchIds(batch, |batch|);
    BatchIdsCount(outbox, batch, |batch|);
    var rest := outbox - ids;
    assert rest.Keys == outbox.Keys - ids;
    assert |outbox.Keys - ids| == |outbox.Keys| - |ids|;
    oldest := OldestRowExists(rest);
    forall jti | jti in outbox && jti !in ids ensures outbox[oldest].createdAt <= outbox[jti].createdAt {
      assert jti in rest;
    }
  }

  lemma {:induction false} OldestRows(outbox: Outbox, n: nat) returns (batch: seq<(Jti, nat)>)
    requires n <= |outbox|
    ensures |batch| == n && FromOutbox(outbox, batch)
    ensures forall k :: 0 <= k < n ==> OldestAt(outbox, batch, k)
  {
    batch := [];
    if n > 0 {
      var shorter := OldestRows(outbox, n - 1);
      var oldest := NextOldest(outbox, shorter);
      TakeOldest(outbox, shorter, oldest);
      batch := shorter + [(oldest, outbox[oldest].ttlSecs)];
    }
  }

  /** The batch query always has an answer, so a healthy sweep is possible on any outbox. */
  lemma BatchExists(outbox: Outbox)
    ensures exists batch :: OldestBatch(outbox, batch)
  {
    var batch := OldestRows(outbox, if |outbox| < FLUSH_BATCH_SIZE then |outbox| else FLUSH_BATCH_SIZE);
    assert OldestBatch(outbox, batch);
  }

  // ------------------------------------------------------------ convergence

  /** When every statement succeeds a sweep is a healthy sweep. */
  lemma AllOkIsHealthy(before: Stores, after: Stores, at: int, batch: seq<(Jti, nat)>, flush: nat -> Outcome)
    requires before.now <= at <= after.now && forall k: nat :: flush(k).Succeeded?
    requires OldestBatch(DropExpiredRows(before.rows, at), batch)
    requires after.rows == DeleteRows(DropExpiredRows(before.rows, at), Landed(batch, flush, |batch|))
    requires OutlivedInRedis(Landed(batch, flush, |batch|), DropExpiredRows(before.rows, at), after.keys)
    requires SameOutside(BatchIds(batch, |batch|), before.keys, after.keys)
    ensures HealthySweep(before, after)
    ensures BatchIds(batch, |batch|) * after.rows.Keys == {}
  {
    assert SweptBy(before, after, at, batch);
  }

  lemma HealthySweepShrinks(before: Stores, after: Stores)
    requires HealthySweep(before, after)
    ensures |after.rows| <= if |before.rows| <= 500 then 0 else |before.rows| - 500
  {
    var at, batch :| SweptBy(before, after, at, batch);
    var live := DropExpiredRows(before.rows, at);
    var ids := BatchIds(batch, |batch|);
    BatchIdsCount(live, batch, |batch|);
    assert live.Keys <= before.rows.Keys && |live| <= |before.rows| by {
      assert before.rows.Keys == (before.rows.Keys - live.Keys) + live.Keys;
    }
    assert live.Keys == after.rows.Keys + ids && after.rows.Keys !! ids;
    assert |live.Keys| == |after.rows.Keys| + |ids|;
  }

  /** A healthy sweep moves rows to Redis and disturbs none that are there already. */
  lemma HealthySweepKeeps(first: Outbox, before: Stores, after: Stores)
    requires WellTimed(first, before.now) && NothingLost(first, before.rows, before.keys, before.now)
    requires HealthySweep(before, after)
    ensures before.now <= after.now && NothingLost(first, after.rows, after.keys, after.now)
  {
    var at, batch :| SweptBy(before, after, at, batch);
    var live := DropExpiredRows(before.rows, at);
    var ids := BatchIds(batch, |batch|);
    BatchIdsCount(live, batch, |batch|);
    forall jti | jti in first && jti !in after.rows && after.now < first[jti].expiresAt
      ensures jti in after.keys && after.keys[jti] >= first[jti].expiresAt
    {
      assert jti in ids || jti !in before.rows;
    }
  }

  ghost predicate HealthySweeps(chain: seq<Stores>) {
    forall k :: 0 <= k < |chain| - 1 ==> HealthySweep(chain[k], chain[k + 1])
  }

  lemma OneMoreSweep(chain: seq<Stores>, next: Stores)
    requires chain != [] && HealthySweeps(chain) && HealthySweep(chain[|chain| - 1], next)
    ensures HealthySweeps(chain + [next])
  {
  }

  /** With everything healthy and nothing new journaled, n rows are gone from the outbox within
      ceil(n / 500) sweeps, and every one of them still unexpired is in Redis for its lifetime. */
  lemma {:induction false} BacklogDrains(chain: seq<Stores>)
    requires |chain| > 0 && WellTimed(chain[0].rows, chain[0].now) && HealthySweeps(chain)
    ensures var n, sweeps, last := |chain[0].rows|, |chain| - 1, chain[|chain| - 1];
            && chain[0].now <= last.now
            && |last.rows| <= (if n <= 500 * sweeps then 0 else n - 500 * sweeps)
            && NothingLost(chain[0].rows, last.rows, last.keys, last.now)
            && (n <= 500 * sweeps ==>
                  && last.rows == map[]
                  && forall jti :: jti in chain[0].rows && last.now < chain[0].rows[jti].expiresAt ==>
                       jti in last.keys && last.keys[jti] >= chain[0].rows[jti].expiresAt)
  {
    if |chain| > 1 {
      var k := |chain| - 2;
      BacklogDrains(chain[..k + 1]);
      HealthySweepShrinks(chain[k], chain[k + 1]);
      HealthySweepKeeps(chain[0].rows, chain[k], chain[k + 1]);
    }
  }
}
