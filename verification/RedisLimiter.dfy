/** `RedisRateLimiter`: a counter shared through Redis, with a per-instance
    in-memory shadow that decides whenever Redis does not answer. */
module RedisLimiter {

  import opened Prelude
  import opened RateWindow
  import opened MemoryLimiter

  /** A Redis counter; without an expiry instant it would live forever. */
  datatype Key = Key(count: nat, expiresAt: Option<int>)

  type Keys = map<Ip, Key>

  predicate Live(keys: Keys, ip: Ip, now: int) {
    ip in keys && (keys[ip].expiresAt.Some? ==> now < keys[ip].expiresAt.value)
  }

  /** `INCR` keeps the expiry of a live key and creates a missing one without any. */
  function Incr(keys: Keys, ip: Ip, now: int): Keys {
    if Live(keys, ip, now) then keys[ip := keys[ip].(count := keys[ip].count + 1)] else keys[ip := Key(1, None)]
  }

  function Expire(keys: Keys, ip: Ip, now: int, window: nat): Keys
    requires ip in keys
  {
    keys[ip := keys[ip].(expiresAt := Some(now + window))]
  }

  /** Both Lua scripts: increment, and set the expiry on the first increment. */
  function Script(cfg: Config, keys: Keys, ip: Ip, now: int): Keys {
    var incremented := Incr(keys, ip, now);
    if incremented[ip].count == 1 then Expire(incremented, ip, now, cfg.window) else incremented
  }

  function ScriptAllows(cfg: Config, keys: Keys, ip: Ip, now: int): bool {
    Script(cfg, keys, ip, now)[ip].count <= cfg.max
  }

  ghost predicate AllExpire(keys: Keys) {
    forall ip :: ip in keys ==> keys[ip].count >= 1 && keys[ip].expiresAt.Some?
  }

  /** No counter key ever exists without an expiry. */
  lemma ScriptKeepsExpiry(cfg: Config, keys: Keys, ip: Ip, now: int)
    requires AllExpire(keys)
    ensures AllExpire(Script(cfg, keys, ip, now))
  {
  }

  // --------------------------------------------------------------- the object

  class CounterKeys {
    var keys: Keys
  }

  class RedisRateLimiter {
    const cfg: Config
    const redis: CounterKeys
    const shadow: MemoryRateLimiter
    var errorCount: nat

    constructor (cfg: Config, redis: CounterKeys)
      ensures this.cfg == cfg && this.redis == redis && fresh(shadow)
      ensures shadow.cfg == cfg && shadow.entries == map[] && shadow.Valid() && errorCount == 0
    {
      this.cfg := cfg;
      this.redis := redis;
      shadow := new MemoryRateLimiter(cfg);
      errorCount := 0;
    }

    /** Redis decides if it answers; otherwise this instance's shadow does, at a later time. */
    method TryCheckAndRecord(ip: Ip, outcome: Outcome, at: int, cleanAt: int, now: int)
      returns (allowed: bool, ghost victim: Option<Ip>)
      requires shadow.Valid() && shadow.cfg == cfg
      modifies this, redis, shadow
      ensures shadow.Valid()
      ensures redis.keys == if outcome == Failed(false) then old(redis.keys) else Script(cfg, old(redis.keys), ip, at)
      ensures outcome.Succeeded? ==>
                && allowed == ScriptAllows(cfg, old(redis.keys), ip, at)
                && shadow.entries == old(shadow.entries) && errorCount == old(errorCount)
      ensures outcome.Failed? ==>
                && RoomMade(cfg, old(shadow.entries), ip, cleanAt, victim) && errorCount == old(errorCount) + 1
                && var room := Roomy(cfg, old(shadow.entries), ip, cleanAt, victim);
                   && shadow.entries == room[ip := Tried(cfg, At(room, ip), now)]
                   && allowed == TriedAllowed(cfg, At(room, ip), now)
    {
      victim := None;
      allowed := ScriptAllows(cfg, redis.keys, ip, at);
      if outcome != Failed(false) {
        redis.keys := Script(cfg, redis.keys, ip, at);
      }
      if outcome.Failed? {
        errorCount := errorCount + 1;
        allowed, victim := shadow.TryCheckAndRecord(ip, cleanAt, now);
      }
    }

    method Check(ip: Ip, outcome: Outcome, at: int, cleanAt: int, now: int) returns (allowed: bool)
      requires shadow.Valid() && shadow.cfg == cfg
      modifies this, shadow
      ensures shadow.Valid() && redis.keys == old(redis.keys)
      ensures errorCount == old(errorCount) + if outcome.Succeeded? then 0 else 1
      ensures outcome.Succeeded? ==>
                && allowed == (Live(redis.keys, ip, at) ==> redis.keys[ip].count < cfg.max)
                && shadow.entries == old(shadow.entries)
      ensures outcome.Failed? ==>
                && shadow.entries == Cleaned(cfg, old(shadow.entries), cleanAt)
                && allowed == CheckAllowed(cfg, At(shadow.entries, ip), now)
    {
      if outcome.Succeeded? {
        return if Live(redis.keys, ip, at) then redis.keys[ip].count < cfg.max else true;
      }
      errorCount := errorCount + 1;
      allowed := shadow.Check(ip, cleanAt, now);
    }

    method RecordAttempt(ip: Ip, outcome: Outcome, at: int, cleanAt: int, now: int) returns (ghost victim: Option<Ip>)
      requires shadow.Valid() && shadow.cfg == cfg
      modifies this, redis, shadow
      ensures shadow.Valid()
      ensures errorCount == old(errorCount) + if outcome.Succeeded? then 0 else 1
      ensures redis.keys == if outcome == Failed(false) then old(redis.keys) else Script(cfg, old(redis.keys), ip, at)
      ensures outcome.Succeeded? ==> shadow.entries == old(shadow.entries)
      ensures outcome.Failed? ==>
                && RoomMade(cfg, old(shadow.entries), ip, cleanAt, victim)
                && var room := Roomy(cfg, old(shadow.entries), ip, cleanAt, victim);
                   shadow.entries == room[ip := Recorded(cfg, At(room, ip), now)]
    {
      victim := None;
      if outcome != Failed(false) {
        redis.keys := Script(cfg, redis.keys, ip, at);
      }
      if outcome.Failed? {
        errorCount := errorCount + 1;
        victim := shadow.RecordAttempt(ip, cleanAt, now);
      }
    }

    method RemainingAttempts(ip: Ip, outcome: Outcome, at: int, now: int) returns (left: nat)
      requires shadow.cfg == cfg
      modifies this
      ensures shadow.entries == old(shadow.entries) && redis.keys == old(redis.keys)
      ensures errorCount == old(errorCount) + if outcome.Succeeded? then 0 else 1
      ensures outcome.Succeeded? && !Live(redis.keys, ip, at) ==> left == cfg.max
      ensures outcome.Succeeded? && Live(redis.keys, ip, at) ==>
                left == if redis.keys[ip].count < cfg.max then cfg.max - redis.keys[ip].count else 0
      ensures outcome.Failed? ==> left == Remaining(cfg, At(shadow.entries, ip), now)
    {
      if outcome.Failed? {
        errorCount := errorCount + 1;
        left := shadow.RemainingAttempts(ip, now);
        return;
      }
      if !Live(redis.keys, ip, at) {
        return cfg.max;
      }
      left := if redis.keys[ip].count < cfg.max then cfg.max - redis.keys[ip].count else 0;
    }

    /** The local shadow is cleared whatever Redis does; the shared counter only if it answers
        or the unanswered command still lands. */
    method Reset(ip: Ip, outcome: Outcome)
      requires shadow.Valid()
      modifies this, redis, shadow
      ensures shadow.Valid() && shadow.entries == old(shadow.entries) - {ip}
      ensures redis.keys == if outcome == Failed(false) then old(redis.keys) else old(redis.keys) - {ip}
      ensures errorCount == old(errorCount) + if outcome.Succeeded? then 0 else 1
    {
      if outcome != Failed(false) {
        redis.keys := redis.keys - {ip};
      }
      if outcome.Failed? {
        errorCount := errorCount + 1;
      }
      shadow.Reset(ip);
    }
  }

  // -------------------------------- the script is the same window, seen shared

  /** A live counter as a window entry: attempts beyond the budget do not show. */
  function AsEntry(cfg: Config, key: Key): Entry
    requires key.expiresAt.Some?
  {
    Entry(if key.count < cfg.max then key.count else cfg.max, key.expiresAt.value - cfg.window)
  }

  function Seen(cfg: Config, keys: Keys, ip: Ip, now: int): Option<Entry> {
    if Live(keys, ip, now) && keys[ip].expiresAt.Some? then Some(AsEntry(cfg, keys[ip])) else None
  }

  /** Executing the script is trying the window: a key that expired is a window that is over. */
  lemma ScriptIsTried(cfg: Config, keys: Keys, ip: Ip, last: Option<Entry>, before: int, now: int)
    requires cfg.max >= 1 && cfg.window > 0 && AllExpire(keys) && before <= now
    requires Agrees(cfg, Seen(cfg, keys, ip, before), last, before)
    requires last.Some? ==> last.value.windowStart <= before
    ensures Seen(cfg, Script(cfg, keys, ip, now), ip, now) == Some(Tried(cfg, last, now))
    ensures ScriptAllows(cfg, keys, ip, now) == TriedAllowed(cfg, last, now)
  {
  }

  /** What `check` and `remaining_attempts` read off the counter is what the script would decide next. */
  lemma CounterForetellsScript(cfg: Config, keys: Keys, ip: Ip, now: int)
    requires cfg.max >= 1 && cfg.window > 0 && AllExpire(keys)
    ensures ScriptAllows(cfg, keys, ip, now) <==> (Live(keys, ip, now) ==> keys[ip].count < cfg.max)
    ensures Live(keys, ip, now) <==> ip in keys && now < keys[ip].expiresAt.value
    ensures Script(cfg, keys, ip, now) ==
            keys[ip := if Live(keys, ip, now) then Key(keys[ip].count + 1, keys[ip].expiresAt)
                       else Key(1, Some(now + cfg.window))]
  {
  }

  lemma SeenLater(cfg: Config, keys: Keys, ip: Ip, last: Option<Entry>, before: int, now: int)
    requires AllExpire(keys) && before <= now && Agrees(cfg, Seen(cfg, keys, ip, before), last, before)
    requires last.Some? ==> last.value.windowStart <= before
    ensures Agrees(cfg, Seen(cfg, keys, ip, now), last, now)
  {
  }
}
