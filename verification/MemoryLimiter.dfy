/** `MemoryRateLimiter`: one map under one lock, pruned lazily and capped. */
module MemoryLimiter {

  import opened Prelude
  import opened RateWindow

  type Entries = map<Ip, Entry>

  const MAX_ENTRIES: nat := 100_000

  function At(entries: Entries, ip: Ip): Option<Entry> {
    if ip in entries then Some(entries[ip]) else None
  }

  /** `clean_expired` */
  function Cleaned(cfg: Config, entries: Entries, now: int): Entries {
    map ip | ip in entries && DurationSince(now, entries[ip].windowStart) < cfg.window :: entries[ip]
  }

  /** By this clock reading the window is not over; a clock behind its start counts as at it. */
  predicate Running(cfg: Config, entry: Entry, now: int) {
    (if now < entry.windowStart then 0 else now - entry.windowStart) < cfg.window
  }

  /** `evict_oldest_if_full`, ties broken by the map's own order. */
  ghost predicate Evicts(entries: Entries, victim: Option<Ip>) {
    match victim
    case None => |entries| < MAX_ENTRIES
    case Some(ip) =>
      && |entries| >= MAX_ENTRIES && ip in entries
      && forall other :: other in entries ==> entries[ip].windowStart <= entries[other].windowStart
  }

  function Without(entries: Entries, victim: Option<Ip>): Entries {
    if victim.Some? then entries - {victim.value} else entries
  }

  // --------------------------------------------------------------- the object

  class MemoryRateLimiter {
    const cfg: Config
    var entries: Entries

    ghost predicate Valid()
      reads this
    {
      |entries| <= MAX_ENTRIES
    }

    constructor (cfg: Config)
      ensures this.cfg == cfg && entries == map[] && Valid()
    {
      this.cfg := cfg;
      entries := map[];
    }

    /** Removes one entry with the smallest window start, and only at capacity. */
    method EvictOldestIfFull() returns (ghost victim: Option<Ip>)
      modifies this
      ensures Evicts(old(entries), victim) && entries == Without(old(entries), victim)
      ensures victim.None? ==> |old(entries)| < 100_000 && entries == old(entries)
      ensures victim.Some? ==>
                && |old(entries)| >= 100_000 && victim.value in old(entries) && entries == old(entries) - {victim.value}
                && forall ip :: ip in old(entries) ==>
                     old(entries)[victim.value].windowStart <= old(entries)[ip].windowStart
    {
      if |entries| < MAX_ENTRIES {
        return None;
      }
      assert entries.Keys != {};
      var oldest :| oldest in entries;
      var rest := entries.Keys - {oldest};
      while rest != {}
        invariant rest <= entries.Keys && entries == old(entries) && oldest in entries
        invariant forall ip :: ip in entries && ip !in rest ==> entries[oldest].windowStart <= entries[ip].windowStart
        decreases rest
      {
        var ip :| ip in rest;
        if entries[ip].windowStart < entries[oldest].windowStart {
          oldest := ip;
        }
        rest := rest - {ip};
      }
      victim := Some(oldest);
      entries := entries - {oldest};
    }

    method Check(ip: Ip, cleanAt: int, now: int) returns (allowed: bool)
      requires Valid()
      modifies this
      ensures Valid() && entries == Cleaned(cfg, old(entries), cleanAt)
      ensures forall x :: x in entries <==> x in old(entries) && Running(cfg, old(entries)[x], cleanAt)
      ensures forall x :: x in entries ==> entries[x] == old(entries)[x]
      ensures allowed == CheckAllowed(cfg, At(entries, ip), now)
    {
      CleanedIsSmaller(cfg, entries, cleanAt);
      entries := Cleaned(cfg, entries, cleanAt);
      if ip !in entries {
        return true;
      }
      allowed := WindowOver(cfg, entries[ip], now) || entries[ip].attempts < cfg.max;
    }

    /** Makes room only for a client not yet tracked. */
    method MakeRoom(ip: Ip, cleanAt: int) returns (ghost victim: Option<Ip>)
      requires Valid()
      modifies this
      ensures forall x :: x in old(entries) && Running(cfg, old(entries)[x], cleanAt) && victim != Some(x) ==>
                x in entries && entries[x] == old(entries)[x]
      ensures forall x :: x in entries ==>
                x in old(entries) && Running(cfg, old(entries)[x], cleanAt) && victim != Some(x)
      ensures victim.Some? ==> |old(entries)| >= 100_000
      ensures RoomMade(cfg, old(entries), ip, cleanAt, victim) &&
              entries == Roomy(cfg, old(entries), ip, cleanAt, victim)
      ensures |if ip in entries then entries else entries[ip := Entry(0, 0)]| <= MAX_ENTRIES
    {
      CleanedIsSmaller(cfg, entries, cleanAt);
      entries := Cleaned(cfg, entries, cleanAt);
      victim := None;
      if ip !in entries {
        victim := EvictOldestIfFull();
      }
    }

    method RecordAttempt(ip: Ip, cleanAt: int, now: int) returns (ghost victim: Option<Ip>)
      requires Valid()
      modifies this
      ensures Valid() && RoomMade(cfg, old(entries), ip, cleanAt, victim)
      ensures var room := Roomy(cfg, old(entries), ip, cleanAt, victim);
              entries == room[ip := Recorded(cfg, At(room, ip), now)]
    {
      victim := MakeRoom(ip, cleanAt);
      var entry := if ip in entries then entries[ip] else Entry(0, now);
      if WindowOver(cfg, entry, now) {
        entry := Entry(1, now);
      } else {
        entry := entry.(attempts := entry.attempts + 1);
      }
      UpdateSize(entries, ip, entry, Entry(0, 0));
      entries := entries[ip := entry];
    }

    method TryCheckAndRecord(ip: Ip, cleanAt: int, now: int) returns (allowed: bool, ghost victim: Option<Ip>)
      requires Valid()
      modifies this
      ensures Valid() && RoomMade(cfg, old(entries), ip, cleanAt, victim)
      ensures var room := Roomy(cfg, old(entries), ip, cleanAt, victim);
              && entries == room[ip := Tried(cfg, At(room, ip), now)]
              && allowed == TriedAllowed(cfg, At(room, ip), now)
    {
      victim := MakeRoom(ip, cleanAt);
      var entry := if ip in entries then entries[ip] else Entry(0, now);
      allowed := true;
      if WindowOver(cfg, entry, now) {
        entry := Entry(1, now);
      } else if entry.attempts < cfg.max {
        entry := entry.(attempts := entry.attempts + 1);
      } else {
        allowed := false;
      }
      UpdateSize(entries, ip, entry, Entry(0, 0));
      entries := entries[ip := entry];
    }

    method RemainingAttempts(ip: Ip, now: int) returns (left: nat)
      ensures left == Remaining(cfg, At(entries, ip), now)
    {
      if ip !in entries || WindowOver(cfg, entries[ip], now) {
        return cfg.max;
      }
      left := if entries[ip].attempts < cfg.max then cfg.max - entries[ip].attempts else 0;
    }

    method Reset(ip: Ip)
      requires Valid()
      modifies this
      ensures Valid() && entries == old(entries) - {ip}
    {
      RemovedIsSmaller(entries, ip);
      entries := entries - {ip};
    }
  }

  // ------------------------------------------------------------ size lemmas

  lemma CleanedIsSmaller(cfg: Config, entries: Entries, now: int)
    ensures |Cleaned(cfg, entries, now)| <= |entries|
  {
    SubsetSize(Cleaned(cfg, entries, now).Keys, entries.Keys);
  }

  lemma RemovedIsSmaller(entries: Entries, ip: Ip)
    ensures |entries - {ip}| <= |entries|
    ensures ip in entries ==> |entries - {ip}| == |entries| - 1
  {
    SubsetSize((entries - {ip}).Keys, entries.Keys);
    assert (entries - {ip}).Keys == entries.Keys - {ip};
  }

  lemma UpdateSize(entries: Entries, ip: Ip, a: Entry, b: Entry)
    ensures |entries[ip := a]| == |entries[ip := b]|
    ensures ip in entries ==> |entries[ip := a]| == |entries|
  {
    assert entries[ip := a].Keys == entries[ip := b].Keys;
    assert ip in entries ==> entries[ip := a].Keys == entries.Keys;
  }

  // -------------------------------------------------------- one call, as values

  ghost predicate RoomMade(cfg: Config, entries: Entries, ip: Ip, cleanAt: int, victim: Option<Ip>) {
    var cleaned := Cleaned(cfg, entries, cleanAt);
    if ip in cleaned then victim.None? else Evicts(cleaned, victim)
  }

  function Roomy(cfg: Config, entries: Entries, ip: Ip, cleanAt: int, victim: Option<Ip>): Entries {
    Without(Cleaned(cfg, entries, cleanAt), victim)
  }
}
