/** The fixed-window counter behind both rate limiters, for one client, and the
    bound it gives over any interval of one window's length. */
module RateWindow {

  import opened Prelude

  /** `window` in clock ticks. */
  datatype Config = Config(max: nat, window: nat)

  datatype Entry = Entry(attempts: nat, windowStart: int)

  predicate WindowOver(cfg: Config, entry: Entry, now: int) {
    DurationSince(now, entry.windowStart) >= cfg.window
  }

  /** The entry `entry(ip).or_insert(..)` yields. */
  function OrNew(entry: Option<Entry>, now: int): Entry {
    if entry.Some? then entry.value else Entry(0, now)
  }

  function TriedAllowed(cfg: Config, entry: Option<Entry>, now: int): bool {
    WindowOver(cfg, OrNew(entry, now), now) || OrNew(entry, now).attempts < cfg.max
  }

  function Tried(cfg: Config, entry: Option<Entry>, now: int): Entry {
    var e := OrNew(entry, now);
    if WindowOver(cfg, e, now) then Entry(1, now)
    else if e.attempts < cfg.max then e.(attempts := e.attempts + 1)
    else e
  }

  function Recorded(cfg: Config, entry: Option<Entry>, now: int): Entry {
    var e := OrNew(entry, now);
    if WindowOver(cfg, e, now) then Entry(1, now) else e.(attempts := e.attempts + 1)
  }

  function CheckAllowed(cfg: Config, entry: Option<Entry>, now: int): bool {
    entry.None? || WindowOver(cfg, entry.value, now) || entry.value.attempts < cfg.max
  }

  function Remaining(cfg: Config, entry: Option<Entry>, now: int): nat {
    if entry.None? || WindowOver(cfg, entry.value, now) then cfg.max
    else if entry.value.attempts < cfg.max then cfg.max - entry.value.attempts else 0
  }

  // ------------------------------------------------- what the operations foretell

  /** How many of `n` attempts in a row, all at `now`, are allowed. */
  function AllowedInARow(cfg: Config, entry: Option<Entry>, now: int, n: nat): nat
    decreases n
  {
    if n == 0 then 0
    else (if TriedAllowed(cfg, entry, now) then 1 else 0) + AllowedInARow(cfg, Some(Tried(cfg, entry, now)), now, n - 1)
  }

  /** A client without a running window gets exactly `max` attempts, one in its window what is left of
      them: `remaining_attempts` is how many would be allowed now, and `check` whether one would. */
  lemma {:induction false} RemainingIsHowManyAreAllowed(cfg: Config, entry: Option<Entry>, now: int, n: nat)
    requires cfg.max >= 1 && cfg.window > 0
    ensures AllowedInARow(cfg, entry, now, n) ==
            if n < Remaining(cfg, entry, now) then n else Remaining(cfg, entry, now)
    ensures CheckAllowed(cfg, entry, now) == TriedAllowed(cfg, entry, now) == (Remaining(cfg, entry, now) > 0)
    ensures entry.None? || now >= entry.value.windowStart + cfg.window ==> Remaining(cfg, entry, now) == cfg.max
    ensures entry.Some? && now < entry.value.windowStart + cfg.window ==>
              Remaining(cfg, entry, now) ==
              if entry.value.attempts < cfg.max then cfg.max - entry.value.attempts else 0
    decreases n
  {
    if n > 0 {
      RemainingIsHowManyAreAllowed(cfg, Some(Tried(cfg, entry, now)), now, n - 1);
    }
  }

  /** Recording takes one attempt away if there is one, in the running window or in a new one that
      starts now; and at the end of that window all are back. */
  lemma RecordedTakesOneAway(cfg: Config, entry: Option<Entry>, now: int, later: int)
    requires cfg.max >= 1 && cfg.window > 0 && now <= later
    ensures var recorded := Recorded(cfg, entry, now);
            var start := if entry.Some? && now < entry.value.windowStart + cfg.window
                         then entry.value.windowStart else now;
            && recorded.windowStart == start
            && Remaining(cfg, Some(recorded), now) ==
               (if Remaining(cfg, entry, now) > 0 then Remaining(cfg, entry, now) - 1 else 0)
            && Remaining(cfg, Some(recorded), later) ==
               if later >= start + cfg.window then cfg.max else Remaining(cfg, Some(recorded), now)
  {
  }

  // ---------------------------------------------------- forgetting is invisible

  /** `kept` is what a pruning limiter stores where one that never prunes has `full`. */
  predicate Agrees(cfg: Config, kept: Option<Entry>, full: Option<Entry>, now: int) {
    kept == full || (kept.None? && full.Some? && WindowOver(cfg, full.value, now))
  }

  lemma AgreementLasts(cfg: Config, kept: Option<Entry>, full: Option<Entry>, now: int, later: int)
    requires Agrees(cfg, kept, full, now) && now <= later
    ensures Agrees(cfg, kept, full, later)
  {
  }

  /** With a budget of at least one, no operation can tell a forgotten window from a finished one. */
  lemma AgreementIsInvisible(cfg: Config, kept: Option<Entry>, full: Option<Entry>, now: int)
    requires cfg.max >= 1 && Agrees(cfg, kept, full, now)
    ensures Tried(cfg, kept, now) == Tried(cfg, full, now)
    ensures TriedAllowed(cfg, kept, now) == TriedAllowed(cfg, full, now)
    ensures Recorded(cfg, kept, now) == Recorded(cfg, full, now)
    ensures CheckAllowed(cfg, kept, now) == CheckAllowed(cfg, full, now)
    ensures Remaining(cfg, kept, now) == Remaining(cfg, full, now)
  {
  }

  // --------------------------------------------------------- the interval bound

  predicate InInterval(cfg: Config, from: int, at: int) {
    from <= at < from + cfg.window
  }

  /** How many allowed attempts of the interval `[from, from + window)` a counter can have let
      through by `now`, given its latest window. The first attempt of a window is the one
      that opened it: a window opened before the interval has spent one outside it. */
  predicate Budgeted(cfg: Config, from: int, last: Option<Entry>, count: nat, now: int) {
    && (count > 0 ==> from <= now)
    && match last
       case None => count == 0
       case Some(Entry(attempts, start)) =>
         && 1 <= attempts <= cfg.max && start <= now
         && (start < from ==> count <= attempts - 1)
         && (InInterval(cfg, from, start) ==> count <= attempts + cfg.max - 1)
         && (from + cfg.window <= start ==> count <= 2 * cfg.max - 1)
  }

  function Counted(cfg: Config, from: int, allowed: bool, at: int): nat {
    if allowed && InInterval(cfg, from, at) then 1 else 0
  }

  lemma AttemptStaysBudgeted(cfg: Config, from: int, last: Option<Entry>, count: nat, now: int, at: int, counts: bool)
    requires cfg.max >= 1 && cfg.window > 0
    requires Budgeted(cfg, from, last, count, now) && now <= at
    ensures Budgeted(cfg, from, Some(Tried(cfg, last, at)),
                     count + Counted(cfg, from, counts && TriedAllowed(cfg, last, at), at), at)
  {
  }

  lemma TimeStaysBudgeted(cfg: Config, from: int, last: Option<Entry>, count: nat, now: int, later: int)
    requires Budgeted(cfg, from, last, count, now) && now <= later
    ensures Budgeted(cfg, from, last, count, later)
  {
  }

  lemma BudgetedBound(cfg: Config, from: int, last: Option<Entry>, count: nat, now: int)
    requires cfg.max >= 1 && Budgeted(cfg, from, last, count, now)
    ensures count <= 2 * cfg.max - 1
  {
  }

  /** A window allows at most `max`, and the next one starts at least a window later. */
  lemma WindowsAreApart(cfg: Config, last: Entry, at: int)
    requires cfg.max >= 1 && cfg.window > 0 && last.windowStart <= at && last.attempts <= cfg.max
    ensures var next := Tried(cfg, Some(last), at);
            && next.attempts <= cfg.max
            && (next.windowStart == last.windowStart || next.windowStart >= last.windowStart + cfg.window)
            && (next.windowStart != last.windowStart ==> next == Entry(1, at))
  {
  }
}
