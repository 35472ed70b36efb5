/** Whole runs of one in-memory limiter: any operations by any clients, with the
    two clock readings each call takes under the lock. */
module LimiterRuns {

  import opened Prelude
  import opened RateWindow
  import opened MemoryLimiter

  datatype Op = Check | Record | Try | Left | Reset

  /** `cleanAt` is the reading used for pruning, `now` the later one; `victim` is what the
      call evicted to make room. */
  datatype Call = Call(op: Op, ip: Ip, cleanAt: int, now: int, victim: Option<Ip>)

  datatype Reply = Allowed(yes: bool) | LeftOver(attempts: nat) | Done

  // ------------------------------------------------- the limiter and its ideal

  function Stepped(cfg: Config, entries: Entries, call: Call): Entries {
    match call.op
    case Check => Cleaned(cfg, entries, call.cleanAt)
    case Left => entries
    case Reset => entries - {call.ip}
    case Record =>
      var room := Roomy(cfg, entries, call.ip, call.cleanAt, call.victim);
      room[call.ip := Recorded(cfg, At(room, call.ip), call.now)]
    case Try =>
      var room := Roomy(cfg, entries, call.ip, call.cleanAt, call.victim);
      room[call.ip := Tried(cfg, At(room, call.ip), call.now)]
  }

  function ReplyOn(cfg: Config, entry: Option<Entry>, call: Call): Reply {
    match call.op
    case Check => Allowed(CheckAllowed(cfg, entry, call.now))
    case Try => Allowed(TriedAllowed(cfg, entry, call.now))
    case Left => LeftOver(Remaining(cfg, entry, call.now))
    case _ => Done
  }

  function ReplyTo(cfg: Config, entries: Entries, call: Call): Reply {
    match call.op
    case Check => ReplyOn(cfg, At(Cleaned(cfg, entries, call.cleanAt), call.ip), call)
    case Try => ReplyOn(cfg, At(Roomy(cfg, entries, call.ip, call.cleanAt, call.victim), call.ip), call)
    case _ => ReplyOn(cfg, At(entries, call.ip), call)
  }

  /** The limiter that never forgets: what one client's entry becomes. */
  function IdealEntry(cfg: Config, entry: Option<Entry>, call: Call, ip: Ip): Option<Entry> {
    if call.ip != ip then entry
    else match call.op
      case Try => Some(Tried(cfg, entry, call.now))
      case Record => Some(Recorded(cfg, entry, call.now))
      case Reset => None
      case _ => entry
  }

  function IdealStepped(cfg: Config, entries: Entries, call: Call): Entries {
    match call.op
    case Try => entries[call.ip := Tried(cfg, At(entries, call.ip), call.now)]
    case Record => entries[call.ip := Recorded(cfg, At(entries, call.ip), call.now)]
    case Reset => entries - {call.ip}
    case _ => entries
  }

  function Kept(cfg: Config, calls: seq<Call>, n: nat): Entries
    requires n <= |calls|
  {
    if n == 0 then map[] else Stepped(cfg, Kept(cfg, calls, n - 1), calls[n - 1])
  }

  function Ideal(cfg: Config, calls: seq<Call>, n: nat): Entries
    requires n <= |calls|
  {
    if n == 0 then map[] else IdealStepped(cfg, Ideal(cfg, calls, n - 1), calls[n - 1])
  }

  /** Call `k` happens after call `k - 1`, and evicts what the limiter would evict. */
  ghost predicate CallOk(cfg: Config, calls: seq<Call>, k: nat)
    requires k < |calls|
  {
    var call := calls[k];
    && call.cleanAt <= call.now && (k > 0 ==> calls[k - 1].now <= call.cleanAt)
    && if call.op.Try? || call.op.Record?
       then RoomMade(cfg, Kept(cfg, calls, k), call.ip, call.cleanAt, call.victim)
       else call.victim.None?
  }

  ghost predicate IsRun(cfg: Config, calls: seq<Call>) {
    forall k :: 0 <= k < |calls| ==> CallOk(cfg, calls, k)
  }

  // ------------------------------------------------------------- one client

  /** Pruning and other clients' traffic keep one client's entry in agreement with the ideal. */
  lemma StepAgrees(cfg: Config, entries: Entries, entry: Option<Entry>, call: Call, ip: Ip, time: int)
    requires cfg.max >= 1 && call.victim != Some(ip)
    requires Agrees(cfg, At(entries, ip), entry, time) && time <= call.now && call.cleanAt <= call.now
    ensures Agrees(cfg, At(Stepped(cfg, entries, call), ip), IdealEntry(cfg, entry, call, ip), call.now)
    ensures call.ip == ip ==> ReplyTo(cfg, entries, call) == ReplyOn(cfg, entry, call)
  {
    var cleaned := Cleaned(cfg, entries, call.cleanAt);
    AgreementLasts(cfg, At(entries, ip), entry, time, call.now);
    assert Agrees(cfg, At(cleaned, ip), entry, call.now);
    if call.ip == ip {
      AgreementIsInvisible(cfg, At(cleaned, ip), entry, call.now);
      AgreementIsInvisible(cfg, At(entries, ip), entry, call.now);
    }
  }

  lemma IdealIsPerClient(cfg: Config, entries: Entries, call: Call, ip: Ip)
    ensures At(IdealStepped(cfg, entries, call), ip) == IdealEntry(cfg, At(entries, ip), call, ip)
  {
  }

  function TimeAfter(calls: seq<Call>, n: nat, early: int): int
    requires n <= |calls|
  {
    if n == 0 then early else calls[n - 1].now
  }

  ghost predicate NoEviction(calls: seq<Call>) {
    forall k :: 0 <= k < |calls| ==> calls[k].victim.None?
  }

  lemma {:induction false} KeptAgreesWithIdeal(cfg: Config, calls: seq<Call>, n: nat, ip: Ip)
    requires cfg.max >= 1 && IsRun(cfg, calls) && NoEviction(calls) && n <= |calls|
    ensures forall time :: n == 0 || calls[n - 1].now <= time ==>
              Agrees(cfg, At(Kept(cfg, calls, n), ip), At(Ideal(cfg, calls, n), ip), time)
  {
    if n > 0 {
      var call := calls[n - 1];
      KeptAgreesWithIdeal(cfg, calls, n - 1, ip);
      assert CallOk(cfg, calls, n - 1);
      StepAgrees(cfg, Kept(cfg, calls, n - 1), At(Ideal(cfg, calls, n - 1), ip), call, ip, call.cleanAt);
      IdealIsPerClient(cfg, Ideal(cfg, calls, n - 1), call, ip);
    }
  }

  /** The reply to call `k` is that of a limiter that never prunes. */
  predicate SameReply(cfg: Config, calls: seq<Call>, k: nat)
    requires k < |calls|
  {
    ReplyTo(cfg, Kept(cfg, calls, k), calls[k]) == ReplyOn(cfg, At(Ideal(cfg, calls, k), calls[k].ip), calls[k])
  }

  /** With a budget of at least one and below capacity, the pruning limiter gives the same
      reply to every call of every run as one that never prunes. */
  lemma PruningIsInvisible(cfg: Config, calls: seq<Call>, k: nat)
    requires cfg.max >= 1 && IsRun(cfg, calls) && NoEviction(calls) && k < |calls|
    ensures SameReply(cfg, calls, k)
  {
    var call := calls[k];
    KeptAgreesWithIdeal(cfg, calls, k, call.ip);
    assert CallOk(cfg, calls, k);
    StepAgrees(cfg, Kept(cfg, calls, k), At(Ideal(cfg, calls, k), call.ip), call, call.ip, call.cleanAt);
  }

  /** With an empty window every window is over, and nothing stored makes a difference. */
  lemma EmptyWindowForgetsAll(cfg: Config, calls: seq<Call>, k: nat)
    requires cfg.window == 0 && k < |calls|
    ensures SameReply(cfg, calls, k)
  {
  }

  /** One recorded attempt, and one try exactly when its window ends. */
  function LateTry(cfg: Config): seq<Call> {
    [Call(Record, 1, 0, 0, None), Call(Try, 1, cfg.window, cfg.window, None)]
  }

  /** With a budget of zero and a window it does show: after the window, the forgetful limiter
      refuses an attempt that the other one allows. */
  lemma ZeroBudgetTellsThemApart(cfg: Config)
    requires cfg.max == 0 && cfg.window >= 1
    ensures IsRun(cfg, LateTry(cfg)) && NoEviction(LateTry(cfg)) && !SameReply(cfg, LateTry(cfg), 1)
  {
    var calls := LateTry(cfg);
    assert Kept(cfg, calls, 0) == map[] && Ideal(cfg, calls, 0) == map[];
    assert Cleaned(cfg, map[], 0) == map[];
    assert Kept(cfg, calls, 1) == map[1 := Entry(1, 0)] && Ideal(cfg, calls, 1) == map[1 := Entry(1, 0)];
    assert Cleaned(cfg, Kept(cfg, calls, 1), cfg.window) == map[];
    assert CallOk(cfg, calls, 0) && CallOk(cfg, calls, 1);
  }

  /** Pruning is invisible in every run below capacity exactly when the budget is at least one
      or the window is empty. */
  lemma PruningIsInvisibleIff(cfg: Config)
    ensures (forall calls, k: nat :: IsRun(cfg, calls) && NoEviction(calls) && k < |calls| ==> SameReply(cfg, calls, k))
            <==> cfg.max >= 1 || cfg.window == 0
  {
    if cfg.max >= 1 || cfg.window == 0 {
      forall calls: seq<Call>, k: nat | IsRun(cfg, calls) && NoEviction(calls) && k < |calls|
        ensures SameReply(cfg, calls, k)
      {
        if cfg.max >= 1 {
          PruningIsInvisible(cfg, calls, k);
        } else {
          EmptyWindowForgetsAll(cfg, calls, k);
        }
      }
    } else {
      ZeroBudgetTellsThemApart(cfg);
    }
  }

  // ------------------------------------------------------------ the capacity

  /** At any load the map never exceeds its cap; what eviction removes has the smallest
      window start of all (`Evicts`). */
  lemma {:induction false} NeverOverCapacity(cfg: Config, calls: seq<Call>, n: nat)
    requires IsRun(cfg, calls) && n <= |calls|
    ensures |Kept(cfg, calls, n)| <= 100_000
  {
    if n > 0 {
      NeverOverCapacity(cfg, calls, n - 1);
      RunMakesRoom(cfg, calls, n - 1);
      StepStaysInCapacity(cfg, Kept(cfg, calls, n - 1), calls[n - 1]);
    }
  }

  ghost predicate RoomFor(cfg: Config, before: Entries, call: Call) {
    call.op.Try? || call.op.Record? ==> RoomMade(cfg, before, call.ip, call.cleanAt, call.victim)
  }

  lemma RunMakesRoom(cfg: Config, calls: seq<Call>, k: nat)
    requires IsRun(cfg, calls) && k < |calls|
    ensures RoomFor(cfg, Kept(cfg, calls, k), calls[k])
  {
    assert CallOk(cfg, calls, k);
  }

  lemma StepStaysInCapacity(cfg: Config, before: Entries, call: Call)
    requires |before| <= MAX_ENTRIES && RoomFor(cfg, before, call)
    ensures |Stepped(cfg, before, call)| <= MAX_ENTRIES
  {
    match call.op
    case Check => CleanedIsSmaller(cfg, before, call.cleanAt);
    case Left =>
    case Reset => RemovedIsSmaller(before, call.ip);
    case _ => RoomIsEnough(cfg, before, call, Stepped(cfg, before, call)[call.ip]);
  }

  lemma RoomIsEnough(cfg: Config, before: Entries, call: Call, entry: Entry)
    requires |before| <= MAX_ENTRIES && RoomMade(cfg, before, call.ip, call.cleanAt, call.victim)
    ensures |Roomy(cfg, before, call.ip, call.cleanAt, call.victim)[call.ip := entry]| <= MAX_ENTRIES
  {
    var cleaned := Cleaned(cfg, before, call.cleanAt);
    CleanedIsSmaller(cfg, before, call.cleanAt);
    if call.victim.Some? {
      RemovedIsSmaller(cleaned, call.victim.value);
    }
    InsertedSize(Without(cleaned, call.victim), call.ip, entry);
  }

  lemma InsertedSize(entries: Entries, ip: Ip, entry: Entry)
    ensures |entries[ip := entry]| == if ip in entries then |entries| else |entries| + 1
  {
    UpdateSize(entries, ip, entry, entry);
    if ip !in entries {
      assert entries[ip := entry].Keys == entries.Keys + {ip};
    }
  }

  // ------------------------------------------------------ the interval bound

  /** Nothing but attempts and looks by this client, and it is never evicted. */
  predicate Spares(call: Call, ip: Ip) {
    && call.victim != Some(ip)
    && (call.ip == ip ==> call.op.Try? || call.op.Check? || call.op.Left?)
  }

  predicate LetsThrough(cfg: Config, entries: Entries, call: Call, ip: Ip) {
    call.op.Try? && call.ip == ip && ReplyTo(cfg, entries, call) == Allowed(true)
  }

  /** How many of the first `n` calls were attempts of `ip` allowed within `[from, from + window)`. */
  function AllowedIn(cfg: Config, calls: seq<Call>, ip: Ip, from: int, n: nat): nat
    requires n <= |calls|
  {
    if n == 0 then 0
    else
      AllowedIn(cfg, calls, ip, from, n - 1)
      + Counted(cfg, from, LetsThrough(cfg, Kept(cfg, calls, n - 1), calls[n - 1], ip), calls[n - 1].now)
  }

  lemma {:induction false} IntervalBudget(
    cfg: Config, calls: seq<Call>, ip: Ip, from: int, n: nat, early: int) returns (last: Option<Entry>)
    requires cfg.max >= 1 && cfg.window > 0 && IsRun(cfg, calls) && n <= |calls|
    requires forall k :: 0 <= k < n ==> Spares(calls[k], ip)
    requires |calls| > 0 ==> early <= calls[0].cleanAt
    ensures Agrees(cfg, At(Kept(cfg, calls, n), ip), last, TimeAfter(calls, n, early))
    ensures Budgeted(cfg, from, last, AllowedIn(cfg, calls, ip, from, n), TimeAfter(calls, n, early))
  {
    last := None;
    if n > 0 {
      var call := calls[n - 1];
      var before := IntervalBudget(cfg, calls, ip, from, n - 1, early);
      assert CallOk(cfg, calls, n - 1);
      StepAgrees(cfg, Kept(cfg, calls, n - 1), before, call, ip, TimeAfter(calls, n - 1, early));
      last := IdealEntry(cfg, before, call, ip);
      if call.op.Try? && call.ip == ip {
        AttemptStaysBudgeted(cfg, from, before, AllowedIn(cfg, calls, ip, from, n - 1), TimeAfter(calls, n - 1, early),
                             call.now, true);
      } else {
        TimeStaysBudgeted(cfg, from, before, AllowedIn(cfg, calls, ip, from, n - 1), TimeAfter(calls, n - 1, early),
                          call.now);
      }
    }
  }

  /** In every run that neither resets, evicts nor records for a client outside its attempts, any
      half-open interval of one window's length allows it at most 2 * max - 1 attempts. */
  lemma IntervalBound(cfg: Config, calls: seq<Call>, ip: Ip, from: int)
    requires cfg.max >= 1 && cfg.window > 0 && IsRun(cfg, calls)
    requires forall k :: 0 <= k < |calls| ==> Spares(calls[k], ip)
    ensures AllowedIn(cfg, calls, ip, from, |calls|) <= 2 * cfg.max - 1
  {
    var early := if |calls| > 0 then calls[0].cleanAt else 0;
    var last := IntervalBudget(cfg, calls, ip, from, |calls|, early);
    BudgetedBound(cfg, from, last, AllowedIn(cfg, calls, ip, from, |calls|), TimeAfter(calls, |calls|, early));
  }

  // ------------------------------------------------------------ the windows

  /** The latest window of one client, never forgotten. */
  function LastWindow(cfg: Config, calls: seq<Call>, ip: Ip, n: nat): Option<Entry>
    requires n <= |calls|
  {
    if n == 0 then None else IdealEntry(cfg, LastWindow(cfg, calls, ip, n - 1), calls[n - 1], ip)
  }

  predicate StartsAt(window: Option<Entry>, start: int) {
    window.Some? && window.value.windowStart == start
  }

  /** How many attempts of `ip` were allowed in its window that started at `start`. */
  function AllowedInWindow(cfg: Config, calls: seq<Call>, ip: Ip, start: int, n: nat): nat
    requires n <= |calls|
  {
    if n == 0 then 0
    else
      AllowedInWindow(cfg, calls, ip, start, n - 1)
      + if && LetsThrough(cfg, Kept(cfg, calls, n - 1), calls[n - 1], ip)
           && StartsAt(LastWindow(cfg, calls, ip, n), start)
        then 1 else 0
  }

  /** Every window allows at most `max` attempts, and it is over before the next one starts,
      at least one window's length after it did. */
  lemma {:induction false} WindowAllowsMax(cfg: Config, calls: seq<Call>, ip: Ip, start: int, n: nat, early: int)
    requires cfg.max >= 1 && cfg.window > 0 && IsRun(cfg, calls) && n <= |calls|
    requires forall k :: 0 <= k < n ==> Spares(calls[k], ip)
    requires |calls| > 0 ==> early <= calls[0].cleanAt
    ensures var last, count := LastWindow(cfg, calls, ip, n), AllowedInWindow(cfg, calls, ip, start, n);
            && Agrees(cfg, At(Kept(cfg, calls, n), ip), last, TimeAfter(calls, n, early))
            && count <= cfg.max
            && (last.None? ==> count == 0)
            && (last.Some? ==> last.value.attempts <= cfg.max && last.value.windowStart <= TimeAfter(calls, n, early))
            && (StartsAt(last, start) ==> count == last.value.attempts)
            && (last.Some? && !StartsAt(last, start) && count > 0 ==> last.value.windowStart >= start + cfg.window)
  {
    if n > 0 {
      var call, before := calls[n - 1], LastWindow(cfg, calls, ip, n - 1);
      WindowAllowsMax(cfg, calls, ip, start, n - 1, early);
      assert CallOk(cfg, calls, n - 1);
      StepAgrees(cfg, Kept(cfg, calls, n - 1), before, call, ip, TimeAfter(calls, n - 1, early));
      if call.op.Try? && call.ip == ip && before.Some? {
        WindowsAreApart(cfg, before.value, call.now);
      }
    }
  }

  // ------------------------------------------- the bound is met, so not sliding

  /** One attempt at 0, the rest of the budget one tick before the window ends, a full
      budget when the next one starts. */
  function BurstTime(cfg: Config, k: nat): int {
    if k == 0 then 0 else if k < cfg.max then cfg.window - 1 else cfg.window
  }

  function BurstCall(cfg: Config, k: nat): Call {
    Call(Try, 1, BurstTime(cfg, k), BurstTime(cfg, k), None)
  }

  function BurstEntry(cfg: Config, n: nat): Option<Entry> {
    if n == 0 then None
    else if n <= cfg.max then Some(Entry(n, 0))
    else Some(Entry(n - cfg.max, cfg.window))
  }

  lemma BurstStep(cfg: Config, k: nat)
    requires cfg.max >= 1 && cfg.window >= 2 && k < 2 * cfg.max
    ensures ReplyOn(cfg, BurstEntry(cfg, k), BurstCall(cfg, k)) == Allowed(true)
    ensures IdealEntry(cfg, BurstEntry(cfg, k), BurstCall(cfg, k), 1) == BurstEntry(cfg, k + 1)
  {
  }

  ghost predicate IsBurst(cfg: Config, calls: seq<Call>) {
    && cfg.max >= 1 && cfg.window >= 2 && |calls| == 2 * cfg.max
    && forall k :: 0 <= k < |calls| ==> calls[k] == BurstCall(cfg, k)
  }

  lemma {:induction false} BurstAgrees(cfg: Config, calls: seq<Call>, n: nat)
    requires IsBurst(cfg, calls) && n <= |calls|
    ensures Kept(cfg, calls, n).Keys <= {1}
    ensures Agrees(cfg, At(Kept(cfg, calls, n), 1), BurstEntry(cfg, n), TimeAfter(calls, n, 0))
  {
    if n > 0 {
      BurstAgrees(cfg, calls, n - 1);
      BurstStep(cfg, n - 1);
      StepAgrees(cfg, Kept(cfg, calls, n - 1), BurstEntry(cfg, n - 1), calls[n - 1], 1, TimeAfter(calls, n - 1, 0));
      assert Roomy(cfg, Kept(cfg, calls, n - 1), 1, calls[n - 1].cleanAt, None).Keys <= {1};
    }
  }

  lemma BurstReply(cfg: Config, calls: seq<Call>, k: nat)
    requires IsBurst(cfg, calls) && k < |calls|
    ensures LetsThrough(cfg, Kept(cfg, calls, k), calls[k], 1)
    ensures Counted(cfg, cfg.window - 1, true, calls[k].now) == if k == 0 then 0 else 1
  {
    BurstAgrees(cfg, calls, k);
    BurstStep(cfg, k);
    StepAgrees(cfg, Kept(cfg, calls, k), BurstEntry(cfg, k), calls[k], 1, TimeAfter(calls, k, 0));
  }

  lemma {:induction false} BurstCount(cfg: Config, calls: seq<Call>, n: nat)
    requires IsBurst(cfg, calls) && n <= |calls|
    ensures AllowedIn(cfg, calls, 1, cfg.window - 1, n) == if n == 0 then 0 else n - 1
  {
    if n > 0 {
      BurstCount(cfg, calls, n - 1);
      BurstReply(cfg, calls, n - 1);
      assert AllowedIn(cfg, calls, 1, cfg.window - 1, n)
          == AllowedIn(cfg, calls, 1, cfg.window - 1, n - 1) + Counted(cfg, cfg.window - 1, true, calls[n - 1].now);
    }
  }

  lemma BurstIsRun(cfg: Config, calls: seq<Call>)
    requires IsBurst(cfg, calls)
    ensures IsRun(cfg, calls)
  {
    forall k | 0 <= k < |calls| ensures CallOk(cfg, calls, k) {
      BurstAgrees(cfg, calls, k);
      var cleaned := Cleaned(cfg, Kept(cfg, calls, k), calls[k].cleanAt);
      SubsetSize(cleaned.Keys, {1});
    }
  }

  /** A window of a single tick: what is allowed within a tick is allowed in one window. */
  lemma {:induction false} OneTickIsOneWindow(cfg: Config, calls: seq<Call>, ip: Ip, from: int, n: nat, early: int)
    requires cfg.max >= 1 && cfg.window == 1 && IsRun(cfg, calls) && n <= |calls|
    requires forall k :: 0 <= k < n ==> Spares(calls[k], ip)
    requires |calls| > 0 ==> early <= calls[0].cleanAt
    ensures AllowedIn(cfg, calls, ip, from, n) <= AllowedInWindow(cfg, calls, ip, from, n)
  {
    if n > 0 {
      OneTickIsOneWindow(cfg, calls, ip, from, n - 1, early);
      WindowAllowsMax(cfg, calls, ip, from, n - 1, early);
      assert CallOk(cfg, calls, n - 1);
    }
  }

  predicate Slides(cfg: Config, calls: seq<Call>, ip: Ip, from: int) {
    AllowedIn(cfg, calls, ip, from, |calls|) <= cfg.max
  }

  /** The documentation calls this a sliding window, which would allow at most `max` in any
      interval of that length. That holds in every run exactly when the budget is a single
      attempt or the window a single clock tick. */
  lemma SlidingPromiseHoldsIff(cfg: Config)
    requires cfg.max >= 1 && cfg.window >= 1
    ensures (forall calls, ip, from ::
               IsRun(cfg, calls) && (forall k :: 0 <= k < |calls| ==> Spares(calls[k], ip)) ==>
                   Slides(cfg, calls, ip, from))
            <==> cfg.max == 1 || cfg.window == 1
  {
    if cfg.max == 1 || cfg.window == 1 {
      forall calls: seq<Call>, ip, from | IsRun(cfg, calls) && (forall k :: 0 <= k < |calls| ==> Spares(calls[k], ip))
        ensures Slides(cfg, calls, ip, from)
      {
        if cfg.max == 1 {
          IntervalBound(cfg, calls, ip, from);
        } else {
          var early := if |calls| > 0 then calls[0].cleanAt else 0;
          OneTickIsOneWindow(cfg, calls, ip, from, |calls|, early);
          WindowAllowsMax(cfg, calls, ip, from, |calls|, early);
        }
      }
    } else {
      var calls := seq(2 * cfg.max, k requires 0 <= k < 2 * cfg.max => BurstCall(cfg, k));
      BurstIsRun(cfg, calls);
      BurstCount(cfg, calls, |calls|);
      assert forall k :: 0 <= k < |calls| ==> Spares(calls[k], 1);
      assert !Slides(cfg, calls, 1, cfg.window - 1);
    }
  }
}
