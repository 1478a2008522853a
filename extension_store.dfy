/** The extension's persisted key/value store (`globalState`) and the
    logic that reads and writes it: the weekly ROI counters, the
    heartbeat instance lock, and the polling tick's per-IDE lock. */
module ExtensionStore {
  import opened Text

  /** The weekly counters stored under the ROI key. */
  datatype RoiStats = RoiStats(weekStart: int, clicks: int, blocked: int, sessions: int)

  /** A stored value. */
  datatype Value = Bool(b: bool) | Num(n: int) | Str(s: string) | Stats(stats: RoiStats)

  type Store = map<string, Value>

  const GlobalStateKey: string := "auto-all-enabled-global"
  const BackgroundModeKey: string := "auto-all-background-mode"
  const RegistryConfiguredKey: string := "auto-all-cdp-registry-configured"
  const SkipPromptKey: string := "auto-all-cdp-skip-prompt"
  const LockKey: string := "auto-all-instance-lock"
  const HeartbeatKey: string := "auto-all-instance-heartbeat"
  const RoiStatsKey: string := "auto-all-roi-stats"

  /** JavaScript truthiness of a stored value. */
  predicate Truthy(v: Value) {
    match v
    case Bool(b) => b
    case Num(n) => n != 0
    case Str(s) => s != []
    case Stats(_) => true
  }

  /** The number a value turns into under subtraction; `None` is NaN. */
  function AsNumber(v: Value): Option<int> {
    match v
    case Bool(b) => Some(if b then 1 else 0)
    case Num(n) => Some(n)
    case Str(_) => None
    case Stats(_) => None
  }

  /** The two stores agree on every key but `key`. */
  ghost predicate SameExcept(a: Store, b: Store, key: string) {
    forall k :: k != key ==> (k in a <==> k in b) && (k in a ==> a[k] == b[k])
  }

  /** `globalState.get(key, false)` in a condition. */
  predicate Flag(store: Store, key: string) {
    key in store && Truthy(store[key])
  }

  // ---------------------------------------------------------------- ROI

  /** The counters of a week nothing has happened in yet. */
  function FreshWeek(week: int): RoiStats {
    RoiStats(week, 0, 0, 0)
  }

  /** `loadROIStats`: the stored counters when they belong to the current
      week `week`; otherwise the counters of a fresh week, which are also
      stored. A missing entry reads as a fresh week and is not stored. */
  function LoadRoi(store: Store, week: int): (r: (RoiStats, Store))
    ensures r.0.weekStart == week
    ensures RoiStatsKey in store && store[RoiStatsKey] == Stats(r.0) ==> r.1 == store
    ensures RoiStatsKey in store && store[RoiStatsKey].Stats? && store[RoiStatsKey].stats.weekStart == week
            ==>
            r.0 == store[RoiStatsKey].stats && r.1 == store
    ensures RoiStatsKey in store && (!store[RoiStatsKey].Stats? || store[RoiStatsKey].stats.weekStart != week)
            ==>
            r.0 == FreshWeek(week) && r.1 == store[RoiStatsKey := Stats(FreshWeek(week))]
    ensures RoiStatsKey !in store ==> r.0 == FreshWeek(week) && r.1 == store
  {
    if RoiStatsKey !in store then (FreshWeek(week), store)
    else
      var v := store[RoiStatsKey];
      if v.Stats? && v.stats.weekStart == week then (v.stats, store)
      else (FreshWeek(week), store[RoiStatsKey := Stats(FreshWeek(week))])
  }

  /** `collectAndSaveStats`, given what the browser side reports: the
      clicks and blocked commands are added to this week's counters when
      either is positive; otherwise nothing is read or written. */
  function CollectStats(store: Store, week: int, clicks: int, blocked: int): (r: Store)
    ensures clicks <= 0 && blocked <= 0 ==> r == store
    ensures SameExcept(r, store, RoiStatsKey)
    ensures (clicks > 0 || blocked > 0) ==>
            var before := LoadRoi(store, week).0;
            r == store[RoiStatsKey := Stats(before.(clicks := before.clicks + clicks, blocked := before.blocked + blocked))]
  {
    if clicks > 0 || blocked > 0 then
      var (stats, store1) := LoadRoi(store, week);
      store1[RoiStatsKey := Stats(stats.(clicks := stats.clicks + clicks, blocked := stats.blocked + blocked))]
    else store
  }

  /** `incrementSessionCount`: one more session this week. */
  function CountSession(store: Store, week: int): (r: Store)
    ensures RoiStatsKey in r && r[RoiStatsKey].Stats?
    ensures SameExcept(r, store, RoiStatsKey)
    ensures var before := LoadRoi(store, week).0;
            r[RoiStatsKey].stats == RoiStats(week, before.clicks, before.blocked, before.sessions + 1)
  {
    var (stats, store1) := LoadRoi(store, week);
    store1[RoiStatsKey := Stats(stats.(sessions := stats.sessions + 1))]
  }

  /** Within a week, collection adds exactly what was reported and keeps
      the session count. */
  lemma CollectWithinWeek(store: Store, week: int, clicks: int, blocked: int, s: RoiStats)
    requires RoiStatsKey in store && store[RoiStatsKey] == Stats(s) && s.weekStart == week
    requires clicks > 0 || blocked > 0
    ensures var r := CollectStats(store, week, clicks, blocked);
            RoiStatsKey in r && r[RoiStatsKey] == Stats(RoiStats(week, s.clicks + clicks, s.blocked + blocked, s.sessions))
  {
  }

  /** A new week starts the counters from what was reported: last week's
      counts are gone. */
  lemma CollectNewWeek(store: Store, week: int, clicks: int, blocked: int, s: RoiStats)
    requires RoiStatsKey in store && store[RoiStatsKey] == Stats(s) && s.weekStart != week
    requires clicks > 0 || blocked > 0
    ensures var r := CollectStats(store, week, clicks, blocked);
            RoiStatsKey in r && r[RoiStatsKey] == Stats(RoiStats(week, clicks, blocked, 0))
  {
  }

  /** Loading is idempotent: loading again in the same week reads back the
      same counters and writes nothing. */
  lemma LoadRoiIdempotent(store: Store, week: int)
    ensures var (s, store1) := LoadRoi(store, week);
            LoadRoi(store1, week) == (s, store1)
  {
    var (s, store1) := LoadRoi(store, week);
    if RoiStatsKey in store1 {
      assert store1[RoiStatsKey] == Stats(s);
    }
  }

  /** Two sessions in the same week count two. */
  lemma TwoSessionsCountTwo(store: Store, week: int)
    ensures var r := CountSession(CountSession(store, week), week);
            r[RoiStatsKey].stats.sessions == LoadRoi(store, week).0.sessions + 2
  {
    var r1 := CountSession(store, week);
    assert r1[RoiStatsKey].stats.weekStart == week;
  }

  /** `Math.round(clicks * 5 / 60)`: the minutes saved at five seconds a
      click, rounded half up. */
  function TimeSavedMinutes(clicks: int): (m: int)
    ensures 60 * m - 30 <= 5 * clicks < 60 * m + 30
  {
    (clicks + 6) / 12
  }

  /** The rounding has one answer. */
  lemma TimeSavedUnique(clicks: int, m: int)
    requires 60 * m - 30 <= 5 * clicks < 60 * m + 30
    ensures m == TimeSavedMinutes(clicks)
  {
    var t := TimeSavedMinutes(clicks);
    assert 60 * (m - t) < 60 && 60 * (t - m) < 60;
  }

  // ------------------------------------------------------ instance lock

  const HeartbeatWindow := 10000

  datatype LockCheck = LockCheck(granted: bool, store: Store)

  /** Whether the stored heartbeat is older than the window; a heartbeat
      that is not a number never is (NaN compares false), a missing one
      reads as 0. */
  predicate HeartbeatStale(store: Store, now: int): (stale: bool)
    ensures HeartbeatKey !in store ==> (stale <==> now > HeartbeatWindow)
    ensures HeartbeatKey in store && store[HeartbeatKey].Num? ==> (stale <==> now - store[HeartbeatKey].n > HeartbeatWindow)
    ensures HeartbeatKey in store && (store[HeartbeatKey].Str? || store[HeartbeatKey].Stats?) ==> !stale
  {
    var hb := if HeartbeatKey in store then store[HeartbeatKey] else Num(0);
    AsNumber(hb).Some? && now - AsNumber(hb).value > HeartbeatWindow
  }

  /** `checkInstanceLock`: a Pro instance always runs; otherwise the lock
      is claimed when nobody holds it or its heartbeat is stale, the
      holder refreshes the heartbeat, and anybody else is refused without
      a write. */
  function CheckInstanceLock(isPro: bool, store: Store, id: string, now: int): (r: LockCheck)
    ensures isPro ==> r == LockCheck(true, store)
    ensures !r.granted ==> r.store == store && !isPro
    ensures !r.granted <==> !isPro && Flag(store, LockKey) && !HeartbeatStale(store, now) && store[LockKey] != Str(id)
    ensures r.granted && !isPro ==>
            LockKey in r.store && r.store[LockKey] == Str(id) && HeartbeatKey in r.store && r.store[HeartbeatKey] == Num(now)
    ensures forall k :: k != LockKey && k != HeartbeatKey ==> (k in r.store <==> k in store) && (k in r.store ==> r.store[k] == store[k])
  {
    if isPro then LockCheck(true, store)
    else if !Flag(store, LockKey) || HeartbeatStale(store, now) then
      LockCheck(true, store[LockKey := Str(id)][HeartbeatKey := Num(now)])
    else if store[LockKey] == Str(id) then LockCheck(true, store[HeartbeatKey := Num(now)])
    else LockCheck(false, store)
  }

  /** Once an instance with a non-empty id holds the lock, another
      instance asking within the heartbeat window is refused, and the
      holder asking again keeps it. */
  lemma LockExcludes(store: Store, a: string, b: string, t1: int, t2: int)
    requires a != [] && a != b
    requires t2 - t1 <= HeartbeatWindow
    requires CheckInstanceLock(false, store, a, t1).granted
    ensures var s1 := CheckInstanceLock(false, store, a, t1).store;
            !CheckInstanceLock(false, s1, b, t2).granted
    ensures var s1 := CheckInstanceLock(false, store, a, t1).store;
            CheckInstanceLock(false, s1, a, t2) == LockCheck(true, s1[HeartbeatKey := Num(t2)])
  {
    var s1 := CheckInstanceLock(false, store, a, t1).store;
    assert Str(a) != Str(b);
    assert !HeartbeatStale(s1, t2);
  }

  // ---------------------------------------------------- polling lock tick

  const PingWindow := 15000

  /** The per-IDE lock key the polling tick uses. */
  function PollLockKey(ide: string): string {
    Lower(ide) + "-instance-lock"
  }

  /** The key of that lock's last ping. */
  function PingKey(lockKey: string): (r: string)
    ensures |r| > |lockKey|
  {
    lockKey + "-ping"
  }

  /** The lock is held by another owner whose last ping is recent. */
  predicate HeldByOther(store: Store, lockKey: string, myId: string, now: int): (held: bool)
    ensures held ==> lockKey in store && store[lockKey] != Str(myId) && Truthy(store[lockKey])
    ensures held ==> PingKey(lockKey) in store && (store[PingKey(lockKey)].Num? || store[PingKey(lockKey)] == Bool(true))
    ensures PingKey(lockKey) in store && store[PingKey(lockKey)].Num? && now - store[PingKey(lockKey)].n >= PingWindow ==> !held
  {
    Flag(store, lockKey) && store[lockKey] != Str(myId)
    && Flag(store, PingKey(lockKey)) && AsNumber(store[PingKey(lockKey)]).Some?
    && now - AsNumber(store[PingKey(lockKey)]).value < PingWindow
  }

  /** The outcome of one polling tick: the store, whether this instance is
      locked out, whether the status bar was refreshed, and whether the
      sessions were synced. */
  datatype Tick = Tick(store: Store, lockedOut: bool, statusRefreshed: bool, synced: bool)

  /** The body of the polling interval in `startPolling`. */
  function PollTick(store: Store, enabled: bool, lockedOut: bool, lockKey: string, myId: string, now: int): (r: Tick)
    ensures r.statusRefreshed <==> r.lockedOut != lockedOut
    ensures r.synced <==> enabled && !HeldByOther(store, lockKey, myId, now)
    ensures !r.synced ==> r.store == store
    ensures enabled && !r.synced ==> r.lockedOut
    ensures r.synced ==> !r.lockedOut
    ensures r.synced ==> r.store == store[lockKey := Str(myId)][PingKey(lockKey) := Num(now)]
  {
    if !enabled then Tick(store, lockedOut, false, false)
    else if HeldByOther(store, lockKey, myId, now) then Tick(store, true, !lockedOut, false)
    else Tick(store[lockKey := Str(myId)][PingKey(lockKey) := Num(now)], false, lockedOut, true)
  }

  /** The owner id compared is the extension's id, which every window of
      the same IDE shares: a window never locks out another window that
      runs the same extension. */
  lemma SameOwnerNeverLocked(store: Store, lockKey: string, myId: string, lockedOut: bool, now: int)
    requires lockKey in store && store[lockKey] == Str(myId)
    ensures PollTick(store, true, lockedOut, lockKey, myId, now).synced
  {
  }

  /** Two owners with different, non-empty ids: after one ticks at `t1`,
      the other is locked out at any `t2` less than the ping window later,
      and leaves the store alone. */
  lemma TickExcludes(store: Store, lockKey: string, a: string, b: string, l1: bool, l2: bool, t1: int, t2: int)
    requires a != [] && a != b && t1 != 0
    requires t2 - t1 < PingWindow
    requires PollTick(store, true, l1, lockKey, a, t1).synced
    ensures var s1 := PollTick(store, true, l1, lockKey, a, t1).store;
            PollTick(s1, true, l2, lockKey, b, t2) == Tick(s1, true, !l2, false)
  {
    var s1 := PollTick(store, true, l1, lockKey, a, t1).store;
    assert PingKey(lockKey) != lockKey;
    assert s1[lockKey] == Str(a) && Str(a) != Str(b);
    assert s1[PingKey(lockKey)] == Num(t1);
    assert HeldByOther(s1, lockKey, b, t2);
  }
}
