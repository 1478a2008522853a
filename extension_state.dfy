/** The extension's module-level state, as one object: the flags the
    commands and the polling tick update in place, and the persisted
    store they write through. */
module ExtensionState {
  import opened Text
  import opened ExtensionStore
  import opened ExtensionModes
  import opened Bootstrap
  import opened Registry
  import opened RelaunchConductor

  class Extension {
    /** `currentIDE`, the extension's id and `INSTANCE_ID`. */
    const ide: string
    const extensionId: string
    const instanceId: string

    var isEnabled: bool
    var backgroundModeEnabled: bool
    var isPro: bool
    var isLockedOut: bool
    var hadCdpConnection: bool
    var lastRelaunchPromptTime: int
    var store: Store

    function CurrentMode(): Mode
      reads this
    {
      Mode(isEnabled, backgroundModeEnabled)
    }

    function CurrentHealth(): Health
      reads this
    {
      Health(hadCdpConnection, lastRelaunchPromptTime)
    }

    /** The persisted flags equal the in-memory ones. */
    predicate Synced()
      reads this
    {
      GlobalStateKey in store && store[GlobalStateKey] == Bool(isEnabled)
      && BackgroundModeKey in store && store[BackgroundModeKey] == Bool(backgroundModeEnabled)
    }

    /** `activate`'s loading of the state: the flags come from the store,
        Pro is always on, and the IDE is detected from the host's name. */
    constructor (appName: string, extensionId: string, instanceId: string, store: Store)
      ensures ide == DetectIde(appName)
      ensures this.extensionId == extensionId && this.instanceId == instanceId
      ensures isEnabled == Flag(store, GlobalStateKey)
      ensures backgroundModeEnabled == Flag(store, BackgroundModeKey)
      ensures isPro && !isLockedOut && !hadCdpConnection && lastRelaunchPromptTime == 0
      ensures this.store == store
    {
      ide := DetectIde(appName);
      this.extensionId := extensionId;
      this.instanceId := instanceId;
      isEnabled := Flag(store, GlobalStateKey);
      isPro := true;
      backgroundModeEnabled := Flag(store, BackgroundModeKey);
      isLockedOut := false;
      hadCdpConnection := false;
      lastRelaunchPromptTime := 0;
      this.store := store;
    }

    /** `incrementSessionCount`. */
    method IncrementSessionCount(week: int)
      modifies this
      ensures store == CountSession(old(store), week)
      ensures CurrentMode() == old(CurrentMode()) && CurrentHealth() == old(CurrentHealth())
      ensures isLockedOut == old(isLockedOut) && isPro == old(isPro)
    {
      var (stats, store1) := LoadRoi(store, week);
      stats := stats.(sessions := stats.sessions + 1);
      store := store1[RoiStatsKey := Stats(stats)];
    }

    /** `collectAndSaveStats`, with what the browser side reset; without
        a driver both counts are 0. */
    method CollectAndSaveStats(week: int, clicks: int, blocked: int)
      modifies this
      ensures store == CollectStats(old(store), week, clicks, blocked)
      ensures CurrentMode() == old(CurrentMode()) && CurrentHealth() == old(CurrentHealth())
      ensures isLockedOut == old(isLockedOut) && isPro == old(isPro)
    {
      if clicks > 0 || blocked > 0 {
        var (stats, store1) := LoadRoi(store, week);
        stats := stats.(clicks := stats.clicks + clicks, blocked := stats.blocked + blocked);
        store := store1[RoiStatsKey := Stats(stats)];
      }
    }

    /** `handleToggle`: turning on counts a session; turning off collects
        the browser's counts and forgets the connection seen. The
        multi-tab flag is left as it was. */
    method HandleToggle(week: int, clicks: int, blocked: int)
      modifies this
      ensures isEnabled == !old(isEnabled) && backgroundModeEnabled == old(backgroundModeEnabled)
      ensures isEnabled ==> store == CountSession(old(store)[GlobalStateKey := Bool(true)], week)
      ensures !isEnabled ==> store == CollectStats(old(store)[GlobalStateKey := Bool(false)], week, clicks, blocked)
      ensures hadCdpConnection == (isEnabled && old(hadCdpConnection))
      ensures lastRelaunchPromptTime == old(lastRelaunchPromptTime)
      ensures isLockedOut == old(isLockedOut) && isPro == old(isPro)
      ensures old(Synced()) ==> Synced()
    {
      isEnabled := !isEnabled;
      store := store[GlobalStateKey := Bool(isEnabled)];
      if isEnabled {
        IncrementSessionCount(week);
      } else {
        CollectAndSaveStats(week, clicks, blocked);
        hadCdpConnection := false;
      }
    }

    /** `handleCycleState`: OFF -> ON (single tab) -> ON (multi tab) ->
        OFF. Turning on counts a session; turning off collects the
        browser's counts and forgets the connection seen. After every
        click but the one into multi-tab mode both persisted flags equal
        the in-memory ones; that click writes the multi-tab flag only,
        and then starts a session sync, which is the separate
        `SyncSessions` call and is not part of this method. */
    method HandleCycleState(week: int, clicks: int, blocked: int)
      modifies this
      ensures CurrentMode() == CycleNext(old(CurrentMode()))
      ensures !old(isEnabled) ==>
              store == CountSession(old(store)[GlobalStateKey := Bool(true)][BackgroundModeKey := Bool(false)], week)
      ensures old(CurrentMode()) == Single ==> store == old(store)[BackgroundModeKey := Bool(true)]
      ensures old(CurrentMode()) == Multi ==>
              store == CollectStats(old(store)[GlobalStateKey := Bool(false)][BackgroundModeKey := Bool(false)], week, clicks, blocked)
      ensures hadCdpConnection == (old(CurrentMode()) != Multi && old(hadCdpConnection))
      ensures lastRelaunchPromptTime == old(lastRelaunchPromptTime)
      ensures isLockedOut == old(isLockedOut) && isPro == old(isPro)
      ensures old(Synced()) || old(CurrentMode()) != Single ==> Synced()
    {
      if !isEnabled {
        isEnabled := true;
        backgroundModeEnabled := false;
        store := store[GlobalStateKey := Bool(true)][BackgroundModeKey := Bool(false)];
        IncrementSessionCount(week);
      } else if !backgroundModeEnabled {
        backgroundModeEnabled := true;
        store := store[BackgroundModeKey := Bool(true)];
      } else {
        isEnabled := false;
        backgroundModeEnabled := false;
        store := store[GlobalStateKey := Bool(false)][BackgroundModeKey := Bool(false)];
        CollectAndSaveStats(week, clicks, blocked);
        hadCdpConnection := false;
      }
    }

    /** `syncSessions`: when a driver exists and this instance is not
        locked out, the driver is started (`started` is false when that
        throws) and reports `count` connections; the result says whether
        the relaunch prompt was shown, which needs a relauncher
        (`hasRelauncher`) on top of the prompt coming due. */
    method SyncSessions(hasDriver: bool, started: bool, count: nat, now: int, hasRelauncher: bool) returns (prompted: bool)
      modifies this
      ensures var step := SyncStep(old(CurrentHealth()), hasDriver && !isLockedOut && started, isEnabled, count, now);
              CurrentHealth() == step.0 && prompted == (step.1 && hasRelauncher)
      ensures CurrentMode() == old(CurrentMode()) && store == old(store)
      ensures isLockedOut == old(isLockedOut) && isPro == old(isPro)
    {
      prompted := false;
      if hasDriver && !isLockedOut && started {
        if count > 0 {
          hadCdpConnection := true;
        } else if hadCdpConnection && isEnabled {
          if now - lastRelaunchPromptTime > PromptCooldown {
            lastRelaunchPromptTime := now;
            prompted := hasRelauncher;
          }
        }
      }
    }

    /** One tick of the polling interval in `startPolling`, owning the
        per-IDE lock under the extension's id; `synced` says whether the
        tick goes on to sync the sessions. */
    method PollTick(now: int) returns (synced: bool, statusRefreshed: bool)
      modifies this
      ensures var t := ExtensionStore.PollTick(old(store), isEnabled, old(isLockedOut), PollLockKey(ide), extensionId, now);
              store == t.store && isLockedOut == t.lockedOut && synced == t.synced && statusRefreshed == t.statusRefreshed
      ensures CurrentMode() == old(CurrentMode()) && CurrentHealth() == old(CurrentHealth()) && isPro == old(isPro)
    {
      synced, statusRefreshed := false, false;
      if !isEnabled {
        return;
      }
      var lockKey := PollLockKey(ide);
      if HeldByOther(store, lockKey, extensionId, now) {
        if !isLockedOut {
          isLockedOut := true;
          statusRefreshed := true;
        }
        return;
      }
      store := store[lockKey := Str(extensionId)][PingKey(lockKey) := Num(now)];
      if isLockedOut {
        isLockedOut := false;
        statusRefreshed := true;
      }
      synced := true;
    }

    /** `checkInstanceLock`, under `INSTANCE_ID`. */
    method CheckInstanceLock(now: int) returns (granted: bool)
      modifies this
      ensures var c := ExtensionStore.CheckInstanceLock(isPro, old(store), instanceId, now);
              granted == c.granted && store == c.store
      ensures CurrentMode() == old(CurrentMode()) && CurrentHealth() == old(CurrentHealth())
      ensures isLockedOut == old(isLockedOut) && isPro == old(isPro)
    {
      if isPro {
        return true;
      }
      if !Flag(store, LockKey) || HeartbeatStale(store, now) {
        store := store[LockKey := Str(instanceId)][HeartbeatKey := Num(now)];
        return true;
      }
      if store[LockKey] == Str(instanceId) {
        store := store[HeartbeatKey := Num(now)];
        return true;
      }
      return false;
    }

    /** `checkEnvironmentAndStart`; the registry keys use the lower-cased
        IDE name. */
    method CheckEnvironmentAndStart(host: Host) returns (r: Startup)
      modifies this
      ensures r == StartupSpec(host, isEnabled, Lower(ide), old(store))
      ensures store == r.store
      ensures CurrentMode() == old(CurrentMode()) && CurrentHealth() == old(CurrentHealth())
      ensures isLockedOut == old(isLockedOut) && isPro == old(isPro)
    {
      var mode: StartMode;
      var reg, world := host.reg, host.world;
      if host.cdpAvailable {
        store := store[RegistryConfiguredKey := Bool(true)];
        mode := CdpReady;
      } else if !host.hasRelauncher {
        mode := NoRelauncher;
      } else if Flag(store, RegistryConfiguredKey) {
        mode := AlreadyConfigured;
      } else if Flag(store, SkipPromptKey) {
        mode := LimitedMode;
      } else {
        var registry;
        registry, reg := ConfigureWindowsRegistry(host.env.platform, Lower(ide), host.reg, host.writeOk);
        store := store[RegistryConfiguredKey := Bool(true)];
        var relaunch := RelaunchWithCdp(host.env, host.world, host.stamp, host.oracles);
        world := relaunch.world;
        mode := FirstRun(registry, relaunch);
        if relaunch.success && relaunch.action == Relaunched {
          return Startup(mode, false, store, reg, world);
        }
      }
      r := Startup(mode, isEnabled, store, reg, world);
    }

    /** `updateStatusBar`'s text. */
    function StatusBarText(): (t: string)
      reads this
      ensures t == OffText <==> !isEnabled
    {
      StatusText(CurrentMode())
    }
  }
}
