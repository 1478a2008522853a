/** `checkEnvironmentAndStart`: the start-up decision. With the debugging
    port available the extension just records that the registry counts as
    configured. Without it, and with a relauncher, the two persisted flags
    decide: once the registry has been configured nothing more is tried;
    a user who chose to skip runs in limited mode; otherwise (the first
    run) the registry handlers are rewritten, the flag is recorded and the
    IDE is relaunched. Polling then starts when the extension is enabled,
    unless the first run's relaunch is under way. */
module Bootstrap {
  import opened LaunchEntries
  import opened Registry
  import opened RelaunchConductor
  import opened ExtensionStore

  /** The outside world at start-up: whether the driver sees the debugging
      port, whether a relauncher was created, the registry, whether
      registry writes work, and what the relauncher works on. */
  datatype Host = Host(cdpAvailable: bool, hasRelauncher: bool, reg: map<string, string>, writeOk: bool,
                       env: Env, world: World, stamp: string, oracles: Oracles)

  datatype StartMode =
    | CdpReady
    | NoRelauncher
    | AlreadyConfigured
    | LimitedMode
    | FirstRun(registry: RegistryResult, relaunch: Relaunch)

  /** The decision taken, whether polling started, and the store, registry
      and machine afterwards. */
  datatype Startup = Startup(mode: StartMode, polling: bool, store: Store, reg: map<string, string>, world: World)

  /** Whether a first-run relaunch is under way, which ends start-up
      early. */
  predicate Relaunching(m: StartMode) {
    m.FirstRun? && m.relaunch.success && m.relaunch.action == Relaunched
  }

  /** `checkEnvironmentAndStart`, as a value; `ide` is the lower-cased IDE
      name the registry keys use. */
  function StartupSpec(host: Host, enabled: bool, ide: string, store: Store): (r: Startup)
    ensures host.cdpAvailable ==> r.mode == CdpReady && r.store == store[RegistryConfiguredKey := Bool(true)]
    ensures !host.cdpAvailable && host.hasRelauncher && Flag(store, RegistryConfiguredKey) ==> r.mode == AlreadyConfigured
    ensures !host.cdpAvailable && host.hasRelauncher && !Flag(store, RegistryConfiguredKey) && Flag(store, SkipPromptKey)
            ==>
            r.mode == LimitedMode
    ensures r.mode.FirstRun? <==>
            !host.cdpAvailable && host.hasRelauncher && !Flag(store, RegistryConfiguredKey) && !Flag(store, SkipPromptKey)
    ensures !r.mode.FirstRun? ==> r.reg == host.reg && r.world == host.world
    ensures !r.mode.FirstRun? && !r.mode.CdpReady? ==> r.store == store
    ensures r.mode.FirstRun? ==> r.store == store[RegistryConfiguredKey := Bool(true)]
    ensures r.mode.FirstRun? ==> r.mode.relaunch == RelaunchSpec(host.env, host.world, host.stamp, host.oracles)
    ensures r.mode.FirstRun? ==> r.world == r.mode.relaunch.world
    ensures r.mode.FirstRun? ==> r.mode.registry == RegistrySpec(host.env.platform, ide, host.reg, host.writeOk).0
    ensures r.mode.FirstRun? ==> r.reg == RegistrySpec(host.env.platform, ide, host.reg, host.writeOk).1
    ensures r.polling <==> enabled && !Relaunching(r.mode)
  {
    if host.cdpAvailable then
      Startup(CdpReady, enabled, store[RegistryConfiguredKey := Bool(true)], host.reg, host.world)
    else if !host.hasRelauncher then Startup(NoRelauncher, enabled, store, host.reg, host.world)
    else if Flag(store, RegistryConfiguredKey) then Startup(AlreadyConfigured, enabled, store, host.reg, host.world)
    else if Flag(store, SkipPromptKey) then Startup(LimitedMode, enabled, store, host.reg, host.world)
    else
      var registry := RegistrySpec(host.env.platform, ide, host.reg, host.writeOk);
      var relaunch := RelaunchSpec(host.env, host.world, host.stamp, host.oracles);
      var mode := FirstRun(registry.0, relaunch);
      Startup(mode, enabled && !Relaunching(mode), store[RegistryConfiguredKey := Bool(true)], registry.1, relaunch.world)
  }

  /** The first run happens at most once: whatever it did, and whatever
      the outside world looks like at the next start, the next start-up
      without the debugging port finds the registry configured and
      neither rewrites the registry nor relaunches. */
  lemma FirstRunOnce(host: Host, enabled: bool, ide: string, store: Store, next: Host, enabled': bool)
    requires StartupSpec(host, enabled, ide, store).mode.FirstRun?
    requires !next.cdpAvailable && next.hasRelauncher
    ensures var s1 := StartupSpec(host, enabled, ide, store).store;
            var r := StartupSpec(next, enabled', ide, s1);
            r.mode == AlreadyConfigured && r.store == s1 && r.reg == next.reg && r.world == next.world
  {
    var s1 := StartupSpec(host, enabled, ide, store).store;
    assert Flag(s1, RegistryConfiguredKey);
  }

  /** Once the debugging port has been seen, the same holds: later
      start-ups never relaunch. */
  lemma CdpSeenNeverRelaunches(host: Host, enabled: bool, ide: string, store: Store, next: Host, enabled': bool)
    requires host.cdpAvailable
    ensures var s1 := StartupSpec(host, enabled, ide, store).store;
            !StartupSpec(next, enabled', ide, s1).mode.FirstRun?
  {
    var s1 := StartupSpec(host, enabled, ide, store).store;
    assert Flag(s1, RegistryConfiguredKey);
  }

  /** A first run whose relaunch fails, or takes no action, goes on to
      poll when the extension is enabled. */
  lemma FailedRelaunchStillPolls(host: Host, ide: string, store: Store)
    requires StartupSpec(host, true, ide, store).mode.FirstRun?
    requires !StartupSpec(host, true, ide, store).mode.relaunch.success
    ensures StartupSpec(host, true, ide, store).polling
  {
  }
}
