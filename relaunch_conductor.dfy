/** `relaunchWithCDP`: the tiers the relauncher walks to get an IDE
    instance with the debugging port. Nothing to do when the port already
    answers; otherwise patch every launch entry and relaunch through the
    primary one; when that is impossible or fails, start the running
    executable again with the flag; failing that, report an error. */
module RelaunchConductor {
  import opened Text
  import opened PortFlag
  import opened HelperOutput
  import opened LaunchEntries
  import opened EntryPatcher
  import opened RelaunchCommands

  datatype Action = NoAction | Relaunched | Failed

  /** What was handed to the system to start the new instance. */
  datatype Launch =
    | NoLaunch
    | ThroughEntry(entry: Entry, how: ShortcutLaunch)
    | DirectSpawn(program: string, args: seq<string>)

  /** The answers of the outside world: whether the debugging port
      answers, whether writing and starting the relaunch script works,
      and the error starting the executable throws, if any. */
  datatype Oracles = Oracles(cdpRunning: bool, scriptLaunchOk: bool, spawnError: Option<string>)

  datatype Relaunch = Relaunch(success: bool, action: Action, message: string, launch: Launch, world: World)

  /** The arguments of the direct relaunch. */
  const DirectArgs: seq<string> := [Flag, "--disable-gpu-driver-bug-workarounds", "--ignore-gpu-blacklist"]

  const AlreadyAvailableMessage: string := "CDP already available"
  const UpdatedMessage: string := "快捷方式已更新。正在重启并开启调试调试环境 (CDP)..."
  const RestartMessage: string := "正在重启并开启调试环境 (CDP)..."
  const DirectMessage: string := "找不到可用快捷方式，正在通过 EXE 直接热重启..."
  const NoExecutableMessage: string := "Fatal: No shortcuts found and could not determine IDE executable path."
  const SpawnFailedPrefix: string := "Direct exe relaunch failed: "

  /** The last tier: start the running executable with the flag. */
  function DirectTier(env: Env, w: World, o: Oracles): (r: Relaunch)
    ensures r.world == w
    ensures r.success <==> env.execPath != [] && o.spawnError.None?
    ensures r.success ==> r.launch == DirectSpawn(env.execPath, DirectArgs) && r.action == Relaunched
    ensures !r.success ==> r.launch == NoLaunch && r.action == Failed
  {
    if env.execPath == [] then Relaunch(false, Failed, NoExecutableMessage, NoLaunch, w)
    else
      match o.spawnError
      case Some(m) => Relaunch(false, Failed, SpawnFailedPrefix + m, NoLaunch, w)
      case None => Relaunch(true, Relaunched, DirectMessage, DirectSpawn(env.execPath, DirectArgs), w)
  }

  /** The entry the relauncher restarts through, once every entry has been
      patched, and its own patch. */
  function Primary(env: Env, w: World, stamp: string): (r: (Entry, Patched))
    requires Shortcuts(env, w) != []
  {
    var entries := Shortcuts(env, w);
    var patched := ConfigureSpec(Patcher(env, stamp), w, entries).1;
    var primary := entries[PrimaryIndex(entries)];
    (primary, EnsureSpec(env, primary, patched, stamp))
  }

  /** The primary entry is one discovery found, of a preferred type when
      any entry has one, and its own patch is applied to the machine on
      which every entry has already been patched. */
  lemma PrimaryChoice(env: Env, w: World, stamp: string)
    requires Shortcuts(env, w) != []
    ensures var entries := Shortcuts(env, w);
            var (e, p) := Primary(env, w, stamp);
            && e in entries
            && (Preferred(e.kind) || forall j :: 0 <= j < |entries| ==> !Preferred(entries[j].kind))
            && p == EnsureSpec(env, e, ConfigureSpec(Patcher(env, stamp), w, entries).1, stamp)
  {
  }

  /** The primary entry as the relaunch sees it: marked as flagged when
      its patch modified it. */
  function Marked(e: Entry, r: PatchResult): (m: Entry)
    ensures m.hasFlag <==> e.hasFlag || r.modified
    ensures m.path == e.path && m.kind == e.kind
  {
    if r.modified then e.(hasFlag := true) else e
  }

  /** `relaunchWithCDP`, as a value. */
  function RelaunchSpec(env: Env, w: World, stamp: string, o: Oracles): (r: Relaunch)
    ensures r.action == NoAction <==> o.cdpRunning
    ensures r.success <==> r.action != Failed
    ensures !r.success ==> env.execPath == [] || o.spawnError.Some?
    ensures r.launch.DirectSpawn? ==> r.launch == DirectSpawn(env.execPath, DirectArgs)
    ensures r.launch.ThroughEntry? ==> Shortcuts(env, w) != [] && o.scriptLaunchOk
  {
    if o.cdpRunning then Relaunch(true, NoAction, AlreadyAvailableMessage, NoLaunch, w)
    else if Shortcuts(env, w) == [] then DirectTier(env, w, o)
    else
      var (primary, p) := Primary(env, w, stamp);
      if p.result.success && o.scriptLaunchOk then
        var e := Marked(primary, p.result);
        Relaunch(true, Relaunched, if p.result.modified then UpdatedMessage else RestartMessage,
                 ThroughEntry(e, ShortcutLaunchFor(env, e, p.world)), p.world)
      else DirectTier(env, p.world, o)
  }

  /** `relaunchWithCDP`. */
  method RelaunchWithCdp(env: Env, w: World, stamp: string, o: Oracles) returns (r: Relaunch)
    ensures r == RelaunchSpec(env, w, stamp, o)
  {
    if o.cdpRunning {
      return Relaunch(true, NoAction, AlreadyAvailableMessage, NoLaunch, w);
    }
    var entries := FindShortcuts(env, w);
    var current := w;
    if |entries| > 0 {
      var count;
      count, current := ConfigureAllShortcuts(env, w, entries, stamp);
      var primary := entries[PrimaryIndex(entries)];
      var p := EnsureShortcutHasFlag(env, primary, current, stamp);
      current := p.world;
      if p.result.success {
        if p.result.modified {
          primary := primary.(hasFlag := true);
        }
        if o.scriptLaunchOk {
          var message := if p.result.modified then UpdatedMessage else RestartMessage;
          return Relaunch(true, Relaunched, message, ThroughEntry(primary, ShortcutLaunchFor(env, primary, current)), current);
        }
      }
    }
    r := DirectTier(env, current, o);
  }

  /** When the debugging port already answers, nothing is located,
      patched or started. */
  lemma AlreadyRunning(env: Env, w: World, stamp: string, o: Oracles)
    requires o.cdpRunning
    ensures RelaunchSpec(env, w, stamp, o) == Relaunch(true, NoAction, AlreadyAvailableMessage, NoLaunch, w)
  {
  }

  /** A relaunch through an entry happens only when the primary entry's
      patch succeeded and the relaunch script started; the entry then
      counts as flagged when its patch modified it, and the message says
      whether it was updated. */
  lemma ThroughEntryNeedsPatch(env: Env, w: World, stamp: string, o: Oracles)
    requires RelaunchSpec(env, w, stamp, o).launch.ThroughEntry?
    ensures Shortcuts(env, w) != []
    ensures var (primary, p) := Primary(env, w, stamp);
            var r := RelaunchSpec(env, w, stamp, o);
            p.result.success && o.scriptLaunchOk
            && r.launch.entry == Marked(primary, p.result)
            && r.message == (if p.result.modified then UpdatedMessage else RestartMessage)
            && r.world == p.world
  {
  }

  /** Without launch entries the relauncher goes straight to the direct
      tier, which starts the running executable with exactly the flag and
      the two GPU switches. */
  lemma NoEntriesGoesDirect(env: Env, w: World, stamp: string, o: Oracles)
    requires !o.cdpRunning && Shortcuts(env, w) == []
    requires env.execPath != [] && o.spawnError.None?
    ensures RelaunchSpec(env, w, stamp, o) == Relaunch(true, Relaunched, DirectMessage, DirectSpawn(env.execPath, DirectArgs), w)
  {
  }

  /** A failed patch of the primary entry, or a relaunch script that does
      not start, falls through to the direct tier on the patched
      machine. */
  lemma FallsThroughToDirect(env: Env, w: World, stamp: string, o: Oracles)
    requires !o.cdpRunning && Shortcuts(env, w) != []
    requires !Primary(env, w, stamp).1.result.success || !o.scriptLaunchOk
    ensures RelaunchSpec(env, w, stamp, o) == DirectTier(env, Primary(env, w, stamp).1.world, o)
  {
  }
}
