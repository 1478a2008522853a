/** Making a launch entry start the IDE with the debugging-port flag:
    the Windows shortcut rewrite through the modify script, the macOS
    wrapper script, the Linux `.desktop` copy, the dispatch between them,
    and the loop that patches every entry found. */
module EntryPatcher {
  import opened Text
  import opened PortFlag
  import opened Paths
  import opened HelperOutput
  import opened DesktopFile
  import opened LaunchEntries

  /** A patch result and the machine after the patch. */
  datatype Patched = Patched(result: PatchResult, world: World)

  const AlreadyFlagged := PatchResult(true, false, "Already has CDP flag")

  // ---------------------------------------------------------------------
  // Windows

  /** What the modify script prints when saving the shortcut throws. */
  function SaveFailedLines(args: string, target: string, msg: string): seq<string> {
    ["BEFORE_ARGS:" + args, "TARGET:" + target, "ERROR:" + msg]
  }

  /** The modify script's output for the shortcut at `p`: its normal
      report, an error after the first two lines when the save fails, or
      an error alone when the shell cannot open the shortcut. */
  function ModifyOutput(w: World, p: string): ExecResult {
    if p !in w.links then Ran(Emit(ErrorLines(w.failure)))
    else
      var l := w.links[p];
      if !WindowsRule(l.args).AlreadyCorrect? && !w.writable then Ran(Emit(SaveFailedLines(l.args, l.target, w.failure)))
      else Ran(Emit(ModifyScriptLines(l.args, l.target)))
  }

  /** The shortcuts after the modify script: the rule's new arguments are
      saved unless the arguments were already correct or the save
      fails. */
  function ModifiedLinks(w: World, p: string): (w': World)
    ensures w'.files == w.files && w'.dirs == w.dirs
  {
    if p !in w.links then w
    else
      var l := w.links[p];
      var o := WindowsRule(l.args);
      if o.AlreadyCorrect? || !w.writable then w
      else w.(links := w.links[p := Lnk(o.newArgs, l.target)])
  }

  /** `_modifyWindowsShortcut`. */
  function ModifyWindowsShortcut(w: World, p: string): (r: Patched)
    ensures r.world == ModifiedLinks(w, p)
    ensures r.result.modified ==> r.result.success
  {
    Patched(ParseModifyOutput(ModifyOutput(w, p), Basename(p, true)), ModifiedLinks(w, p))
  }

  lemma SaveFailedHeads(args: string, target: string, msg: string)
    requires '\n' !in args && '\n' !in target && LineValue(msg)
    ensures var ls := SaveFailedLines(args, target, msg);
            (forall j :: 0 <= j < |ls| ==> Printable(ls[j]))
            && ls[0][0] == 'B' && ls[1][0] == 'T' && ls[2] == "ERROR:" + msg
  {
    KeyPrintable("BEFORE_ARGS:", args);
    KeyPrintable("TARGET:", target);
    KeyPrintable("ERROR:", msg);
    KeyHeadChar("BEFORE_ARGS:", args);
    KeyHeadChar("TARGET:", target);
  }

  /** A failed save reads as a failure carrying the exception's
      message. */
  lemma SaveFailedReported(args: string, target: string, msg: string, name: string)
    requires '\n' !in args && '\n' !in target && LineValue(msg)
    ensures ParseModifyOutput(Ran(Emit(SaveFailedLines(args, target, msg))), name) == PatchResult(false, false, msg)
  {
    SaveFailedHeads(args, target, msg);
    LastLineFound(SaveFailedLines(args, target, msg), "ERROR:", msg);
    KeyLine("ERROR:", msg);
  }

  /** Patching a shortcut the shell can open and save reports exactly
      what the rule did to its arguments. */
  lemma WindowsPatchReports(w: World, p: string)
    requires p in w.links && w.writable
    requires '\n' !in w.links[p].args && '\n' !in w.links[p].target
    ensures ModifyWindowsShortcut(w, p).result == Reported(WindowsRule(w.links[p].args), Basename(p, true))
  {
    ModifyRoundTrip(w.links[p].args, w.links[p].target, Basename(p, true));
  }

  /** A shortcut the rule changes is saved with the new arguments and its
      target, and afterwards carries the flag both for the launcher's
      case-sensitive test and for PowerShell's `-match`. Arguments the rule
      leaves alone hold a port flag for `-match`, in any letter case. */
  lemma WindowsPatchInstalls(w: World, p: string)
    requires p in w.links && w.writable
    ensures var l := w.links[p];
            var o := WindowsRule(l.args);
            var w1 := ModifyWindowsShortcut(w, p).world;
            p in w1.links
            && (o.AlreadyCorrect? ==> w1 == w && HasMatch(l.args, true))
            && (!o.AlreadyCorrect? ==>
                  w1.links[p] == Lnk(o.newArgs, l.target) && Contains(o.newArgs, FlagName) && HasMatch(o.newArgs, true))
  {
    if !WindowsRule(w.links[p].args).AlreadyCorrect? {
      WindowsRuleInstallsFlag(w.links[p].args);
    }
  }

  /** Patching the same shortcut a second time reports
      `modified = false` and changes nothing. */
  lemma WindowsPatchTwice(w: World, p: string)
    requires p in w.links && w.writable
    requires '\n' !in w.links[p].args && '\n' !in w.links[p].target
    ensures var w1 := ModifyWindowsShortcut(w, p).world;
            var r2 := ModifyWindowsShortcut(w1, p);
            r2.result == PatchResult(true, false, "Already configured with correct port")
            && r2.world == w1
  {
    var l := w.links[p];
    var o := WindowsRule(l.args);
    var w1 := ModifyWindowsShortcut(w, p).world;
    if o.AlreadyCorrect? {
      ModifyRoundTrip(l.args, l.target, Basename(p, true));
    } else {
      RuleKeepsLine(l.args);
      WindowsRuleTwice(l.args);
      ModifyRoundTrip(o.newArgs, l.target, Basename(p, true));
    }
  }

  /** A save that throws is reported as a failure with its message, and
      the shortcut keeps its arguments. */
  lemma WindowsSaveFails(w: World, p: string)
    requires p in w.links && !w.writable && LineValue(w.failure)
    requires '\n' !in w.links[p].args && '\n' !in w.links[p].target
    requires !WindowsRule(w.links[p].args).AlreadyCorrect?
    ensures ModifyWindowsShortcut(w, p) == Patched(PatchResult(false, false, w.failure), w)
  {
    SaveFailedReported(w.links[p].args, w.links[p].target, w.failure, Basename(p, true));
  }

  // ---------------------------------------------------------------------
  // Linux

  const AlreadyCorrectMessage: string := "Already configured with correct port"

  /** `_modifyLinuxDesktop`: read the launcher, patch it, and write the
      result to the user copy unless nothing changed. */
  function ModifyLinuxDesktop(w: World, p: string, home: string): (r: Patched)
    ensures r.result.modified ==> r.result.success
    ensures !r.result.modified ==> r.world == w
    ensures r.world.links == w.links
  {
    if p !in w.files then Patched(PatchResult(false, false, w.failure), w)
    else
      match PatchDesktop(w.files[p])
      case Unchanged => Patched(PatchResult(true, false, AlreadyCorrectMessage), w)
      case Rewritten(content) =>
        if !w.writable then Patched(PatchResult(false, false, w.failure), w)
        else
          var target := TargetPath(p, home);
          Patched(PatchResult(true, true, "Modified: " + Basename(target, false)),
                  w.(files := w.files[target := content], dirs := w.dirs + {UserAppsDir(home)}))
  }

  /** Patching a launcher without the flag writes a user copy whose
      command carries the flag, so the copy is discovered as flagged and a
      second patch of the copy changes nothing. */
  lemma LinuxPatchApplied(w: World, p: string, home: string)
    requires p in w.files && w.writable
    requires !Contains(w.files[p], FlagName) && FindExec(w.files[p], 0).Some?
    ensures var r := ModifyLinuxDesktop(w, p, home);
            var target := TargetPath(p, home);
            r.result.success && r.result.modified
            && target in r.world.files
            && LinuxEntry(target, r.world.files[target]).hasFlag
            && LinuxEntry(target, r.world.files[target]).kind == UserDesktop
            && ModifyLinuxDesktop(r.world, target, home).result == PatchResult(true, false, AlreadyCorrectMessage)
  {
    var c := w.files[p];
    PatchAppendsFlag(c);
    PatchAppendedTwice(c);
    TargetIsUserCopy(p, home);
  }

  /** A launcher that names the flag with the base port everywhere is
      reported correct and nothing is written. */
  lemma LinuxAlreadyCorrect(w: World, p: string, home: string)
    requires p in w.files && Contains(w.files[p], FlagName) && ReplacePorts(w.files[p], false) == w.files[p]
    ensures ModifyLinuxDesktop(w, p, home) == Patched(PatchResult(true, false, AlreadyCorrectMessage), w)
  {
    PatchFixedPoint(w.files[p]);
  }

  // ---------------------------------------------------------------------
  // macOS

  /** The places the application's executable is looked for, in
      order. */
  function BinaryCandidates(ide: string): seq<string> {
    var bundle := AppBundlePath(ide);
    [bundle + "/Contents/MacOS/" + ide,
     bundle + "/Contents/Resources/app/bin/" + Lower(ide),
     bundle + "/Contents/MacOS/Electron"]
  }

  /** The first candidate that exists. */
  function FirstExisting(w: World, cands: seq<string>): (r: Option<string>)
    ensures r.Some? ==> r.value in cands && Exists(w, r.value)
    ensures r.None? ==> forall k :: 0 <= k < |cands| ==> !Exists(w, cands[k])
  {
    if cands == [] then None
    else if Exists(w, cands[0]) then Some(cands[0])
    else FirstExisting(w, cands[1..])
  }

  /** The loop over the possible binaries: stop at the first that
      exists. */
  method FindBinary(w: World, cands: seq<string>) returns (binary: Option<string>)
    ensures binary == FirstExisting(w, cands)
  {
    binary := None;
    var i := 0;
    while i < |cands|
      invariant 0 <= i <= |cands|
      invariant FirstExisting(w, cands) == FirstExisting(w, cands[i..])
      decreases |cands| - i
    {
      if Exists(w, cands[i]) {
        binary := Some(cands[i]);
        return;
      }
      assert cands[i..][1..] == cands[i + 1..];
      i := i + 1;
    }
  }

  const Shebang: string := "#!/bin/bash\n"

  function WrapperHeader(ide: string, stamp: string): string {
    Shebang + HeaderComment(ide, stamp)
  }

  function HeaderComment(ide: string, stamp: string): string {
    "# Auto-Agent-AntiGravity - " + ide + " with CDP enabled\n# Generated: " + stamp + "\n"
  }

  /** The text of the wrapper script before the flag, and after it. */
  function WrapperLead(ide: string, stamp: string, binary: Option<string>): string {
    WrapperHeader(ide, stamp) + Launcher(ide, binary)
  }

  /** The line that starts the IDE, up to the flag: the binary found, or
      `open -a` on the bundle. */
  function Launcher(ide: string, binary: Option<string>): string {
    match binary
    case None =>
      "# Uses 'open -a' for reliable app launching with arguments\nopen -a \"" + AppBundlePath(ide) + "\" --args "
    case Some(b) => "\"" + b + "\" "
  }

  const WrapperTail: string := " \"$@\"\n"

  /** The wrapper script: run the binary found, or `open -a` the bundle,
      with the flag and the script's own arguments. */
  function WrapperScript(ide: string, stamp: string, binary: Option<string>): string {
    WrapperLead(ide, stamp, binary) + Flag + WrapperTail
  }

  /** The result `_createMacOSWrapper` reports, and the machine after it. */
  function MacWrapperSpec(w: World, home: string, ide: string, stamp: string): (r: Patched) {
    if !w.writable then Patched(PatchResult(false, false, w.failure), w)
    else
      var path := WrapperPath(home, ide);
      var script := WrapperScript(ide, stamp, FirstExisting(w, BinaryCandidates(ide)));
      Patched(PatchResult(true, true, "Created wrapper script. Launch via: " + path),
              w.(files := w.files[path := script], dirs := w.dirs + {WrapperDir(home)}))
  }

  /** A concatenation starts with its first part. */
  lemma StartsWithFirst(a: string, b: string, c: string, d: string, e: string)
    ensures StartsWith(a + b + c + d + e, a)
  {
    assert a + b + c + d + e == a + (b + c + d + e);
    SplitAppend(a, b + c + d + e);
  }

  /** The wrapper is a bash script. */
  lemma WrapperIsBash(ide: string, stamp: string, binary: Option<string>)
    ensures StartsWith(WrapperScript(ide, stamp, binary), Shebang)
  {
    StartsWithFirst(Shebang, HeaderComment(ide, stamp), Launcher(ide, binary), Flag, WrapperTail);
  }

  /** The wrapper is a bash script that passes the flag and then the
      arguments it was given. */
  lemma WrapperScriptShape(ide: string, stamp: string, binary: Option<string>)
    ensures var s := WrapperScript(ide, stamp, binary);
            StartsWith(s, Shebang) && Contains(s, FlagName) && EndsWith(s, Flag + WrapperTail)
  {
    var lead := WrapperLead(ide, stamp, binary);
    var s := WrapperScript(ide, stamp, binary);
    FlagInside(lead, WrapperTail);
    assert s == lead + (Flag + WrapperTail);
    assert s[|s| - |Flag + WrapperTail|..] == Flag + WrapperTail;
    WrapperIsBash(ide, stamp, binary);
  }

  /** Without a writable disk the wrapper reports the write's error and
      nothing changes; otherwise it reports a modification and the wrapper
      file holds a script naming the flag, shortcuts untouched. */
  lemma MacWrapperOutcome(w: World, home: string, ide: string, stamp: string)
    ensures var r := MacWrapperSpec(w, home, ide, stamp);
            !w.writable ==> r == Patched(PatchResult(false, false, w.failure), w)
    ensures var r := MacWrapperSpec(w, home, ide, stamp);
            w.writable ==>
              r.result.success && r.result.modified && r.world.links == w.links
              && WrapperPath(home, ide) in r.world.files && Contains(r.world.files[WrapperPath(home, ide)], FlagName)
  {
    WrapperScriptShape(ide, stamp, FirstExisting(w, BinaryCandidates(ide)));
  }

  /** `_createMacOSWrapper`. */
  method CreateMacWrapper(w: World, home: string, ide: string, stamp: string) returns (r: Patched)
    ensures r == MacWrapperSpec(w, home, ide, stamp)
  {
    if !w.writable {
      return Patched(PatchResult(false, false, w.failure), w);
    }
    var path := WrapperPath(home, ide);
    var binary := FindBinary(w, BinaryCandidates(ide));
    var script := WrapperScript(ide, stamp, binary);
    r := Patched(PatchResult(true, true, "Created wrapper script. Launch via: " + path),
                 w.(files := w.files[path := script], dirs := w.dirs + {WrapperDir(home)}));
  }

  /** A created wrapper names the flag, so the next discovery lists it as
      a flagged wrapper entry first. */
  lemma MacWrapperFlagged(w: World, home: string, ide: string, stamp: string)
    requires w.writable
    ensures var w' := MacWrapperSpec(w, home, ide, stamp).world;
            var es := MacEntries(w', home, ide);
            es != [] && es[0] == Entry(WrapperPath(home, ide), true, Wrapper, "", "", "")
  {
    var binary := FirstExisting(w, BinaryCandidates(ide));
    FlagInside(WrapperLead(ide, stamp, binary), WrapperTail);
  }

  // ---------------------------------------------------------------------
  // Dispatch

  /** `ensureShortcutHasFlag`, as a value. */
  function EnsureSpec(env: Env, e: Entry, w: World, stamp: string): (r: Patched)
    ensures e.hasFlag ==> r == Patched(AlreadyFlagged, w)
    ensures r.result.modified ==> r.result.success
  {
    if e.hasFlag then Patched(AlreadyFlagged, w)
    else
      match env.platform
      case Windows => ModifyWindowsShortcut(w, e.path)
      case MacOS => MacWrapperSpec(w, env.home, IdeName(env.appName), stamp)
      case Linux => ModifyLinuxDesktop(w, e.path, env.home)
  }

  /** `ensureShortcutHasFlag`: an entry already carrying the flag is
      reported as such and nothing is touched; any other entry goes to its
      platform's patcher. */
  method EnsureShortcutHasFlag(env: Env, e: Entry, w: World, stamp: string) returns (r: Patched)
    ensures r == EnsureSpec(env, e, w, stamp)
  {
    if e.hasFlag {
      return Patched(AlreadyFlagged, w);
    }
    match env.platform
    case Windows =>
      r := ModifyWindowsShortcut(w, e.path);
    case MacOS =>
      r := CreateMacWrapper(w, env.home, IdeName(env.appName), stamp);
    case Linux =>
      r := ModifyLinuxDesktop(w, e.path, env.home);
  }

  /** An application bundle is never flagged, so on a writable machine
      every patch of it writes the wrapper again and counts as a
      modification. */
  lemma MacBundleAlwaysRewritten(env: Env, w: World, app: Entry, stamp: string)
    requires env.platform == MacOS && w.writable && app.kind == AppBundle && !app.hasFlag
    ensures EnsureSpec(env, app, w, stamp).result.modified
    ensures EnsureSpec(env, app, EnsureSpec(env, app, w, stamp).world, stamp).result.modified
  {
  }

  // ---------------------------------------------------------------------
  // Patching every entry

  /** Whether an entry's patch counts. */
  function Counted(r: PatchResult): nat {
    if r.success && r.modified then 1 else 0
  }

  /** The patch applied to one entry on a given machine. */
  function Patcher(env: Env, stamp: string): (World, Entry) -> Patched {
    (w: World, e: Entry) => EnsureSpec(env, e, w, stamp)
  }

  /** `configureAllShortcuts`, as a value, for a given way of patching one
      entry: the number of entries whose patch succeeded and modified
      something, and the machine after patching the entries in order.
      Entries without a path are skipped. */
  function ConfigureSpec(patch: (World, Entry) -> Patched, w: World, entries: seq<Entry>): (r: (nat, World))
    ensures r.0 <= |entries|
    decreases |entries|
  {
    if entries == [] then (0, w)
    else if entries[0].path == [] then ConfigureSpec(patch, w, entries[1..])
    else
      var p := patch(w, entries[0]);
      var rest := ConfigureSpec(patch, p.world, entries[1..]);
      (Counted(p.result) + rest.0, rest.1)
  }

  /** The loop's invariant: `count` entries counted so far, and patching
      the entries from `i` on, from machine `w`, finishes the job. */
  ghost predicate ConfigureInvariant(patch: (World, Entry) -> Patched, w0: World, entries: seq<Entry>,
                                     i: nat, count: nat, w: World)
    requires i <= |entries|
  {
    var rest := ConfigureSpec(patch, w, entries[i..]);
    var total := ConfigureSpec(patch, w0, entries);
    count + rest.0 == total.0 && rest.1 == total.1
  }

  /** One step of the loop keeps its invariant: skip an entry without a
      path, otherwise patch it and count it. */
  lemma ConfigureAdvance(patch: (World, Entry) -> Patched, w0: World, entries: seq<Entry>,
                         i: nat, count: nat, w: World)
    requires i < |entries| && ConfigureInvariant(patch, w0, entries, i, count, w)
    ensures entries[i].path == [] ==> ConfigureInvariant(patch, w0, entries, i + 1, count, w)
    ensures entries[i].path != [] ==>
              var p := patch(w, entries[i]);
              ConfigureInvariant(patch, w0, entries, i + 1, count + Counted(p.result), p.world)
  {
    assert entries[i..][1..] == entries[i + 1..];
  }

  /** Once every entry is handled, the invariant gives the result. */
  lemma ConfigureDone(patch: (World, Entry) -> Patched, w0: World, entries: seq<Entry>, count: nat, w: World)
    requires ConfigureInvariant(patch, w0, entries, |entries|, count, w)
    ensures count == ConfigureSpec(patch, w0, entries).0 && w == ConfigureSpec(patch, w0, entries).1
  {
    assert entries[|entries|..] == [];
  }

  /** One entry's patch, as the loop below sees it. */
  method PatchEntry(env: Env, e: Entry, w: World, stamp: string) returns (p: Patched)
    ensures p == Patcher(env, stamp)(w, e)
  {
    p := EnsureShortcutHasFlag(env, e, w, stamp);
  }

  /** `configureAllShortcuts`. */
  method ConfigureAllShortcuts(env: Env, w: World, entries: seq<Entry>, stamp: string)
    returns (count: nat, w': World)
    ensures count == ConfigureSpec(Patcher(env, stamp), w, entries).0
    ensures w' == ConfigureSpec(Patcher(env, stamp), w, entries).1
    ensures count <= |entries|
  {
    ghost var patch := Patcher(env, stamp);
    count := 0;
    w' := w;
    var i := 0;
    assert entries[0..] == entries;
    while i < |entries|
      invariant 0 <= i <= |entries|
      invariant ConfigureInvariant(patch, w, entries, i, count, w')
      decreases |entries| - i
    {
      var e := entries[i];
      ConfigureAdvance(patch, w, entries, i, count, w');
      if e.path != [] {
        var p := PatchEntry(env, e, w', stamp);
        count := count + Counted(p.result);
        w' := p.world;
      }
      i := i + 1;
    }
    ConfigureDone(patch, w, entries, count, w');
  }

  /** Entries that all carry the flag are left alone: nothing is counted
      and nothing changes. */
  lemma {:induction false} ConfigureFlaggedNoop(env: Env, w: World, entries: seq<Entry>, stamp: string)
    requires forall k :: 0 <= k < |entries| ==> entries[k].hasFlag
    ensures ConfigureSpec(Patcher(env, stamp), w, entries) == (0, w)
    decreases |entries|
  {
    if entries != [] {
      ConfigureFlaggedNoop(env, w, entries[1..], stamp);
    }
  }
}
