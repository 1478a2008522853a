/** The commands the relauncher hands to the operating system to start the
    IDE again through a launch entry: the batch command line on Windows,
    the shell command on macOS, and the fallbacks of the Linux script. */
module RelaunchCommands {
  import opened Text
  import opened PortFlag
  import opened Paths
  import opened HelperOutput
  import opened LaunchEntries
  import opened DesktopFile

  function Quote(s: string): string {
    "\"" + s + "\""
  }

  function QuoteAll(folders: seq<string>): (r: seq<string>)
    ensures |r| == |folders|
    ensures forall k :: 0 <= k < |r| ==> r[k] == Quote(folders[k])
  {
    if folders == [] then [] else [Quote(folders[0])] + QuoteAll(folders[1..])
  }

  /** The workspace folders, each in double quotes, separated by
      spaces. */
  function FolderArgs(folders: seq<string>): string {
    Join(QuoteAll(folders), " ")
  }

  /** Every part of a joined list appears in the result. */
  lemma {:induction false} JoinContainsPart(parts: seq<string>, sep: string, k: nat)
    requires k < |parts|
    ensures Contains(Join(parts, sep), parts[k])
    decreases |parts|
  {
    if |parts| == 1 {
      ContainsSelf(parts[0]);
    } else if k == 0 {
      ContainsSelf(parts[0]);
      ContainsEither(parts[0], sep + Join(parts[1..], sep), parts[0]);
      Assoc3(parts[0], sep, Join(parts[1..], sep));
    } else {
      JoinContainsPart(parts[1..], sep, k - 1);
      ContainsEither(parts[0] + sep, Join(parts[1..], sep), parts[k]);
    }
  }

  /** Every workspace folder is passed, quoted, to the new instance. */
  lemma FolderArgsHasFolder(folders: seq<string>, k: nat)
    requires k < |folders|
    ensures Contains(FolderArgs(folders), Quote(folders[k]))
  {
    JoinContainsPart(QuoteAll(folders), " ", k);
  }

  // ---------------------------------------------------------------------
  // Windows

  /** The executable the Windows relaunch starts: the entry's target, else
      the running executable, else the target read again from the
      shortcut. */
  function ResolvedTarget(e: Entry, execPath: string, w: World): string {
    if e.target != [] then e.target
    else if execPath != [] then execPath
    else if e.path != [] then ParseReadOutput(ReadShortcut(w, e.path)).target
    else []
  }

  /** The executable is looked for in order: the entry's target, the
      running executable, and only then the shortcut itself. */
  lemma ResolvedTargetOrder(e: Entry, execPath: string, w: World)
    ensures e.target != [] ==> ResolvedTarget(e, execPath, w) == e.target
    ensures e.target == [] && execPath != [] ==> ResolvedTarget(e, execPath, w) == execPath
    ensures e.target == [] && execPath == [] && e.path == [] ==> ResolvedTarget(e, execPath, w) == []
  {
  }

  const StartPrefix: string := "start \"\" "

  /** Whether the batch starts the shortcut itself rather than an
      executable. */
  predicate UsesShortcut(exe: string) {
    exe == [] || EndsWith(exe, ".lnk")
  }

  /** The command line of the relaunch batch: the shortcut, without the
      flag, when no executable is known or the target is itself a
      shortcut; otherwise the executable followed by the flag. */
  function WindowsCommandLine(path: string, exe: string, folders: seq<string>): string {
    if UsesShortcut(exe) then StartPrefix + Quote(path) + " " + FolderArgs(folders)
    else StartPrefix + Quote(exe) + " " + Flag + " " + FolderArgs(folders)
  }

  /** The batch starts the executable with the flag after it, or the
      shortcut with the folders right after it; either way the folders
      close the command. */
  lemma WindowsCommandShape(path: string, exe: string, folders: seq<string>)
    ensures var c := WindowsCommandLine(path, exe, folders);
            EndsWith(c, " " + FolderArgs(folders))
            && (UsesShortcut(exe) ==> StartsWith(c, StartPrefix + Quote(path) + " "))
            && (!UsesShortcut(exe) ==>
                  StartsWith(c, StartPrefix + Quote(exe) + " " + Flag) && Contains(c, FlagName))
  {
    var f := FolderArgs(folders);
    if UsesShortcut(exe) {
      PrefixSuffix(StartPrefix + Quote(path), " ", f);
    } else {
      var a := StartPrefix + Quote(exe) + " ";
      PrefixSuffix(a, Flag, " " + f);
      Assoc3(a, Flag, " " + f);
      Assoc3(a + Flag, " ", f);
      FlagInside(a, " " + f);
      PrefixSuffix(a + Flag, " ", f);
    }
  }

  /** `a + b + c` starts with `a + b` and ends with `b + c`. */
  lemma PrefixSuffix(a: string, b: string, c: string)
    ensures StartsWith(a + b + c, a + b) && EndsWith(a + b + c, b + c)
  {
    var s := a + b + c;
    assert s[..|a + b|] == a + b;
    assert s[|s| - |b + c|..] == b + c;
  }

  /** When neither the entry nor the process knows the executable, the
      target is read again from the shortcut and found exactly. */
  lemma ReReadTarget(e: Entry, w: World)
    requires e.target == [] && e.path in w.links && e.path != []
    requires LineValue(w.links[e.path].args) && LineValue(w.links[e.path].target)
    ensures ResolvedTarget(e, [], w) == w.links[e.path].target
  {
    ReadRoundTrip(w.links[e.path].args, w.links[e.path].target);
  }

  // ---------------------------------------------------------------------
  // macOS

  /** The relaunch command: a wrapper is run as it is, since it passes the
      flag itself; an application bundle is opened with the flag. */
  function MacLaunchCommand(e: Entry, folders: seq<string>): string {
    if e.kind == Wrapper then Quote(e.path) + " " + FolderArgs(folders)
    else "open -a " + Quote(e.path) + " --args " + Flag + " " + FolderArgs(folders)
  }

  /** A wrapper is started directly; anything else is opened with the
      flag. */
  lemma MacCommandShape(e: Entry, folders: seq<string>)
    ensures var c := MacLaunchCommand(e, folders);
            (e.kind == Wrapper ==> StartsWith(c, Quote(e.path) + " "))
            && (e.kind != Wrapper ==> StartsWith(c, "open -a " + Quote(e.path)) && Contains(c, FlagName))
  {
    var f := FolderArgs(folders);
    if e.kind == Wrapper {
      PrefixSuffix(Quote(e.path), " ", f);
    } else {
      var a := "open -a " + Quote(e.path);
      var t := " --args " + Flag + " " + f;
      assert MacLaunchCommand(e, folders) == a + t;
      assert (a + t)[..|a|] == a;
      FlagInside(" --args ", " " + f);
      assert t == " --args " + Flag + (" " + f);
      ContainsEither(a, t, FlagName);
    }
  }

  // ---------------------------------------------------------------------
  // Linux

  /** The desktop-entry field codes the relauncher removes. */
  predicate IsFieldCode(c: char) {
    c == 'f' || c == 'F' || c == 'u' || c == 'U' || c == 'd' || c == 'D' || c == 'n' || c == 'N'
    || c == 'i' || c == 'c' || c == 'k' || c == 'v' || c == 'm'
  }

  /** `s.replace(/%[fFuUdDnNickvm]/g, '')`: one left-to-right pass that
      drops each `%` followed by a field code. */
  function StripFieldCodes(s: string): (r: string)
    ensures |r| <= |s|
    decreases |s|
  {
    if s == [] then []
    else if |s| >= 2 && s[0] == '%' && IsFieldCode(s[1]) then StripFieldCodes(s[2..])
    else [s[0]] + StripFieldCodes(s[1..])
  }

  /** A command without `%` is left as it is. */
  lemma {:induction false} StripNoPercent(s: string)
    requires '%' !in s
    ensures StripFieldCodes(s) == s
    decreases |s|
  {
    if s != [] {
      assert '%' !in s[1..];
      StripNoPercent(s[1..]);
    }
  }

  /** Stripping works piece by piece, as long as the first piece does not
      end with a `%` that the second piece could complete. */
  lemma {:induction false} StripAppend(a: string, b: string)
    requires a == [] || a[|a| - 1] != '%'
    ensures StripFieldCodes(a + b) == StripFieldCodes(a) + StripFieldCodes(b)
    decreases |a|
  {
    if a == [] {
      assert a + b == b;
    } else {
      var x := a + b;
      assert x[0] == a[0];
      if |a| >= 2 && a[0] == '%' && IsFieldCode(a[1]) {
        assert x[1] == a[1];
        assert x[2..] == a[2..] + b;
        StripAppend(a[2..], b);
        assert StripFieldCodes(x) == StripFieldCodes(x[2..]);
      } else {
        assert x[1..] == a[1..] + b;
        if |a| >= 2 {
          assert x[1] == a[1];
        } else {
          assert a[0] != '%';
        }
        StripAppend(a[1..], b);
        assert StripFieldCodes(x) == [x[0]] + StripFieldCodes(x[1..]);
        assert StripFieldCodes(a) == [a[0]] + StripFieldCodes(a[1..]);
      }
    }
  }

  /** A field code between two pieces disappears and nothing else
      changes. */
  lemma StripRemovesCode(a: string, c: char, b: string)
    requires IsFieldCode(c) && (a == [] || a[|a| - 1] != '%')
    ensures StripFieldCodes(a + ['%', c] + b) == StripFieldCodes(a) + StripFieldCodes(b)
  {
    var t := ['%', c] + b;
    assert a + ['%', c] + b == a + t;
    StripAppend(a, t);
    assert t[2..] == b;
  }

  /** The pass is not repeated: a `%` before a field code survives when
      it is itself preceded by a `%`, so `%%ff` becomes `%f`, which a
      second pass would strip. */
  lemma StripSinglePass(c: char)
    requires IsFieldCode(c)
    ensures StripFieldCodes(['%', '%', c, c]) == ['%', c]
    ensures StripFieldCodes(['%', c]) == []
  {
    var s := ['%', '%', c, c];
    assert [c][1..] == [];
    assert StripFieldCodes([c]) == [c];
    assert s[1..] == ['%', c, c];
    assert s[1..][2..] == [c];
    assert StripFieldCodes(s[1..]) == [c];
    assert ['%', c][2..] == [];
  }

  /** The command the Linux script runs from the `Exec=` line: the field
      codes removed and the ends trimmed, or nothing when the entry has no
      `Exec=` value. */
  function ExecCommand(execLine: string): (r: string)
    ensures execLine == [] ==> r == []
    ensures execLine != [] ==> TrimmedOf(StripFieldCodes(execLine), r)
    ensures |r| <= |execLine|
  {
    if execLine == [] then []
    else
      TrimSpec(StripFieldCodes(execLine));
      Trim(StripFieldCodes(execLine))
  }

  /** What the Linux relaunch script tries, in order: `gio launch` on the
      desktop file, the `Exec=` command, `gtk-launch` with the desktop
      file's name, then each binary in turn with the flag. */
  datatype LinuxPlan = LinuxPlan(desktopFile: string, execCommand: string, launcherName: string,
                                 binaries: seq<string>, folderArgs: string)

  function LinuxBinaries(ide: string): seq<string> {
    var l := Lower(ide);
    ["/usr/bin/" + l, "/usr/share/" + l + "/bin/" + l, "/opt/" + l + "/bin/" + l]
  }

  function LinuxRelaunchPlan(e: Entry, ide: string, folders: seq<string>): LinuxPlan {
    LinuxPlan(e.path, ExecCommand(e.execLine), BasenameWithout(e.path, ".desktop", false),
              LinuxBinaries(ide), FolderArgs(folders))
  }

  /** The Linux relaunch starts the entry discovery found, not the patched
      copy: for a system launcher the patch writes a copy under `.local`,
      while `gio launch` and `gtk-launch` are still given the system file,
      which does not carry the flag. */
  lemma LinuxPlanKeepsSystemFile(e: Entry, ide: string, folders: seq<string>, home: string)
    requires !Contains(e.path, UserMarker)
    ensures LinuxRelaunchPlan(e, ide, folders).desktopFile == e.path
    ensures TargetPath(e.path, home) != e.path
  {
    TargetIsUserCopy(e.path, home);
  }

  /** For a desktop file named after the IDE, `gtk-launch` receives the
      IDE's desktop id. */
  lemma LauncherNameOfEntry(dir: string, id: string)
    requires dir != [] && id != [] && '/' !in id
    ensures BasenameWithout(Under(dir, id + ".desktop", false), ".desktop", false) == id
  {
    var name := id + ".desktop";
    assert forall k :: 0 <= k < |name| ==> !IsSep(name[k], false) by {
      forall k | 0 <= k < |name| ensures !IsSep(name[k], false) {
        if k < |id| { assert name[k] == id[k]; }
      }
    }
    BasenameOfJoin(dir, name, false);
    assert name[|name| - |".desktop"|..] == ".desktop";
    assert name[..|name| - |".desktop"|] == id;
  }

  // ---------------------------------------------------------------------
  // `relaunchViaShortcut`

  /** What the relaunch through an entry hands to the system. */
  datatype ShortcutLaunch =
    | WindowsBatch(commandLine: string)
    | MacScript(command: string)
    | LinuxScript(plan: LinuxPlan)

  function ShortcutLaunchFor(env: Env, e: Entry, w: World): (l: ShortcutLaunch)
    ensures env.platform == Windows <==> l.WindowsBatch?
    ensures env.platform == MacOS <==> l.MacScript?
  {
    match env.platform
    case Windows => WindowsBatch(WindowsCommandLine(e.path, ResolvedTarget(e, env.execPath, w), env.folders))
    case MacOS => MacScript(MacLaunchCommand(e, env.folders))
    case Linux => LinuxScript(LinuxRelaunchPlan(e, IdeName(env.appName), env.folders))
  }
}
