/** The launch entries of the IDE on each operating system, how they are
    found and which one the relauncher uses: Windows `.lnk` shortcuts in
    three places, a macOS wrapper script or application bundle, Linux
    `.desktop` files in the user and system application directories. */
module LaunchEntries {
  import opened Text
  import opened PortFlag
  import opened Paths
  import opened HelperOutput
  import opened DesktopFile

  datatype Platform = Windows | MacOS | Linux

  /** The `type` field of an entry. */
  datatype EntryKind = StartMenu | DesktopLink | Taskbar | Wrapper | AppBundle | UserDesktop | SystemDesktop

  /** A launch entry. Fields a platform does not fill (`args` and `target`
      outside Windows, `execLine` outside Linux) are empty, which the
      relauncher treats like the missing fields they stand for. */
  datatype Entry = Entry(path: string, hasFlag: bool, kind: EntryKind, args: string, target: string, execLine: string)

  /** A Windows shortcut as the shell's COM object shows it. */
  datatype Lnk = Lnk(args: string, target: string)

  /** What the relauncher can observe of, and change on, the machine:
      shortcuts, regular files with their contents, directories, whether
      writes succeed, and the message a failing operating-system call
      reports. */
  datatype World = World(links: map<string, Lnk>, files: map<string, string>, dirs: set<string>,
                         writable: bool, failure: string)

  /** The environment of the running IDE: the platform, the application
      name, the `APPDATA`, `USERPROFILE` and home directories (empty when
      unset), the path of the running executable and the open workspace
      folders. */
  datatype Env = Env(platform: Platform, appName: string, appData: string, userProfile: string,
                     home: string, execPath: string, folders: seq<string>)

  // ---------------------------------------------------------------------
  // The IDE's name

  const CursorName: string := "Cursor"
  const AntigravityName: string := "Antigravity"
  const WindsurfName: string := "Windsurf"
  const TraeName: string := "Trae"
  const VsCodeName: string := "VS Code"
  const DefaultName: string := "IDE"

  /** `getIDEName`: a known IDE by a case-insensitive substring of the
      application name, checked in a fixed order; otherwise the
      application name itself, or `IDE` when it is empty. */
  function IdeName(appName: string): (n: string)
    ensures n != []
    ensures var low := Lower(appName);
            !Contains(low, "cursor") && !Contains(low, "antigravity") && !Contains(low, "windsurf")
            && !Contains(low, "trae") && !Contains(low, "code") && !Contains(low, "vs")
            ==> n == (if appName == [] then DefaultName else appName)
  {
    var low := Lower(appName);
    if Contains(low, "cursor") then CursorName
    else if Contains(low, "antigravity") then AntigravityName
    else if Contains(low, "windsurf") then WindsurfName
    else if Contains(low, "trae") then TraeName
    else if Contains(low, "code") || Contains(low, "vs") then VsCodeName
    else if appName == [] then DefaultName
    else appName
  }

  lemma ContainsSelf(s: string)
    ensures Contains(s, s)
  {
    assert s[0..|s|] == s;
    ContainsAt(s, s, 0);
  }

  /** Each known IDE name, lower-cased, contains its own marker. */
  lemma KnownNamesLowered()
    ensures Contains(Lower(CursorName), "cursor")
    ensures Contains(Lower(AntigravityName), "antigravity")
    ensures Contains(Lower(WindsurfName), "windsurf")
    ensures Contains(Lower(TraeName), "trae")
    ensures Contains(Lower(VsCodeName), "code")
  {
    assert Lower(CursorName) == "cursor";
    ContainsSelf("cursor");
    assert Lower(AntigravityName) == "antigravity";
    ContainsSelf("antigravity");
    assert Lower(WindsurfName) == "windsurf";
    ContainsSelf("windsurf");
    assert Lower(TraeName) == "trae";
    ContainsSelf("trae");
    assert Lower(VsCodeName)[3..7] == "code";
    ContainsAt(Lower(VsCodeName), "code", 3);
  }

  /** `getIDEName` classifies by the first marker the lower-cased
      application name contains, in the order cursor, antigravity,
      windsurf, trae, then code or vs: each known name is returned
      exactly when its marker is there and no earlier one is, so an
      unknown application name can never pass for a known IDE. */
  lemma IdeNameClassifies(appName: string)
    ensures var low := Lower(appName); var n := IdeName(appName);
            && (n == CursorName <==> Contains(low, "cursor"))
            && (n == AntigravityName <==> !Contains(low, "cursor") && Contains(low, "antigravity"))
            && (n == WindsurfName <==> !Contains(low, "cursor") && !Contains(low, "antigravity") && Contains(low, "windsurf"))
            && (n == TraeName <==> !Contains(low, "cursor") && !Contains(low, "antigravity") && !Contains(low, "windsurf")
                                   && Contains(low, "trae"))
            && (n == VsCodeName <==> !Contains(low, "cursor") && !Contains(low, "antigravity") && !Contains(low, "windsurf")
                                     && !Contains(low, "trae") && (Contains(low, "code") || Contains(low, "vs")))
  {
    KnownNamesLowered();
  }

  /** A string that lacks one character of `sub` cannot contain `sub`. */
  lemma MissingChar(s: string, sub: string, k: nat)
    requires k < |sub|
    ensures Contains(s, sub) ==> sub[k] in s
  {
    if Contains(s, sub) {
      var i :| 0 <= i <= |s| - |sub| && OccursAt(s, sub, i);
      assert s[i + k] == s[i..i + |sub|][k];
    }
  }

  lemma CursorStable()
    ensures IdeName(CursorName) == CursorName
  {
    var low := Lower(CursorName);
    assert low == "cursor";
    ContainsSelf(low);
  }

  lemma AntigravityStable()
    ensures IdeName(AntigravityName) == AntigravityName
  {
    var low := Lower(AntigravityName);
    assert low == "antigravity";
    ContainsSelf(low);
    MissingChar(low, "cursor", 0);
  }

  lemma WindsurfStable()
    ensures IdeName(WindsurfName) == WindsurfName
  {
    var low := Lower(WindsurfName);
    assert low == "windsurf";
    ContainsSelf(low);
    MissingChar(low, "cursor", 0);
    MissingChar(low, "antigravity", 0);
  }

  lemma TraeStable()
    ensures IdeName(TraeName) == TraeName
  {
    var low := Lower(TraeName);
    assert low == "trae";
    ContainsSelf(low);
    MissingChar(low, "cursor", 0);
    MissingChar(low, "antigravity", 3);
    MissingChar(low, "windsurf", 0);
  }

  lemma VsCodeStable()
    ensures IdeName(VsCodeName) == VsCodeName
  {
    var low := Lower(VsCodeName);
    assert low == "vs code";
    assert low[3..7] == "code";
    ContainsAt(low, "code", 3);
    MissingChar(low, "cursor", 2);
    MissingChar(low, "antigravity", 0);
    MissingChar(low, "windsurf", 0);
    MissingChar(low, "trae", 0);
  }

  lemma DefaultStable()
    ensures IdeName(DefaultName) == DefaultName
  {
    var low := Lower(DefaultName);
    assert low == "ide";
    MissingChar(low, "cursor", 0);
    MissingChar(low, "antigravity", 0);
    MissingChar(low, "windsurf", 0);
    MissingChar(low, "trae", 0);
    MissingChar(low, "code", 0);
    MissingChar(low, "vs", 0);
  }

  /** The name `getIDEName` returns is classified as itself: asking again
      with that name, as the wrapper and relaunch code do, names the same
      IDE. */
  lemma IdeNameStable(appName: string)
    ensures IdeName(IdeName(appName)) == IdeName(appName)
  {
    var n := IdeName(appName);
    if n == CursorName { CursorStable(); }
    else if n == AntigravityName { AntigravityStable(); }
    else if n == WindsurfName { WindsurfStable(); }
    else if n == TraeName { TraeStable(); }
    else if n == VsCodeName { VsCodeStable(); }
    else if n == DefaultName { DefaultStable(); }
  }

  // ---------------------------------------------------------------------
  // Windows shortcuts

  const StartMenuMarker: string := "Start Menu"
  const DesktopMarker: string := "Desktop"

  function StartMenuLinkPath(appData: string, ide: string): string {
    Under(appData, "Microsoft\\Windows\\" + StartMenuMarker + "\\Programs\\" + ide + "\\" + ide + ".lnk", true)
  }

  function DesktopLinkPath(userProfile: string, ide: string): string {
    Under(userProfile, DesktopMarker + "\\" + ide + ".lnk", true)
  }

  function TaskbarLinkPath(appData: string, ide: string): string {
    Under(appData, "Microsoft\\Internet Explorer\\Quick Launch\\User Pinned\\TaskBar\\" + ide + ".lnk", true)
  }

  /** Where the shortcuts are looked for, in order. */
  function WindowsCandidates(env: Env, ide: string): seq<string> {
    [StartMenuLinkPath(env.appData, ide), DesktopLinkPath(env.userProfile, ide), TaskbarLinkPath(env.appData, ide)]
  }

  /** The type of a shortcut, by substrings of its path. */
  function WindowsKind(p: string): (k: EntryKind)
    ensures k == StartMenu <==> Contains(p, StartMenuMarker)
    ensures k == DesktopLink <==> !Contains(p, StartMenuMarker) && Contains(p, DesktopMarker)
    ensures k in {StartMenu, DesktopLink, Taskbar}
  {
    if Contains(p, StartMenuMarker) then StartMenu
    else if Contains(p, DesktopMarker) then DesktopLink
    else Taskbar
  }

  /** The first candidate is always typed as a Start-menu shortcut,
      whatever `APPDATA` holds. */
  lemma StartMenuCandidateKind(appData: string, ide: string)
    ensures WindowsKind(StartMenuLinkPath(appData, ide)) == StartMenu
  {
    var tail := "\\Programs\\" + ide + "\\" + ide + ".lnk";
    var rel := "Microsoft\\Windows\\" + StartMenuMarker + "\\Programs\\" + ide + "\\" + ide + ".lnk";
    assert rel == "Microsoft\\Windows\\" + StartMenuMarker + tail;
    ContainsPart("Microsoft\\Windows\\", StartMenuMarker, tail);
    if appData != [] {
      ContainsEither(appData + ['\\'], rel, StartMenuMarker);
    }
  }

  /** What `fs.existsSync` reports. */
  predicate Exists(w: World, p: string) {
    p in w.links || p in w.files || p in w.dirs
  }

  /** The output of the read script for the shortcut at `p`: its
      arguments and target, or an error line when the shell cannot open
      it. */
  function ReadShortcut(w: World, p: string): ExecResult {
    if p in w.links then Ran(Emit(ReadScriptLines(w.links[p].args, w.links[p].target)))
    else Ran(Emit(ErrorLines(w.failure)))
  }

  function WindowsEntry(w: World, p: string): (e: Entry)
    ensures e.path == p && e.kind == WindowsKind(p)
    ensures e.hasFlag <==> Contains(e.args, FlagName)
  {
    var info := ParseReadOutput(ReadShortcut(w, p));
    Entry(p, info.hasFlag, WindowsKind(p), info.args, info.target, "")
  }

  /** A shortcut whose arguments and target each fit on one output line
      is read back exactly. */
  lemma WindowsEntryReadsLink(w: World, p: string)
    requires p in w.links && LineValue(w.links[p].args) && LineValue(w.links[p].target)
    ensures WindowsEntry(w, p).args == w.links[p].args
    ensures WindowsEntry(w, p).target == w.links[p].target
    ensures WindowsEntry(w, p).hasFlag <==> Contains(w.links[p].args, FlagName)
  {
    ReadRoundTrip(w.links[p].args, w.links[p].target);
  }

  /** A shortcut path the shell cannot open reads as an entry with no
      arguments and no target, never flagged. */
  lemma ReadShortcutMissing(w: World, p: string)
    requires p !in w.links && '\n' !in w.failure
    ensures var e := WindowsEntry(w, p);
            e.args == [] && e.target == [] && !e.hasFlag
  {
    ReadErrorIsEmpty(w.failure);
  }

  // ---------------------------------------------------------------------
  // Linux desktop files

  function LinuxCandidates(env: Env, ide: string): seq<string> {
    var file := Lower(ide) + ".desktop";
    [Under(UserAppsDir(env.home), file, false), "/usr/share/applications/" + file]
  }

  function LinuxEntry(p: string, content: string): (e: Entry)
    ensures e.path == p && e.execLine == ExecValue(content)
    ensures e.hasFlag <==> Contains(e.execLine, FlagName)
    ensures e.kind == UserDesktop <==> Contains(p, UserMarker)
    ensures e.kind in {UserDesktop, SystemDesktop}
  {
    var exec := ExecValue(content);
    Entry(p, Contains(exec, FlagName), if Contains(p, UserMarker) then UserDesktop else SystemDesktop, "", "", exec)
  }

  /** The first Linux candidate is a user entry. */
  lemma UserCandidateKind(home: string, ide: string, content: string)
    ensures LinuxEntry(LinuxCandidates(Env(Linux, "", "", "", home, "", []), ide)[0], content).kind == UserDesktop
  {
    var dir := UserAppsDir(home);
    UserAppsDirIsUser(home);
    ContainsEither(dir, ['/'] + Lower(ide) + ".desktop", UserMarker);
    assert dir + (['/'] + Lower(ide) + ".desktop") == dir + ['/'] + (Lower(ide) + ".desktop");
  }

  // ---------------------------------------------------------------------
  // Discovery loops (Windows, Linux)

  /** What one candidate contributes: the entry when the file exists. */
  function Probe(platform: Platform, w: World, p: string): Option<Entry> {
    match platform
    case Windows => if Exists(w, p) then Some(WindowsEntry(w, p)) else None
    case Linux => if p in w.files then Some(LinuxEntry(p, w.files[p])) else None
    case MacOS => None
  }

  /** A candidate yields an entry exactly when the file is there (any
      kind on Windows, a regular file on Linux), and the entry carries
      the candidate's path. */
  lemma ProbeOutcome(platform: Platform, w: World, p: string)
    ensures Probe(platform, w, p).Some? <==> (platform == Windows && Exists(w, p)) || (platform == Linux && p in w.files)
    ensures Probe(platform, w, p).Some? ==> Probe(platform, w, p).value.path == p
  {
  }

  function Hit(o: Option<Entry>): seq<Entry> {
    match o
    case None => []
    case Some(e) => [e]
  }

  /** `Probe` on one machine, as the function the discovery loop calls. */
  function Prober(platform: Platform, w: World): string -> Option<Entry> {
    p => Probe(platform, w, p)
  }

  /** The entries for the candidates that exist, in candidate order. */
  function Found(probe: string -> Option<Entry>, cands: seq<string>): (es: seq<Entry>)
    ensures |es| <= |cands|
    decreases |cands|
  {
    if cands == [] then []
    else Found(probe, cands[..|cands| - 1]) + Hit(probe(cands[|cands| - 1]))
  }

  lemma FoundStep(probe: string -> Option<Entry>, cands: seq<string>, i: nat)
    requires i < |cands|
    ensures Found(probe, cands[..i + 1]) == Found(probe, cands[..i]) + Hit(probe(cands[i]))
  {
    assert cands[..i + 1][..i] == cands[..i];
  }

  /** Every entry found is what probing some candidate gives. */
  lemma {:induction false} FoundFromCandidates(probe: string -> Option<Entry>, cands: seq<string>, k: nat)
    requires k < |Found(probe, cands)|
    ensures exists i :: 0 <= i < |cands| && probe(cands[i]) == Some(Found(probe, cands)[k])
    decreases |cands|
  {
    var n := |cands| - 1;
    var front := Found(probe, cands[..n]);
    if k < |front| {
      FoundFromCandidates(probe, cands[..n], k);
      var i :| 0 <= i < |cands[..n]| && probe(cands[..n][i]) == Some(front[k]);
      assert cands[..n][i] == cands[i];
    } else {
      assert probe(cands[n]) == Some(Found(probe, cands)[k]);
    }
  }

  /** A single candidate yields its entry exactly when it exists. */
  lemma FoundOne(probe: string -> Option<Entry>, p: string)
    ensures Found(probe, [p]) == Hit(probe(p))
  {
    assert [p][..0] == [];
  }

  /** Discovery respects candidate order: what a list of candidates
      yields is what its front part yields followed by what its back
      part yields. */
  lemma {:induction false} FoundAppend(probe: string -> Option<Entry>, a: seq<string>, b: seq<string>)
    ensures Found(probe, a + b) == Found(probe, a) + Found(probe, b)
    decreases |b|
  {
    if b == [] {
      assert a + b == a;
    } else {
      var n := |b| - 1;
      assert (a + b)[..|a + b| - 1] == a + b[..n];
      assert (a + b)[|a + b| - 1] == b[n];
      FoundAppend(probe, a, b[..n]);
    }
  }

  /** Discovery misses nothing: every candidate that exists contributes
      its entry. */
  lemma FoundComplete(probe: string -> Option<Entry>, cands: seq<string>, i: nat)
    requires i < |cands| && probe(cands[i]).Some?
    ensures probe(cands[i]).value in Found(probe, cands)
  {
    assert cands == cands[..i] + [cands[i]] + cands[i + 1..];
    FoundAppend(probe, cands[..i] + [cands[i]], cands[i + 1..]);
    FoundAppend(probe, cands[..i], [cands[i]]);
    FoundOne(probe, cands[i]);
  }

  /** `_findWindowsShortcuts` and the loop of `_findLinuxShortcuts`: keep
      an entry for every candidate that exists, in order. */
  method Discover(probe: string -> Option<Entry>, cands: seq<string>) returns (entries: seq<Entry>)
    ensures entries == Found(probe, cands)
  {
    entries := [];
    var i := 0;
    while i < |cands|
      invariant 0 <= i <= |cands|
      invariant entries == Found(probe, cands[..i])
      decreases |cands| - i
    {
      FoundStep(probe, cands, i);
      var found := probe(cands[i]);
      if found.Some? {
        entries := entries + [found.value];
      }
      i := i + 1;
    }
    assert cands[..|cands|] == cands;
  }

  // ---------------------------------------------------------------------
  // macOS

  function WrapperDir(home: string): (d: string)
    ensures d != []
  {
    Under(home, ".local/bin", false)
  }

  function WrapperPath(home: string, ide: string): string {
    Under(WrapperDir(home), Lower(ide) + "-cdp", false)
  }

  function AppBundlePath(ide: string): string {
    "/Applications/" + ide + ".app"
  }

  /** `_findMacOSShortcuts`: the wrapper script, flagged when its text
      names the flag, then the application bundle, never flagged. */
  function MacEntries(w: World, home: string, ide: string): (es: seq<Entry>)
    ensures |es| <= 2
    ensures forall e :: e in es && e.kind == AppBundle ==> !e.hasFlag
    ensures forall e :: e in es ==> e.kind in {Wrapper, AppBundle}
  {
    var wrapper := WrapperPath(home, ide);
    var app := AppBundlePath(ide);
    (if wrapper in w.files then [Entry(wrapper, Contains(w.files[wrapper], FlagName), Wrapper, "", "", "")] else [])
    + (if Exists(w, app) then [Entry(app, false, AppBundle, "", "", "")] else [])
  }

  // ---------------------------------------------------------------------
  // All entries, and the primary one

  /** `findIDEShortcuts`, as a value. */
  function Shortcuts(env: Env, w: World): seq<Entry> {
    var ide := IdeName(env.appName);
    match env.platform
    case Windows => Found(Prober(Windows, w), WindowsCandidates(env, ide))
    case MacOS => MacEntries(w, env.home, ide)
    case Linux => Found(Prober(Linux, w), LinuxCandidates(env, ide))
  }

  /** `findIDEShortcuts`. */
  method FindShortcuts(env: Env, w: World) returns (entries: seq<Entry>)
    ensures entries == Shortcuts(env, w)
    ensures |entries| <= 3
  {
    var ide := IdeName(env.appName);
    match env.platform
    case Windows =>
      entries := Discover(Prober(Windows, w), WindowsCandidates(env, ide));
    case MacOS =>
      entries := MacEntries(w, env.home, ide);
    case Linux =>
      entries := Discover(Prober(Linux, w), LinuxCandidates(env, ide));
  }

  /** The entry types the relauncher prefers to relaunch through. */
  predicate Preferred(k: EntryKind) {
    k == StartMenu || k == Wrapper || k == UserDesktop
  }

  function FirstPreferred(entries: seq<Entry>): (i: nat)
    ensures i <= |entries|
    ensures i < |entries| ==> Preferred(entries[i].kind)
    ensures forall j :: 0 <= j < i ==> !Preferred(entries[j].kind)
  {
    if entries == [] then 0
    else if Preferred(entries[0].kind) then 0
    else 1 + FirstPreferred(entries[1..])
  }

  /** The primary entry: the first of a preferred type, else the first
      entry. */
  function PrimaryIndex(entries: seq<Entry>): (i: nat)
    requires entries != []
    ensures i < |entries|
    ensures forall j :: 0 <= j < i ==> !Preferred(entries[j].kind)
    ensures Preferred(entries[i].kind) || (i == 0 && forall j :: 0 <= j < |entries| ==> !Preferred(entries[j].kind))
  {
    var k := FirstPreferred(entries);
    if k < |entries| then k else 0
  }
}
