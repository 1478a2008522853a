# Auto-Agent-AntiGravity: relauncher and extension core, in Dafny

Auto-Agent-AntiGravity is a VS Code-family extension (for Antigravity, Cursor,
Windsurf, Trae and VS Code). It drives the IDE's agent panel through the
Chrome DevTools Protocol (CDP). That needs the IDE to run with
`--remote-debugging-port=9000`, and this model covers the two parts that
arrange for it:

- **The relauncher** (`main_scripts/relauncher.js`). It finds the IDE's launch
  entries: Windows `.lnk` shortcuts, a macOS wrapper script or application
  bundle, or Linux `.desktop` files. It puts the debugging flag into them. On
  Windows this goes through generated PowerShell scripts whose output it parses
  line by line. It then restarts the IDE through the primary entry. When that
  fails, it falls back to spawning the running executable with the flag.
- **The extension's control state** (`extension.js`):
  - the persisted key/value store (`globalState`) and the in-memory flags;
  - the OFF → ON → multi-tab → OFF cycle and the status bar text;
  - the weekly ROI counters;
  - the start-up decision (`checkEnvironmentAndStart`), which rewrites the
    Windows URL-handler registry keys and relaunches at most once;
  - the health check that prompts for a relaunch at most once a minute;
  - the instance lock and the per-IDE polling lock.

How the model is built:

- The operating system is a value, `LaunchEntries.World`. It holds the shortcuts
  with their arguments and targets, the files, the directories, and whether
  writes succeed. Every operation takes it and returns the machine afterwards.
- The clock, the instance id, the start of the week and the answers of the
  debugging port are parameters.
- The PowerShell scripts are modelled by the lines they print. The launcher's
  parsing is proved to read those lines back exactly for arguments and a
  target on one line without trailing white space (`HelperOutput`).
- Text is `seq<char>`. Letters are case-folded in ASCII only.

Modules:

| module | models |
|---|---|
| `Text` | JavaScript string operations: `includes`, `trim`, `split('\n')`, `toLowerCase`, PowerShell single-quote escaping, the removal of double quotes by Windows command-line parsing |
| `Paths` | `path.join` / `path.basename` for the two separator conventions |
| `PortFlag` | the flag constants and the global `--remote-debugging-port=\d+` substitution, case-sensitive (JavaScript) or not (PowerShell) |
| `HelperOutput` | what the read and modify PowerShell scripts print, and how the launcher parses it |
| `LaunchEntries` | `getIDEName`, the candidate locations, discovery on each platform, the choice of the primary entry |
| `DesktopFile` | the `Exec=` line of a `.desktop` file and its patch |
| `EntryPatcher` | `ensureShortcutHasFlag` on each platform, the macOS wrapper, `configureAllShortcuts` |
| `RelaunchCommands` | the batch, shell and `gio`/`gtk-launch` commands a relaunch hands to the system |
| `RelaunchConductor` | `relaunchWithCDP`'s tiers |
| `Registry` | `configureWindowsRegistry` |
| `ExtensionStore` | the stored keys, ROI counters, the instance lock and the polling tick |
| `ExtensionModes` | `detectIDE`, the mode cycle, the status text, the relaunch-prompt cooldown |
| `Bootstrap` | `checkEnvironmentAndStart` as a value |
| `ExtensionState` | the extension's module-level state as a class whose methods update it |

## Model

| member | source | states |
|---|---|---|
| LaunchEntries.IdeName | main_scripts/relauncher.js:50-59 | the name is never empty; with none of the markers in the lower-cased application name it is that name, or `IDE` when the name is empty |
| LaunchEntries.IdeNameClassifies | main_scripts/relauncher.js:50-59 | each known IDE is returned exactly when its marker is in the lower-cased application name and no earlier marker is (cursor, antigravity, windsurf, trae, then code or vs) |
| LaunchEntries.IdeNameStable | main_scripts/relauncher.js:50-59 | classifying a returned name again gives the same name, for every application name |
| LaunchEntries.WindowsKind | main_scripts/relauncher.js:91-92 | `startmenu` exactly when the path names "Start Menu"; `desktop` exactly when it names "Desktop" but not "Start Menu"; otherwise `taskbar` |
| LaunchEntries.StartMenuCandidateKind | main_scripts/relauncher.js:74-92 | the first candidate location is always typed as a Start-menu shortcut |
| LaunchEntries.WindowsEntry | main_scripts/relauncher.js:120-130 | an entry keeps its path and its type by path, and is flagged exactly when the arguments read back name the flag |
| LaunchEntries.ReadShortcutMissing | main_scripts/relauncher.js:103-147 | a path the shell cannot open reads as an entry with no arguments and no target, unflagged |
| LaunchEntries.WindowsEntryReadsLink | main_scripts/relauncher.js:103-148 | for a shortcut whose arguments and target fit on a line, the entry carries exactly the shortcut's arguments and target |
| LaunchEntries.LinuxEntry | main_scripts/relauncher.js:182-194 | the entry's command is the first `Exec=` value; flagged exactly when the command names the flag; `user` exactly when the path is under `.local` |
| LaunchEntries.UserCandidateKind | main_scripts/relauncher.js:176-194 | the first Linux candidate is a user entry |
| LaunchEntries.ProbeOutcome | main_scripts/relauncher.js:183-195 | a candidate yields an entry exactly when it exists (any kind on Windows, as at relauncher.js:86; a regular file on Linux), and the entry carries its path |
| LaunchEntries.Found | main_scripts/relauncher.js:119-131 | discovery yields at most one entry per candidate |
| LaunchEntries.FoundAppend | main_scripts/relauncher.js:183-195 | discovery keeps candidate order: the front candidates' entries come before the back candidates' |
| LaunchEntries.FoundComplete | main_scripts/relauncher.js:183-195 | no existing candidate is missed: each contributes its entry |
| LaunchEntries.FoundFromCandidates | main_scripts/relauncher.js:119-131 | every entry found is what probing some candidate gives |
| LaunchEntries.FoundOne | main_scripts/relauncher.js:120-130 | a single candidate yields its entry exactly when the file exists |
| LaunchEntries.Discover | main_scripts/relauncher.js:119-131 | the discovery loop returns the existing candidates' entries, in candidate order |
| LaunchEntries.MacEntries | main_scripts/relauncher.js:150-174 | at most the wrapper and the bundle; the bundle is never flagged |
| LaunchEntries.FindShortcuts | main_scripts/relauncher.js:61-72 | `findIDEShortcuts` dispatches on the platform and finds at most three entries |
| LaunchEntries.PrimaryIndex | main_scripts/relauncher.js:608-610 | the first entry of a preferred type (`startmenu`, `wrapper`, `user`), else the first entry, with no preferred entry before it |
| LaunchEntries.FirstPreferred | main_scripts/relauncher.js:608-610 | the index of the first preferred entry, or the length when there is none |
| Paths.BasenameOfJoin | main_scripts/relauncher.js:386-388 | the base name of a directory joined with a name without separators is that name |
| Paths.BasenameIdempotent | main_scripts/relauncher.js:388 | taking the base name twice changes nothing |
| Text.EscapeRoundTrip | main_scripts/relauncher.js:111 | doubling single quotes and reading the literal back gives the original path |
| Text.Trim | main_scripts/relauncher.js:125 | the trimmed text lies inside the input and neither starts nor ends with white space |
| Text.TrimSpec | main_scripts/relauncher.js:125 | trimming removes exactly the white space at both ends: the result is an infix of the input that neither starts nor ends with white space, and everything before and after it is white space |
| Text.SplitLines | main_scripts/relauncher.js:125 | the pieces are at least one, none holds a line feed, and joined with line feeds they give back the input |
| PortFlag.MatchLen | main_scripts/relauncher.js:232 | a match at the start exactly when the flag prefix is followed by a digit; it ends after the last digit |
| PortFlag.SubstitutePort | main_scripts/relauncher.js:236 | a flag with any port, in text with no other match, becomes the flag with port 9000 and the rest is kept |
| PortFlag.ReplacePortsIdempotent | main_scripts/relauncher.js:371-374 | rewriting the port twice is rewriting it once |
| PortFlag.NoMatchUnchanged | main_scripts/relauncher.js:236 | text without a match is left as it is |
| PortFlag.HasMatchPreserved | main_scripts/relauncher.js:234-236 | text with a match still has one after the rewrite |
| PortFlag.ReplacePortsContainsFlag | main_scripts/relauncher.js:369-374 | after the rewrite, text that had a match names the flag |
| PortFlag.MatchContainsFlagName | main_scripts/relauncher.js:369-372 | a case-sensitive match is an occurrence of the flag's name |
| PortFlag.ReplacePortsKeepsOut | main_scripts/relauncher.js:371-374 | the rewrite introduces no character that is in neither the input nor the flag |
| HelperOutput.Clean | main_scripts/relauncher.js:125 | non-empty lines that neither start nor end with white space, never more than there were pieces |
| HelperOutput.FindLine | main_scripts/relauncher.js:127-133 | the line found starts with the key; none is found exactly when no line starts with it |
| HelperOutput.ParseReadOutput | main_scripts/relauncher.js:120-147 | flagged exactly when the arguments name the flag; an exception or an `ERROR:` line reads as an empty entry |
| HelperOutput.CleanEmit | main_scripts/relauncher.js:125 | splitting and cleaning printed lines gives back those lines, each trimmed |
| HelperOutput.ReadRoundTrip | main_scripts/relauncher.js:103-148 | for arguments and a target on one line without trailing white space, the read script's output parses back to the shortcut's own arguments and target, flagged exactly when the arguments name the flag |
| HelperOutput.ReadErrorIsEmpty | main_scripts/relauncher.js:127-131 | an `ERROR:` report always reads as the empty entry |
| HelperOutput.WindowsRule | main_scripts/relauncher.js:229-249 | the flag is prepended exactly when the arguments have no match; an update is reported only when the rewrite differs ignoring case |
| HelperOutput.ParseModifyOutput | main_scripts/relauncher.js:266-292 | modified implies success; an exception is a failure with its message; an `ERROR:` line is a failure |
| HelperOutput.ReportFor | main_scripts/relauncher.js:275-289 | success exactly for the three known words; modified exactly for `MODIFIED` and `UPDATED` |
| HelperOutput.Reported | main_scripts/relauncher.js:229-289 | every outcome of the script's rule is reported as a success, modified exactly when the rule wrote |
| HelperOutput.ModifyRoundTrip | main_scripts/relauncher.js:216-292 | for arguments and a target without a line feed, the modify script's output parses to the result of its own rule |
| HelperOutput.UnknownWordFails | main_scripts/relauncher.js:287-289 | any other word is a failure naming the word |
| HelperOutput.NoResultLineFails | main_scripts/relauncher.js:275-289 | output with no `RESULT:` line fails with the word `UNKNOWN` |
| HelperOutput.WindowsRuleInstallsFlag | main_scripts/relauncher.js:234-248 | new arguments written by the rule name the flag and match the pattern |
| HelperOutput.WindowsRuleTwice | main_scripts/relauncher.js:229-249 | applying the rule to its own output reports already correct |
| DesktopFile.FindExec | main_scripts/relauncher.js:381 | the first line, at or after a position, that starts with `Exec=` |
| DesktopFile.LineEnd | main_scripts/relauncher.js:381 | where `.*` stops: the next line terminator or the end |
| DesktopFile.ExecValue | main_scripts/relauncher.js:182-190 | with no line starting with `Exec=` the command is empty; otherwise it is the text after the key of the first such line, up to the next line terminator or the end, and holds no line terminator |
| DesktopFile.PatchDesktop | main_scripts/relauncher.js:369-384 | content is left unchanged only when it names the flag; content naming the flag is rewritten only when the rewrite changes it |
| DesktopFile.PatchAppendsFlag | main_scripts/relauncher.js:378-383 | without the flag, the first `Exec=` command gets ` --remote-debugging-port=9000` at its end |
| DesktopFile.PatchAppendedTwice | main_scripts/relauncher.js:369-384 | patching the appended result again leaves it unchanged |
| DesktopFile.PatchFlaggedTwice | main_scripts/relauncher.js:369-377 | after a port rewrite, a second patch leaves the content unchanged |
| DesktopFile.PatchFixedPoint | main_scripts/relauncher.js:369-377 | content naming the flag with port 9000 everywhere is already correct |
| DesktopFile.NoExecLineRewrittenAsIs | main_scripts/relauncher.js:378-391 | content with neither the flag nor an `Exec=` line is written back unchanged, every time |
| DesktopFile.TargetIsUserCopy | main_scripts/relauncher.js:386-388 | the patched file is always under `.local` and keeps the source's base name |
| EntryPatcher.ModifiedLinks | main_scripts/relauncher.js:236-246 | the modify script changes only shortcuts: files and directories stay as they were |
| EntryPatcher.ModifyWindowsShortcut | main_scripts/relauncher.js:216-301 | the shortcut is saved only where the modify script saves it and the report is parsed from its output; what that means is stated by WindowsPatchInstalls, WindowsPatchReports and WindowsPatchTwice; modified implies success |
| EntryPatcher.WindowsPatchReports | main_scripts/relauncher.js:216-292 | on a shortcut the shell can save, the report is the rule's outcome |
| EntryPatcher.WindowsPatchInstalls | main_scripts/relauncher.js:234-248 | a shortcut the rule changes is saved with the new arguments and keeps its target |
| EntryPatcher.WindowsPatchTwice | main_scripts/relauncher.js:216-292 | patching the same shortcut again reports `Already configured with correct port` |
| EntryPatcher.SaveFailedReported | main_scripts/relauncher.js:249-273 | a save that throws is reported as a failure carrying the exception's message |
| EntryPatcher.WindowsSaveFails | main_scripts/relauncher.js:249-273 | a failed save reports a failure and leaves the machine unchanged |
| EntryPatcher.ModifyLinuxDesktop | main_scripts/relauncher.js:364-399 | modified implies success; an unmodified report leaves the machine alone; shortcuts are never touched |
| EntryPatcher.LinuxPatchApplied | main_scripts/relauncher.js:378-394 | a launcher without the flag gets a user copy whose command ends with the flag |
| EntryPatcher.LinuxAlreadyCorrect | main_scripts/relauncher.js:369-377 | a launcher already on port 9000 is reported as correct and nothing is written |
| EntryPatcher.FirstExisting | main_scripts/relauncher.js:322-329 | the first binary that exists, or none when none does |
| EntryPatcher.FindBinary | main_scripts/relauncher.js:322-329 | the loop stops at the first existing binary |
| EntryPatcher.WrapperIsBash | main_scripts/relauncher.js:333-346 | the wrapper starts with `#!/bin/bash` |
| EntryPatcher.WrapperScriptShape | main_scripts/relauncher.js:333-346 | the wrapper names the flag and ends by passing the flag and then its own arguments |
| EntryPatcher.MacWrapperOutcome | main_scripts/relauncher.js:303-362 | a failed write reports its error and changes nothing; otherwise a modification is reported and the wrapper file names the flag, shortcuts untouched |
| EntryPatcher.CreateMacWrapper | main_scripts/relauncher.js:303-362 | writes the wrapper that runs the binary found, or `open -a` on the bundle, with the flag |
| EntryPatcher.MacWrapperFlagged | main_scripts/relauncher.js:150-174 | a written wrapper names the flag, so the next discovery lists it as flagged |
| EntryPatcher.EnsureSpec | main_scripts/relauncher.js:202-214 | an entry already flagged is left alone and reported as such; modified implies success |
| EntryPatcher.EnsureShortcutHasFlag | main_scripts/relauncher.js:202-214 | dispatches on the platform to the patch above |
| EntryPatcher.MacBundleAlwaysRewritten | main_scripts/relauncher.js:202-214 | an application bundle is never flagged, so the wrapper is rewritten on every call |
| EntryPatcher.ConfigureSpec | main_scripts/relauncher.js:727-750 | the count never exceeds the number of entries |
| EntryPatcher.ConfigureAdvance | main_scripts/relauncher.js:735-746 | one step of the loop keeps its invariant, and skips an entry without a path |
| EntryPatcher.ConfigureAllShortcuts | main_scripts/relauncher.js:727-750 | the loop counts the successful modifications and threads the machine through every patch |
| EntryPatcher.ConfigureFlaggedNoop | main_scripts/relauncher.js:727-750 | entries that all carry the flag: nothing counted, machine unchanged |
| RelaunchCommands.ResolvedTargetOrder | main_scripts/relauncher.js:426-441 | the executable is the entry's target, else the running executable, else what the shortcut reads back |
| RelaunchCommands.FolderArgsHasFolder | main_scripts/relauncher.js:423 | every workspace folder is passed, quoted |
| RelaunchCommands.WindowsCommandShape | main_scripts/relauncher.js:446-455 | the batch starts the executable followed by the flag, or the `.lnk` itself without the flag |
| RelaunchCommands.ReReadTarget | main_scripts/relauncher.js:426-441 | with no target known, the shortcut's own target is read back |
| RelaunchCommands.MacCommandShape | main_scripts/relauncher.js:493-495 | a wrapper is run as it is; anything else is opened with the flag |
| RelaunchCommands.StripFieldCodes | main_scripts/relauncher.js:532 | removing field codes never lengthens the command |
| RelaunchCommands.StripRemovesCode | main_scripts/relauncher.js:532 | a field code disappears and nothing else changes |
| RelaunchCommands.StripSinglePass | main_scripts/relauncher.js:532 | one pass only: `%%ff` leaves `%f` |
| RelaunchCommands.ExecCommand | main_scripts/relauncher.js:529-533 | an empty `Exec=` value gives no command; otherwise the command is the value with its field codes removed and exactly the white space at both ends trimmed; never longer than the value |
| RelaunchCommands.LinuxPlanKeepsSystemFile | main_scripts/relauncher.js:525-551 | the script launches the discovered desktop file; for a system launcher that is not the patched copy under `.local` |
| RelaunchCommands.LauncherNameOfEntry | main_scripts/relauncher.js:536 | `gtk-launch` receives the desktop file's name without `.desktop` |
| RelaunchCommands.ShortcutLaunchFor | main_scripts/relauncher.js:407-420 | the launch form matches the platform |
| RelaunchConductor.DirectTier | main_scripts/relauncher.js:640-691 | succeeds exactly when an executable is known and spawning it works, with the flag and the two GPU arguments |
| RelaunchConductor.PrimaryChoice | main_scripts/relauncher.js:604-616 | the primary entry is one discovery found, of a preferred type when any entry has one; its patch runs on the machine where every entry was already patched |
| RelaunchConductor.Marked | main_scripts/relauncher.js:616-619 | the primary entry counts as flagged when it was flagged or just modified |
| RelaunchConductor.RelaunchSpec | main_scripts/relauncher.js:589-692 | no action exactly when the port already answers; success exactly when no failure; a failure means no executable or a spawn error; the entry path needs entries and a working script |
| RelaunchConductor.RelaunchWithCdp | main_scripts/relauncher.js:589-692 | the tiers in order, equal to the value above |
| RelaunchConductor.AlreadyRunning | main_scripts/relauncher.js:592-596 | with the port answering, nothing is looked up or changed |
| RelaunchConductor.ThroughEntryNeedsPatch | main_scripts/relauncher.js:603-630 | a relaunch through an entry happens only after the primary entry was patched successfully |
| RelaunchConductor.NoEntriesGoesDirect | main_scripts/relauncher.js:636-686 | without entries the executable is spawned directly |
| RelaunchConductor.FallsThroughToDirect | main_scripts/relauncher.js:614-636 | a failed patch or a failed script falls through to the direct tier on the patched machine |
| Registry.FirstLine | extension.js:313-316 | what the query output's line gives: the longest prefix of the value with no line terminator, so a terminator or the end of the value follows it |
| Registry.FindExeQuote | extension.js:319 | the first `.exe"` at or after a position, in any letter case |
| Registry.SplitExe | extension.js:319-320 | a quoted executable up to the first `.exe"`; no match exactly when the command does not start with a quote or has no `.exe"` |
| Registry.NewCommand | extension.js:321-322 | the new command is trimmed and no longer than its parts; when the executable starts with a non-space it is the executable, one space, the flag, and the old arguments (after a space) with their end trimmed |
| Registry.NewCommandShape | extension.js:321-322 | the new command starts with the executable and the flag |
| Registry.Rewrite | extension.js:300-336 | a key is rewritten only when it exists, does not name the flag and the write works |
| Registry.DeliveredShape | extension.js:325-329 | the command PowerShell receives has lost every double quote: the key path and `(default)` arrive unquoted, the value literal holds the command without its double quotes |
| Registry.StoredDropsQuotes | extension.js:325-329 | a write that PowerShell accepts stores the command built, minus its double quotes |
| Registry.RewriteStoredAltered | extension.js:319-329 | so every rewritten command is stored different from the one built: the quotes around the executable are gone |
| Registry.StoredKeepsFlag | extension.js:321-329 | what is stored still names the flag |
| Registry.RunKeys | extension.js:299-337 | keys other than the write target are never changed; nothing configured means nothing changed |
| Registry.ConfigureWindowsRegistry | extension.js:284-343 | the loop equals the value above; success exactly when the reason is `configured` |
| Registry.RunWritesFlag | extension.js:299-337 | once a key was rewritten, the target key names the flag |
| Registry.RegistryOutcome | extension.js:284-343 | off Windows nothing happens; `configured` exactly on success; a run that rewrote nothing changes nothing; only the first key can change |
| Registry.ConfiguredFirstKeyFlagged | extension.js:284-343 | after a successful run the first key names the flag, so a later run skips it |
| Registry.RegistrySecondRun | extension.js:284-343 | a second run leaves the registry as the first left it, yet reports `configured` again exactly when the `-url` key's command lacks the flag |
| Registry.SecondKeyLandsInFirst | extension.js:291-333 | the `-url` handler's rewritten command is written into the first key |
| ExtensionStore.LoadRoi | extension.js:722-745 | this week's counters are kept; other weeks and values are replaced by fresh ones and saved |
| ExtensionStore.LoadRoiIdempotent | extension.js:722-745 | loading again in the same week changes nothing |
| ExtensionStore.CollectStats | extension.js:900-917 | nothing reported means nothing written; otherwise only the ROI key changes, by the reported amounts |
| ExtensionStore.CollectWithinWeek | extension.js:900-917 | within a week the counters grow by exactly what was reported |
| ExtensionStore.CollectNewWeek | extension.js:900-917 | a new week starts from what was reported |
| ExtensionStore.CountSession | extension.js:919-924 | the stored counters are this week's loaded counters, week start, clicks and blocked as loaded, with one more session; only the ROI key changes |
| ExtensionStore.TwoSessionsCountTwo | extension.js:919-924 | two sessions in the same week count two |
| ExtensionStore.TimeSavedMinutes | extension.js:205-206 | five seconds a click, rounded half up to whole minutes |
| ExtensionStore.TimeSavedUnique | extension.js:205-206 | the rounding has exactly one answer |
| ExtensionStore.HeartbeatStale | extension.js:971-975 | a missing heartbeat reads as 0; a number is stale when older than the window; text never is |
| ExtensionStore.CheckInstanceLock | extension.js:967-987 | Pro always runs; otherwise refused exactly when another id holds a lock with a recent heartbeat; refusal writes nothing; a grant takes the lock and stamps the heartbeat |
| ExtensionStore.LockExcludes | extension.js:967-987 | after one instance takes the lock, another is refused within the heartbeat window |
| ExtensionStore.PingKey | extension.js:674 | the ping key is longer than the lock key |
| ExtensionStore.HeldByOther | extension.js:673-675 | held means a truthy lock of another owner and a numeric or `true` ping; a numeric ping older than the window never holds |
| ExtensionStore.PollTick | extension.js:666-697 | the status refreshes exactly when the lockout changes; a sync happens exactly when enabled and no other owner pinged recently; a sync takes the lock and stamps the ping |
| ExtensionStore.SameOwnerNeverLocked | extension.js:666-697 | an owner never locks itself out |
| ExtensionStore.TickExcludes | extension.js:666-697 | two owners with different ids: the second is locked out within the ping window |
| ExtensionModes.DetectIde | extension.js:61-69 | each known IDE exactly when its marker is in the lower-cased application name and no earlier marker is (cursor, antigravity, windsurf, trae); `Code` exactly when none is |
| ExtensionModes.DetectAgreesWithRelauncher | extension.js:61-69 | the extension and the relauncher agree on the four known IDEs; every other host is `Code` |
| ExtensionModes.CycleNext | extension.js:570-620 | always one of the three modes, never the one it came from |
| ExtensionModes.CycleReturns | extension.js:570-620 | three clicks come back exactly from the cycle's three states; two never do |
| ExtensionModes.StatusText | extension.js:939-965 | off text exactly when disabled; multi text exactly when enabled in background mode |
| ExtensionModes.CycleChangesText | extension.js:570-620 | each click changes the status text |
| ExtensionModes.SyncStep | extension.js:622-658 | the prompt comes due, and its time is stamped, exactly when connected before, now none, enabled and past the cooldown; a connection is remembered |
| ExtensionModes.Apply | extension.js:622-658 | a prompt coming due moves the last-prompt time to now; otherwise it is kept |
| ExtensionModes.PromptsSpaced | extension.js:637-653 | over any run of events, prompts are more than a minute apart and the last one is remembered |
| ExtensionModes.SpacedNeighbours | extension.js:49 | every two consecutive prompts are more than the cooldown apart |
| ExtensionModes.DisableSilencesPrompt | extension.js:443-456 | after turning off, a lost connection does not prompt |
| Bootstrap.StartupSpec | extension.js:345-421 | the first run happens exactly without the port, with a relauncher, neither configured nor skipped; it rewrites the registry and relaunches; polling starts exactly when enabled and no relaunch is under way |
| Bootstrap.FirstRunOnce | extension.js:358-399 | after a first run, every later start without the port is already configured and changes nothing |
| Bootstrap.CdpSeenNeverRelaunches | extension.js:352-367 | once the port was seen, no later start relaunches |
| Bootstrap.FailedRelaunchStillPolls | extension.js:401-419 | a first run whose relaunch fails goes on to poll |
| ExtensionState.Extension.constructor | extension.js:90-104 | the IDE is detected, the flags come from the store, Pro is forced on |
| ExtensionState.Extension.IncrementSessionCount | extension.js:919-924 | the store becomes the counted one; nothing else changes |
| ExtensionState.Extension.CollectAndSaveStats | extension.js:900-917 | the store becomes the collected one; nothing else changes |
| ExtensionState.Extension.HandleToggle | extension.js:423-463 | flips enabled and persists it; turning on counts a session; turning off collects stats and forgets the connection; keeps the store in step with the flags |
| ExtensionState.Extension.HandleCycleState | extension.js:570-620 | the mode moves to its successor in the cycle and the store records it |
| ExtensionState.Extension.SyncSessions | extension.js:622-658 | the health bookkeeping follows the step above; the prompt is shown when it comes due and a relauncher exists; the store is untouched |
| ExtensionState.Extension.PollTick | extension.js:666-697 | the state follows the polling tick under the per-IDE key and the extension's id |
| ExtensionState.Extension.CheckInstanceLock | extension.js:967-987 | the state follows the instance-lock check under the instance id |
| ExtensionState.Extension.CheckEnvironmentAndStart | extension.js:345-421 | the start-up decision equals the value above, and the store is its store |
| ExtensionState.Extension.StatusBarText | extension.js:939-965 | the off text exactly when disabled |

## Left out

- Every I/O effect on shortcuts, launch files, the wrapper and the registry is modelled as a change of the `World` value or of the store. The temporary PowerShell, batch and shell scripts and the log file are not part of `World`: writing them is taken to succeed. In the code a failed write of the read script gives an empty entry (main_scripts/relauncher.js:118, 142-144), and a failed write of the modify script gives a failure carrying the error (main_scripts/relauncher.js:256, 293-296); neither is modelled. Timeouts and deleting temporary files are not modelled.
- `isCDPRunning` (the HTTP probe of the debugging port) is a boolean parameter. So are the success of spawning a relaunch script and the error of spawning the executable.
- Timers are not modelled: the quit after a relaunch, the polling interval, stats collection. The polling interval's body is one call of `PollTick`.
- Notifications, the settings panel, the output channel and `toFixed` formatting are not modelled, because they only display text.
- `Date.now()`, `INSTANCE_ID`, the extension's id and `getWeekStart()` are parameters, because they depend on the clock and on randomness.
- `path.join` normalisation of `..` and doubled separators is not modelled. The directories the launcher builds never contain them.
- Letter case is folded in ASCII only. `toLowerCase` and PowerShell's case-insensitive operators fold every Unicode letter.
- The machine has one `writable` switch for the writes it models: saving a shortcut, writing a `.desktop` copy, creating the wrapper. The temporary scripts' writes are outside it, as said above.
- LaunchEntries.Probe: a candidate path that exists as a directory is read on Linux as if absent. In the code `readFileSync` throws there (EISDIR) and the exception leaves `findIDEShortcuts` (main_scripts/relauncher.js:184-185).
- LaunchEntries.MacEntries: the same holds for a directory at the wrapper's path (main_scripts/relauncher.js:154-155).
- PortFlag.DigitRun: the digits are ASCII `0`-`9`. That is what JavaScript's `\d` matches; .NET's `\d`, which the PowerShell rewrite uses, also matches the other Unicode decimal digits.
- Registry.Delivered: the Windows command-line parsing is reduced to dropping every double quote. Backslashes before a quote and runs of white space outside quotes are not modelled; they matter only for handler values that contain them.
- Registry.Rewrite: whether PowerShell accepts the write is the `writeOk` oracle. The command it receives has `-Name (default)` unquoted, which PowerShell reads as a sub-expression, so the write is expected to fail; the model leaves the outcome to the oracle and does not claim either way.
- The batch file name's `Date.now()` suffix is not modelled.
- Generated scripts are modelled by what they do and print, not by their full text. Only the wrapper script's text is modelled.
- EntryPatcher.CreateMacWrapper: the result does not carry the `wrapperPath` field the code adds on success (main_scripts/relauncher.js:352-357); the path appears only in the message. The file mode `0o755` the wrapper is written with (main_scripts/relauncher.js:340, 348) is not modelled, because `World` holds file contents without permissions.
- `reg query` output is reduced to the value's first line.
- A stored number held as a string counts as not a number. `now - "123"` in JavaScript would convert it.
- The `async` callers that do not wait for the store writes are modelled as if each write completed in order.
- `ExtensionState.Extension.CheckInstanceLock`: `isPro` is forced to true at start-up, so in the running extension the lock is always granted. The refusal branch is modelled anyway.
- The branches of `checkEnvironmentAndStart` and of `checkInstanceLock` (extension.js:969) taken when `globalContext` is missing are not modelled, because `activate` always sets it first.
- `handleBackgroundToggle`, `ensureCDPOrPrompt`, `handleRelaunch` and `showRelaunchPrompt` are not modelled. They are user-interface flows around `relaunchWithCDP`, which is modelled.
- Frequency and banned-command settings are not modelled.
- `Bootstrap.StartupSpec`: starting polling is reduced to the `polling` flag. The driver the polling starts is not modelled.
- `ExtensionState.Extension.SyncSessions`: the driver's connection count and whether its start threw are parameters.
- The model keeps these behaviours of the code as they are:
  - `ensureShortcutHasFlag` never rewrites an entry that already names the flag, even with another port.
  - A Linux system launcher is copied to the user directory on every call.
  - PowerShell's case-insensitive comparison never reports a case-only change as an update.
  - Registry writes always go to the first handler key.
  - The command stored in the registry has lost its double quotes, so an executable path with a space no longer parses.
  - A second registry run reports `configured` again whenever the `-url` key's command lacks the flag.
  - A Linux system launcher's patched copy is not what the relaunch starts: `gio launch` and `gtk-launch` get the system file, which lacks the flag.
  - Windows of the same extension share an owner id and never lock each other out.
