/** The extension's in-memory modes: which IDE it runs in, the
    OFF -> ON (single tab) -> ON (multi tab) -> OFF cycle with its status
    bar text, and the connection-health bookkeeping behind the relaunch
    prompt. */
module ExtensionModes {
  import opened Text
  import opened LaunchEntries

  const CodeName: string := "Code"

  /** `detectIDE`: the IDE named by the host's application name. */
  function DetectIde(appName: string): (r: string)
    ensures var low := Lower(appName);
            && (r == CursorName <==> Contains(low, "cursor"))
            && (r == AntigravityName <==> !Contains(low, "cursor") && Contains(low, "antigravity"))
            && (r == WindsurfName <==> !Contains(low, "cursor") && !Contains(low, "antigravity") && Contains(low, "windsurf"))
            && (r == TraeName <==> !Contains(low, "cursor") && !Contains(low, "antigravity") && !Contains(low, "windsurf")
                                   && Contains(low, "trae"))
            && (r == CodeName <==> !Contains(low, "cursor") && !Contains(low, "antigravity") && !Contains(low, "windsurf")
                                   && !Contains(low, "trae"))
  {
    var low := Lower(appName);
    if Contains(low, "cursor") then CursorName
    else if Contains(low, "antigravity") then AntigravityName
    else if Contains(low, "windsurf") then WindsurfName
    else if Contains(low, "trae") then TraeName
    else CodeName
  }

  /** The extension and the relauncher agree on the four IDEs both know;
      every other host is "Code" to the extension, whatever name the
      relauncher gives it. */
  lemma DetectAgreesWithRelauncher(appName: string)
    ensures var n := IdeName(appName);
            DetectIde(appName)
            ==
            if n == CursorName || n == AntigravityName || n == WindsurfName || n == TraeName then n else CodeName
  {
    KnownNamesLowered();
    assert VsCodeName != CursorName && VsCodeName != AntigravityName && VsCodeName != WindsurfName && VsCodeName != TraeName;
    assert DefaultName != CursorName && DefaultName != AntigravityName && DefaultName != WindsurfName && DefaultName != TraeName;
  }

  // ------------------------------------------------------------- cycle

  /** `isEnabled` and `backgroundModeEnabled`. */
  datatype Mode = Mode(enabled: bool, background: bool)

  const Off := Mode(false, false)
  const Single := Mode(true, false)
  const Multi := Mode(true, true)

  /** `handleCycleState`'s transition. */
  function CycleNext(m: Mode): (r: Mode)
    ensures r == Single || r == Multi || r == Off
    ensures r != m
  {
    if !m.enabled then Single
    else if !m.background then Multi
    else Off
  }

  /** Three clicks come back to where they started, exactly from the
      three states of the cycle; the disabled state with the multi-tab
      flag left over (which toggling produces) is left at the first click
      and never comes back. */
  lemma CycleReturns(m: Mode)
    ensures CycleNext(CycleNext(CycleNext(m))) == m <==> m != Mode(false, true)
    ensures CycleNext(CycleNext(m)) != m
  {
  }

  const OffText: string := "$(zap) 关闭"
  const OnText: string := "⚡ 开启"
  const MultiText: string := "⚡ 多模式"

  /** `updateStatusBar`'s text. */
  function StatusText(m: Mode): (r: string)
    ensures r == OffText <==> !m.enabled
    ensures r == MultiText <==> m.enabled && m.background
    ensures r == OnText <==> m.enabled && !m.background
  {
    if !m.enabled then OffText
    else if !m.background then OnText
    else MultiText
  }

  /** Each click of the cycle changes the status bar text. */
  lemma CycleChangesText(m: Mode)
    requires m != Mode(false, true)
    ensures StatusText(CycleNext(m)) != StatusText(m)
  {
  }

  // ------------------------------------------------------------ health

  const PromptCooldown := 60000

  /** `hadCDPConnection` and `lastRelaunchPromptTime`. */
  datatype Health = Health(hadCdp: bool, lastPrompt: int)

  /** The health check in `syncSessions`, after the driver started:
      `active` is the guard that a driver exists, this instance is not
      locked out and the start did not throw; `count` is the number of
      connections. The second component says whether the prompt came due:
      the cooldown's time stamp moved to `now`. The prompt itself is then
      shown only when a relauncher exists (`SyncSessions` takes that
      into account); the stamp moves either way. */
  function SyncStep(h: Health, active: bool, enabled: bool, count: nat, now: int): (r: (Health, bool))
    ensures r.1 <==> active && count == 0 && h.hadCdp && enabled && now - h.lastPrompt > PromptCooldown
    ensures r.0.hadCdp <==> h.hadCdp || (active && count > 0)
    ensures r.0.lastPrompt == if r.1 then now else h.lastPrompt
  {
    if !active then (h, false)
    else if count > 0 then (h.(hadCdp := true), false)
    else if h.hadCdp && enabled && now - h.lastPrompt > PromptCooldown then (h.(lastPrompt := now), true)
    else (h, false)
  }

  /** What happens to the health bookkeeping over time: syncs, and the
      resets turning the extension off performs. */
  datatype Event = Sync(active: bool, enabled: bool, count: nat, now: int) | Disable

  /** One event's effect, and whether the prompt came due. */
  function Apply(h: Health, e: Event): (r: (Health, bool))
    ensures r.1 ==> e.Sync? && r.0.lastPrompt == e.now
    ensures !r.1 ==> r.0.lastPrompt == h.lastPrompt
  {
    match e
    case Sync(active, enabled, count, now) => SyncStep(h, active, enabled, count, now)
    case Disable => (h.(hadCdp := false), false)
  }

  /** The health after a run of events, and the times the prompt came
      due. */
  function Run(h: Health, events: seq<Event>): (r: (Health, seq<int>))
    decreases |events|
  {
    if events == [] then (h, [])
    else
      var (h1, shown) := Apply(h, events[0]);
      var rest := Run(h1, events[1..]);
      (rest.0, (if shown then [events[0].now] else []) + rest.1)
  }

  /** Each time is more than the cooldown after the one before it, the
      first more than the cooldown after `from`. */
  predicate Spaced(from: int, times: seq<int>)
    decreases |times|
  {
    times == [] || (times[0] - from > PromptCooldown && Spaced(times[0], times[1..]))
  }

  /** The last of the times, or `from` when there are none. */
  function Latest(from: int, times: seq<int>): int {
    if times == [] then from else times[|times| - 1]
  }

  /** However the clock moves and whatever happens in between, two
      relaunch prompts are more than the cooldown apart, the first one
      more than the cooldown after the last one before the run, and the
      bookkeeping remembers the last one. */
  lemma {:induction false} PromptsSpaced(h: Health, events: seq<Event>)
    ensures Spaced(h.lastPrompt, Run(h, events).1)
    ensures Run(h, events).0.lastPrompt == Latest(h.lastPrompt, Run(h, events).1)
    decreases |events|
  {
    if events != [] {
      var (h1, shown) := Apply(h, events[0]);
      PromptsSpaced(h1, events[1..]);
      var rest := Run(h1, events[1..]);
      if shown {
        var all := [events[0].now] + rest.1;
        assert Run(h, events).1 == all;
        assert all[1..] == rest.1;
        if rest.1 != [] {
          assert all[|all| - 1] == rest.1[|rest.1| - 1];
        }
      } else {
        assert Run(h, events).1 == [] + rest.1 == rest.1;
      }
    }
  }

  /** `Spaced` says what it promises of every pair of neighbours. */
  lemma {:induction false} SpacedNeighbours(from: int, times: seq<int>)
    requires Spaced(from, times)
    ensures forall i :: 0 < i < |times| ==> times[i] - times[i - 1] > PromptCooldown
    decreases |times|
  {
    if times != [] {
      SpacedNeighbours(times[0], times[1..]);
      forall i | 0 < i < |times|
        ensures times[i] - times[i - 1] > PromptCooldown
      {
        if i > 1 {
          assert times[i] == times[1..][i - 1] && times[i - 1] == times[1..][i - 2];
        } else {
          assert times[1] == times[1..][0];
        }
      }
    }
  }

  /** After the extension is turned off, a lost connection does not
      prompt until a connection is seen again. */
  lemma DisableSilencesPrompt(h: Health, enabled: bool, now: int)
    ensures var h1 := Run(h, [Disable]).0;
            !SyncStep(h1, true, enabled, 0, now).1
  {
    assert [Disable][1..] == [];
  }
}
