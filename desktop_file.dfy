/** Linux `.desktop` launchers: reading the command of the first `Exec=`
    line, adding the debugging-port flag to it, and choosing where the
    patched copy is written. */
module DesktopFile {
  import opened Text
  import opened PortFlag
  import opened Paths

  const ExecKey: string := "Exec="

  /** No character of `x` ends a line. */
  predicate SingleLine(x: string) {
    forall k :: 0 <= k < |x| ==> !IsLineTerminator(x[k])
  }

  /** `^` of a multi-line regular expression matches before index `i`. */
  predicate LineStart(s: string, i: nat)
    requires i <= |s|
  {
    i == 0 || IsLineTerminator(s[i - 1])
  }

  /** A line of `s` starts at `i` with `Exec=`. */
  predicate ExecAt(s: string, i: nat) {
    i + |ExecKey| <= |s| && LineStart(s, i) && s[i..i + |ExecKey|] == ExecKey
  }

  /** The first line at or after `from` that starts with `Exec=`. */
  function FindExec(s: string, from: nat): (r: Option<nat>)
    requires from <= |s|
    ensures r.Some? ==> from <= r.value && ExecAt(s, r.value)
    ensures r.Some? ==> forall j :: from <= j < r.value ==> !ExecAt(s, j)
    ensures r.None? ==> forall j :: from <= j <= |s| ==> !ExecAt(s, j)
    decreases |s| - from
  {
    if ExecAt(s, from) then Some(from)
    else if from == |s| then None
    else FindExec(s, from + 1)
  }

  /** Where `.*` starting at `j` stops: the next line terminator, or the
      end of the text. */
  function LineEnd(s: string, j: nat): (e: nat)
    requires j <= |s|
    ensures j <= e <= |s|
    ensures e < |s| ==> IsLineTerminator(s[e])
    ensures forall k :: j <= k < e ==> !IsLineTerminator(s[k])
    decreases |s| - j
  {
    if j == |s| || IsLineTerminator(s[j]) then j else LineEnd(s, j + 1)
  }

  /** The command of a launcher, as `content.match(/^Exec=(.*)$/m)`
      captures it: the rest of the first line that starts with `Exec=`,
      or the empty string when there is none. */
  function ExecValue(s: string): (v: string)
    ensures SingleLine(v)
    ensures FindExec(s, 0).None? ==> v == []
    ensures FindExec(s, 0).Some? ==>
              var j := FindExec(s, 0).value + |ExecKey|;
              j + |v| <= |s| && s[j..j + |v|] == v && (j + |v| == |s| || IsLineTerminator(s[j + |v|]))
  {
    match FindExec(s, 0)
    case None => []
    case Some(i) => s[i + |ExecKey|..LineEnd(s, i + |ExecKey|)]
  }

  datatype DesktopPatch = Unchanged | Rewritten(content: string)

  /** The new content of a launcher. A file that mentions the flag has
      every port rewritten to the base port, and is left alone when that
      changes nothing; any other file has ` <flag>` appended to its first
      `Exec=` line, and is rewritten as it is when it has none. */
  function PatchDesktop(c: string): (r: DesktopPatch)
    ensures r.Unchanged? ==> Contains(c, FlagName)
    ensures r.Rewritten? && Contains(c, FlagName) ==> r.content != c
  {
    if Contains(c, FlagName) then
      var replaced := ReplacePorts(c, false);
      if replaced == c then Unchanged else Rewritten(replaced)
    else
      match FindExec(c, 0)
      case None => Rewritten(c)
      case Some(i) =>
        var e := LineEnd(c, i + |ExecKey|);
        Rewritten(c[..e] + (" " + Flag) + c[e..])
  }

  // ---------------------------------------------------------------------
  // Finding the Exec line

  /** The first `Exec=` line is the one at `i` when no line before it
      starts with the key. */
  lemma FindExecIs(s: string, i: nat)
    requires ExecAt(s, i)
    requires forall j :: 0 <= j < i ==> !ExecAt(s, j)
    ensures FindExec(s, 0) == Some(i)
  {
    var r := FindExec(s, 0);
    assert r.Some?;
    assert !(r.value < i);
  }

  /** The line ends at `e` when it is free of terminators up to `e` and a
      terminator or the end of the text follows. */
  lemma LineEndIs(s: string, j: nat, e: nat)
    requires j <= e <= |s|
    requires forall k :: j <= k < e ==> !IsLineTerminator(s[k])
    requires e < |s| ==> IsLineTerminator(s[e])
    ensures LineEnd(s, j) == e
  {
    var f := LineEnd(s, j);
    assert !(f < e);
  }

  /** Whether a line starts with the key at `j` depends only on the text
      up to the end of the key. */
  lemma ExecAtPrefix(s: string, t: string, j: nat, n: nat)
    requires j + |ExecKey| <= n <= |s| && n <= |t| && s[..n] == t[..n]
    ensures ExecAt(s, j) == ExecAt(t, j)
  {
    assert s[j..j + |ExecKey|] == s[..n][j..j + |ExecKey|];
    assert t[j..j + |ExecKey|] == t[..n][j..j + |ExecKey|];
    if j > 0 {
      assert s[j - 1] == s[..n][j - 1];
      assert t[j - 1] == t[..n][j - 1];
    }
  }

  /** The three parts of a splice, recovered by slicing. */
  lemma Splice(a: string, x: string, b: string)
    ensures (a + x + b)[..|a|] == a
    ensures (a + x + b)[|a|..|a| + |x|] == x
    ensures (a + x + b)[|a| + |x|..] == b
  {
  }

  /** After a splice, a line that ran to the end of `a` runs on to the
      end of `x`. */
  lemma SpliceLineEnd(a: string, x: string, b: string, v: nat)
    requires v <= |a| && SingleLine(x)
    requires forall k :: v <= k < |a| ==> !IsLineTerminator(a[k])
    requires b == [] || IsLineTerminator(b[0])
    ensures LineEnd(a + x + b, v) == |a| + |x|
  {
    var p := a + x + b;
    forall k | v <= k < |a| + |x|
      ensures !IsLineTerminator(p[k])
    {
      if k < |a| {
        assert p[k] == a[k];
      } else {
        assert p[k] == x[k - |a|];
      }
    }
    if b != [] {
      assert p[|a| + |x|] == b[0];
    }
    LineEndIs(p, v, |a| + |x|);
  }

  lemma SpliceSlice(a: string, x: string, b: string, v: nat)
    requires v <= |a|
    ensures (a + x + b)[v..|a| + |x|] == a[v..] + x
  {
  }

  /** Inserting text after the key of the first `Exec=` line leaves that
      line the first one with the key. */
  lemma SpliceKeepsExec(c: string, i: nat, e: nat, x: string)
    requires FindExec(c, 0) == Some(i) && i + |ExecKey| <= e <= |c|
    ensures FindExec(c[..e] + x + c[e..], 0) == Some(i)
  {
    var p := c[..e] + x + c[e..];
    Splice(c[..e], x, c[e..]);
    forall j | 0 <= j <= i
      ensures ExecAt(p, j) == ExecAt(c, j)
    {
      ExecAtPrefix(p, c, j, e);
    }
    FindExecIs(p, i);
  }

  /** Text inserted at the end of the first `Exec=` line, with no line
      terminator in it, is appended to the captured command and leaves
      the line where it was. */
  lemma AppendToExec(c: string, x: string)
    requires FindExec(c, 0).Some? && SingleLine(x)
    ensures var i := FindExec(c, 0).value;
            var e := LineEnd(c, i + |ExecKey|);
            FindExec(c[..e] + x + c[e..], 0) == Some(i)
            && ExecValue(c[..e] + x + c[e..]) == ExecValue(c) + x
  {
    var i := FindExec(c, 0).value;
    var v := i + |ExecKey|;
    var e := LineEnd(c, v);
    var a, b := c[..e], c[e..];
    SpliceKeepsExec(c, i, e, x);
    assert forall k :: v <= k < |a| ==> a[k] == c[k];
    assert b != [] ==> b[0] == c[e];
    SpliceLineEnd(a, x, b, v);
    SpliceSlice(a, x, b, v);
    assert a[v..] == c[v..e];
    ExecValueAt(c, i);
    ExecValueAt(a + x + b, i);
  }

  lemma ExecValueAt(s: string, i: nat)
    requires FindExec(s, 0) == Some(i)
    ensures ExecValue(s) == s[i + |ExecKey|..LineEnd(s, i + |ExecKey|)]
  {
  }

  lemma SpaceFlagSingleLine()
    ensures SingleLine(" " + Flag)
  {
    FlagChars();
    var x := " " + Flag;
    assert forall k :: 1 <= k < |x| ==> x[k] == Flag[k - 1];
  }

  // ---------------------------------------------------------------------
  // Properties of the patch

  /** A launcher without the flag gets it at the end of its command: the
      captured command afterwards is the old one followed by ` <flag>`,
      so the launcher then reads as carrying the flag. */
  lemma PatchAppendsFlag(c: string)
    requires !Contains(c, FlagName) && FindExec(c, 0).Some?
    ensures PatchDesktop(c).Rewritten?
    ensures ExecValue(PatchDesktop(c).content) == ExecValue(c) + " " + Flag
    ensures Contains(ExecValue(PatchDesktop(c).content), FlagName)
  {
    SpaceFlagSingleLine();
    AppendToExec(c, " " + Flag);
    var v := ExecValue(c);
    Assoc3(v, " ", Flag);
    SpaceFlagNamed(v);
  }

  /** Text followed by ` <flag>` names the flag. */
  lemma SpaceFlagNamed(a: string)
    ensures Contains(a + (" " + Flag), FlagName)
  {
    FlagContainsName([]);
    assert Flag + [] == Flag;
    ContainsEither(" ", Flag, FlagName);
    ContainsEither(a, " " + Flag, FlagName);
  }

  /** A match of the port pattern inside a slice is a mention of the flag
      in the whole text. */
  lemma MatchInSlice(c: string, lo: nat, hi: nat)
    requires lo <= hi <= |c|
    ensures HasMatch(c[lo..hi], false) ==> Contains(c, FlagName)
  {
    if HasMatch(c[lo..hi], false) {
      MatchContainsFlagName(c[lo..hi]);
      ContainsSlice(c, lo, hi, FlagName);
    }
  }

  /** Text that never names the flag has no match on either side of a
      cut. */
  lemma HalvesNoMatch(c: string, e: nat)
    requires !Contains(c, FlagName) && e <= |c|
    ensures !HasMatch(c[..e], false) && !HasMatch(c[e..], false)
  {
    MatchInSlice(c, 0, e);
    MatchInSlice(c, e, |c|);
    assert c[0..e] == c[..e] && c[e..|c|] == c[e..];
  }

  /** ` <flag>` followed by text with no match and no leading digit is
      left as it is by the port rewrite. */
  lemma SpaceFlagFixed(b: string)
    requires !HasMatch(b, false) && (b == [] || !IsDigit(b[0]))
    ensures ReplacePorts(" " + Flag + b, false) == " " + Flag + b
  {
    Assoc3(" ", Flag, b);
    SpaceKept(Flag + b, false);
    FlagFixed(b, false);
  }

  lemma SpaceFlagNoStraddle(b: string)
    ensures NoStraddle(" " + Flag + b)
  {
    NameHasNoEquals();
    var y := " " + Flag + b;
    assert forall j :: 1 <= j < |FlagName| ==> y[j] == FlagName[j - 1];
  }

  /** ` <flag>` spliced between two texts without a match is left as it
      is by the port rewrite. */
  lemma SpliceFixed(a: string, b: string)
    requires !HasMatch(a, false) && !HasMatch(b, false)
    requires b == [] || !IsDigit(b[0])
    ensures ReplacePorts(a + (" " + Flag) + b, false) == a + (" " + Flag) + b
  {
    var x := " " + Flag;
    Assoc3(a, x, b);
    Assoc3(" ", Flag, b);
    SpaceFlagNoStraddle(b);
    SplitScan(a, x + b, false);
    NoMatchUnchanged(a, false);
    SpaceFlagFixed(b);
  }

  /** Patching a launcher that lacked the flag, then patching the result,
      changes nothing the second time. */
  lemma PatchAppendedTwice(c: string)
    requires !Contains(c, FlagName) && FindExec(c, 0).Some?
    ensures PatchDesktop(c).Rewritten?
    ensures PatchDesktop(PatchDesktop(c).content) == Unchanged
  {
    var i := FindExec(c, 0).value;
    var e := LineEnd(c, i + |ExecKey|);
    var a, b := c[..e], c[e..];
    HalvesNoMatch(c, e);
    assert b != [] ==> b[0] == c[e];
    SpliceFixed(a, b);
    SpaceFlagNamed(a);
    ContainsEither(a + (" " + Flag), b, FlagName);
    PatchAppendShape(c);
    PatchFixedPoint(a + (" " + Flag) + b);
  }

  lemma PatchAppendShape(c: string)
    requires !Contains(c, FlagName) && FindExec(c, 0).Some?
    ensures var e := LineEnd(c, FindExec(c, 0).value + |ExecKey|);
            PatchDesktop(c) == Rewritten(c[..e] + (" " + Flag) + c[e..])
  {
  }

  /** A launcher naming the flag that the port rewrite leaves alone is
      not touched. */
  lemma PatchFixedPoint(p: string)
    requires Contains(p, FlagName) && ReplacePorts(p, false) == p
    ensures PatchDesktop(p) == Unchanged
  {
  }

  /** Patching a launcher that mentions the flag, then patching the
      result, changes nothing the second time. */
  lemma PatchFlaggedTwice(c: string)
    requires Contains(c, FlagName)
    ensures PatchDesktop(c).Rewritten? ==> PatchDesktop(PatchDesktop(c).content) == Unchanged
  {
    if HasMatch(c, false) {
      ReplacePortsContainsFlag(c, false);
      ReplacePortsIdempotent(c, false);
    } else {
      NoMatchUnchanged(c, false);
    }
  }

  /** A launcher with neither the flag nor an `Exec=` line is written back
      unchanged, yet counts as rewritten, every time it is patched. */
  lemma NoExecLineRewrittenAsIs(c: string)
    requires !Contains(c, FlagName) && FindExec(c, 0).None?
    ensures PatchDesktop(c) == Rewritten(c)
    ensures PatchDesktop(PatchDesktop(c).content) == Rewritten(c)
  {
  }

  // ---------------------------------------------------------------------
  // Where the patched copy goes

  const UserMarker: string := ".local"
  const UserAppsRelative: string := UserMarker + "/share/applications"

  /** `~/.local/share/applications`. */
  function UserAppsDir(home: string): (d: string)
    ensures d != []
  {
    Under(home, UserAppsRelative, false)
  }

  /** A launcher under a `.local` directory is patched in place; any other
      is copied, under its own name, into the user's applications
      directory. */
  function TargetPath(desktopPath: string, home: string): string {
    if Contains(desktopPath, UserMarker) then desktopPath
    else Under(UserAppsDir(home), Basename(desktopPath, false), false)
  }

  lemma UserAppsDirIsUser(home: string)
    ensures Contains(UserAppsDir(home), UserMarker)
  {
    assert UserMarker[0..|UserMarker|] == UserMarker;
    ContainsAt(UserMarker, UserMarker, 0);
    ContainsEither(UserMarker, "/share/applications", UserMarker);
    if home != [] {
      ContainsEither(home + ['/'], UserAppsRelative, UserMarker);
    }
  }

  /** The patched launcher is always a user launcher, and keeps the base
      name of the one it came from. */
  lemma TargetIsUserCopy(desktopPath: string, home: string)
    ensures Contains(TargetPath(desktopPath, home), UserMarker)
    ensures Basename(desktopPath, false) != [] ==>
              Basename(TargetPath(desktopPath, home), false) == Basename(desktopPath, false)
  {
    if !Contains(desktopPath, UserMarker) {
      var dir := UserAppsDir(home);
      var name := Basename(desktopPath, false);
      UserAppsDirIsUser(home);
      ContainsEither(dir, ['/'] + name, UserMarker);
      Assoc3(dir, ['/'], name);
      if name != [] {
        BasenameOfJoin(dir, name, false);
      }
    }
  }
}
