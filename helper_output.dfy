/** The text protocol between the launcher and the PowerShell scripts it
    runs on Windows. A script reports through `Write-Output` lines of the
    form `KEY:value`; the launcher splits the captured output at line
    feeds, trims every piece, drops the empty ones and looks for the first
    line with a given key. This module models both sides: the lines each
    script prints, the rule the modify script applies to a shortcut's
    arguments, and the launcher's parse of the output. */
module HelperOutput {
  import opened Text
  import opened PortFlag

  /** What `execSync` hands back: the script's standard output, or the
      message of the exception it throws (non-zero exit, time-out, no
      PowerShell). */
  datatype ExecResult = Ran(stdout: string) | Threw(message: string)

  /** The result shape shared by every entry patcher. */
  datatype PatchResult = PatchResult(success: bool, modified: bool, message: string)

  /** PowerShell's `Write-Output` on a Windows console: each line is
      followed by CR LF. */
  function Emit(lines: seq<string>): string {
    if lines == [] then "" else lines[0] + "\r\n" + Emit(lines[1..])
  }

  /** A line as trimming leaves it when it is kept: not empty, and
      neither starting nor ending with white space. */
  predicate Unpadded(l: string) {
    l != [] && !IsSpace(l[0]) && !IsSpace(l[|l| - 1])
  }

  /** `pieces.map(l => l.trim()).filter(l => l)`. */
  function Clean(pieces: seq<string>): (lines: seq<string>)
    ensures |lines| <= |pieces|
    ensures forall k :: 0 <= k < |lines| ==> lines[k] != []
    ensures forall k :: 0 <= k < |lines| ==> Unpadded(lines[k])
  {
    if pieces == [] then []
    else
      var line := Trim(pieces[0]);
      var rest := Clean(pieces[1..]);
      if line == [] then rest
      else
        ConsUnpadded(line, rest);
        [line] + rest
  }

  lemma ConsUnpadded(line: string, rest: seq<string>)
    requires Unpadded(line)
    requires forall k :: 0 <= k < |rest| ==> Unpadded(rest[k])
    ensures forall k :: 0 <= k < |rest| + 1 ==> Unpadded(([line] + rest)[k])
  {
  }

  /** `out.split('\n').map(l => l.trim()).filter(l => l)`. */
  function CleanLines(out: string): seq<string> {
    Clean(SplitLines(out))
  }

  /** Index of the first line starting with `prefix`; `|lines|` when there
      is none. */
  function FindIndex(lines: seq<string>, prefix: string): (k: nat)
    ensures k <= |lines|
    ensures k < |lines| ==> StartsWith(lines[k], prefix)
    ensures forall j :: 0 <= j < k ==> !StartsWith(lines[j], prefix)
  {
    if lines == [] then 0
    else if StartsWith(lines[0], prefix) then 0
    else 1 + FindIndex(lines[1..], prefix)
  }

  /** `lines.find(l => l.startsWith(prefix))`. */
  function FindLine(lines: seq<string>, prefix: string): (r: Option<string>)
    ensures r.Some? ==> StartsWith(r.value, prefix)
    ensures r.None? <==> forall j :: 0 <= j < |lines| ==> !StartsWith(lines[j], prefix)
  {
    var k := FindIndex(lines, prefix);
    if k < |lines| then Some(lines[k]) else None
  }

  // ---------------------------------------------------------------------
  // Reading a shortcut

  /** What the launcher learns about a `.lnk` file. */
  datatype ShortcutInfo = ShortcutInfo(args: string, target: string, hasFlag: bool)

  const NoInfo := ShortcutInfo("", "", false)

  /** The lines the read script prints for a shortcut whose `Arguments`
      and `TargetPath` are `args` and `target`. */
  function ReadScriptLines(args: string, target: string): seq<string> {
    ["ARGS:" + args, "TARGET:" + target]
  }

  /** The line the scripts print when the COM object throws. */
  function ErrorLines(msg: string): seq<string> {
    ["ERROR:" + msg]
  }

  /** The parse of `_readWindowsShortcut`: an `ERROR:` line or a failed
      run gives empty arguments and target and no flag; a missing `ARGS:`
      or `TARGET:` line reads as an empty value; the flag is present iff
      the arguments mention the flag's name, case-sensitively. */
  function ParseReadOutput(res: ExecResult): (info: ShortcutInfo)
    ensures info.hasFlag <==> Contains(info.args, FlagName)
    ensures res.Threw? ==> info == NoInfo
    ensures res.Ran? && FindLine(CleanLines(res.stdout), "ERROR:").Some? ==> info == NoInfo
  {
    match res
    case Threw(_) => NoInfo
    case Ran(out) =>
      var lines := CleanLines(out);
      if FindLine(lines, "ERROR:").Some? then NoInfo
      else
        var argsLine := match FindLine(lines, "ARGS:") case Some(l) => l case None => "ARGS:";
        var targetLine := match FindLine(lines, "TARGET:") case Some(l) => l case None => "TARGET:";
        var args := argsLine[5..];
        ShortcutInfo(args, targetLine[7..], Contains(args, FlagName))
  }

  // ---------------------------------------------------------------------
  // Facts about the line protocol

  /** A value that survives the trip through one output line unchanged:
      no line feed inside and no white space at its end. */
  predicate LineValue(v: string) {
    '\n' !in v && (v == [] || !IsSpace(v[|v| - 1]))
  }

  /** A line that survives the split: no line feed, and a first character
      that trimming keeps. */
  predicate Printable(l: string) {
    '\n' !in l && l != [] && !IsSpace(l[0])
  }

  /** Trimming a printed line (with the CR of its line end) keeps a
      non-empty prefix of it and removes only white space. */
  lemma TrimLine(l: string)
    requires l != [] && !IsSpace(l[0])
    ensures 1 <= |Trim(l + "\r")| <= |l|
    ensures Trim(l + "\r") == l[..|Trim(l + "\r")|]
    ensures forall k :: |Trim(l + "\r")| <= k < |l| ==> IsSpace(l[k])
  {
    var s := l + "\r";
    assert TrimStart(s) == s;
    var r := TrimEnd(s);
    assert s[0] == l[0];
    assert |r| >= 1;
    assert |r| <= |l| by {
      assert IsSpace(s[|l|]);
    }
    assert r == l[..|r|];
  }

  /** Trimming a printed line keeps its first character. */
  lemma TrimHead(l: string)
    requires l != [] && !IsSpace(l[0])
    ensures Trim(l + "\r") != [] && Trim(l + "\r")[0] == l[0]
  {
    TrimLine(l);
  }

  /** A line whose value is a `LineValue` comes back from the trim
      exactly. */
  lemma TrimValue(key: string, v: string)
    requires key != [] && !IsSpace(key[0]) && !IsSpace(key[|key| - 1])
    requires LineValue(v)
    ensures Trim(key + v + "\r") == key + v
  {
    var l := key + v;
    assert l[0] == key[0];
    assert !IsSpace(l[|l| - 1]);
    TrimLine(l);
  }

  lemma EmitCons(ls: seq<string>)
    requires ls != []
    ensures Emit(ls) == (ls[0] + "\r") + "\n" + Emit(ls[1..])
  {
    var r := Emit(ls[1..]);
    assert "\r\n" == "\r" + "\n";
    Assoc3(ls[0], "\r\n", r);
    Assoc3(ls[0], "\r", "\n");
    Assoc3(ls[0] + "\r", "\n", r);
  }

  lemma CleanCons(x: string, rest: seq<string>)
    requires Trim(x) != []
    ensures Clean([x] + rest) == [Trim(x)] + Clean(rest)
  {
    var pieces := [x] + rest;
    assert pieces[0] == x && pieces[1..] == rest;
  }

  /** Splitting and cleaning the output peels off its first line. */
  lemma CleanEmitStep(ls: seq<string>)
    requires ls != [] && Printable(ls[0])
    ensures CleanLines(Emit(ls)) == [Trim(ls[0] + "\r")] + CleanLines(Emit(ls[1..]))
  {
    var x := ls[0] + "\r";
    var rest := Emit(ls[1..]);
    EmitCons(ls);
    assert '\n' !in x;
    SplitLinesCons(x, rest);
    TrimLine(ls[0]);
    CleanCons(x, SplitLines(rest));
  }

  /** Each line trimmed together with the CR of its line end. */
  function TrimEach(ls: seq<string>): (r: seq<string>)
    ensures |r| == |ls|
    ensures forall k :: 0 <= k < |ls| ==> r[k] == Trim(ls[k] + "\r")
  {
    if ls == [] then [] else [Trim(ls[0] + "\r")] + TrimEach(ls[1..])
  }

  /** The cleaned output of printed lines is those lines, each trimmed. */
  lemma {:induction false} CleanEmit(ls: seq<string>)
    requires forall k :: 0 <= k < |ls| ==> Printable(ls[k])
    ensures CleanLines(Emit(ls)) == TrimEach(ls)
  {
    if ls == [] {
      assert SplitLines("") == [""];
    } else {
      CleanEmitStep(ls);
      CleanEmit(ls[1..]);
    }
  }

  /** A line whose first character differs from the key's cannot start
      with the key. */
  lemma HeadMismatch(l: string, key: string)
    requires l != [] && key != [] && l[0] != key[0]
    ensures !StartsWith(l, key)
  {
    if |key| <= |l| {
      assert l[..|key|][0] == l[0];
    }
  }

  /** A `KEY:value` line starts with its key and yields its value. */
  lemma KeyLine(key: string, v: string)
    ensures StartsWith(key + v, key) && (key + v)[|key|..] == v
  {
    SplitAppend(key, v);
  }

  /** A key line is printable when its value has no line feed. */
  lemma KeyPrintable(key: string, v: string)
    requires key != [] && !IsSpace(key[0]) && '\n' !in key && '\n' !in v
    ensures Printable(key + v)
  {
    assert (key + v)[0] == key[0];
  }

  /** The first character of a `KEY:value` line is the key's. */
  lemma KeyHeadChar(key: string, v: string)
    requires key != []
    ensures (key + v)[0] == key[0]
  {
  }

  /** A printed line that starts with a key whose last character is not
      white space still starts with it after the trim. */
  lemma TrimKeepsStart(l: string, key: string)
    requires l != [] && !IsSpace(l[0]) && StartsWith(l, key)
    requires key != [] && !IsSpace(key[|key| - 1])
    ensures StartsWith(Trim(l + "\r"), key)
  {
    TrimLine(l);
    var m := |Trim(l + "\r")|;
    assert l[|key| - 1] == key[|key| - 1];
    assert m >= |key|;
    assert l[..m][..|key|] == l[..|key|];
  }

  /** `FindLine` picks the line at `k` when it is the first with the key. */
  lemma FirstWithKey(lines: seq<string>, key: string, k: nat)
    requires k < |lines| && StartsWith(lines[k], key)
    requires forall j :: 0 <= j < k ==> !StartsWith(lines[j], key)
    ensures FindLine(lines, key) == Some(lines[k])
  {
  }

  /** Searching the cleaned output of printed lines for a key: when the
      lines before `k` start with another character and line `k` starts
      with the key, the search finds line `k`, trimmed; when all lines
      start with another character it finds nothing. */
  lemma FindInEmit(ls: seq<string>, key: string, k: nat)
    requires forall j :: 0 <= j < |ls| ==> Printable(ls[j])
    requires key != [] && !IsSpace(key[|key| - 1])
    requires k <= |ls|
    requires forall j :: 0 <= j < k ==> ls[j] != [] && ls[j][0] != key[0]
    requires k < |ls| ==> StartsWith(ls[k], key)
    ensures k < |ls| ==> FindLine(CleanLines(Emit(ls)), key) == Some(Trim(ls[k] + "\r"))
    ensures k == |ls| ==> FindLine(CleanLines(Emit(ls)), key).None?
  {
    CleanEmit(ls);
    var lines := TrimEach(ls);
    forall j | 0 <= j < k
      ensures !StartsWith(lines[j], key)
    {
      TrimHead(ls[j]);
      HeadMismatch(lines[j], key);
    }
    if k < |ls| {
      TrimKeepsStart(ls[k], key);
      FirstWithKey(lines, key, k);
    }
  }

  /** When only the last printed line starts with the key's first
      character, and it is the key followed by a line value, the search
      finds exactly that line. */
  lemma LastLineFound(ls: seq<string>, key: string, v: string)
    requires forall j :: 0 <= j < |ls| ==> Printable(ls[j])
    requires key != [] && !IsSpace(key[0]) && !IsSpace(key[|key| - 1]) && LineValue(v)
    requires ls != [] && ls[|ls| - 1] == key + v
    requires forall j :: 0 <= j < |ls| - 1 ==> ls[j] != [] && ls[j][0] != key[0]
    ensures FindLine(CleanLines(Emit(ls)), key) == Some(key + v)
  {
    KeyLine(key, v);
    FindInEmit(ls, key, |ls| - 1);
    TrimValue(key, v);
  }

  /** The first characters of the read script's lines. */
  lemma ReadHeads(args: string, target: string)
    requires '\n' !in args && '\n' !in target
    ensures var ls := ReadScriptLines(args, target);
      forall j :: 0 <= j < |ls| ==> Printable(ls[j]) && ls[j][0] != 'E'
    ensures ReadScriptLines(args, target)[0][0] == 'A'
  {
    KeyPrintable("ARGS:", args);
    KeyPrintable("TARGET:", target);
    KeyHeadChar("ARGS:", args);
    KeyHeadChar("TARGET:", target);
  }

  lemma ReadArgsFound(args: string, target: string)
    requires LineValue(args) && LineValue(target)
    ensures FindLine(CleanLines(Emit(ReadScriptLines(args, target))), "ERROR:").None?
    ensures FindLine(CleanLines(Emit(ReadScriptLines(args, target))), "ARGS:") == Some("ARGS:" + args)
  {
    var ls := ReadScriptLines(args, target);
    ReadHeads(args, target);
    FindInEmit(ls, "ERROR:", 2);
    KeyLine("ARGS:", args);
    FindInEmit(ls, "ARGS:", 0);
    TrimValue("ARGS:", args);
  }

  lemma ReadTargetFound(args: string, target: string)
    requires LineValue(args) && LineValue(target)
    ensures FindLine(CleanLines(Emit(ReadScriptLines(args, target))), "TARGET:") == Some("TARGET:" + target)
  {
    ReadHeads(args, target);
    LastLineFound(ReadScriptLines(args, target), "TARGET:", target);
  }

  /** Round trip of the read script: for a shortcut whose arguments and
      target fit on one line and do not end in white space, the launcher
      reads back exactly what the script printed, and sees the flag iff
      the arguments name it. */
  lemma ReadRoundTrip(args: string, target: string)
    requires LineValue(args) && LineValue(target)
    ensures ParseReadOutput(Ran(Emit(ReadScriptLines(args, target))))
         == ShortcutInfo(args, target, Contains(args, FlagName))
  {
    ReadArgsFound(args, target);
    ReadTargetFound(args, target);
    KeyLine("ARGS:", args);
    KeyLine("TARGET:", target);
  }

  /** The cleaned output of an error report starts with its `ERROR:`
      line. */
  lemma ErrorLineFound(msg: string)
    requires '\n' !in msg
    ensures FindLine(CleanLines(Emit(ErrorLines(msg))), "ERROR:").Some?
  {
    KeyPrintable("ERROR:", msg);
    KeyLine("ERROR:", msg);
    FindInEmit(ErrorLines(msg), "ERROR:", 0);
  }

  /** An `ERROR:` line from the script always reads as an empty,
      flagless shortcut. */
  lemma ReadErrorIsEmpty(msg: string)
    requires '\n' !in msg
    ensures ParseReadOutput(Ran(Emit(ErrorLines(msg)))) == NoInfo
  {
    ErrorLineFound(msg);
  }

  // ---------------------------------------------------------------------
  // Modifying a shortcut

  /** What the modify script does to the arguments. */
  datatype RuleOutcome = Modified(newArgs: string) | Updated(newArgs: string) | AlreadyCorrect

  /** The rule of the modify script, with PowerShell's case-insensitive
      `-match`, `-replace` and `-ne`: with a port flag present every port
      is rewritten to the base port, and the shortcut is saved only if the
      text changed; without one the flag and a space are put in front of
      the arguments. */
  function WindowsRule(args: string): (r: RuleOutcome)
    ensures r.Modified? <==> !HasMatch(args, true)
    ensures r.Updated? ==> !EqualsIgnoreCase(r.newArgs, args)
  {
    if HasMatch(args, true) then
      var replaced := ReplacePorts(args, true);
      if EqualsIgnoreCase(replaced, args) then AlreadyCorrect else Updated(replaced)
    else Modified(Flag + " " + args)
  }

  /** The word after `RESULT:` for each outcome. */
  function ResultWord(o: RuleOutcome): string {
    match o
    case Modified(_) => "MODIFIED"
    case Updated(_) => "UPDATED"
    case AlreadyCorrect => "ALREADY_CORRECT"
  }

  /** The lines the modify script prints when the rule's outcome is `o`:
      the arguments before, the target, the arguments after (only when
      the shortcut is saved) and the result. */
  function ScriptLines(args: string, target: string, o: RuleOutcome): seq<string> {
    if o.AlreadyCorrect? then
      ["BEFORE_ARGS:" + args, "TARGET:" + target, "RESULT:" + ResultWord(o)]
    else
      ["BEFORE_ARGS:" + args, "TARGET:" + target, "AFTER_ARGS:" + o.newArgs, "RESULT:" + ResultWord(o)]
  }

  /** The modify script's output for a shortcut with arguments `args` and
      target `target`. */
  function ModifyScriptLines(args: string, target: string): seq<string> {
    ScriptLines(args, target, WindowsRule(args))
  }

  /** The parse of `_modifyWindowsShortcut`; `name` is the shortcut's
      base name. */
  function ParseModifyOutput(res: ExecResult, name: string): (r: PatchResult)
    ensures r.modified ==> r.success
    ensures res.Threw? ==> r == PatchResult(false, false, res.message)
    ensures res.Ran? && FindLine(CleanLines(res.stdout), "ERROR:").Some? ==> !r.success
  {
    match res
    case Threw(msg) => PatchResult(false, false, msg)
    case Ran(out) =>
      var lines := CleanLines(out);
      match FindLine(lines, "ERROR:")
      case Some(e) => PatchResult(false, false, e[6..])
      case None =>
        var result := match FindLine(lines, "RESULT:") case Some(l) => l[7..] case None => "UNKNOWN";
        ReportFor(result, name)
  }

  /** What the launcher reports for the word after `RESULT:`. */
  function ReportFor(result: string, name: string): (r: PatchResult)
    ensures r.success <==> result in {"MODIFIED", "UPDATED", "ALREADY_CORRECT"}
    ensures r.modified <==> result in {"MODIFIED", "UPDATED"}
  {
    if result == "MODIFIED" then PatchResult(true, true, "Modified: " + name)
    else if result == "UPDATED" then PatchResult(true, true, "Updated port: " + name)
    else if result == "ALREADY_CORRECT" then PatchResult(true, false, "Already configured with correct port")
    else PatchResult(false, false, "Unexpected result: " + result)
  }

  /** The result the launcher reports for each outcome of the rule:
      success, and a modification exactly when the shortcut was saved. */
  function Reported(o: RuleOutcome, name: string): (r: PatchResult)
    ensures r.success && (r.modified <==> !o.AlreadyCorrect?)
  {
    ReportFor(ResultWord(o), name)
  }

  lemma ScriptLinesPrintable(args: string, target: string, o: RuleOutcome)
    requires '\n' !in args && '\n' !in target && (o.AlreadyCorrect? || '\n' !in o.newArgs)
    ensures forall k :: 0 <= k < |ScriptLines(args, target, o)| ==> Printable(ScriptLines(args, target, o)[k])
  {
    KeyPrintable("BEFORE_ARGS:", args);
    KeyPrintable("TARGET:", target);
    if !o.AlreadyCorrect? {
      KeyPrintable("AFTER_ARGS:", o.newArgs);
    }
    KeyPrintable("RESULT:", ResultWord(o));
  }

  /** The first characters of the modify script's lines: none is an
      `E`, only the last is an `R`, and the last line is the result. */
  lemma ScriptHeads(args: string, target: string, o: RuleOutcome)
    ensures var ls := ScriptLines(args, target, o);
      forall j :: 0 <= j < |ls| ==> ls[j] != [] && ls[j][0] != 'E'
    ensures var ls := ScriptLines(args, target, o);
      forall j :: 0 <= j < |ls| - 1 ==> ls[j] != [] && ls[j][0] != 'R'
    ensures var ls := ScriptLines(args, target, o);
      ls[|ls| - 1] == "RESULT:" + ResultWord(o)
  {
    KeyHeadChar("BEFORE_ARGS:", args);
    KeyHeadChar("TARGET:", target);
    KeyHeadChar("RESULT:", ResultWord(o));
    if !o.AlreadyCorrect? {
      KeyHeadChar("AFTER_ARGS:", o.newArgs);
    }
  }

  /** The cleaned output of the modify script has no `ERROR:` line. */
  lemma ScriptNoError(args: string, target: string, o: RuleOutcome)
    requires '\n' !in args && '\n' !in target && (o.AlreadyCorrect? || '\n' !in o.newArgs)
    ensures FindLine(CleanLines(Emit(ScriptLines(args, target, o))), "ERROR:").None?
  {
    var ls := ScriptLines(args, target, o);
    ScriptLinesPrintable(args, target, o);
    ScriptHeads(args, target, o);
    FindInEmit(ls, "ERROR:", |ls|);
  }

  /** The first `RESULT:` line of the modify script's cleaned output
      carries the outcome's word. */
  lemma ScriptResult(args: string, target: string, o: RuleOutcome)
    requires '\n' !in args && '\n' !in target && (o.AlreadyCorrect? || '\n' !in o.newArgs)
    ensures FindLine(CleanLines(Emit(ScriptLines(args, target, o))), "RESULT:") == Some("RESULT:" + ResultWord(o))
  {
    ScriptLinesPrintable(args, target, o);
    ScriptHeads(args, target, o);
    assert LineValue(ResultWord(o));
    LastLineFound(ScriptLines(args, target, o), "RESULT:", ResultWord(o));
  }

  /** The rule never puts a line feed into arguments that had none. */
  lemma RuleKeepsLine(args: string)
    requires '\n' !in args
    ensures WindowsRule(args).AlreadyCorrect? || '\n' !in WindowsRule(args).newArgs
  {
    if HasMatch(args, true) {
      ReplacePortsKeepsOut(args, true, '\n');
    } else {
      assert '\n' !in Flag + " ";
    }
  }

  /** Round trip of the modify script: for arguments and a target without
      a line feed, the launcher reports exactly the outcome of the rule. */
  lemma ModifyRoundTrip(args: string, target: string, name: string)
    requires '\n' !in args && '\n' !in target
    ensures ParseModifyOutput(Ran(Emit(ModifyScriptLines(args, target))), name)
         == Reported(WindowsRule(args), name)
  {
    var o := WindowsRule(args);
    RuleKeepsLine(args);
    ScriptNoError(args, target, o);
    ScriptResult(args, target, o);
    KeyLine("RESULT:", ResultWord(o));
  }

  /** A word other than the three the script prints is reported as a
      failure that names it. */
  lemma UnknownWordFails(result: string, name: string)
    requires result !in {"MODIFIED", "UPDATED", "ALREADY_CORRECT"}
    ensures ReportFor(result, name) == PatchResult(false, false, "Unexpected result: " + result)
  {
  }

  /** A script that ends without any `RESULT:` line is a failure whose
      message names the unknown result. */
  lemma NoResultLineFails(out: string, name: string)
    requires FindLine(CleanLines(out), "ERROR:").None?
    requires FindLine(CleanLines(out), "RESULT:").None?
    ensures ParseModifyOutput(Ran(out), name) == PatchResult(false, false, "Unexpected result: UNKNOWN")
  {
    UnknownWordFails("UNKNOWN", name);
  }

  /** The arguments the rule writes when there is no port flag name the
      flag, hold a match, and are left alone by a second replacement. */
  lemma PrependedFlag(args: string)
    requires !HasMatch(args, true)
    ensures Contains(Flag + " " + args, FlagName)
    ensures HasMatch(Flag + " " + args, true)
    ensures ReplacePorts(Flag + " " + args, true) == Flag + " " + args
  {
    Assoc3(Flag, " ", args);
    FlagContainsName(" " + args);
    FlagMatch(" " + args, true);
    SpaceStartsNoMatch(args);
    FlagFixed(" " + args, true);
  }

  /** The arguments the rule writes after replacing ports name the flag,
      hold a match, and are left alone by a second replacement. */
  lemma ReplacedFlag(args: string)
    requires HasMatch(args, true)
    ensures Contains(ReplacePorts(args, true), FlagName)
    ensures HasMatch(ReplacePorts(args, true), true)
    ensures ReplacePorts(ReplacePorts(args, true), true) == ReplacePorts(args, true)
  {
    ReplacePortsContainsFlag(args, true);
    HasMatchPreserved(args, true);
    ReplacePortsIdempotent(args, true);
  }

  /** After the rule has written new arguments, they carry the flag: the
      launcher's case-sensitive `hasFlag` test sees it and PowerShell's
      `-match` finds a port. */
  lemma WindowsRuleInstallsFlag(args: string)
    requires !WindowsRule(args).AlreadyCorrect?
    ensures Contains(WindowsRule(args).newArgs, FlagName)
    ensures HasMatch(WindowsRule(args).newArgs, true)
  {
    if HasMatch(args, true) {
      ReplacedFlag(args);
    } else {
      PrependedFlag(args);
    }
  }

  /** Applying the rule to the arguments it produced changes nothing:
      patching a shortcut twice reports `ALREADY_CORRECT` the second
      time. */
  lemma WindowsRuleTwice(args: string)
    requires !WindowsRule(args).AlreadyCorrect?
    ensures WindowsRule(WindowsRule(args).newArgs) == AlreadyCorrect
  {
    if HasMatch(args, true) {
      ReplacedFlag(args);
    } else {
      PrependedFlag(args);
    }
  }

  /** A string starting with a space holds a match only where the rest
      does. */
  lemma SpaceStartsNoMatch(args: string)
    requires !HasMatch(args, true)
    ensures !HasMatch(" " + args, true)
  {
    var s := " " + args;
    assert s[1..] == args;
    if MatchLen(s, true) > 0 {
      StartsLikeAt(s, FlagPrefix, true, 0);
      assert false;
    }
  }
}
