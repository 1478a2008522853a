/** `configureWindowsRegistry`: put the debugging-port flag into the
    commands the IDE's URL and file handlers run. Each handler key's
    default value is read; a value already naming the flag is skipped; a
    value that starts with a quoted `.exe` path gets the flag right after
    that path, and the new command is written through PowerShell, whose
    command text is itself passed inside double quotes on a Windows
    command line. */
module Registry {
  import opened Text
  import opened PortFlag
  import opened LaunchEntries

  datatype RegistryResult = RegistryResult(success: bool, reason: string)

  const NotWindows := RegistryResult(false, "not-windows")

  /** The handler command keys, for the lower-cased IDE name. */
  function CommandKeys(ide: string): seq<string> {
    ["HKCU\\Software\\Classes\\" + ide + "\\shell\\open\\command",
     "HKCU\\Software\\Classes\\" + ide + "-url\\shell\\open\\command"]
  }

  /** The first line of a value: what `REG_SZ\s+(.+)` captures from the
      line `reg query` prints for it. */
  function FirstLine(v: string): (r: string)
    ensures |r| <= |v| && r == v[..|r|]
    ensures forall k :: 0 <= k < |r| ==> !IsLineTerminator(r[k])
    ensures |r| < |v| ==> IsLineTerminator(v[|r|])
  {
    if v == [] || IsLineTerminator(v[0]) then [] else [v[0]] + FirstLine(v[1..])
  }

  /** The command as the launcher reads it: the value's line, trimmed. */
  function CurrentCommand(v: string): string {
    Trim(FirstLine(v))
  }

  /** `.exe"` at `j`, with the letters in any case. */
  predicate ExeQuoteAt(cmd: string, j: nat) {
    j + 5 <= |cmd| && cmd[j] == '.' && LowerChar(cmd[j + 1]) == 'e' && LowerChar(cmd[j + 2]) == 'x'
    && LowerChar(cmd[j + 3]) == 'e' && cmd[j + 4] == '"'
  }

  /** The first `.exe"` at or after `from`. */
  function FindExeQuote(cmd: string, from: nat): (r: Option<nat>)
    ensures r.Some? ==> from <= r.value && ExeQuoteAt(cmd, r.value)
    ensures r.Some? ==> forall j :: from <= j < r.value ==> !ExeQuoteAt(cmd, j)
    ensures r.None? ==> forall j :: from <= j ==> !ExeQuoteAt(cmd, j)
    decreases |cmd| - from
  {
    if from + 5 > |cmd| then None
    else if ExeQuoteAt(cmd, from) then Some(from)
    else FindExeQuote(cmd, from + 1)
  }

  /** `/^(".*?\.exe")\s*(.*)/i`: the quoted executable, up to the first
      `.exe"`, and the arguments after the white space that follows it. */
  function SplitExe(cmd: string): (r: Option<(string, string)>)
    ensures r.Some? ==> r.value.0 != [] && r.value.0[0] == '"' && StartsWith(cmd, r.value.0)
    ensures r.Some? ==> |r.value.0| >= 6 && ExeQuoteAt(r.value.0, |r.value.0| - 5)
    ensures r.Some? ==> forall j :: 1 <= j < |r.value.0| - 5 ==> !ExeQuoteAt(cmd, j)
    ensures r.None? <==> cmd == [] || cmd[0] != '"' || forall j :: 1 <= j ==> !ExeQuoteAt(cmd, j)
  {
    if cmd == [] || cmd[0] != '"' then None
    else
      match FindExeQuote(cmd, 1)
      case None => None
      case Some(j) => Some((cmd[..j + 5], TrimStart(cmd[j + 5..])))
  }

  /** The rewritten command: the executable, the flag, the arguments,
      trimmed. When the executable does not start with white space (it
      starts with its quote), it is kept whole, followed by one space, the
      flag, and the old arguments with their end trimmed. */
  function NewCommand(exe: string, rest: string): (r: string)
    ensures r == [] || (!IsSpace(r[0]) && !IsSpace(r[|r| - 1]))
    ensures |r| <= |exe| + |Flag| + |rest| + 2
    ensures exe != [] && !IsSpace(exe[0]) ==> r == exe + " " + Flag + TrimEnd(" " + rest)
  {
    if exe != [] && !IsSpace(exe[0]) then
      FlagLastDigit();
      TrimJoined(exe, Flag, rest);
      Trim(exe + " " + Flag + " " + rest)
    else
      Trim(exe + " " + Flag + " " + rest)
  }

  /** The flag ends in a digit, which is not white space. */
  lemma FlagLastDigit()
    ensures Flag != [] && !IsSpace(Flag[|Flag| - 1])
  {
    FlagHead();
    FlagChars();
    assert Flag[|Flag| - 1] == '0';
  }

  /** Trimming the end of a string keeps a prefix that ends in a
      non-space. */
  lemma TrimEndKeepsPrefix(p: string, q: string)
    requires p != [] && !IsSpace(p[|p| - 1])
    ensures StartsWith(TrimEnd(p + q), p)
  {
    var s := p + q;
    var r := TrimEnd(s);
    assert s[|p| - 1] == p[|p| - 1];
    assert |r| >= |p|;
    assert r[..|p|] == s[..|p|] == p;
  }

  /** The rewritten command starts with the executable followed by the
      flag, so it names the flag. */
  lemma NewCommandShape(exe: string, rest: string)
    requires exe != [] && exe[0] == '"'
    ensures StartsWith(NewCommand(exe, rest), exe + " " + Flag)
    ensures Contains(NewCommand(exe, rest), FlagName)
  {
    var p := exe + " " + Flag;
    var s := p + " " + rest;
    assert s[0] == '"';
    assert TrimStart(s) == s;
    FlagHead();
    FlagChars();
    assert Flag[|Flag| - 1] == '0';
    assert p[|p| - 1] == '0';
    TrimEndKeepsPrefix(p, " " + rest);
    assert p + (" " + rest) == s;
    var r := NewCommand(exe, rest);
    FlagInside(exe + " ", []);
    assert exe + " " + Flag + [] == p;
    assert r == p + r[|p|..];
    ContainsEither(p, r[|p|..], FlagName);
  }

  /** What handling one key writes, if anything: nothing when the key is
      missing, the value already names the flag, the command does not
      start with a quoted `.exe`, or the write throws. */
  function Rewrite(reg: map<string, string>, key: string, writeOk: bool): (r: Option<string>)
    ensures r.Some? ==> key in reg && !Contains(reg[key], FlagName) && writeOk
  {
    if key !in reg || Contains(reg[key], FlagName) then None
    else
      match SplitExe(CurrentCommand(reg[key]))
      case None => None
      case Some((exe, rest)) => if writeOk then Some(NewCommand(exe, rest)) else None
  }

  const PathArg: string := "Set-ItemProperty -Path "
  const NameArg: string := " -Name "
  const DefaultValueName: string := "(default)"
  const ValueArg: string := " -Value '"

  /** The PowerShell path of the first handler key. */
  function KeyPath(ide: string): string {
    "HKCU:\\Software\\Classes\\" + ide + "\\shell\\open\\command"
  }

  function Quoted(x: string): string {
    "\"" + x + "\""
  }

  /** The PowerShell command that writes `cmd` as the default value of
      the first handler key, with the key path and the value name in
      double quotes and the command in single quotes. */
  function PsCommand(ide: string, cmd: string): string {
    PsHead(ide) + EscapeSingleQuotes(cmd) + "'"
  }

  function PsHead(ide: string): string {
    PathArg + Quoted(KeyPath(ide)) + NameArg + Quoted(DefaultValueName) + ValueArg
  }

  /** The command text PowerShell receives: `PsCommand` is wrapped in
      `powershell -Command "..."`, so its own double quotes only toggle
      the quoting of the command line and are dropped. */
  function Delivered(ide: string, cmd: string): string {
    StripDoubleQuotes(PsCommand(ide, cmd))
  }

  lemma PathArgQuoteless()
    ensures StripDoubleQuotes(PathArg) == PathArg
  {
    StripQuoteless(PathArg);
  }

  lemma NameArgsQuoteless()
    ensures StripDoubleQuotes(NameArg) == NameArg && StripDoubleQuotes(DefaultValueName) == DefaultValueName
  {
    StripQuoteless(NameArg);
    StripQuoteless(DefaultValueName);
  }

  lemma ValueArgQuoteless()
    ensures StripDoubleQuotes(ValueArg) == ValueArg
  {
    StripQuoteless(ValueArg);
  }

  /** `PsHead` without its double quotes. */
  lemma HeadStripped(ide: string)
    ensures StripDoubleQuotes(PsHead(ide)) == PathArg + StripDoubleQuotes(KeyPath(ide)) + NameArg + DefaultValueName + ValueArg
  {
    StripFive(PathArg, Quoted(KeyPath(ide)), NameArg, Quoted(DefaultValueName), ValueArg);
    StripQuoted(KeyPath(ide));
    StripQuoted(DefaultValueName);
    PathArgQuoteless();
    NameArgsQuoteless();
    ValueArgQuoteless();
  }

  /** What reaches PowerShell has lost every double quote: the key path
      and `(default)` arrive unquoted, and the value literal holds the
      command without its double quotes. */
  lemma DeliveredShape(ide: string, cmd: string)
    ensures Delivered(ide, cmd)
            == PathArg + StripDoubleQuotes(KeyPath(ide)) + NameArg + DefaultValueName + ValueArg
               + EscapeSingleQuotes(StripDoubleQuotes(cmd)) + "'"
  {
    StripAppend(PsHead(ide) + EscapeSingleQuotes(cmd), "'");
    StripAppend(PsHead(ide), EscapeSingleQuotes(cmd));
    StripQuoteless("'");
    HeadStripped(ide);
    EscapeStripCommute(cmd);
  }

  /** The value stored when PowerShell accepts the write: what its
      single-quoted literal reads as once the quotes are gone. Whether it
      accepts the write at all is the `writeOk` oracle. */
  function Stored(cmd: string): string {
    SingleQuotedValue(StripDoubleQuotes(EscapeSingleQuotes(cmd)))
  }

  /** The loop over the keys, as a value: whether some key was rewritten,
      and the registry after; every write goes to `target`. */
  function RunKeys(keys: seq<string>, target: string, reg: map<string, string>, writeOk: bool): (r: (bool, map<string, string>))
    ensures forall k :: k != target ==> (k in r.1 <==> k in reg)
    ensures forall k :: k != target && k in reg ==> r.1[k] == reg[k]
    ensures !r.0 ==> r.1 == reg
    decreases |keys|
  {
    if keys == [] then (false, reg)
    else
      var w := Rewrite(reg, keys[0], writeOk);
      var reg1 := if w.Some? then reg[target := Stored(w.value)] else reg;
      var rest := RunKeys(keys[1..], target, reg1, writeOk);
      (w.Some? || rest.0, rest.1)
  }

  /** `configureWindowsRegistry`, as a value. */
  function RegistrySpec(platform: Platform, ide: string, reg: map<string, string>, writeOk: bool): (RegistryResult, map<string, string>) {
    if platform != Windows then (NotWindows, reg)
    else
      var keys := CommandKeys(ide);
      var run := RunKeys(keys, keys[0], reg, writeOk);
      (RegistryResult(run.0, if run.0 then "configured" else "no-paths-found"), run.1)
  }

  /** Off Windows nothing happens; on Windows the run reports
      `configured` exactly when some key was rewritten, and a run that
      rewrote nothing leaves the registry as it was. Only the first key
      can change. */
  lemma RegistryOutcome(platform: Platform, ide: string, reg: map<string, string>, writeOk: bool)
    ensures var r := RegistrySpec(platform, ide, reg, writeOk);
            && (platform != Windows ==> r == (NotWindows, reg))
            && (platform == Windows ==> (r.0.success <==> r.0.reason == "configured"))
            && (platform == Windows ==> r.0.reason in {"configured", "no-paths-found"})
            && (!r.0.success ==> r.1 == reg)
            && (forall k :: k != CommandKeys(ide)[0] ==> (k in r.1 <==> k in reg))
            && (forall k :: k != CommandKeys(ide)[0] && k in reg ==> r.1[k] == reg[k])
  {
  }

  /** `configureWindowsRegistry`; `ide` is the lower-cased IDE name. */
  method ConfigureWindowsRegistry(platform: Platform, ide: string, reg: map<string, string>, writeOk: bool)
    returns (result: RegistryResult, reg': map<string, string>)
    ensures (result, reg') == RegistrySpec(platform, ide, reg, writeOk)
    ensures result.success <==> result.reason == "configured"
  {
    if platform != Windows {
      return NotWindows, reg;
    }
    var keys := CommandKeys(ide);
    var configured := false;
    reg' := reg;
    var i := 0;
    while i < |keys|
      invariant 0 <= i <= |keys|
      invariant RunKeys(keys, keys[0], reg, writeOk).0 == (configured || RunKeys(keys[i..], keys[0], reg', writeOk).0)
      invariant RunKeys(keys, keys[0], reg, writeOk).1 == RunKeys(keys[i..], keys[0], reg', writeOk).1
      decreases |keys| - i
    {
      assert keys[i..][1..] == keys[i + 1..];
      var w := Rewrite(reg', keys[i], writeOk);
      if w.Some? {
        reg' := reg'[keys[0] := Stored(w.value)];
        configured := true;
      }
      i := i + 1;
    }
    assert keys[i..] == [];
    result := RegistryResult(configured, if configured then "configured" else "no-paths-found");
  }

  /** PowerShell stores the command the launcher built with its double
      quotes removed. */
  lemma StoredDropsQuotes(cmd: string)
    ensures Stored(cmd) == StripDoubleQuotes(cmd)
  {
    EscapeStripCommute(cmd);
    EscapeRoundTrip(StripDoubleQuotes(cmd));
  }

  /** Losing the quotes never loses the flag. */
  lemma StoredKeepsFlag(cmd: string)
    requires Contains(cmd, FlagName)
    ensures Contains(Stored(cmd), FlagName)
  {
    StoredDropsQuotes(cmd);
    FlagNameQuoteless();
    ContainsStripped(cmd, FlagName);
  }

  lemma FlagNameQuoteless()
    ensures '"' !in FlagName
  {
  }

  /** So every rewritten command is stored altered: the quotes around the
      executable path, which the rewrite starts with, are gone. */
  lemma RewriteStoredAltered(reg: map<string, string>, key: string, writeOk: bool)
    requires Rewrite(reg, key, writeOk).Some?
    ensures Stored(Rewrite(reg, key, writeOk).value) != Rewrite(reg, key, writeOk).value
  {
    var v := Rewrite(reg, key, writeOk).value;
    var cmd := CurrentCommand(reg[key]);
    var exe := SplitExe(cmd).value.0;
    NewCommandShape(exe, SplitExe(cmd).value.1);
    assert v[0] == '"';
    StoredDropsQuotes(v);
  }

  /** What a rewrite stores names the flag. */
  lemma RewriteFlagged(reg: map<string, string>, key: string, writeOk: bool)
    requires Rewrite(reg, key, writeOk).Some?
    ensures Contains(Stored(Rewrite(reg, key, writeOk).value), FlagName)
  {
    var cmd := CurrentCommand(reg[key]);
    NewCommandShape(SplitExe(cmd).value.0, SplitExe(cmd).value.1);
    StoredKeepsFlag(Rewrite(reg, key, writeOk).value);
  }

  /** Once the target names the flag, or once some key is rewritten (into
      the target), the target names the flag at the end of the run. */
  lemma {:induction false} RunWritesFlag(keys: seq<string>, target: string, reg: map<string, string>, writeOk: bool)
    ensures var r := RunKeys(keys, target, reg, writeOk);
            r.0 || (target in reg && Contains(reg[target], FlagName))
            ==>
            target in r.1 && Contains(r.1[target], FlagName)
    decreases |keys|
  {
    if keys != [] {
      var w := Rewrite(reg, keys[0], writeOk);
      var reg1 := if w.Some? then reg[target := Stored(w.value)] else reg;
      if w.Some? {
        RewriteFlagged(reg, keys[0], writeOk);
      }
      RunWritesFlag(keys[1..], target, reg1, writeOk);
    }
  }

  /** After a run that configured something, the first key names the
      flag, so a later run skips the first key. */
  lemma ConfiguredFirstKeyFlagged(ide: string, reg: map<string, string>, writeOk: bool)
    requires RegistrySpec(Windows, ide, reg, writeOk).0.success
    ensures var keys := CommandKeys(ide);
            var reg' := RegistrySpec(Windows, ide, reg, writeOk).1;
            keys[0] in reg' && Contains(reg'[keys[0]], FlagName) && Rewrite(reg', keys[0], writeOk).None?
  {
    var keys := CommandKeys(ide);
    RunWritesFlag(keys, keys[0], reg, writeOk);
  }

  /** Two keys, the first already flagged: the run writes the second
      key's rewritten command into the first. */
  lemma RunSecondIntoFirst(k0: string, k1: string, reg: map<string, string>, writeOk: bool)
    requires k0 in reg && Contains(reg[k0], FlagName) && Rewrite(reg, k1, writeOk).Some?
    ensures RunKeys([k0, k1], k0, reg, writeOk).0
    ensures RunKeys([k0, k1], k0, reg, writeOk).1 == reg[k0 := Stored(Rewrite(reg, k1, writeOk).value)]
  {
    var v := Rewrite(reg, k1, writeOk).value;
    assert [k0, k1][1..] == [k1];
    assert [k1][1..] == [];
    assert RunKeys([k1], k0, reg, writeOk) == (true, reg[k0 := Stored(v)]);
  }

  /** The write always goes to the first key: when the first key's
      command already names the flag and the second key's command needs
      it, it is the first key that receives the rewritten second
      command, and the second key keeps its value. */
  lemma SecondKeyLandsInFirst(ide: string, reg: map<string, string>, writeOk: bool)
    requires var keys := CommandKeys(ide);
             keys[0] in reg && Contains(reg[keys[0]], FlagName) && Rewrite(reg, keys[1], writeOk).Some?
    ensures RegistrySpec(Windows, ide, reg, writeOk).0 == RegistryResult(true, "configured")
    ensures var keys := CommandKeys(ide);
            RegistrySpec(Windows, ide, reg, writeOk).1 == reg[keys[0] := StripDoubleQuotes(Rewrite(reg, keys[1], writeOk).value)]
  {
    var keys := CommandKeys(ide);
    assert keys == [keys[0], keys[1]];
    RunSecondIntoFirst(keys[0], keys[1], reg, writeOk);
    StoredDropsQuotes(Rewrite(reg, keys[1], writeOk).value);
  }

  /** The two handler keys differ: the second has `-url` where the first
      has the separator. */
  lemma KeysDistinct(ide: string)
    ensures CommandKeys(ide)[0] != CommandKeys(ide)[1]
  {
    var keys := CommandKeys(ide);
    var n := |"HKCU\\Software\\Classes\\" + ide|;
    assert keys[0][n] == '\\';
    assert keys[1][n] == '-';
  }

  /** The run over two distinct keys, unfolded: the second key is
      rewritten from its original value, since the first write only
      touches the first key. */
  lemma RunTwo(k0: string, k1: string, reg: map<string, string>, writeOk: bool)
    requires k0 != k1
    ensures var w0 := Rewrite(reg, k0, writeOk);
            var w1 := Rewrite(reg, k1, writeOk);
            var reg1 := if w0.Some? then reg[k0 := Stored(w0.value)] else reg;
            RunKeys([k0, k1], k0, reg, writeOk)
            == (w0.Some? || w1.Some?, if w1.Some? then reg1[k0 := Stored(w1.value)] else reg1)
  {
    var w0 := Rewrite(reg, k0, writeOk);
    var w1 := Rewrite(reg, k1, writeOk);
    var reg1 := if w0.Some? then reg[k0 := Stored(w0.value)] else reg;
    var reg2 := if w1.Some? then reg1[k0 := Stored(w1.value)] else reg1;
    assert k1 in reg1 <==> k1 in reg;
    assert k1 in reg ==> reg1[k1] == reg[k1];
    assert Rewrite(reg1, k1, writeOk) == w1;
    assert [k0, k1][1..] == [k1];
    assert [k1][1..] == [];
    assert RunKeys([], k0, reg2, writeOk) == (false, reg2);
    assert RunKeys([k1], k0, reg1, writeOk) == (w1.Some?, reg2);
  }

  /** Handling a key looks only at that key's value. */
  lemma RewriteLocal(reg: map<string, string>, reg2: map<string, string>, key: string, writeOk: bool)
    requires key in reg <==> key in reg2
    requires key in reg ==> reg[key] == reg2[key]
    ensures Rewrite(reg, key, writeOk) == Rewrite(reg2, key, writeOk)
  {
  }

  /** After a run over two keys, the first key is skipped. */
  lemma RunTwoSkipsFirst(k0: string, k1: string, reg: map<string, string>, writeOk: bool)
    requires k0 != k1
    ensures Rewrite(RunKeys([k0, k1], k0, reg, writeOk).1, k0, writeOk).None?
  {
    var w0 := Rewrite(reg, k0, writeOk);
    var w1 := Rewrite(reg, k1, writeOk);
    RunTwo(k0, k1, reg, writeOk);
    var reg' := RunKeys([k0, k1], k0, reg, writeOk).1;
    if w1.Some? {
      RewriteFlagged(reg, k1, writeOk);
      assert reg'[k0] == Stored(w1.value);
    } else if w0.Some? {
      RewriteFlagged(reg, k0, writeOk);
      assert reg'[k0] == Stored(w0.value);
    } else {
      assert reg' == reg;
    }
  }

  lemma RunTwiceTwo(k0: string, k1: string, reg: map<string, string>, writeOk: bool)
    requires k0 != k1
    ensures var reg' := RunKeys([k0, k1], k0, reg, writeOk).1;
            RunKeys([k0, k1], k0, reg', writeOk) == (Rewrite(reg, k1, writeOk).Some?, reg')
  {
    var w1 := Rewrite(reg, k1, writeOk);
    var reg' := RunKeys([k0, k1], k0, reg, writeOk).1;
    RunTwo(k0, k1, reg, writeOk);
    RunTwoSkipsFirst(k0, k1, reg, writeOk);
    RewriteLocal(reg', reg, k1, writeOk);
    RunTwo(k0, k1, reg', writeOk);
    if w1.Some? {
      assert reg'[k0] == Stored(w1.value);
      UpdateSame(reg', k0, Stored(w1.value));
    }
  }

  /** Writing a key's own value back changes nothing. */
  lemma UpdateSame(m: map<string, string>, k: string, v: string)
    requires k in m && m[k] == v
    ensures m[k := v] == m
  {
  }

  /** Running the configuration again leaves the registry as the first
      run left it, yet reports `configured` again exactly when the `-url`
      handler's command still lacks the flag: its rewrite is written once
      more into the first key, with the same value. */
  lemma RegistrySecondRun(ide: string, reg: map<string, string>, writeOk: bool)
    ensures var reg' := RegistrySpec(Windows, ide, reg, writeOk).1;
            RegistrySpec(Windows, ide, reg', writeOk).1 == reg'
    ensures var reg' := RegistrySpec(Windows, ide, reg, writeOk).1;
            RegistrySpec(Windows, ide, reg', writeOk).0.success <==> Rewrite(reg, CommandKeys(ide)[1], writeOk).Some?
  {
    var keys := CommandKeys(ide);
    KeysDistinct(ide);
    assert keys == [keys[0], keys[1]];
    RunTwiceTwo(keys[0], keys[1], reg, writeOk);
  }
}
