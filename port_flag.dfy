/** The remote-debugging flag and the substitution that rewrites a stale
    port: every match of the regular expression `--remote-debugging-port=\d+`
    becomes `--remote-debugging-port=9000`. Matches are found left to right
    and the digits are taken greedily, as both JavaScript's `replace` with
    the `g` flag and PowerShell's `-replace` do. PowerShell compares letters
    without regard to case (`caseless`), JavaScript with. Digits are the
    ASCII digits. */
module PortFlag {
  import opened Text

  const BasePort: nat := 9000
  /** What `hasFlag` looks for: the flag's name without a port. */
  const FlagName: string := "--remote-debugging-port"
  const FlagPrefix: string := FlagName + "="
  /** `CDP_FLAG`, the flag with the base port written in decimal. */
  const Flag: string := FlagPrefix + "9000"

  predicate IsDigit(c: char) {
    '0' <= c <= '9'
  }

  /** Number of leading digits of `s`. */
  function DigitRun(s: string): (n: nat)
    ensures n <= |s|
    ensures n < |s| ==> !IsDigit(s[n])
  {
    if |s| > 0 && IsDigit(s[0]) then 1 + DigitRun(s[1..]) else 0
  }

  predicate CharEq(a: char, b: char, caseless: bool) {
    if caseless then LowerChar(a) == LowerChar(b) else a == b
  }

  /** `s` begins with `p`, comparing letters without regard to case when
      `caseless`. */
  predicate StartsLike(s: string, p: string, caseless: bool)
    decreases |p|
  {
    p == [] || (s != [] && CharEq(s[0], p[0], caseless) && StartsLike(s[1..], p[1..], caseless))
  }

  /** Length of the match of `--remote-debugging-port=\d+` at the start of
      `s`; 0 when there is none. */
  function MatchLen(s: string, caseless: bool): (n: nat)
    ensures n > 0 <==> StartsLike(s, FlagPrefix, caseless) && |FlagPrefix| < |s| && IsDigit(s[|FlagPrefix|])
    ensures n > 0 ==> |FlagPrefix| < n <= |s|
    ensures n > 0 && n < |s| ==> !IsDigit(s[n])
  {
    if StartsLike(s, FlagPrefix, caseless) && |FlagPrefix| < |s| && IsDigit(s[|FlagPrefix|])
    then |FlagPrefix| + DigitRun(s[|FlagPrefix|..])
    else 0
  }

  /** The regular expression matches somewhere in `s` (PowerShell `-match`). */
  predicate HasMatch(s: string, caseless: bool)
    decreases |s|
  {
    s != [] && (MatchLen(s, caseless) > 0 || HasMatch(s[1..], caseless))
  }

  /** Global replacement of every match by `Flag`: where a match starts,
      emit the flag and resume after the match; elsewhere copy one
      character. */
  function ReplacePorts(s: string, caseless: bool): string
    decreases |s|
  {
    if s == [] then []
    else
      var n := MatchLen(s, caseless);
      if n > 0 then Flag + ReplacePorts(s[n..], caseless)
      else [s[0]] + ReplacePorts(s[1..], caseless)
  }

  // ---------------------------------------------------------------------
  // Small facts: sequences, digit runs, prefixes, the flag's spelling

  lemma Assoc3(a: string, b: string, c: string)
    ensures a + (b + c) == a + b + c
  {
  }

  lemma DropAppend(x: string, y: string, n: nat)
    requires n <= |x|
    ensures (x + y)[n..] == x[n..] + y
  {
  }

  lemma Assoc4(a: string, b: string, c: string, d: string)
    ensures a + b + c + d == a + (b + c + d)
  {
  }

  lemma {:induction false} DigitRunAllDigits(a: string, b: string)
    requires forall k :: 0 <= k < |a| ==> IsDigit(a[k])
    ensures DigitRun(a + b) == |a| + DigitRun(b)
  {
    if a != [] {
      assert IsDigit(a[0]);
      assert (a + b)[0] == a[0];
      assert (a + b)[1..] == a[1..] + b;
      DigitRunAllDigits(a[1..], b);
      assert DigitRun(a + b) == 1 + DigitRun(a[1..] + b);
    } else {
      assert a + b == b;
    }
  }

  lemma {:induction false} DigitRunAppend(a: string, b: string)
    requires b == [] || !IsDigit(b[0])
    ensures DigitRun(a + b) == DigitRun(a)
  {
    if a == [] {
      assert a + b == b;
    } else {
      assert (a + b)[1..] == a[1..] + b;
      DigitRunAppend(a[1..], b);
    }
  }

  lemma {:induction false} StartsLikeSelf(p: string, t: string, caseless: bool)
    ensures StartsLike(p + t, p, caseless)
    decreases |p|
  {
    if p != [] {
      assert (p + t)[1..] == p[1..] + t;
      StartsLikeSelf(p[1..], t, caseless);
    }
  }

  lemma {:induction false} StartsLikeAt(s: string, p: string, caseless: bool, k: nat)
    requires k < |p| && k < |s|
    ensures StartsLike(s, p, caseless) ==> CharEq(s[k], p[k], caseless)
    decreases k
  {
    if k > 0 {
      StartsLikeAt(s[1..], p[1..], caseless, k - 1);
    }
  }

  /** Whether `s` starts like `p` depends only on its first `|p|` characters. */
  lemma {:induction false} StartsLikeTake(s: string, p: string, caseless: bool)
    requires |p| <= |s|
    ensures StartsLike(s, p, caseless) == StartsLike(s[..|p|], p, caseless)
    decreases |p|
  {
    if p != [] {
      assert s[..|p|][1..] == s[1..][..|p| - 1];
      StartsLikeTake(s[1..], p[1..], caseless);
    }
  }

  lemma {:induction false} StartsLikeExact(s: string, p: string)
    requires StartsLike(s, p, false)
    ensures |p| <= |s| && s[..|p|] == p
    decreases |p|
  {
    if p != [] {
      StartsLikeExact(s[1..], p[1..]);
      assert s[..|p|] == [s[0]] + s[1..][..|p| - 1];
    }
  }

  /** Every character of the flag lies between `-` and `z`. */
  lemma FlagChars()
    ensures forall k :: 0 <= k < |Flag| ==> '-' <= Flag[k] <= 'z'
  {
  }

  lemma NameHasNoEquals()
    ensures |FlagName| == 23 && FlagName[0] == '-'
    ensures forall k :: 0 <= k < |FlagName| ==> FlagName[k] != '='
  {
    assert '=' !in FlagName;
  }

  // ---------------------------------------------------------------------
  // Single matches

  /** `--remote-debugging-port=` followed by a run of digits is a match
      that takes the whole run. */
  lemma PrefixDigitsMatch(digits: string, t: string, caseless: bool)
    requires digits != [] && forall k :: 0 <= k < |digits| ==> IsDigit(digits[k])
    requires t == [] || !IsDigit(t[0])
    ensures MatchLen(FlagPrefix + digits + t, caseless) == |FlagPrefix| + |digits|
  {
    var u := FlagPrefix + digits + t;
    assert u == FlagPrefix + (digits + t);
    StartsLikeSelf(FlagPrefix, digits + t, caseless);
    assert u[|FlagPrefix|] == digits[0];
    assert u[|FlagPrefix|..] == digits + t;
    DigitRunAllDigits(digits, t);
  }

  /** The flag itself is a match of exactly its own length when what
      follows it is not a digit. */
  lemma FlagMatch(t: string, caseless: bool)
    requires t == [] || !IsDigit(t[0])
    ensures MatchLen(Flag + t, caseless) == |Flag|
  {
    assert Flag + t == FlagPrefix + "9000" + t;
    PrefixDigitsMatch("9000", t, caseless);
  }

  /** Two strings that agree on their first 25 characters agree on whether
      a match starts there. */
  lemma SamePrefixSameMatch(u: string, s: string, caseless: bool)
    requires |FlagPrefix| < |u| && |FlagPrefix| < |s|
    requires u[..|FlagPrefix| + 1] == s[..|FlagPrefix| + 1]
    ensures (MatchLen(u, caseless) > 0) == (MatchLen(s, caseless) > 0)
  {
    var L := |FlagPrefix|;
    assert u[..L] == u[..L + 1][..L] == s[..L + 1][..L] == s[..L];
    assert u[L] == u[..L + 1][L];
    assert s[L] == s[..L + 1][L];
    StartsLikeTake(u, FlagPrefix, caseless);
    StartsLikeTake(s, FlagPrefix, caseless);
  }

  /** A copy of the flag that begins within the first 24 characters cannot
      complete a match at position 0: the prefix has no proper border, and
      the flag's leading `-` is not a digit. */
  lemma FlagTooEarly(c: char, p: string, t: string, caseless: bool)
    requires |p| < |FlagPrefix|
    ensures MatchLen([c] + p + Flag + t, caseless) == 0
  {
    var u := [c] + p + Flag + t;
    var L := |FlagPrefix|;
    FlagHead();
    if |p| < L - 1 {
      assert u[L - 1] == Flag[L - 2 - |p|];
      assert FlagPrefix[L - 1] == '=';
      StartsLikeAt(u, FlagPrefix, caseless, L - 1);
    } else {
      assert u[L] == Flag[0];
    }
  }

  /** The flag starts with `-` and has no `=` before the end of its
      name. */
  lemma FlagHead()
    ensures Flag[0] == '-'
    ensures forall k :: 0 <= k < |FlagName| ==> Flag[k] != '='
  {
    NameHasNoEquals();
    assert forall k :: 0 <= k < |FlagName| ==> Flag[k] == FlagName[k];
  }

  /** `y` cannot complete a match that begins before it: it does not start
      with a digit and has no `=` where the prefix's `=` would have to be. */
  predicate NoStraddle(y: string) {
    (y == [] || !IsDigit(y[0])) && forall j :: 0 <= j < |y| && j < |FlagPrefix| - 1 ==> y[j] != '='
  }

  lemma MatchLenAppend(x: string, y: string, caseless: bool)
    requires x != [] && NoStraddle(y)
    ensures MatchLen(x + y, caseless) == MatchLen(x, caseless) <= |x|
  {
    var L := |FlagPrefix|;
    var u := x + y;
    if |x| > L {
      assert u[..L] == x[..L];
      StartsLikeTake(u, FlagPrefix, caseless);
      StartsLikeTake(x, FlagPrefix, caseless);
      assert u[L] == x[L];
      assert u[L..] == x[L..] + y;
      DigitRunAppend(x[L..], y);
    } else if |x| == L {
      assert |u| > L ==> u[L] == y[0];
    } else if |u| > L {
      assert u[L - 1] == y[L - 1 - |x|];
      NameHasNoEquals();
      assert FlagPrefix[L - 1] == '=';
      StartsLikeAt(u, FlagPrefix, caseless, L - 1);
    }
  }

  lemma PrefixNoStraddle(t: string)
    ensures NoStraddle(FlagPrefix + t)
  {
    NameHasNoEquals();
    var y := FlagPrefix + t;
    assert forall j :: 0 <= j < |FlagName| ==> y[j] == FlagName[j];
  }

  // ---------------------------------------------------------------------
  // Unfolding the scan

  lemma ReplaceAtMatch(s: string, caseless: bool)
    requires MatchLen(s, caseless) > 0
    ensures ReplacePorts(s, caseless) == Flag + ReplacePorts(s[MatchLen(s, caseless)..], caseless)
  {
  }

  lemma ReplaceAtKeep(s: string, caseless: bool)
    requires s != [] && MatchLen(s, caseless) == 0
    ensures ReplacePorts(s, caseless) == [s[0]] + ReplacePorts(s[1..], caseless)
  {
  }

  /** Where the regular expression does not match, replacement is the identity. */
  lemma {:induction false} NoMatchUnchanged(s: string, caseless: bool)
    requires !HasMatch(s, caseless)
    ensures ReplacePorts(s, caseless) == s
    decreases |s|
  {
    if s != [] {
      ReplaceAtKeep(s, caseless);
      NoMatchUnchanged(s[1..], caseless);
    }
  }

  /** Before the first match, replacement copies the input. */
  lemma {:induction false} CopiesUpTo(x: string, j: nat, caseless: bool)
    requires j <= |x|
    requires forall i :: 0 <= i < j ==> MatchLen(x[i..], caseless) == 0
    ensures ReplacePorts(x, caseless) == x[..j] + ReplacePorts(x[j..], caseless)
  {
    if j > 0 {
      assert x[0..] == x;
      ReplaceAtKeep(x, caseless);
      forall i | 0 <= i < j - 1
        ensures MatchLen(x[1..][i..], caseless) == 0
      {
        assert x[1..][i..] == x[i + 1..];
      }
      CopiesUpTo(x[1..], j - 1, caseless);
      assert x[1..][j - 1..] == x[j..];
      assert x[..j] == [x[0]] + x[1..][..j - 1];
      Assoc3([x[0]], x[1..][..j - 1], ReplacePorts(x[j..], caseless));
    }
  }

  // ---------------------------------------------------------------------
  // Replacement over concatenations

  /** Port replacement distributes over a concatenation whose right part
      cannot complete a match begun in the left part. */
  lemma {:induction false} SplitScan(x: string, y: string, caseless: bool)
    requires NoStraddle(y)
    ensures ReplacePorts(x + y, caseless) == ReplacePorts(x, caseless) + ReplacePorts(y, caseless)
    decreases |x|
  {
    if x == [] {
      assert x + y == y;
    } else {
      MatchLenAppend(x, y, caseless);
      var n := MatchLen(x, caseless);
      if n > 0 {
        DropAppend(x, y, n);
        SplitScan(x[n..], y, caseless);
        ReplaceAtMatch(x + y, caseless);
        ReplaceAtMatch(x, caseless);
        Assoc3(Flag, ReplacePorts(x[n..], caseless), ReplacePorts(y, caseless));
      } else {
        DropAppend(x, y, 1);
        assert (x + y)[0] == x[0];
        SplitScan(x[1..], y, caseless);
        ReplaceAtKeep(x + y, caseless);
        ReplaceAtKeep(x, caseless);
        Assoc3([x[0]], ReplacePorts(x[1..], caseless), ReplacePorts(y, caseless));
      }
    }
  }

  /** A flag with any port at the start of a string becomes the base-port
      flag, and the scan resumes right after the port. */
  lemma PortReplaced(digits: string, b: string, caseless: bool)
    requires digits != [] && forall k :: 0 <= k < |digits| ==> IsDigit(digits[k])
    requires b == [] || !IsDigit(b[0])
    ensures ReplacePorts(FlagPrefix + digits + b, caseless) == Flag + ReplacePorts(b, caseless)
  {
    var y := FlagPrefix + digits + b;
    PrefixDigitsMatch(digits, b, caseless);
    ReplaceAtMatch(y, caseless);
    assert y[|FlagPrefix| + |digits|..] == b;
  }

  /** Port substitution: a flag with any port, between text that carries
      no flag, becomes exactly the base-port flag; everything else is kept
      in place and in order. */
  lemma SubstitutePort(a: string, digits: string, b: string, caseless: bool)
    requires !HasMatch(a, caseless) && !HasMatch(b, caseless)
    requires digits != [] && forall k :: 0 <= k < |digits| ==> IsDigit(digits[k])
    requires b == [] || !IsDigit(b[0])
    ensures ReplacePorts(a + FlagPrefix + digits + b, caseless) == a + Flag + b
  {
    var y := FlagPrefix + digits + b;
    Assoc4(a, FlagPrefix, digits, b);
    assert y == FlagPrefix + (digits + b);
    PrefixNoStraddle(digits + b);
    SplitScan(a, y, caseless);
    NoMatchUnchanged(a, caseless);
    PortReplaced(digits, b, caseless);
    NoMatchUnchanged(b, caseless);
    Assoc3(a, Flag, b);
  }

  /** The base-port flag followed by text with no match and no leading
      digit is left as it is. */
  lemma FlagFixed(b: string, caseless: bool)
    requires !HasMatch(b, caseless) && (b == [] || !IsDigit(b[0]))
    ensures ReplacePorts(Flag + b, caseless) == Flag + b
  {
    assert Flag == FlagPrefix + "9000";
    PortReplaced("9000", b, caseless);
    NoMatchUnchanged(b, caseless);
  }

  /** A leading space is copied and the scan goes on after it. */
  lemma SpaceKept(t: string, caseless: bool)
    ensures ReplacePorts(" " + t, caseless) == " " + ReplacePorts(t, caseless)
  {
    var s := " " + t;
    assert s[1..] == t;
    if MatchLen(s, caseless) > 0 {
      StartsLikeAt(s, FlagPrefix, caseless, 0);
      NameHasNoEquals();
      assert false;
    }
    ReplaceAtKeep(s, caseless);
  }

  // ---------------------------------------------------------------------
  // Idempotence

  /** The kept character followed by an unchanged stretch of the input
      that covers the prefix, or by the whole rest of the input, starts
      no match, as in the input. */
  lemma KeptBeforeCopy(s: string, r: string, m: nat, caseless: bool)
    requires s != [] && MatchLen(s, caseless) == 0
    requires m < |s|
    requires (m == |s| - 1 && r == []) || m == |FlagPrefix|
    ensures MatchLen([s[0]] + s[1..][..m] + r, caseless) == 0
  {
    var u := [s[0]] + s[1..][..m] + r;
    if m == |s| - 1 && r == [] {
      assert s[1..][..m] == s[1..];
      assert u == [s[0]] + s[1..] + r;
      assert [s[0]] + s[1..] == s;
      assert s + r == s;
    } else {
      assert u[..m + 1] == s[..m + 1];
      SamePrefixSameMatch(u, s, caseless);
    }
  }

  /** The same when the copied stretch is followed by a replaced match. */
  lemma KeptBeforeFlag(c: char, p: string, t: string, caseless: bool)
    requires |p| < |FlagPrefix| && MatchLen(t, caseless) > 0
    ensures MatchLen([c] + p + ReplacePorts(t, caseless), caseless) == 0
  {
    ReplaceAtMatch(t, caseless);
    var rest := ReplacePorts(t[MatchLen(t, caseless)..], caseless);
    Assoc3([c] + p, Flag, rest);
    FlagTooEarly(c, p, rest, caseless);
  }

  /** A character the scan kept cannot start a match in the output: the
      text after it is either the input, which had no match there, or
      begins a copy of the flag that comes too early or too late. */
  lemma {:induction false} KeptCharStartsNoMatch(s: string, caseless: bool, m: nat)
    requires s != [] && MatchLen(s, caseless) == 0
    requires m <= |FlagPrefix| && m <= |s| - 1
    requires forall j :: 0 <= j < m ==> MatchLen(s[1..][j..], caseless) == 0
    ensures MatchLen([s[0]] + ReplacePorts(s[1..], caseless), caseless) == 0
    decreases |FlagPrefix| - m
  {
    var x := s[1..];
    CopiesUpTo(x, m, caseless);
    var r := ReplacePorts(x[m..], caseless);
    Assoc3([s[0]], x[..m], r);
    if m == |x| {
      assert x[m..] == [];
      KeptBeforeCopy(s, r, m, caseless);
    } else if m == |FlagPrefix| {
      KeptBeforeCopy(s, r, m, caseless);
    } else if MatchLen(x[m..], caseless) > 0 {
      KeptBeforeFlag(s[0], x[..m], x[m..], caseless);
    } else {
      KeptCharStartsNoMatch(s, caseless, m + 1);
    }
  }

  /** Replacement never makes a string start with a digit it did not start with. */
  lemma FirstCharNotDigit(s: string, caseless: bool)
    requires s == [] || !IsDigit(s[0])
    ensures ReplacePorts(s, caseless) == [] || !IsDigit(ReplacePorts(s, caseless)[0])
  {
  }

  /** Rewriting the port twice is the same as rewriting it once. */
  lemma {:induction false} ReplacePortsIdempotent(s: string, caseless: bool)
    ensures ReplacePorts(ReplacePorts(s, caseless), caseless) == ReplacePorts(s, caseless)
    decreases |s|
  {
    if s != [] {
      var n := MatchLen(s, caseless);
      if n > 0 {
        ReplaceAtMatch(s, caseless);
        var t := ReplacePorts(s[n..], caseless);
        FirstCharNotDigit(s[n..], caseless);
        FlagMatch(t, caseless);
        ReplaceAtMatch(Flag + t, caseless);
        assert (Flag + t)[|Flag|..] == t;
        ReplacePortsIdempotent(s[n..], caseless);
      } else {
        ReplaceAtKeep(s, caseless);
        KeptCharStartsNoMatch(s, caseless, 0);
        var t := ReplacePorts(s[1..], caseless);
        ReplaceAtKeep([s[0]] + t, caseless);
        assert ([s[0]] + t)[1..] == t;
        ReplacePortsIdempotent(s[1..], caseless);
      }
    }
  }

  /** A string with a match still has one after replacement. */
  lemma {:induction false} HasMatchPreserved(s: string, caseless: bool)
    requires HasMatch(s, caseless)
    ensures HasMatch(ReplacePorts(s, caseless), caseless)
    decreases |s|
  {
    var n := MatchLen(s, caseless);
    if n > 0 {
      ReplaceAtMatch(s, caseless);
      FirstCharNotDigit(s[n..], caseless);
      FlagMatch(ReplacePorts(s[n..], caseless), caseless);
    } else {
      ReplaceAtKeep(s, caseless);
      HasMatchPreserved(s[1..], caseless);
      var t := ReplacePorts(s[1..], caseless);
      assert ([s[0]] + t)[1..] == t;
    }
  }

  /** A case-sensitive match is an occurrence of the flag's name, which is
      what the JavaScript side tests with `includes`. */
  lemma {:induction false} MatchContainsFlagName(s: string)
    requires HasMatch(s, false)
    ensures Contains(s, FlagName)
    decreases |s|
  {
    if MatchLen(s, false) > 0 {
      StartsLikeExact(s, FlagPrefix);
      assert s[..|FlagName|] == s[..|FlagPrefix|][..|FlagName|];
      ContainsAt(s, FlagName, 0);
    } else {
      MatchContainsFlagName(s[1..]);
      assert s[1..|s|] == s[1..];
      ContainsSlice(s, 1, |s|, FlagName);
    }
  }
  lemma NotInSuffix(s: string, n: nat, ch: char)
    requires n <= |s| && ch !in s
    ensures ch !in s[n..]
  {
    assert forall i :: 0 <= i < |s| - n ==> s[n..][i] == s[n + i];
  }

  /** Replacement never introduces a character that neither the input nor
      the flag holds (a line feed, say). */
  lemma {:induction false} ReplacePortsKeepsOut(s: string, caseless: bool, ch: char)
    requires ch !in s && ch !in Flag
    ensures ch !in ReplacePorts(s, caseless)
    decreases |s|
  {
    if s != [] {
      var n := MatchLen(s, caseless);
      if n > 0 {
        NotInSuffix(s, n, ch);
        ReplacePortsKeepsOut(s[n..], caseless, ch);
        ReplaceAtMatch(s, caseless);
      } else {
        NotInSuffix(s, 1, ch);
        ReplacePortsKeepsOut(s[1..], caseless, ch);
        ReplaceAtKeep(s, caseless);
      }
    }
  }

  /** The flag followed by anything names the flag. */
  lemma FlagContainsName(t: string)
    ensures Contains(Flag + t, FlagName)
  {
    assert Flag == FlagName + "=9000";
    Assoc3(FlagName, "=9000", t);
    ContainsPart([], FlagName, "=9000" + t);
    assert [] + FlagName + ("=9000" + t) == FlagName + ("=9000" + t);
  }

  /** Text with the flag in the middle names the flag. */
  lemma FlagInside(a: string, b: string)
    ensures Contains(a + Flag + b, FlagName)
  {
    FlagContainsName(b);
    ContainsEither(a, Flag + b, FlagName);
    Assoc3(a, Flag, b);
  }

  /** Where there was a match, the replaced text names the flag with its
      exact spelling, whatever the case of the original. */
  lemma {:induction false} ReplacePortsContainsFlag(s: string, caseless: bool)
    requires HasMatch(s, caseless)
    ensures Contains(ReplacePorts(s, caseless), FlagName)
    decreases |s|
  {
    var n := MatchLen(s, caseless);
    if n > 0 {
      ReplaceAtMatch(s, caseless);
      FlagContainsName(ReplacePorts(s[n..], caseless));
    } else {
      ReplacePortsContainsFlag(s[1..], caseless);
      ReplaceAtKeep(s, caseless);
      ContainsCons(s[0], ReplacePorts(s[1..], caseless), FlagName);
    }
  }
}
