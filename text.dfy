/** String operations the launcher code relies on, written out with the
    semantics of the runtime that performs them: JavaScript's `includes`,
    `startsWith`, `trim` and `split('\n')`, ASCII case folding for the
    case-insensitive comparisons of PowerShell, and PowerShell's
    single-quoted string literals. */
module Text {

  datatype Option<T> = None | Some(value: T)

  predicate StartsWith(s: string, p: string) {
    |p| <= |s| && s[..|p|] == p
  }

  predicate EndsWith(s: string, p: string) {
    |p| <= |s| && s[|s| - |p|..] == p
  }

  /** JavaScript `s.includes(sub)`. */
  predicate Contains(s: string, sub: string) {
    exists i :: 0 <= i <= |s| - |sub| && OccursAt(s, sub, i)
  }

  /** `sub` occurs in `s` starting at index `i`. */
  predicate OccursAt(s: string, sub: string, i: int) {
    0 <= i <= |s| - |sub| && s[i..i + |sub|] == sub
  }

  lemma ContainsAt(s: string, sub: string, i: int)
    requires OccursAt(s, sub, i)
    ensures Contains(s, sub)
  {
  }

  /** The two halves of a concatenation, recovered by slicing. */
  lemma SplitAppend(x: string, y: string)
    ensures (x + y)[..|x|] == x && (x + y)[|x|..] == y
  {
  }

  /** A string occurs in any concatenation that has it as a part. */
  lemma ContainsPart(a: string, b: string, c: string)
    ensures Contains(a + b + c, b)
  {
    assert (a + b + c)[|a|..|a| + |b|] == b;
    ContainsAt(a + b + c, b, |a|);
  }

  /** An occurrence inside a slice is an occurrence in the whole string. */
  lemma ContainsSlice(s: string, lo: int, hi: int, sub: string)
    requires 0 <= lo <= hi <= |s|
    requires Contains(s[lo..hi], sub)
    ensures Contains(s, sub)
  {
    var i :| 0 <= i <= (hi - lo) - |sub| && OccursAt(s[lo..hi], sub, i);
    forall k | 0 <= k < |sub|
      ensures s[lo + i..lo + i + |sub|][k] == sub[k]
    {
      assert s[lo..hi][i..i + |sub|][k] == sub[k];
    }
    assert s[lo + i..lo + i + |sub|] == sub;
    ContainsAt(s, sub, lo + i);
  }

  /** An occurrence in the tail is an occurrence in the whole. */
  lemma ContainsCons(c: char, t: string, sub: string)
    requires Contains(t, sub)
    ensures Contains([c] + t, sub)
  {
    var u := [c] + t;
    assert u[1..|u|] == t;
    ContainsSlice(u, 1, |u|, sub);
  }

  /** An occurrence in either part of a concatenation is an occurrence
      in the whole. */
  lemma ContainsEither(a: string, b: string, sub: string)
    requires Contains(a, sub) || Contains(b, sub)
    ensures Contains(a + b, sub)
  {
    SplitAppend(a, b);
    if Contains(a, sub) {
      ContainsSlice(a + b, 0, |a|, sub);
    } else {
      assert (a + b)[|a|..|a + b|] == b;
      ContainsSlice(a + b, |a|, |a + b|, sub);
    }
  }

  // ---------------------------------------------------------------------
  // Case folding (ASCII letters only)

  function LowerChar(c: char): char {
    if 'A' <= c <= 'Z' then (c as int + 32) as char else c
  }

  /** `toLowerCase()`, restricted to the ASCII letters. */
  function Lower(s: string): (r: string)
    ensures |r| == |s|
    ensures forall i :: 0 <= i < |s| ==> r[i] == LowerChar(s[i])
  {
    seq(|s|, i requires 0 <= i < |s| => LowerChar(s[i]))
  }

  /** PowerShell's `-eq` on strings, which ignores case. */
  predicate EqualsIgnoreCase(a: string, b: string) {
    |a| == |b| && forall i :: 0 <= i < |a| ==> LowerChar(a[i]) == LowerChar(b[i])
  }

  // ---------------------------------------------------------------------
  // Whitespace, trimming and line splitting

  /** The characters JavaScript's `trim` and the regular-expression class
      `\s` treat as white space (WhiteSpace and LineTerminator). */
  predicate IsSpace(c: char) {
    c == ' ' || c == '\t' || c == '\n' || c == '\r' || c == '\U{000B}' || c == '\U{000C}'
    || c == '\U{00A0}' || c == '\U{1680}' || ('\U{2000}' <= c <= '\U{200A}')
    || c == '\U{2028}' || c == '\U{2029}' || c == '\U{202F}' || c == '\U{205F}'
    || c == '\U{3000}' || c == '\U{FEFF}'
  }

  /** The characters at which a JavaScript `.` stops and `^`/`$` match in
      multi-line mode. */
  predicate IsLineTerminator(c: char) {
    c == '\n' || c == '\r' || c == '\U{2028}' || c == '\U{2029}'
  }

  function TrimStart(s: string): (r: string)
    ensures |r| <= |s| && r == s[|s| - |r|..]
    ensures r == [] || !IsSpace(r[0])
    ensures forall k :: 0 <= k < |s| - |r| ==> IsSpace(s[k])
  {
    if |s| > 0 && IsSpace(s[0]) then TrimStart(s[1..]) else s
  }

  function TrimEnd(s: string): (r: string)
    ensures |r| <= |s| && r == s[..|r|]
    ensures r == [] || !IsSpace(r[|r| - 1])
    ensures forall k :: |r| <= k < |s| ==> IsSpace(s[k])
  {
    if |s| > 0 && IsSpace(s[|s| - 1]) then TrimEnd(s[..|s| - 1]) else s
  }

  /** Every character of `s` before `i` and from `i + n` on is white
      space. */
  predicate SpaceOutside(s: string, i: nat, n: nat)
    requires i + n <= |s|
  {
    (forall k :: 0 <= k < i ==> IsSpace(s[k])) && (forall k :: i + n <= k < |s| ==> IsSpace(s[k]))
  }

  /** `r` is `s` with the white space at both ends removed and nothing
      else: an infix of `s` that neither starts nor ends with white space
      and outside of which there is only white space. */
  predicate TrimmedOf(s: string, r: string) {
    (r == [] || (!IsSpace(r[0]) && !IsSpace(r[|r| - 1])))
    && exists i: nat :: i + |r| <= |s| && s[i..i + |r|] == r && SpaceOutside(s, i, |r|)
  }

  /** JavaScript `s.trim()`: the longest infix without white space at
      either end. */
  function Trim(s: string): (r: string)
    ensures r == [] || (!IsSpace(r[0]) && !IsSpace(r[|r| - 1]))
    ensures Contains(s, r)
  {
    var t := TrimStart(s);
    PrefixOfSuffix(s, t, TrimEnd(t));
    TrimEnd(t)
  }

  /** A prefix `r` of a suffix `t` of `s` occurs in `s` and starts with
      the first character of `t`. */
  lemma PrefixOfSuffix(s: string, t: string, r: string)
    requires |t| <= |s| && t == s[|s| - |t|..] && |r| <= |t| && r == t[..|r|]
    ensures Contains(s, r)
    ensures r == [] || r[0] == t[0]
  {
    var i := |s| - |t|;
    assert s[i..i + |r|] == r;
    ContainsAt(s, r, i);
  }

  /** Trimming removes the white space at both ends of `s` and nothing
      else. */
  lemma TrimSpec(s: string)
    ensures TrimmedOf(s, Trim(s))
  {
    var t := TrimStart(s);
    TrimmedInSuffix(s, t, TrimEnd(t));
  }

  /** A prefix `r` of a suffix `t` of `s`, with only white space before
      `t` and after `r` in `t`, is `s` trimmed when neither of its ends is
      white space. */
  lemma TrimmedInSuffix(s: string, t: string, r: string)
    requires |t| <= |s| && t == s[|s| - |t|..] && |r| <= |t| && r == t[..|r|]
    requires t == [] || !IsSpace(t[0])
    requires r == [] || !IsSpace(r[|r| - 1])
    requires forall k :: 0 <= k < |s| - |t| ==> IsSpace(s[k])
    requires forall k :: |r| <= k < |t| ==> IsSpace(t[k])
    ensures TrimmedOf(s, r)
  {
    var i := |s| - |t|;
    forall k | i + |r| <= k < |s|
      ensures IsSpace(s[k])
    {
      assert s[k] == t[k - i];
    }
    assert s[i..i + |r|] == r && SpaceOutside(s, i, |r|);
    assert r == [] || r[0] == t[0];
  }

  /** Trimming the end of `p + q`, where `p` ends in a non-space, only
      touches `q`. */
  lemma {:induction false} TrimEndAppend(p: string, q: string)
    requires p != [] && !IsSpace(p[|p| - 1])
    ensures TrimEnd(p + q) == p + TrimEnd(q)
    decreases |q|
  {
    var s := p + q;
    if q == [] {
      assert s == p;
    } else if IsSpace(q[|q| - 1]) {
      assert s[|s| - 1] == q[|q| - 1];
      assert s[..|s| - 1] == p + q[..|q| - 1];
      TrimEndAppend(p, q[..|q| - 1]);
    } else {
      assert s[|s| - 1] == q[|q| - 1];
    }
  }

  /** Trimming `p + q`, where `p` starts and ends in a non-space, keeps
      all of `p` and trims only the end of `q`. */
  lemma TrimAfterHead(p: string, q: string)
    requires p != [] && !IsSpace(p[0]) && !IsSpace(p[|p| - 1])
    ensures Trim(p + q) == p + TrimEnd(q)
  {
    assert (p + q)[0] == p[0];
    assert TrimStart(p + q) == p + q;
    TrimEndAppend(p, q);
  }

  /** Trimming `a + " " + b + " " + c`, where `a` starts and `b` ends in
      a non-space, keeps `a`, the space and `b`, and trims only the end of
      `" " + c`. */
  lemma TrimJoined(a: string, b: string, c: string)
    requires a != [] && !IsSpace(a[0]) && b != [] && !IsSpace(b[|b| - 1])
    ensures Trim(a + " " + b + " " + c) == a + " " + b + TrimEnd(" " + c)
  {
    var p := a + " " + b;
    assert p[0] == a[0];
    assert p[|p| - 1] == b[|b| - 1];
    TrimAfterHead(p, " " + c);
    assert p + (" " + c) == a + " " + b + " " + c;
  }

  /** Trimming a string that neither starts nor ends with white space
      leaves it alone. */
  lemma TrimNoop(s: string)
    requires s == [] || (!IsSpace(s[0]) && !IsSpace(s[|s| - 1]))
    ensures Trim(s) == s
  {
  }

  /** Index of the first `c` in `s`. */
  function IndexOf(s: string, c: char): (i: nat)
    requires c in s
    ensures i < |s| && s[i] == c && c !in s[..i]
  {
    if s[0] == c then 0 else 1 + IndexOf(s[1..], c)
  }

  /** JavaScript `s.split('\n')`: the pieces between line feeds, in order,
      one more than there are line feeds. */
  function SplitLines(s: string): (parts: seq<string>)
    ensures |parts| >= 1
    ensures forall k :: 0 <= k < |parts| ==> '\n' !in parts[k]
    ensures Join(parts, "\n") == s
    decreases |s|
  {
    if '\n' !in s then [s]
    else
      var i := IndexOf(s, '\n');
      var rest := SplitLines(s[i + 1..]);
      var parts := [s[..i]] + rest;
      assert parts[1..] == rest;
      assert s == s[..i] + "\n" + s[i + 1..];
      parts
  }

  lemma SplitLinesCons(a: string, b: string)
    requires '\n' !in a
    ensures SplitLines(a + "\n" + b) == [a] + SplitLines(b)
  {
    var s := a + "\n" + b;
    assert s[|a|] == '\n';
    assert s[..|a|] == a;
    assert IndexOf(s, '\n') == |a|;
    assert s[|a| + 1..] == b;
  }

  /** `parts.join(sep)`. */
  function Join(parts: seq<string>, sep: string): string {
    if parts == [] then ""
    else if |parts| == 1 then parts[0]
    else parts[0] + sep + Join(parts[1..], sep)
  }

  // ---------------------------------------------------------------------
  // PowerShell single-quoted literals

  /** `s.replace(/'/g, "''")`: what the launcher splices between single
      quotes of a PowerShell command. */
  function EscapeSingleQuotes(s: string): (r: string)
    ensures |r| >= |s|
  {
    if s == [] then ""
    else if s[0] == '\'' then "''" + EscapeSingleQuotes(s[1..])
    else [s[0]] + EscapeSingleQuotes(s[1..])
  }

  /** The value PowerShell reads from the body of a single-quoted literal,
      where a doubled quote stands for one quote. */
  function SingleQuotedValue(body: string): string {
    if |body| >= 2 && body[0] == '\'' && body[1] == '\'' then "'" + SingleQuotedValue(body[2..])
    else if body == [] then ""
    else [body[0]] + SingleQuotedValue(body[1..])
  }

  /** Escaping then reading back the literal yields the original text, so
      the PowerShell side sees exactly the string the launcher meant. */
  lemma {:induction false} EscapeRoundTrip(s: string)
    ensures SingleQuotedValue(EscapeSingleQuotes(s)) == s
  {
    if s != [] {
      EscapeRoundTrip(s[1..]);
      if s[0] == '\'' {
        assert EscapeSingleQuotes(s) == "''" + EscapeSingleQuotes(s[1..]);
      } else {
        var e := EscapeSingleQuotes(s);
        assert e == [s[0]] + EscapeSingleQuotes(s[1..]);
        assert e[1..] == EscapeSingleQuotes(s[1..]);
      }
    }
  }

  // ---------------------------------------------------------------------
  // Windows command-line quoting

  /** The text a program receives from a command line whose double
      quotes only toggle quoting: the same text with every `"` removed. */
  function StripDoubleQuotes(s: string): (r: string)
    ensures '"' !in r
    ensures |r| <= |s|
  {
    if s == [] then ""
    else if s[0] == '"' then StripDoubleQuotes(s[1..])
    else [s[0]] + StripDoubleQuotes(s[1..])
  }

  /** Removing quotes works part by part. */
  lemma {:induction false} StripAppend(a: string, b: string)
    ensures StripDoubleQuotes(a + b) == StripDoubleQuotes(a) + StripDoubleQuotes(b)
  {
    if a == [] {
      assert a + b == b;
    } else {
      assert (a + b)[0] == a[0];
      assert (a + b)[1..] == a[1..] + b;
      StripAppend(a[1..], b);
    }
  }

  /** `"x"` loses its quotes. */
  lemma StripQuoted(x: string)
    ensures StripDoubleQuotes("\"" + x + "\"") == StripDoubleQuotes(x)
  {
    StripAppend("\"" + x, "\"");
    StripAppend("\"", x);
  }

  /** Removing quotes from five parts removes them from each part. */
  lemma StripFive(a: string, b: string, c: string, d: string, e: string)
    ensures StripDoubleQuotes(a + b + c + d + e)
            == StripDoubleQuotes(a) + StripDoubleQuotes(b) + StripDoubleQuotes(c) + StripDoubleQuotes(d) + StripDoubleQuotes(e)
  {
    StripAppend(a + b + c + d, e);
    StripAppend(a + b + c, d);
    StripAppend(a + b, c);
    StripAppend(a, b);
  }

  /** Text without double quotes passes through unchanged. */
  lemma {:induction false} StripQuoteless(s: string)
    requires '"' !in s
    ensures StripDoubleQuotes(s) == s
  {
    if s != [] {
      StripQuoteless(s[1..]);
    }
  }

  /** An occurrence of a quote-free string survives the removal of the
      quotes around it. */
  lemma ContainsStripped(s: string, sub: string)
    requires Contains(s, sub) && '"' !in sub
    ensures Contains(StripDoubleQuotes(s), sub)
  {
    var i :| 0 <= i <= |s| - |sub| && OccursAt(s, sub, i);
    var a, c := s[..i], s[i + |sub|..];
    assert s == a + sub + c;
    StripAppend(a + sub, c);
    StripAppend(a, sub);
    StripQuoteless(sub);
    ContainsPart(StripDoubleQuotes(a), sub, StripDoubleQuotes(c));
  }

  /** Doubling single quotes and dropping double quotes do not interfere. */
  lemma {:induction false} EscapeStripCommute(s: string)
    ensures StripDoubleQuotes(EscapeSingleQuotes(s)) == EscapeSingleQuotes(StripDoubleQuotes(s))
  {
    if s != [] {
      EscapeStripCommute(s[1..]);
      var head := if s[0] == '\'' then "''" else [s[0]];
      assert EscapeSingleQuotes(s) == head + EscapeSingleQuotes(s[1..]);
      StripAppend(head, EscapeSingleQuotes(s[1..]));
      if s[0] != '"' {
        assert StripDoubleQuotes(s) == [s[0]] + StripDoubleQuotes(s[1..]);
        assert EscapeSingleQuotes(StripDoubleQuotes(s)) == head + EscapeSingleQuotes(StripDoubleQuotes(s[1..]));
      }
    }
  }
}
