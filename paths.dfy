/** The parts of Node's `path` module the launcher uses: joining a
    directory and a relative name, and taking a base name. Windows paths
    accept both `\` and `/` as separators, POSIX paths only `/`. */
module Paths {
  import opened Text

  predicate IsSep(c: char, windows: bool) {
    c == '/' || (windows && c == '\\')
  }

  function Sep(windows: bool): char {
    if windows then '\\' else '/'
  }

  /** `path.join(base, rest)` for a base without a trailing separator and
      a relative rest: an empty base contributes nothing. */
  function Under(base: string, rest: string, windows: bool): (p: string)
    ensures base == [] ==> p == rest
    ensures base != [] ==> p == base + [Sep(windows)] + rest
  {
    if base == [] then rest else base + [Sep(windows)] + rest
  }

  /** The path without its trailing separators. */
  function TrimSeps(p: string, windows: bool): (r: string)
    ensures |r| <= |p| && r == p[..|r|]
    ensures r == [] || !IsSep(r[|r| - 1], windows)
  {
    if p != [] && IsSep(p[|p| - 1], windows) then TrimSeps(p[..|p| - 1], windows) else p
  }

  /** The text after the last separator. */
  function LastSegment(p: string, windows: bool): (r: string)
    ensures |r| <= |p| && r == p[|p| - |r|..]
    ensures forall k :: 0 <= k < |r| ==> !IsSep(r[k], windows)
  {
    if p == [] || IsSep(p[|p| - 1], windows) then []
    else LastSegment(p[..|p| - 1], windows) + [p[|p| - 1]]
  }

  /** `path.basename(p)`: the last segment, ignoring trailing
      separators. */
  function Basename(p: string, windows: bool): (r: string)
    ensures forall k :: 0 <= k < |r| ==> !IsSep(r[k], windows)
  {
    LastSegment(TrimSeps(p, windows), windows)
  }

  /** `path.basename(p, ext)`: the base name without the extension `ext`,
      unless the base name is the extension itself. */
  function BasenameWithout(p: string, ext: string, windows: bool): string {
    var b := Basename(p, windows);
    if EndsWith(b, ext) && b != ext then b[..|b| - |ext|] else b
  }

  /** A name without separators is its own last segment, whatever comes
      before the separator in front of it. */
  lemma LastSegmentOfName(dir: string, name: string, windows: bool)
    requires forall k :: 0 <= k < |name| ==> !IsSep(name[k], windows)
    ensures LastSegment(dir + [Sep(windows)] + name, windows) == name
  {
    var q := dir + [Sep(windows)];
    assert IsSep(q[|q| - 1], windows);
    LastSegmentAfterSep(q, name, windows);
  }

  /** After a separator, the last segment is what follows it. */
  lemma {:induction false} LastSegmentAfterSep(q: string, name: string, windows: bool)
    requires q != [] && IsSep(q[|q| - 1], windows)
    requires forall k :: 0 <= k < |name| ==> !IsSep(name[k], windows)
    ensures LastSegment(q + name, windows) == name
    decreases |name|
  {
    if name == [] {
      assert q + name == q;
      assert LastSegment(q, windows) == [];
    } else {
      var init := name[..|name| - 1];
      var c := name[|name| - 1];
      assert forall k :: 0 <= k < |init| ==> init[k] == name[k];
      LastSegmentAfterSep(q, init, windows);
      InitLast(name);
      AfterSepStep(q, init, c, windows);
    }
  }

  lemma AfterSepStep(q: string, init: string, c: char, windows: bool)
    requires LastSegment(q + init, windows) == init && !IsSep(c, windows)
    ensures LastSegment(q + (init + [c]), windows) == init + [c]
  {
    LastSegmentSnoc(q + init, c, windows);
    SnocAssoc(q, init, c);
  }

  /** Adding one character at the end: a separator empties the last
      segment, anything else extends it. */
  lemma LastSegmentSnoc(x: string, c: char, windows: bool)
    ensures LastSegment(x + [c], windows) == if IsSep(c, windows) then [] else LastSegment(x, windows) + [c]
  {
    var p := x + [c];
    assert p[..|p| - 1] == x;
  }

  /** A non-empty string is its front followed by its last character. */
  lemma InitLast(s: string)
    requires s != []
    ensures s[..|s| - 1] + [s[|s| - 1]] == s
  {
  }

  lemma SnocAssoc(a: string, b: string, c: char)
    ensures a + b + [c] == a + (b + [c])
  {
  }

  /** Joining a directory and a name and taking the base name gives the
      name back. */
  lemma BasenameOfJoin(dir: string, name: string, windows: bool)
    requires dir != [] && name != []
    requires forall k :: 0 <= k < |name| ==> !IsSep(name[k], windows)
    ensures Basename(Under(dir, name, windows), windows) == name
  {
    var p := Under(dir, name, windows);
    assert p[|p| - 1] == name[|name| - 1];
    assert TrimSeps(p, windows) == p;
    LastSegmentOfName(dir, name, windows);
  }

  /** Taking the base name twice changes nothing. */
  lemma BasenameIdempotent(p: string, windows: bool)
    ensures Basename(Basename(p, windows), windows) == Basename(p, windows)
  {
    var b := Basename(p, windows);
    assert TrimSeps(b, windows) == b;
    LastSegmentNoSep(b, windows);
  }

  /** A string without separators is its own last segment. */
  lemma {:induction false} LastSegmentNoSep(s: string, windows: bool)
    requires forall k :: 0 <= k < |s| ==> !IsSep(s[k], windows)
    ensures LastSegment(s, windows) == s
    decreases |s|
  {
    if s != [] {
      var init := s[..|s| - 1];
      assert forall k :: 0 <= k < |init| ==> init[k] == s[k];
      LastSegmentNoSep(init, windows);
      assert !IsSep(s[|s| - 1], windows);
      InitLast(s);
    }
  }
}
