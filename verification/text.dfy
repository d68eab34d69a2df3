/** String operations of Python's `str` that the dashboard relies on:
    `in`, `find`, `split`, `join`, `startswith`, `endswith` and `strip`. */
module Text {
  import opened Wrappers

  /** `sub` occurs in `s` starting at index `j`. */
  predicate OccursAt(s: string, sub: string, j: nat) {
    j + |sub| <= |s| && s[j..j + |sub|] == sub
  }

  predicate StartsWith(s: string, prefix: string) {
    |prefix| <= |s| && s[..|prefix|] == prefix
  }

  predicate EndsWith(s: string, suffix: string) {
    |suffix| <= |s| && s[|s| - |suffix|..] == suffix
  }

  lemma OccursShift(s: string, sub: string)
    requires |s| > 0
    ensures forall j: nat :: j >= 1 ==> (OccursAt(s, sub, j) <==> OccursAt(s[1..], sub, j - 1))
  {
    forall j: nat | j >= 1
      ensures OccursAt(s, sub, j) <==> OccursAt(s[1..], sub, j - 1)
    {
      if j + |sub| <= |s| {
        assert s[1..][j - 1..j - 1 + |sub|] == s[j..j + |sub|];
      }
    }
  }

  /** Index of the first occurrence of a non-empty `sub` in `s` (`str.find`,
      with None for -1). */
  function IndexOf(s: string, sub: string): (r: Option<nat>)
    requires |sub| > 0
    ensures r.Some? ==> OccursAt(s, sub, r.value)
    ensures r.Some? ==> forall j: nat :: j < r.value ==> !OccursAt(s, sub, j)
    ensures r.None? ==> forall j: nat :: !OccursAt(s, sub, j)
    decreases |s|
  {
    if |s| < |sub| then None
    else if s[..|sub|] == sub then Some(0)
    else
      OccursShift(s, sub);
      match IndexOf(s[1..], sub)
      case None => None
      case Some(i) => Some(i + 1)
  }

  /** Python's `sub in s`. */
  predicate Contains(s: string, sub: string)
    requires |sub| > 0
  {
    IndexOf(s, sub).Some?
  }

  /** Every character of `sub` appears in a string containing `sub`; so a string
      lacking one of them cannot contain it. */
  lemma CharsOfContained(s: string, sub: string, k: nat)
    requires k < |sub|
    ensures Contains(s, sub) ==> sub[k] in s
  {
    if Contains(s, sub) {
      var j := IndexOf(s, sub).value;
      assert s[j..j + |sub|][k] == s[j + k];
    }
  }

  /** Python's `s.split(sep)` for a non-empty separator. */
  function SplitOn(s: string, sep: string): (parts: seq<string>)
    requires |sep| > 0
    ensures |parts| >= 1
    ensures Contains(s, sep) <==> |parts| >= 2
    decreases |s|
  {
    match IndexOf(s, sep)
    case None => [s]
    case Some(i) => [s[..i]] + SplitOn(s[i + |sep|..], sep)
  }

  /** Python's `sep.join(parts)`. */
  function Join(parts: seq<string>, sep: string): string
  {
    if |parts| == 0 then ""
    else if |parts| == 1 then parts[0]
    else parts[0] + sep + Join(parts[1..], sep)
  }

  /** Splitting and re-joining gives back the original string. */
  lemma {:induction false} JoinSplit(s: string, sep: string)
    requires |sep| > 0
    ensures Join(SplitOn(s, sep), sep) == s
    decreases |s|
  {
    match IndexOf(s, sep)
    case None =>
    case Some(i) =>
      var rest := s[i + |sep|..];
      JoinSplit(rest, sep);
      assert s[i..i + |sep|] == sep;
      assert s == s[..i] + sep + rest;
  }

  /** When the first occurrence of `sep` in `a + sep + b` is the displayed one,
      splitting peels `a` off the front. */
  lemma SplitOnFirst(a: string, sep: string, b: string)
    requires |sep| > 0
    requires forall j: nat :: j < |a| ==> !OccursAt(a + sep + b, sep, j)
    ensures SplitOn(a + sep + b, sep) == [a] + SplitOn(b, sep)
  {
    var s := a + sep + b;
    assert s[|a|..|a| + |sep|] == sep;
    assert OccursAt(s, sep, |a|);
    var r := IndexOf(s, sep);
    assert r == Some(|a|);
    assert s[..|a|] == a;
    assert s[|a| + |sep|..] == b;
  }

  lemma SplitOnAbsent(s: string, sep: string)
    requires |sep| > 0
    requires !Contains(s, sep)
    ensures SplitOn(s, sep) == [s]
  {
  }

  /** For a one-character separator that no part contains, `split` undoes `join`. */
  lemma {:induction false} SplitJoinChar(parts: seq<string>, c: char)
    requires |parts| >= 1
    requires forall i :: 0 <= i < |parts| ==> c !in parts[i]
    ensures SplitOn(Join(parts, [c]), [c]) == parts
    decreases |parts|
  {
    if |parts| == 1 {
      CharsOfContained(parts[0], [c], 0);
    } else {
      var rest := Join(parts[1..], [c]);
      forall j: nat | j < |parts[0]|
        ensures !OccursAt(parts[0] + [c] + rest, [c], j)
      {
        assert (parts[0] + [c] + rest)[j] == parts[0][j];
      }
      SplitOnFirst(parts[0], [c], rest);
      SplitJoinChar(parts[1..], c);
      assert parts == [parts[0]] + parts[1..];
    }
  }

  /** No character of `bad` appears in a join whose parts and separator avoid it. */
  lemma {:induction false} JoinAvoids(parts: seq<string>, sep: string, bad: set<char>)
    requires forall i, k :: 0 <= i < |parts| && 0 <= k < |parts[i]| ==> parts[i][k] !in bad
    requires forall k :: 0 <= k < |sep| ==> sep[k] !in bad
    ensures forall k :: 0 <= k < |Join(parts, sep)| ==> Join(parts, sep)[k] !in bad
    decreases |parts|
  {
    if |parts| > 1 {
      JoinAvoids(parts[1..], sep, bad);
      var rest := Join(parts[1..], sep);
      forall k | 0 <= k < |Join(parts, sep)|
        ensures Join(parts, sep)[k] !in bad
      {
        var j := Join(parts, sep);
        assert j == parts[0] + sep + rest;
        if k < |parts[0]| {
          assert j[k] == parts[0][k];
        } else if k < |parts[0]| + |sep| {
          assert j[k] == sep[k - |parts[0]|];
        } else {
          assert j[k] == rest[k - |parts[0]| - |sep|];
        }
      }
    }
  }

  predicate IsAlnum(c: char) {
    ('a' <= c <= 'z') || ('A' <= c <= 'Z') || ('0' <= c <= '9')
  }

  predicate AllAlnum(s: string) {
    forall i :: 0 <= i < |s| ==> IsAlnum(s[i])
  }

  /** Python's `s.lstrip(chars)`. */
  function StripLeft(s: string, chars: set<char>): (r: string)
    ensures |r| <= |s| && r == s[|s| - |r|..]
    ensures |r| > 0 ==> r[0] !in chars
    ensures forall i :: 0 <= i < |s| - |r| ==> s[i] in chars
  {
    if |s| > 0 && s[0] in chars then StripLeft(s[1..], chars) else s
  }

  /** Python's `s.rstrip(chars)`. */
  function StripRight(s: string, chars: set<char>): (r: string)
    ensures |r| <= |s| && r == s[..|r|]
    ensures |r| > 0 ==> r[|r| - 1] !in chars
    ensures forall i :: |r| <= i < |s| ==> s[i] in chars
  {
    if |s| > 0 && s[|s| - 1] in chars then StripRight(s[..|s| - 1], chars) else s
  }

  /** Python's `s.strip(chars)`. */
  function Strip(s: string, chars: set<char>): string
  {
    StripRight(StripLeft(s, chars), chars)
  }

  /** Left-stripping a string whose first character is kept changes nothing. */
  lemma StripLeftKeeps(s: string, chars: set<char>)
    requires |s| > 0 && s[0] !in chars
    ensures StripLeft(s, chars) == s
  {
  }

  /** Right-stripping `core + tail`, where `core` holds none of the stripped
      characters and `tail` only stripped ones, leaves `core`. */
  lemma StripRightExact(core: string, tail: string, chars: set<char>)
    requires forall i :: 0 <= i < |core| ==> core[i] !in chars
    requires forall i :: 0 <= i < |tail| ==> tail[i] in chars
    ensures StripRight(core + tail, chars) == core
  {
    var l := core + tail;
    var r := StripRight(l, chars);
    if |core| > 0 {
      assert l[|core| - 1] !in chars;
    }
    forall i | |core| <= i < |l|
      ensures l[i] in chars
    {
      assert l[i] == tail[i - |core|];
    }
    assert |r| == |core|;
    assert r == l[..|core|];
  }

  /** Stripping `core + tail`, where `core` holds none of the stripped characters
      and `tail` only stripped ones, leaves exactly `core`. */
  lemma StripExact(core: string, tail: string, chars: set<char>)
    requires forall i :: 0 <= i < |core| ==> core[i] !in chars
    requires forall i :: 0 <= i < |tail| ==> tail[i] in chars
    ensures Strip(core + tail, chars) == core
  {
    if |core| > 0 {
      assert (core + tail)[0] == core[0];
      StripLeftKeeps(core + tail, chars);
      StripRightExact(core, tail, chars);
    } else {
      assert core + tail == tail;
      assert StripLeft(tail, chars) == [];
    }
  }

  /** Python's whitespace (`str.isspace`, regex `\s`) within Latin-1. */
  const Whitespace: set<char> :=
    {' ', '\t', '\n', '\r', '\U{0B}', '\U{0C}', '\U{1C}', '\U{1D}', '\U{1E}', '\U{1F}', '\U{85}', '\U{A0}'}

  predicate IsSpace(c: char) {
    c in Whitespace
  }

  /** Python's `c.lower()` for ASCII letters; other characters are unchanged. */
  function LowerChar(c: char): char {
    if 'A' <= c <= 'Z' then (c as int - 'A' as int + 'a' as int) as char else c
  }

  function Lower(s: string): (r: string)
    ensures |r| == |s|
    ensures forall i :: 0 <= i < |s| ==> r[i] == LowerChar(s[i])
  {
    if |s| == 0 then "" else [LowerChar(s[0])] + Lower(s[1..])
  }
}
