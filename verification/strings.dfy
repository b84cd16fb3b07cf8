/** String primitives of JavaScript that the modelled code relies on:
    `startsWith`, `trim`, and an ASCII-only `toLowerCase`. */
module Strings {
  import Seqs

  /** `s.startsWith(prefix)`. */
  predicate StartsWith(s: string, prefix: string) {
    |prefix| <= |s| && s[..|prefix|] == prefix
  }

  /** A string that starts with a string starting with `prefix` starts with `prefix`. */
  lemma StartsWithTransitive(s: string, mid: string, prefix: string)
    requires StartsWith(s, mid) && StartsWith(mid, prefix)
    ensures StartsWith(s, prefix)
  {
    assert s[..|prefix|] == mid[..|prefix|];
  }

  /** The characters `String.prototype.trim` strips: ECMAScript WhiteSpace
      (tab, vertical tab, form feed, space, no-break space, byte order mark and
      the space separators of category Zs) and LineTerminator (LF, CR, LS, PS). */
  const JsWhitespace: set<char> := {
    '\t', '\U{000B}', '\U{000C}', ' ', '\U{00A0}', '\U{FEFF}', '\U{1680}',
    '\U{2000}', '\U{2001}', '\U{2002}', '\U{2003}', '\U{2004}', '\U{2005}',
    '\U{2006}', '\U{2007}', '\U{2008}', '\U{2009}', '\U{200A}',
    '\U{202F}', '\U{205F}', '\U{3000}',
    '\n', '\r', '\U{2028}', '\U{2029}'
  }

  predicate IsJsWhitespace(c: char) {
    c in JsWhitespace
  }

  /** Drops leading whitespace. */
  function TrimStart(s: string): (r: string)
    ensures |r| <= |s| && r == s[|s| - |r|..]
    ensures forall i :: 0 <= i < |s| - |r| ==> IsJsWhitespace(s[i])
    ensures |r| == 0 || !IsJsWhitespace(r[0])
    decreases |s|
  {
    if |s| > 0 && IsJsWhitespace(s[0]) then TrimStart(s[1..]) else s
  }

  /** Drops trailing whitespace. */
  function TrimEnd(s: string): (r: string)
    ensures |r| <= |s| && r == s[..|r|]
    ensures forall i :: |r| <= i < |s| ==> IsJsWhitespace(s[i])
    ensures |r| == 0 || !IsJsWhitespace(r[|r| - 1])
    decreases |s|
  {
    if |s| > 0 && IsJsWhitespace(s[|s| - 1]) then TrimEnd(s[..|s| - 1]) else s
  }

  /** `s.trim()`. */
  function Trim(s: string): string {
    TrimEnd(TrimStart(s))
  }

  /** A string of whitespace only. `BlankIffTrimsAway` shows this is the guard
      `!s || !s.trim()` the sports service applies to required arguments. */
  predicate IsBlank(s: string) {
    forall i :: 0 <= i < |s| ==> IsJsWhitespace(s[i])
  }

  /** Trimming a string made only of whitespace leaves nothing. */
  lemma {:induction false} TrimStartAllWhitespace(s: string)
    requires forall i :: 0 <= i < |s| ==> IsJsWhitespace(s[i])
    ensures TrimStart(s) == ""
    decreases |s|
  {
    if |s| > 0 {
      TrimStartAllWhitespace(s[1..]);
    }
  }

  /** A string is empty or trims to nothing exactly when every character of
      it is whitespace. */
  lemma BlankIffTrimsAway(s: string)
    ensures IsBlank(s) <==> (s == "" || Trim(s) == "")
  {
    if IsBlank(s) {
      TrimStartAllWhitespace(s);
    } else {
      var i :| 0 <= i < |s| && !IsJsWhitespace(s[i]);
      WordIsNotBlank(s, i);
    }
  }

  /** A string with a non-whitespace character survives trimming. */
  lemma WordIsNotBlank(s: string, i: int)
    requires 0 <= i < |s| && !IsJsWhitespace(s[i])
    ensures Trim(s) != ""
  {
    var t := TrimStart(s);
    assert |t| > 0 by {
      assert i >= |s| - |t|;
    }
    TrimEndKeepsWord(t);
  }

  /** Trimming the end of a string that starts with a non-whitespace character leaves something. */
  lemma TrimEndKeepsWord(t: string)
    requires |t| > 0 && !IsJsWhitespace(t[0])
    ensures TrimEnd(t) != ""
  {
  }

  /** What `TrimStart` drops is a whitespace-only head. */
  lemma TrimStartSplit(s: string) returns (head: string)
    ensures s == head + TrimStart(s)
    ensures forall i :: 0 <= i < |head| ==> IsJsWhitespace(head[i])
  {
    var t := TrimStart(s);
    head := s[..|s| - |t|];
    forall i | 0 <= i < |head|
      ensures IsJsWhitespace(head[i])
    {
      assert head[i] == s[i];
    }
  }

  /** What `TrimEnd` drops is a whitespace-only tail. */
  lemma TrimEndSplit(s: string) returns (tail: string)
    ensures s == TrimEnd(s) + tail
    ensures forall i :: 0 <= i < |tail| ==> IsJsWhitespace(tail[i])
  {
    var u := TrimEnd(s);
    tail := s[|u|..];
    forall i | 0 <= i < |tail|
      ensures IsJsWhitespace(tail[i])
    {
      assert tail[i] == s[|u| + i];
    }
  }

  /** Removing characters none of which is whitespace commutes with trimming:
      filtering with such a predicate sees nothing `Trim` would strip. */
  lemma FilterIgnoresTrim(s: string, keep: char -> bool)
    requires forall c :: keep(c) ==> !IsJsWhitespace(c)
    ensures Seqs.Filter(Trim(s), keep) == Seqs.Filter(s, keep)
  {
    var t := TrimStart(s);
    var head := TrimStartSplit(s);
    Seqs.FilterAppend(head, t, keep);
    Seqs.FilterAllDropped(head, keep);
    var tail := TrimEndSplit(t);
    Seqs.FilterAppend(TrimEnd(t), tail, keep);
    Seqs.FilterAllDropped(tail, keep);
  }

  /** `s.includes(sub)`. */
  predicate Contains(s: string, sub: string) {
    exists i | 0 <= i <= |s| - |sub| :: StartsWith(s[i..], sub)
  }

  /** Whatever a string contains, a longer string ending with it contains too. */
  lemma ContainsInSuffix(a: string, b: string, sub: string)
    requires Contains(b, sub)
    ensures Contains(a + b, sub)
  {
    var i :| 0 <= i <= |b| - |sub| && StartsWith(b[i..], sub);
    assert (a + b)[|a| + i..] == b[i..];
  }

  /** `AsciiLower` is idempotent. */
  lemma AsciiLowerIdempotent(s: string)
    ensures AsciiLower(AsciiLower(s)) == AsciiLower(s)
  {
  }

  /** Every character of a contained string occurs in the container; so a
      string lacking one of them does not contain it. */
  lemma ContainedCharsOccur(s: string, sub: string)
    requires Contains(s, sub)
    ensures forall k :: 0 <= k < |sub| ==> sub[k] in s
  {
    var i :| 0 <= i <= |s| - |sub| && StartsWith(s[i..], sub);
    forall k | 0 <= k < |sub|
      ensures sub[k] in s
    {
      assert s[i + k] == s[i..][k];
    }
  }

  /** `c.toLowerCase()` restricted to ASCII letters. */
  function AsciiLowerChar(c: char): (r: char)
    ensures 'A' <= c <= 'Z' ==> 'a' <= r <= 'z'
    ensures !('A' <= c <= 'Z') ==> r == c
  {
    if 'A' <= c <= 'Z' then (c as int - 'A' as int + 'a' as int) as char else c
  }

  /** `s.toLowerCase()` restricted to ASCII letters. */
  function AsciiLower(s: string): (r: string)
    ensures |r| == |s|
    ensures forall i :: 0 <= i < |s| ==> r[i] == AsciiLowerChar(s[i])
  {
    seq(|s|, i requires 0 <= i < |s| => AsciiLowerChar(s[i]))
  }
}
