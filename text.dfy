/** The few Python `str` operations the captioning scripts rely on:
    `startswith`, `endswith`, slicing `s[:n]`, `strip`, `lower` and the
    substring test `sub in s`. Strings are sequences of code points. */
module Text {

  /** `s.startswith(p)` */
  predicate StartsWith(s: string, p: string) {
    |p| <= |s| && s[..|p|] == p
  }

  /** `s.endswith(p)` */
  predicate EndsWith(s: string, p: string) {
    |p| <= |s| && s[|s| - |p|..] == p
  }

  /** `s.endswith(suffixes)` with a tuple: `s` ends with one of them. */
  function EndsWithAny(s: string, suffixes: seq<string>): (b: bool)
    ensures b <==> exists i :: 0 <= i < |suffixes| && EndsWith(s, suffixes[i])
  {
    if suffixes == [] then false
    else if EndsWith(s, suffixes[0]) then true
    else
      var b := EndsWithAny(s, suffixes[1..]);
      assert forall i :: 1 <= i < |suffixes| ==> suffixes[i] == suffixes[1..][i - 1];
      b
  }

  /** With four suffixes, `endswith` holds iff one of the four ends the string. */
  lemma EndsWithAnyOfFour(s: string, a: string, b: string, c: string, d: string)
    ensures EndsWithAny(s, [a, b, c, d]) <==> EndsWith(s, a) || EndsWith(s, b) || EndsWith(s, c) || EndsWith(s, d)
  {
    var suffixes := [a, b, c, d];
    if EndsWithAny(s, suffixes) {
      var i :| 0 <= i < |suffixes| && EndsWith(s, suffixes[i]);
      assert suffixes[i] == a || suffixes[i] == b || suffixes[i] == c || suffixes[i] == d;
    }
    if EndsWith(s, b) { assert EndsWith(s, suffixes[1]); }
    if EndsWith(s, c) { assert EndsWith(s, suffixes[2]); }
    if EndsWith(s, d) { assert EndsWith(s, suffixes[3]); }
  }

  function Min(a: int, b: int): int {
    if a < b then a else b
  }

  /** `s[:n]` for a non-negative `n`: the longest prefix of `s` with at most `n` characters. */
  function Take(s: string, n: nat): (r: string)
    ensures StartsWith(s, r)
    ensures |r| == Min(n, |s|)
  {
    if |s| <= n then s else s[..n]
  }

  /** `sub` occurs in `s` starting at index `i`. */
  predicate OccursAt(s: string, sub: string, i: int) {
    0 <= i <= |s| - |sub| && s[i..i + |sub|] == sub
  }

  /** `sub in s` for two strings. */
  predicate Contains(s: string, sub: string) {
    exists i :: 0 <= i <= |s| - |sub| && OccursAt(s, sub, i)
  }

  /** The characters for which Python's `str.isspace()` holds; `strip()`
      without an argument removes exactly these. */
  const Whitespace: set<char> :=
    {'\U{9}', '\U{A}', '\U{B}', '\U{C}', '\U{D}', '\U{1C}', '\U{1D}', '\U{1E}',
     '\U{1F}', '\U{20}', '\U{85}', '\U{A0}', '\U{1680}', '\U{2000}', '\U{2001}', '\U{2002}',
     '\U{2003}', '\U{2004}', '\U{2005}', '\U{2006}', '\U{2007}', '\U{2008}', '\U{2009}', '\U{200A}',
     '\U{2028}', '\U{2029}', '\U{202F}', '\U{205F}', '\U{3000}'}

  /** `s.lstrip(chars)`: drops the longest prefix made of characters in `cs`. */
  function StripLeft(s: string, cs: set<char>): (r: string)
    ensures |r| <= |s| && r == s[|s| - |r|..]
    ensures forall i :: 0 <= i < |s| - |r| ==> s[i] in cs
    ensures r != [] ==> r[0] !in cs
  {
    if s != [] && s[0] in cs then StripLeft(s[1..], cs) else s
  }

  /** `s.rstrip(chars)`: drops the longest suffix made of characters in `cs`. */
  function StripRight(s: string, cs: set<char>): (r: string)
    ensures |r| <= |s| && r == s[..|r|]
    ensures forall i :: |r| <= i < |s| ==> s[i] in cs
    ensures r != [] ==> r[|r| - 1] !in cs
  {
    if s != [] && s[|s| - 1] in cs then StripRight(s[..|s| - 1], cs) else s
  }

  /** `s.strip(chars)`; `s.strip()` is `Strip(s, Whitespace)`. */
  function Strip(s: string, cs: set<char>): string {
    StripRight(StripLeft(s, cs), cs)
  }

  /** `strip` leaves nothing exactly when every character is one it removes. */
  lemma StripEmptyIff(s: string, cs: set<char>)
    ensures Strip(s, cs) == "" <==> forall i :: 0 <= i < |s| ==> s[i] in cs
  {
    var l := StripLeft(s, cs);
    if Strip(s, cs) == "" {
      assert l == [];
    } else {
      assert l != [];
      assert s[|s| - |l|] == l[0] && l[0] !in cs;
    }
  }

  /** What `strip` keeps starts and ends with a character it does not remove. */
  lemma StripEnds(s: string, cs: set<char>)
    requires Strip(s, cs) != ""
    ensures Strip(s, cs)[0] !in cs && Strip(s, cs)[|Strip(s, cs)| - 1] !in cs
  {
    var l := StripLeft(s, cs);
    var r := StripRight(l, cs);
    assert r[0] == l[0];
  }

  /** `c.lower()` for ASCII letters; every other character is left as it is. */
  function LowerChar(c: char): char {
    if 'A' <= c <= 'Z' then (c as int + 32) as char else c
  }

  predicate IsUpperAscii(c: char) {
    'A' <= c <= 'Z'
  }

  /** `s.lower()` (ASCII case mapping). */
  function Lower(s: string): (r: string)
    ensures |r| == |s|
    ensures forall i :: 0 <= i < |s| ==> r[i] == LowerChar(s[i])
  {
    seq(|s|, i requires 0 <= i < |s| => LowerChar(s[i]))
  }

  /** `lower()` leaves no upper-case ASCII letter behind. */
  lemma LowerHasNoUpper(s: string, i: int)
    requires 0 <= i < |s|
    ensures !IsUpperAscii(Lower(s)[i])
  {
  }

  /** A string holding an upper-case ASCII letter is never inside a lowered string. */
  lemma NoUpperInLower(s: string, sub: string, j: int)
    requires 0 <= j < |sub| && IsUpperAscii(sub[j])
    ensures !Contains(Lower(s), sub)
  {
    forall i | 0 <= i <= |s| - |sub| ensures !OccursAt(Lower(s), sub, i) {
      assert Lower(s)[i..i + |sub|][j] == Lower(s)[i + j];
      LowerHasNoUpper(s, i + j);
    }
  }

  /** Lowering keeps every occurrence: `sub in s` implies `sub.lower() in s.lower()`. */
  lemma LowerKeepsContains(s: string, sub: string)
    requires Contains(s, sub)
    ensures Contains(Lower(s), Lower(sub))
  {
    var i :| 0 <= i <= |s| - |sub| && OccursAt(s, sub, i);
    assert Lower(s)[i..i + |sub|] == Lower(sub);
    assert OccursAt(Lower(s), Lower(sub), i);
  }
}
