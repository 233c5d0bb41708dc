/** The `os.path` functions the scripts call, with POSIX semantics:
    `basename`, `join` of two parts and `splitext`. */
module Paths {
  import opened Text

  /** `s.rfind(c)`: the index of the last `c` in `s`, or -1 when there is none. */
  function LastIndexOf(s: string, c: char): (r: int)
    ensures -1 <= r < |s|
    ensures r >= 0 ==> s[r] == c
    ensures forall j :: r < j < |s| ==> s[j] != c
  {
    if s == [] then -1
    else if s[|s| - 1] == c then |s| - 1
    else LastIndexOf(s[..|s| - 1], c)
  }

  /** `os.path.basename(p)`: everything after the last `/`. */
  function Basename(p: string): (r: string)
    ensures '/' !in r
    ensures EndsWith(p, r)
    ensures |r| < |p| ==> p[|p| - |r| - 1] == '/'
  {
    p[LastIndexOf(p, '/') + 1..]
  }

  /** `os.path.join(a, b)`. */
  function Join(a: string, b: string): string {
    if StartsWith(b, "/") then b
    else if a == "" || EndsWith(a, "/") then a + b
    else a + "/" + b
  }

  /** A name without a separator, joined under a directory, is that path's basename. */
  lemma BasenameOfJoin(dir: string, name: string)
    requires '/' !in name
    ensures Basename(Join(dir, name)) == name
  {
    var p := Join(dir, name);
    assert !StartsWith(name, "/") by {
      if |name| > 0 { assert name[0] != '/'; }
    }
    var head := if dir == "" || EndsWith(dir, "/") then dir else dir + "/";
    assert p == head + name;
    var at := |head| - 1;
    assert at >= 0 ==> p[at] == '/';
    assert forall j :: at < j < |p| ==> p[j] == name[j - |head|];
    assert LastIndexOf(p, '/') == at;
  }

  /** `open(join(folder, name), "wb")` creates a file; for an empty name, "."
      or ".." the path is the folder or its parent and `open` raises. */
  predicate Writable(name: string) {
    name != "" && name != "." && name != ".."
  }

  /** `os.path.splitext(p)` as a pair (root, extension). The extension starts
      at the last dot of the final path component, provided that component has
      some character other than a dot before it; otherwise it is empty. */
  function SplitExt(p: string): (r: (string, string))
    ensures r.0 + r.1 == p
    ensures r.1 == "" || (r.1[0] == '.' && '.' !in r.1[1..] && '/' !in r.1)
  {
    var sep := LastIndexOf(p, '/');
    var dot := LastIndexOf(p, '.');
    if dot > sep && !DotsOnly(p, sep + 1, dot) then
      assert p[..dot] + p[dot..] == p;
      (p[..dot], p[dot..])
    else
      (p, "")
  }

  /** `p[lo..hi]` consists of dots only. */
  predicate DotsOnly(p: string, lo: int, hi: int)
    requires 0 <= lo && hi <= |p|
    decreases hi - lo
  {
    lo >= hi || (p[lo] == '.' && DotsOnly(p, lo + 1, hi))
  }

  lemma {:induction false} DotsOnlyMeans(p: string, lo: int, hi: int)
    requires 0 <= lo && hi <= |p|
    ensures DotsOnly(p, lo, hi) <==> forall k :: lo <= k < hi ==> p[k] == '.'
    decreases hi - lo
  {
    if lo < hi {
      DotsOnlyMeans(p, lo + 1, hi);
    }
  }

  /** The extension `splitext` splits off is non-empty exactly when the final
      path component holds a dot preceded by some other character. */
  lemma SplitExtHasExtension(p: string)
    ensures SplitExt(p).1 != "" <==>
      exists i, k :: LastIndexOf(p, '/') < k < i < |p| && p[i] == '.' && p[k] != '.'
  {
    var sep := LastIndexOf(p, '/');
    var dot := LastIndexOf(p, '.');
    SplitsAtLastDot(p, sep, dot);
    if dot > sep && !DotsOnly(p, sep + 1, dot) {
      ExtensionHasWitness(p, sep, dot);
    }
    if exists i, k :: sep < k < i < |p| && p[i] == '.' && p[k] != '.' {
      var i, k :| sep < k < i < |p| && p[i] == '.' && p[k] != '.';
      WitnessGivesExtension(p, i, k);
    }
  }

  /** `splitext` splits off an extension exactly when the last dot lies in the
      final component and is not part of its leading dots. */
  lemma SplitsAtLastDot(p: string, sep: int, dot: int)
    requires sep == LastIndexOf(p, '/') && dot == LastIndexOf(p, '.')
    ensures SplitExt(p).1 != "" <==> dot > sep && !DotsOnly(p, sep + 1, dot)
  {
  }

  /** A non-empty extension starts at a dot with another character before it
      in the final component. */
  lemma ExtensionHasWitness(p: string, sep: int, dot: int)
    requires sep == LastIndexOf(p, '/') && dot == LastIndexOf(p, '.')
    requires dot > sep && !DotsOnly(p, sep + 1, dot)
    ensures exists i, k :: sep < k < i < |p| && p[i] == '.' && p[k] != '.'
  {
    DotsOnlyMeans(p, sep + 1, dot);
    var k :| sep + 1 <= k < dot && p[k] != '.';
    assert sep < k < dot < |p| && p[dot] == '.';
  }

  /** A dot in the final component after some other character gives a
      non-empty extension. */
  lemma WitnessGivesExtension(p: string, i: int, k: int)
    requires LastIndexOf(p, '/') < k < i < |p| && p[i] == '.' && p[k] != '.'
    ensures SplitExt(p).1 != ""
  {
    var sep := LastIndexOf(p, '/');
    var dot := LastIndexOf(p, '.');
    assert sep < dot by {
      assert dot >= i;
    }
    DotsOnlyMeans(p, sep + 1, dot);
    assert sep + 1 <= k < dot;
  }

  /** The root of `splitext`: the name without its extension. */
  function Stem(p: string): (r: string)
    ensures StartsWith(p, r)
  {
    SplitExt(p).0
  }
}
