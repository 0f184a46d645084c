/** The parts of `pathlib.PurePosixPath` the services use: the final component, its suffix and stem. */
module Paths {
  import opened Strings

  /** Index of the last occurrence of `c` below k, or -1. */
  function LastIndexBelow(s: string, c: char, k: nat): (i: int)
    requires k <= |s|
    ensures -1 <= i < k
    ensures i >= 0 ==> s[i] == c
    ensures forall j :: i < j < k ==> s[j] != c
  {
    if k == 0 then -1
    else if s[k - 1] == c then k - 1
    else LastIndexBelow(s, c, k - 1)
  }

  /** Index of the last occurrence of `c` in `s`, or -1 (Python's `str.rfind`). */
  function LastIndexOf(s: string, c: char): (i: int)
    ensures -1 <= i < |s|
    ensures i >= 0 ==> s[i] == c
    ensures forall j :: i < j < |s| ==> s[j] != c
  {
    LastIndexBelow(s, c, |s|)
  }

  predicate IsSeparator(c: char) { c == '/' }

  /** Drops trailing separators. */
  function DropTrailingSlashes(p: string): (r: string)
    ensures |r| <= |p| && r == p[..|r|]
    ensures r == [] || r[|r| - 1] != '/'
  {
    TrimRight(p, IsSeparator)
  }

  /** `Path(p).name`: the text after the last separator, trailing separators ignored. */
  function Name(p: string): (n: string)
    ensures '/' !in n
  {
    var q := DropTrailingSlashes(p);
    q[LastIndexOf(q, '/') + 1..]
  }

  /** Position of the dot that starts the suffix, when the name has one. */
  function SuffixDot(name: string): (i: int)
    ensures i == -1 || (0 < i < |name| - 1 && name[i] == '.')
  {
    var i := LastIndexOf(name, '.');
    if 0 < i < |name| - 1 then i else -1
  }

  /** `Path(p).suffix`: from the last dot, unless that dot is first or last in the name. */
  function Suffix(p: string): (s: string)
    ensures s == [] || (s[0] == '.' && |s| >= 2 && forall k :: 1 <= k < |s| ==> s[k] != '.')
  {
    var n := Name(p);
    var i := SuffixDot(n);
    if i == -1 then [] else n[i..]
  }

  /** `Path(p).stem`: the name without its suffix. */
  function Stem(p: string): string {
    var n := Name(p);
    var i := SuffixDot(n);
    if i == -1 then n else n[..i]
  }

  /** The stem followed by the suffix is the name. */
  lemma StemThenSuffix(p: string)
    ensures Stem(p) + Suffix(p) == Name(p)
  {
    var n := Name(p);
    var i := SuffixDot(n);
    if i != -1 {
      assert n[..i] + n[i..] == n;
    }
  }

  /** The last occurrence of c is the one before a tail without c. */
  lemma LastIndexOfBefore(s: string, c: char, t: string)
    requires c !in t
    ensures LastIndexOf(s + [c] + t, c) == |s|
  {
    var u := s + [c] + t;
    assert u[|s|] == c;
  }

  lemma LastIndexOfAbsent(s: string, c: char)
    requires c !in s
    ensures LastIndexOf(s, c) == -1
  {
  }

  /** A name without separators is its own final component. */
  lemma NameOfPlain(n: string)
    requires '/' !in n
    ensures Name(n) == n
  {
    LastIndexOfAbsent(n, '/');
  }

  /** For a name without separators, suffix and stem are cut at `SuffixDot`. */
  lemma SplitPlainName(n: string)
    requires '/' !in n
    ensures Suffix(n) == if SuffixDot(n) == -1 then [] else n[SuffixDot(n)..]
    ensures Stem(n) == if SuffixDot(n) == -1 then n else n[..SuffixDot(n)]
  {
    NameOfPlain(n);
  }

  /** In `stem.ext` the suffix starts at the dot after the stem. */
  lemma DotOfDotted(stem: string, ext: string)
    requires stem != [] && ext != [] && '/' !in stem && '/' !in ext && '.' !in ext
    ensures '/' !in stem + "." + ext && SuffixDot(stem + "." + ext) == |stem|
  {
    var n := stem + "." + ext;
    assert n == stem + ['.'] + ext;
    LastIndexOfBefore(stem, '.', ext);
  }

  /** `stem.ext` with a non-empty stem and extension has suffix `.ext` and stem `stem`. */
  lemma SuffixOfDotted(stem: string, ext: string)
    requires stem != [] && ext != [] && '/' !in stem && '/' !in ext && '.' !in ext
    ensures Suffix(stem + "." + ext) == "." + ext
  {
    var n := stem + "." + ext;
    var tail := "." + ext;
    assert n == stem + tail;
    DotOfDotted(stem, ext);
    SplitPlainName(n);
    assert (stem + tail)[|stem|..] == tail;
  }

  lemma StemOfDotted(stem: string, ext: string)
    requires stem != [] && ext != [] && '/' !in stem && '/' !in ext && '.' !in ext
    ensures Stem(stem + "." + ext) == stem
  {
    var n := stem + "." + ext;
    var tail := "." + ext;
    assert n == stem + tail;
    DotOfDotted(stem, ext);
    SplitPlainName(n);
    assert (stem + tail)[..|stem|] == stem;
  }

  /** A name whose only dot is its first character, such as `.mp4`, has no suffix. */
  lemma NoSuffixAfterLeadingDot(ext: string)
    requires '/' !in ext && '.' !in ext
    ensures Suffix("." + ext) == []
  {
    var n := "." + ext;
    assert n == [] + ['.'] + ext;
    assert '/' !in n;
    LastIndexOfBefore([], '.', ext);
    assert SuffixDot(n) == -1;
    SplitPlainName(n);
  }

  /** The empty path has no suffix. */
  lemma NoSuffixOfEmpty()
    ensures Suffix("") == []
  {
    NameOfPlain("");
    assert Name("") == "";
  }
}
