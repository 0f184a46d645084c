/** `slugify` of the labeler service: task names reduced to lower-case ASCII words joined by dashes. */
module Slug {
  import opened Strings

  /** The class `[a-z0-9._-]`. */
  predicate IsSlugChar(c: char) {
    'a' <= c <= 'z' || '0' <= c <= '9' || c == '.' || c == '_' || c == '-'
  }

  predicate AllSlugChars(s: string) {
    forall i :: 0 <= i < |s| ==> IsSlugChar(s[i])
  }

  predicate NoDoubleDash(s: string) {
    forall i :: 0 <= i < |s| - 1 ==> !(s[i] == '-' && s[i + 1] == '-')
  }

  predicate IsDash(c: char) { c == '-' }

  /** What `slugify` produces when the result is not empty. */
  predicate IsSlug(s: string) {
    && s != []
    && AllSlugChars(s)
    && NoDoubleDash(s)
    && s[0] != '-' && s[|s| - 1] != '-'
  }

  /** Drops the leading characters outside the class. */
  function DropDisallowed(s: string): (r: string)
    ensures |r| <= |s| && r == s[|s| - |r|..]
    ensures r == [] || IsSlugChar(r[0])
  {
    if s != [] && !IsSlugChar(s[0]) then
      var r := DropDisallowed(s[1..]);
      assert s[1..][|s| - 1 - |r|..] == s[|s| - |r|..];
      r
    else s
  }

  /** `re.sub(r"[^a-z0-9._-]+", "-", s)`: every maximal run outside the class becomes one dash. */
  function ReplaceDisallowedRuns(s: string): (r: string)
    ensures AllSlugChars(r)
    ensures s != [] ==> r != [] && r[0] == (if IsSlugChar(s[0]) then s[0] else '-')
    decreases |s|
  {
    if s == [] then []
    else if IsSlugChar(s[0]) then [s[0]] + ReplaceDisallowedRuns(s[1..])
    else "-" + ReplaceDisallowedRuns(DropDisallowed(s[1..]))
  }

  /** Drops the leading dashes. */
  function DropDashes(s: string): (r: string)
    ensures |r| <= |s| && r == s[|s| - |r|..]
    ensures r == [] || r[0] != '-'
  {
    if s != [] && s[0] == '-' then
      var r := DropDashes(s[1..]);
      assert s[1..][|s| - 1 - |r|..] == s[|s| - |r|..];
      r
    else s
  }

  /** `re.sub(r"-{2,}", "-", s)`: every run of two or more dashes becomes one dash. */
  function CollapseDashes(s: string): (r: string)
    ensures NoDoubleDash(r)
    ensures s != [] ==> r != [] && r[0] == s[0]
    decreases |s|
  {
    if s == [] then []
    else if s[0] == '-' then
      var t := DropDashes(s[1..]);
      var rest := CollapseDashes(t);
      ConsNoDoubleDash('-', rest);
      "-" + rest
    else
      var rest := CollapseDashes(s[1..]);
      ConsNoDoubleDash(s[0], rest);
      [s[0]] + rest
  }

  /** One character in front of a string without '--' adds none unless both are dashes. */
  lemma ConsNoDoubleDash(c: char, r: string)
    requires NoDoubleDash(r)
    requires c != '-' || r == [] || r[0] != '-'
    ensures NoDoubleDash([c] + r)
  {
    var s := [c] + r;
    forall i | 0 <= i < |s| - 1
      ensures !(s[i] == '-' && s[i + 1] == '-')
    {
      if i > 0 {
        assert s[i] == r[i - 1] && s[i + 1] == r[i];
      }
    }
  }

  /** A suffix holds only characters of the whole. */
  lemma SuffixChars(s: string, t: string)
    requires |t| <= |s| && t == s[|s| - |t|..]
    ensures forall c :: c in t ==> c in s
  {
    forall c | c in t
      ensures c in s
    {
      var k :| 0 <= k < |t| && t[k] == c;
      assert s[|s| - |t| + k] == c;
    }
  }

  /** Collapsing introduces no character besides the dash: every other character comes from `s`. */
  lemma {:induction false} CollapseKeepsChars(s: string)
    ensures forall c :: c in CollapseDashes(s) ==> c == '-' || c in s
    decreases |s|
  {
    if s != [] && s[0] == '-' {
      var t := DropDashes(s[1..]);
      CollapseKeepsChars(t);
      SuffixChars(s, t);
      assert CollapseDashes(s) == "-" + CollapseDashes(t);
    } else if s != [] {
      var t := s[1..];
      CollapseKeepsChars(t);
      SuffixChars(s, t);
      assert CollapseDashes(s) == [s[0]] + CollapseDashes(t);
    }
  }

  /** So collapsing keeps a string inside the class. */
  lemma CollapseKeepsClass(s: string)
    requires AllSlugChars(s)
    ensures AllSlugChars(CollapseDashes(s))
  {
    CollapseKeepsChars(s);
  }

  /** `slugify(s, allow_empty)`: a well-formed slug, or the fallback when nothing is left. */
  function Slugify(s: string, allowEmpty: string): (r: string)
    ensures IsSlug(r) || r == allowEmpty
  {
    var replaced := ReplaceDisallowedRuns(Lower(Strip(s)));
    var c := CollapseDashes(replaced);
    CollapseKeepsClass(replaced);
    TrimDashesIsSlug(c);
    var t := Trim(c, IsDash);
    if t == [] then allowEmpty else t
  }

  /** The fallback name. */
  const DEFAULT_SLUG: string := "task"

  /** A slice keeps the class and the absence of double dashes. */
  lemma SliceKeeps(s: string, lo: nat, hi: nat)
    requires lo <= hi <= |s| && AllSlugChars(s) && NoDoubleDash(s)
    ensures AllSlugChars(s[lo..hi]) && NoDoubleDash(s[lo..hi])
  {
    var t := s[lo..hi];
    forall i | 0 <= i < |t| - 1
      ensures !(t[i] == '-' && t[i + 1] == '-')
    {
      assert t[i] == s[lo + i] && t[i + 1] == s[lo + i + 1];
    }
  }

  /** Trimming dashes keeps the class and the absence of double dashes, and leaves no dash at either end. */
  lemma TrimDashesIsSlug(s: string)
    requires AllSlugChars(s) && NoDoubleDash(s)
    ensures var t := Trim(s, IsDash); t == [] || IsSlug(t)
  {
    var l := TrimLeft(s, IsDash);
    var t := TrimRight(l, IsDash);
    var lo := |s| - |l|;
    assert t == s[lo..lo + |t|];
    SliceKeeps(s, lo, lo + |t|);
    if t != [] {
      assert t[0] == l[0];
    }
  }

  lemma DefaultIsSlug()
    ensures IsSlug(DEFAULT_SLUG)
  {
  }

  /** With the default fallback `slugify` never returns the empty string. */
  lemma SlugifyNeverEmpty(s: string)
    ensures IsSlug(Slugify(s, DEFAULT_SLUG))
  {
    DefaultIsSlug();
  }

  lemma {:induction false} ReplaceKeepsSlugChars(s: string)
    requires AllSlugChars(s)
    ensures ReplaceDisallowedRuns(s) == s
  {
    if s != [] {
      ReplaceKeepsSlugChars(s[1..]);
      assert [s[0]] + s[1..] == s;
    }
  }

  lemma {:induction false} CollapseKeepsSingleDashes(s: string)
    requires NoDoubleDash(s)
    ensures CollapseDashes(s) == s
  {
    if s != [] {
      CollapseKeepsSingleDashes(s[1..]);
      if s[0] == '-' {
        assert DropDashes(s[1..]) == s[1..];
      }
      assert [s[0]] + s[1..] == s;
    }
  }

  predicate NoDash(s: string) {
    forall i :: 0 <= i < |s| ==> s[i] != '-'
  }

  /** A word of the class without dashes, such as `hello` or `v2.mp4`. */
  predicate IsDashFreeWord(s: string) {
    s != [] && AllSlugChars(s) && NoDash(s)
  }

  /** A run of characters outside the class is skipped whole up to the next character inside it. */
  lemma {:induction false} DropRun(d: string, b: string)
    requires forall i :: 0 <= i < |d| ==> !IsSlugChar(d[i])
    requires b == [] || IsSlugChar(b[0])
    ensures DropDisallowed(d + b) == b
  {
    if d != [] {
      assert (d + b)[1..] == d[1..] + b;
      DropRun(d[1..], b);
    }
  }

  /** A whole run of disallowed characters in front becomes one dash. */
  lemma {:induction false} ReplaceRunHead(d: string, b: string)
    requires d != [] && forall i :: 0 <= i < |d| ==> !IsSlugChar(d[i])
    requires b == [] || IsSlugChar(b[0])
    ensures ReplaceDisallowedRuns(d + b) == "-" + ReplaceDisallowedRuns(b)
  {
    assert (d + b)[0] == d[0] && (d + b)[1..] == d[1..] + b;
    DropRun(d[1..], b);
  }

  /** An allowed character in front is kept. */
  lemma {:induction false} ReplaceKeepsHead(a: string, t: string)
    requires a != [] && IsSlugChar(a[0])
    ensures ReplaceDisallowedRuns(a + t) == [a[0]] + ReplaceDisallowedRuns(a[1..] + t)
  {
    assert (a + t)[0] == a[0] && (a + t)[1..] == a[1..] + t;
  }

  /** A prefix inside the class is kept as it is. */
  lemma {:induction false} ReplaceKeepsPrefix(a: string, t: string)
    requires AllSlugChars(a)
    ensures ReplaceDisallowedRuns(a + t) == a + ReplaceDisallowedRuns(t)
  {
    if a == [] {
      assert a + t == t;
    } else {
      var rt := ReplaceDisallowedRuns(t);
      var rest := a[1..];
      assert AllSlugChars(rest) by {
        forall i | 0 <= i < |rest| ensures IsSlugChar(rest[i]) { assert rest[i] == a[i + 1]; }
      }
      calc {
        ReplaceDisallowedRuns(a + t);
        == { ReplaceKeepsHead(a, t); }
        [a[0]] + ReplaceDisallowedRuns(rest + t);
        == { ReplaceKeepsPrefix(rest, t); }
        [a[0]] + (rest + rt);
        == { assert a == [a[0]] + rest; }
        a + rt;
      }
    }
  }

  /**
   * The substitution step on a maximal run: the allowed prefix stays, the run of disallowed
   * characters becomes a single dash, and the rest is substituted in turn.
   */
  lemma {:induction false} ReplaceRun(a: string, d: string, b: string)
    requires AllSlugChars(a)
    requires d != [] && forall i :: 0 <= i < |d| ==> !IsSlugChar(d[i])
    requires b == [] || IsSlugChar(b[0])
    ensures ReplaceDisallowedRuns(a + d + b) == a + "-" + ReplaceDisallowedRuns(b)
  {
    assert a + d + b == a + (d + b);
    ReplaceKeepsPrefix(a, d + b);
    ReplaceRunHead(d, b);
  }

  /** A run of dashes is skipped whole up to the next character that is not a dash. */
  lemma {:induction false} DropDashRun(d: string, b: string)
    requires forall i :: 0 <= i < |d| ==> d[i] == '-'
    requires b == [] || b[0] != '-'
    ensures DropDashes(d + b) == b
  {
    if d != [] {
      assert (d + b)[1..] == d[1..] + b;
      DropDashRun(d[1..], b);
    }
  }

  /** A whole run of dashes in front becomes one dash. */
  lemma {:induction false} CollapseRunHead(d: string, b: string)
    requires d != [] && forall i :: 0 <= i < |d| ==> d[i] == '-'
    requires b == [] || b[0] != '-'
    ensures CollapseDashes(d + b) == "-" + CollapseDashes(b)
  {
    assert (d + b)[0] == d[0] && (d + b)[1..] == d[1..] + b;
    DropDashRun(d[1..], b);
  }

  /** A character other than a dash in front is kept. */
  lemma {:induction false} CollapseKeepsHead(c: char, t: string)
    requires c != '-'
    ensures CollapseDashes([c] + t) == [c] + CollapseDashes(t)
  {
    assert ([c] + t)[1..] == t;
  }

  /**
   * The collapsing step on a run of dashes after a dash-free prefix: the prefix stays, the
   * run becomes a single dash, and the rest is collapsed in turn.
   */
  lemma {:induction false} CollapseRun(a: string, d: string, b: string)
    requires NoDash(a)
    requires d != [] && forall i :: 0 <= i < |d| ==> d[i] == '-'
    requires b == [] || b[0] != '-'
    ensures CollapseDashes(a + d + b) == a + "-" + CollapseDashes(b)
  {
    if a == [] {
      assert a + d + b == d + b;
      CollapseRunHead(d, b);
    } else {
      var rest := a[1..];
      var cb := CollapseDashes(b);
      assert NoDash(rest) by {
        forall i | 0 <= i < |rest| ensures rest[i] != '-' { assert rest[i] == a[i + 1]; }
      }
      calc {
        CollapseDashes(a + d + b);
        == { assert a + d + b == [a[0]] + (rest + d + b); }
        CollapseDashes([a[0]] + (rest + d + b));
        == { CollapseKeepsHead(a[0], rest + d + b); }
        [a[0]] + CollapseDashes(rest + d + b);
        == { CollapseRun(rest, d, b); }
        [a[0]] + (rest + "-" + cb);
        == { assert a == [a[0]] + rest; }
        a + "-" + cb;
      }
    }
  }

  /** The substitution, collapsing and dash trimming of two words around a disallowed run. */
  lemma {:induction false} CleanJoinsWords(w1: string, d: string, w2: string)
    requires IsDashFreeWord(w1) && IsDashFreeWord(w2)
    requires d != [] && forall i :: 0 <= i < |d| ==> !IsSlugChar(d[i])
    ensures Trim(CollapseDashes(ReplaceDisallowedRuns(w1 + d + w2)), IsDash) == w1 + "-" + w2
  {
    ReplaceRun(w1, d, w2);
    ReplaceKeepsSlugChars(w2);
    assert ReplaceDisallowedRuns(w1 + d + w2) == w1 + "-" + w2;
    CollapseRun(w1, "-", w2);
    CollapseKeepsSingleDashes(w2);
    var j := w1 + "-" + w2;
    assert j[0] == w1[0] && j[|j| - 1] == w2[|w2| - 1];
    TrimKeeps(j, IsDash);
  }

  /** A word whose lower case is a dash-free word does not start with white space. */
  lemma {:induction false} FirstNotSpace(w: string)
    requires IsDashFreeWord(Lower(w))
    ensures w != [] && !IsSpace(w[0])
  {
    var l := Lower(w);
    assert w != [];
    assert l == LowerOf(w[0]) + Lower(w[1..]);
    assert IsSlugChar(l[0]) && l[0] == LowerOf(w[0])[0];
  }

  /** The lower case of a string ends with the lower case of its last character. */
  lemma {:induction false} LowerLast(init: string, c: char)
    ensures var l, lc := Lower(init + [c]), LowerOf(c); |l| > 0 && l[|l| - 1] == lc[|lc| - 1]
  {
    LowerAppend(init, [c]);
    assert [c][1..] == [];
    assert Lower([c]) == LowerOf(c);
  }

  /** A character whose lower case holds a slug character is not white space. */
  lemma SlugLowerNotSpace(c: char, k: int)
    requires 0 <= k < |LowerOf(c)| && IsSlugChar(LowerOf(c)[k])
    ensures !IsSpace(c)
  {
  }

  /** A non-empty string is its prefix followed by its last character. */
  lemma SplitLast(w: string)
    requires w != []
    ensures w[..|w| - 1] + [w[|w| - 1]] == w
  {
  }

  /** A word whose lower case is a dash-free word does not end with white space. */
  lemma {:induction false} LastNotSpace(w: string)
    requires IsDashFreeWord(Lower(w))
    ensures w != [] && !IsSpace(w[|w| - 1])
  {
    assert w != [];
    var c, init := w[|w| - 1], w[..|w| - 1];
    SplitLast(w);
    LowerLast(init, c);
    var l, lc := Lower(w), LowerOf(c);
    assert l[|l| - 1] == lc[|lc| - 1];
    SlugLowerNotSpace(c, |lc| - 1);
  }

  /**
   * Two words separated by a run of characters outside the class (spaces, say) become their
   * lower cases joined by one dash, whenever each word lower-cases to a dash-free word:
   * `Hello   World` gives `hello-world`.
   */
  lemma {:induction false} SlugifyJoinsWords(w1: string, d: string, w2: string, allowEmpty: string)
    requires IsDashFreeWord(Lower(w1)) && IsDashFreeWord(Lower(w2))
    requires d != [] && forall i :: 0 <= i < |d| ==> !IsSlugChar(d[i]) && !LowersToAscii(d[i])
    ensures Slugify(w1 + d + w2, allowEmpty) == Lower(w1) + "-" + Lower(w2)
  {
    var s := w1 + d + w2;
    FirstNotSpace(w1);
    LastNotSpace(w2);
    assert s[0] == w1[0] && s[|s| - 1] == w2[|w2| - 1];
    TrimKeeps(s, IsSpace);
    LowerAppend(w1 + d, w2);
    LowerAppend(w1, d);
    LowerKeeps(d);
    assert Lower(Strip(s)) == Lower(w1) + d + Lower(w2);
    CleanJoinsWords(Lower(w1), d, Lower(w2));
  }

  /** Every step of `slugify` leaves a slug as it is. */
  lemma SlugifyFixesSlugs(s: string, allowEmpty: string)
    requires IsSlug(s)
    ensures Slugify(s, allowEmpty) == s
  {
    TrimKeeps(s, IsSpace);
    assert Strip(s) == s;
    LowerKeeps(s);
    ReplaceKeepsSlugChars(s);
    CollapseKeepsSingleDashes(s);
    TrimKeeps(s, IsDash);
  }

  /** `slugify(slugify(s)) == slugify(s)` with the default fallback. */
  lemma SlugifyIdempotent(s: string)
    ensures Slugify(Slugify(s, DEFAULT_SLUG), DEFAULT_SLUG) == Slugify(s, DEFAULT_SLUG)
  {
    SlugifyNeverEmpty(s);
    SlugifyFixesSlugs(Slugify(s, DEFAULT_SLUG), DEFAULT_SLUG);
  }
}
