/** The parts of Python's `str` behaviour the modelled code relies on, over `seq<char>`. */
module Strings {
  import opened Wrappers

  /** Python's `str.isspace()` for one character: the characters `str.strip()` removes. */
  predicate IsSpace(c: char) {
    c == ' ' || c == '\t' || c == '\n' || c == '\r'
    || ('\U{1C}' <= c <= '\U{1F}') || c == '\U{0B}' || c == '\U{0C}'
    || c == '\U{85}' || c == '\U{A0}' || c == '\U{1680}'
    || ('\U{2000}' <= c <= '\U{200A}') || c == '\U{2028}' || c == '\U{2029}'
    || c == '\U{202F}' || c == '\U{205F}' || c == '\U{3000}'
  }

  /** The line boundaries of Python's `str.splitlines()`; every one of them is also a space. */
  predicate IsLineBreak(c: char) {
    c == '\n' || c == '\r' || c == '\U{0B}' || c == '\U{0C}'
    || ('\U{1C}' <= c <= '\U{1E}') || c == '\U{85}' || c == '\U{2028}' || c == '\U{2029}'
  }

  predicate StartsWith(s: string, prefix: string) {
    |prefix| <= |s| && s[..|prefix|] == prefix
  }

  /** The first index at or after k whose character is kept, or |s|. */
  function KeptFrom(s: string, drop: char -> bool, k: nat): (n: nat)
    requires k <= |s|
    ensures k <= n <= |s|
    ensures forall i :: k <= i < n ==> drop(s[i])
    ensures n < |s| ==> !drop(s[n])
    decreases |s| - k
  {
    if k < |s| && drop(s[k]) then KeptFrom(s, drop, k + 1) else k
  }

  /** One past the last index below k whose character is kept, or 0. */
  function KeptBelow(s: string, drop: char -> bool, k: nat): (n: nat)
    requires k <= |s|
    ensures n <= k
    ensures forall i :: n <= i < k ==> drop(s[i])
    ensures n > 0 ==> !drop(s[n - 1])
  {
    if k > 0 && drop(s[k - 1]) then KeptBelow(s, drop, k - 1) else k
  }

  /** Drops the leading characters satisfying `drop`. */
  function TrimLeft(s: string, drop: char -> bool): (r: string)
    ensures |r| <= |s| && r == s[|s| - |r|..]
    ensures r == [] || !drop(r[0])
    ensures forall i :: 0 <= i < |s| - |r| ==> drop(s[i])
  {
    s[KeptFrom(s, drop, 0)..]
  }

  /** Drops the trailing characters satisfying `drop`. */
  function TrimRight(s: string, drop: char -> bool): (r: string)
    ensures |r| <= |s| && r == s[..|r|]
    ensures r == [] || !drop(r[|r| - 1])
    ensures forall i :: |r| <= i < |s| ==> drop(s[i])
  {
    s[..KeptBelow(s, drop, |s|)]
  }

  /** Python's `s.strip(chars)`, the characters given as a predicate. */
  function Trim(s: string, drop: char -> bool): string {
    TrimRight(TrimLeft(s, drop), drop)
  }

  /** A string with no droppable character at either end is its own trim. */
  lemma TrimKeeps(s: string, drop: char -> bool)
    requires s == [] || (!drop(s[0]) && !drop(s[|s| - 1]))
    ensures Trim(s, drop) == s
  {
  }

  /** Python's `s.strip()`. */
  function Strip(s: string): string {
    Trim(s, IsSpace)
  }

  /** Capital letters whose lower case contains an ASCII character. */
  predicate LowersToAscii(c: char) {
    'A' <= c <= 'Z' || c == '\U{212A}' || c == '\U{0130}'
  }

  /**
   * Python's `str.lower()` of one character, exact wherever the result contains an ASCII
   * character: the ASCII capitals, KELVIN SIGN (to `k`) and LATIN CAPITAL LETTER I WITH DOT
   * ABOVE (to `i` and a combining dot). Every other character is kept.
   */
  function LowerOf(c: char): (r: string)
    ensures |r| >= 1
    ensures forall i :: 0 <= i < |r| ==> !LowersToAscii(r[i])
    ensures !LowersToAscii(c) ==> r == [c]
    ensures 'A' <= c <= 'Z' ==> |r| == 1 && 'a' <= r[0] <= 'z' && r[0] as int - 'a' as int == c as int - 'A' as int
    ensures c == '\U{212A}' ==> r == "k"
    ensures c == '\U{0130}' ==> r == "i\U{0307}"
  {
    if 'A' <= c <= 'Z' then [(c as int + 32) as char]
    else if c == '\U{212A}' then "k"
    else if c == '\U{0130}' then "i\U{0307}"
    else [c]
  }

  /** Python's `str.lower()`, character by character. */
  function Lower(s: string): (r: string)
    ensures forall i :: 0 <= i < |r| ==> !LowersToAscii(r[i])
  {
    if s == [] then [] else LowerOf(s[0]) + Lower(s[1..])
  }

  /** Lower-casing distributes over concatenation. */
  lemma {:induction false} LowerAppend(a: string, b: string)
    ensures Lower(a + b) == Lower(a) + Lower(b)
  {
    if a == [] {
      assert a + b == b;
    } else {
      calc {
        Lower(a + b);
        == { assert (a + b)[0] == a[0] && (a + b)[1..] == a[1..] + b; }
        LowerOf(a[0]) + Lower(a[1..] + b);
        == { LowerAppend(a[1..], b); }
        LowerOf(a[0]) + (Lower(a[1..]) + Lower(b));
        ==
        Lower(a) + Lower(b);
      }
    }
  }

  /** The ASCII case of a character: `A`..`Z` become `a`..`z`, everything else is kept. */
  function AsciiLower(c: char): char {
    if 'A' <= c <= 'Z' then (c as int + 32) as char else c
  }

  /**
   * Without KELVIN SIGN and dotted capital I, lower-casing keeps the length and maps each
   * character on its own: capitals to their small letters, everything else to itself.
   */
  lemma {:induction false} LowerAscii(s: string)
    requires forall i :: 0 <= i < |s| ==> s[i] != '\U{212A}' && s[i] != '\U{0130}'
    ensures |Lower(s)| == |s|
    ensures forall i :: 0 <= i < |s| ==> Lower(s)[i] == AsciiLower(s[i])
  {
    if s != [] {
      LowerAscii(s[1..]);
      var r := Lower(s);
      assert r == LowerOf(s[0]) + Lower(s[1..]);
      forall i | 0 <= i < |s|
        ensures r[i] == AsciiLower(s[i])
      {
        if i > 0 {
          assert r[i] == Lower(s[1..])[i - 1] && s[i] == s[1..][i - 1];
        }
      }
    }
  }

  /** Lower-casing a string without capitals changes nothing. */
  lemma {:induction false} LowerKeeps(s: string)
    requires forall i :: 0 <= i < |s| ==> !LowersToAscii(s[i])
    ensures Lower(s) == s
  {
    if s != [] {
      LowerKeeps(s[1..]);
      assert [s[0]] + s[1..] == s;
    }
  }

  /** Python's `s.replace(from, to)` for one-character strings. */
  function ReplaceChar(s: string, from: char, to: char): (r: string)
    ensures |r| == |s|
    ensures forall i :: 0 <= i < |s| ==> r[i] == if s[i] == from then to else s[i]
  {
    seq(|s|, i requires 0 <= i < |s| => if s[i] == from then to else s[i])
  }

  /** Replacing a character that occurs once, between two parts free of it, puts `to` there. */
  lemma ReplaceCharBetween(a: string, b: string, from: char, to: char)
    requires from !in a && from !in b
    ensures ReplaceChar(a + [from] + b, from, to) == a + [to] + b
  {
    var s, r, want := a + [from] + b, ReplaceChar(a + [from] + b, from, to), a + [to] + b;
    forall i | 0 <= i < |s|
      ensures r[i] == want[i]
    {
      if i < |a| {
        assert s[i] == a[i] && want[i] == a[i];
      } else if i > |a| {
        assert s[i] == b[i - |a| - 1] && want[i] == b[i - |a| - 1];
      }
    }
  }

  /** Python's `s.replace(pat, rep)`: leftmost, non-overlapping occurrences, scanned once. */
  function ReplaceAll(s: string, pat: string, rep: string): string
    requires pat != []
    decreases |s|
  {
    if s == [] then []
    else if StartsWith(s, pat) then rep + ReplaceAll(s[|pat|..], pat, rep)
    else [s[0]] + ReplaceAll(s[1..], pat, rep)
  }

  /** A string in which the pattern's first character never occurs is left as it is. */
  lemma {:induction false} ReplaceAllAbsent(s: string, pat: string, rep: string)
    requires pat != [] && pat[0] !in s
    ensures ReplaceAll(s, pat, rep) == s
  {
    if s != [] {
      assert !StartsWith(s, pat);
      ReplaceAllAbsent(s[1..], pat, rep);
    }
  }

  /** An occurrence at the front is replaced and the scan continues after it. */
  lemma ReplaceAllFront(pat: string, rest: string, rep: string)
    requires pat != []
    ensures ReplaceAll(pat + rest, pat, rep) == rep + ReplaceAll(rest, pat, rep)
  {
    assert (pat + rest)[..|pat|] == pat;
    assert (pat + rest)[|pat|..] == rest;
  }

  /** Python's `s.split(sep)` for a one-character separator. */
  function Split(s: string, sep: char): (parts: seq<string>)
    ensures |parts| >= 1
    ensures forall k :: 0 <= k < |parts| ==> sep !in parts[k]
  {
    if s == [] then [[]]
    else
      var rest := Split(s[1..], sep);
      if s[0] == sep then [[]] + rest else [[s[0]] + rest[0]] + rest[1..]
  }

  /** Python's `sep.join(parts)`: the inverse of `Split`. */
  function Join(parts: seq<string>, sep: char): string
    requires |parts| >= 1
  {
    if |parts| == 1 then parts[0] else parts[0] + [sep] + Join(parts[1..], sep)
  }

  lemma {:induction false} SplitJoin(s: string, sep: char)
    ensures Join(Split(s, sep), sep) == s
  {
    if s != [] {
      SplitJoin(s[1..], sep);
      var rest := Split(s[1..], sep);
      if s[0] != sep && |rest| > 1 {
        assert ([[s[0]] + rest[0]] + rest[1..])[1..] == rest[1..];
      }
    }
  }

  /** A piece without the separator splits into itself followed by the split of what comes after. */
  lemma {:induction false} SplitAt(a: string, sep: char, b: string)
    requires sep !in a
    ensures Split(a + [sep] + b, sep) == [a] + Split(b, sep)
  {
    if a != [] {
      assert (a + [sep] + b)[1..] == a[1..] + [sep] + b;
      SplitAt(a[1..], sep, b);
      assert [a[0]] + a[1..] == a;
    }
  }

  lemma {:induction false} SplitWhole(a: string, sep: char)
    requires sep !in a
    ensures Split(a, sep) == [a]
  {
    if a != [] {
      SplitWhole(a[1..], sep);
      assert [a[0]] + a[1..] == a;
    }
  }

  // ---------------------------------------------------------------- decimal digits

  predicate IsDigit(c: char) { '0' <= c <= '9' }

  /** A non-empty run of ASCII digits. */
  predicate IsDigits(s: string) {
    |s| > 0 && forall i :: 0 <= i < |s| ==> IsDigit(s[i])
  }

  function DigitChar(d: nat): (c: char)
    requires d < 10
    ensures IsDigit(c)
  {
    ('0' as int + d) as char
  }

  function DigitValue(c: char): nat
    requires IsDigit(c)
  {
    c as int - '0' as int
  }

  /** Python's `str(n)` for n >= 0. */
  function NatToDecimal(n: nat): (s: string)
    ensures IsDigits(s)
    ensures s[0] == '0' ==> n == 0 && s == "0"
  {
    if n < 10 then [DigitChar(n)] else NatToDecimal(n / 10) + [DigitChar(n % 10)]
  }

  /** The value of a string of ASCII digits, read in base ten. */
  function DecimalValue(s: string): nat
    requires forall i :: 0 <= i < |s| ==> IsDigit(s[i])
  {
    if s == [] then 0 else DecimalValue(s[..|s| - 1]) * 10 + DigitValue(s[|s| - 1])
  }

  lemma {:induction false} DecimalRoundTrip(n: nat)
    ensures DecimalValue(NatToDecimal(n)) == n
  {
    if n >= 10 {
      DecimalRoundTrip(n / 10);
      var s := NatToDecimal(n);
      assert s[..|s| - 1] == NatToDecimal(n / 10);
    }
  }

  /** Python's `str(i)` for any integer. */
  function IntToDecimal(i: int): (s: string)
    ensures i >= 0 ==> s == NatToDecimal(i)
    ensures i < 0 ==> s == "-" + NatToDecimal(-i)
  {
    if i < 0 then "-" + NatToDecimal(-i) else NatToDecimal(i)
  }

  /** Python's `int(s)` on a string: surrounding spaces, an optional sign, ASCII digits. */
  function ParseInt(s: string): Option<int> {
    var t := Strip(s);
    if t != [] && (t[0] == '+' || t[0] == '-') then
      if IsDigits(t[1..]) then
        var v: int := DecimalValue(t[1..]);
        Some(if t[0] == '-' then -v else v)
      else None
    else if IsDigits(t) then Some(DecimalValue(t))
    else None
  }

  /** `int(s)` of a run of ASCII digits, leading zeros included. */
  lemma ParseIntOfDigits(s: string)
    requires IsDigits(s)
    ensures ParseInt(s) == Some(DecimalValue(s))
  {
    assert IsDigit(s[0]) && IsDigit(s[|s| - 1]);
    TrimKeeps(s, IsSpace);
    assert Strip(s) == s;
    assert !(s[0] == '+' || s[0] == '-');
  }

  lemma ParseIntOfDecimal(n: nat)
    ensures ParseInt(NatToDecimal(n)) == Some(n)
  {
    var s := NatToDecimal(n);
    TrimKeeps(s, IsSpace);
    DecimalRoundTrip(n);
  }

  /** A decimal number has no '/'. */
  lemma NoSlashInDecimal(i: int)
    ensures '/' !in IntToDecimal(i)
  {
    var d := IntToDecimal(i);
    assert forall j :: 0 <= j < |d| ==> d[j] == '-' || IsDigit(d[j]);
  }

  /** `int(str(i)) == i`. */
  lemma ParseIntOfInt(i: int)
    ensures ParseInt(IntToDecimal(i)) == Some(i)
  {
    if i >= 0 {
      ParseIntOfDecimal(i);
    } else {
      var s := IntToDecimal(i);
      var d := NatToDecimal(-i);
      assert s[0] == '-' && s[1..] == d;
      assert IsDigit(d[|d| - 1]) && s[|s| - 1] == d[|d| - 1];
      TrimKeeps(s, IsSpace);
      assert Strip(s) == s;
      DecimalRoundTrip(-i);
    }
  }

  function Zeros(k: nat): (z: string)
    ensures |z| == k && forall i :: 0 <= i < k ==> z[i] == '0'
  {
    seq(k, _ => '0')
  }

  /** Python's `f"{n:0{width}d}"` for n >= 0: the decimal digits, left-padded with zeros. */
  function ZeroPad(n: nat, width: nat): (s: string)
    ensures IsDigits(s)
    ensures |s| == if |NatToDecimal(n)| < width then width else |NatToDecimal(n)|
  {
    var d := NatToDecimal(n);
    if |d| < width then Zeros(width - |d|) + d else d
  }

  lemma {:induction false} LeadingZerosValue(k: nat, d: string)
    requires forall i :: 0 <= i < |d| ==> IsDigit(d[i])
    ensures DecimalValue(Zeros(k) + d) == DecimalValue(d)
    decreases k, |d|
  {
    if d == [] {
      if k > 0 {
        assert Zeros(k) + d == Zeros(k - 1) + "0";
        LeadingZerosValue(k - 1, "0");
        LeadingZerosValue(k - 1, []);
        assert Zeros(k - 1) + [] == Zeros(k - 1);
      }
    } else {
      var last := d[|d| - 1];
      assert (Zeros(k) + d)[..|Zeros(k) + d| - 1] == Zeros(k) + d[..|d| - 1];
      LeadingZerosValue(k, d[..|d| - 1]);
    }
  }

  /** A padded number reads back as the number, so distinct numbers give distinct padded strings. */
  lemma ZeroPadValue(n: nat, width: nat)
    ensures DecimalValue(ZeroPad(n, width)) == n
  {
    var d := NatToDecimal(n);
    DecimalRoundTrip(n);
    if |d| < width {
      LeadingZerosValue(width - |d|, d);
    }
  }

  lemma ZeroPadInjective(m: nat, n: nat, width: nat)
    requires ZeroPad(m, width) == ZeroPad(n, width)
    ensures m == n
  {
    ZeroPadValue(m, width);
    ZeroPadValue(n, width);
  }

  function Pow10(k: nat): (p: nat)
    ensures p >= 1
  {
    if k == 0 then 1 else 10 * Pow10(k - 1)
  }

  /** A number below 10^k has at most k digits, so padding it to width k gives exactly k characters. */
  lemma {:induction false} DecimalLength(n: nat, k: nat)
    requires k >= 1 && n < Pow10(k)
    ensures |NatToDecimal(n)| <= k
  {
    if n >= 10 {
      assert k >= 2;
      DecimalLength(n / 10, k - 1);
    }
  }
}
