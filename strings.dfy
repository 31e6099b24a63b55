/**
 * The fragments of Python's `str` behaviour the scripts rely on: whitespace
 * stripping, splitting and joining, `replace`, case mapping, digits and `int()`.
 * Whitespace is Python's `str.isspace` set (which is also what `\s` and
 * `str.split()` use); digits are ASCII; case mapping covers ASCII and Latin-1.
 */
module Strings {

  import opened Wrappers

  // ---------------------------------------------------------------------------
  // Character classes
  // ---------------------------------------------------------------------------

  /** Python's `str.isspace()` for one character. */
  predicate IsSpace(c: char) {
    var n := c as int;
    (9 <= n <= 13) || (28 <= n <= 32) || n == 0x85 || n == 0xA0 || n == 0x1680
    || (0x2000 <= n <= 0x200A) || n == 0x2028 || n == 0x2029 || n == 0x202F
    || n == 0x205F || n == 0x3000
  }

  predicate IsDigit(c: char) { '0' <= c <= '9' }

  predicate AllDigits(s: string) { forall i :: 0 <= i < |s| ==> IsDigit(s[i]) }

  predicate IsAsciiUpper(c: char) { 'A' <= c <= 'Z' }
  predicate IsAsciiLower(c: char) { 'a' <= c <= 'z' }

  /** Upper-case letters: ASCII and Latin-1 (À-Þ without ×). */
  predicate IsUpperChar(c: char) {
    IsAsciiUpper(c) || (0xC0 <= c as int <= 0xDE && c as int != 0xD7)
  }

  /** Lower-case letters: ASCII and Latin-1 (ß-ÿ without ÷), plus ª µ º. */
  predicate IsLowerChar(c: char) {
    IsAsciiLower(c) || (0xDF <= c as int <= 0xFF && c as int != 0xF7)
    || c as int == 0xAA || c as int == 0xB5 || c as int == 0xBA
  }

  predicate IsCased(c: char) { IsUpperChar(c) || IsLowerChar(c) }

  /** Python's `str.isalnum()` for one character, over ASCII and Latin-1. */
  predicate IsAlnum(c: char) {
    IsDigit(c) || IsCased(c)
    || c as int == 0xB2 || c as int == 0xB3 || c as int == 0xB9
    || c as int == 0xBC || c as int == 0xBD || c as int == 0xBE
  }

  function ToLowerChar(c: char): (r: char)
    ensures IsUpperChar(c) ==> IsLowerChar(r)
    ensures !IsUpperChar(c) ==> r == c
  {
    if IsUpperChar(c) then (c as int + 32) as char else c
  }

  /** Upper-casing; ß, ÿ, µ and the feminine/masculine ordinals keep their form here. */
  function ToUpperChar(c: char): (r: char)
    ensures !IsLowerChar(c) ==> r == c
  {
    if IsAsciiLower(c) || (0xE0 <= c as int <= 0xFE && c as int != 0xF7)
    then (c as int - 32) as char
    else c
  }

  function Lower(s: string): (r: string)
    ensures |r| == |s|
    ensures forall i :: 0 <= i < |s| ==> r[i] == ToLowerChar(s[i])
  {
    seq(|s|, i requires 0 <= i < |s| => ToLowerChar(s[i]))
  }

  function Upper(s: string): (r: string)
    ensures |r| == |s|
    ensures forall i :: 0 <= i < |s| ==> r[i] == ToUpperChar(s[i])
  {
    seq(|s|, i requires 0 <= i < |s| => ToUpperChar(s[i]))
  }

  /** Python's `str.isupper()`: some cased character, and no lower-case one. */
  predicate IsUpperStr(s: string) {
    (exists i :: 0 <= i < |s| && IsCased(s[i]))
    && (forall i :: 0 <= i < |s| ==> !IsLowerChar(s[i]))
  }

  /** Python's `str.title()`: a character after a cased one is lowered, any other is raised. */
  function Title(s: string): (r: string)
    ensures |r| == |s|
  {
    TitleFrom(s, false)
  }

  function TitleFrom(s: string, prevCased: bool): (r: string)
    ensures |r| == |s|
    decreases |s|
  {
    if s == [] then []
    else
      [if prevCased then ToLowerChar(s[0]) else ToUpperChar(s[0])]
      + TitleFrom(s[1..], IsCased(s[0]))
  }

  // ---------------------------------------------------------------------------
  // Prefixes, suffixes, search
  // ---------------------------------------------------------------------------

  predicate StartsWith(s: string, p: string) { |p| <= |s| && s[..|p|] == p }

  predicate EndsWith(s: string, p: string) { |p| <= |s| && s[|s| - |p|..] == p }

  /** Python's `p in s` for strings. */
  predicate Contains(s: string, p: string) {
    exists i :: 0 <= i <= |s| && OccursAt(s, p, i)
  }

  /** Index of the first occurrence of `c`, or |s|. */
  function FirstIndexOf(s: string, c: char): (i: nat)
    ensures i <= |s|
    ensures i < |s| ==> s[i] == c
    ensures forall k :: 0 <= k < i ==> s[k] != c
  {
    if s == [] then 0
    else if s[0] == c then 0
    else 1 + FirstIndexOf(s[1..], c)
  }

  /** Index of the last occurrence of `c`, or -1: Python's `str.rfind`. */
  function LastIndexOf(s: string, c: char): (i: int)
    ensures -1 <= i < |s|
    ensures i >= 0 ==> s[i] == c
    ensures forall k :: i < k < |s| ==> s[k] != c
  {
    if s == [] then -1
    else if s[|s| - 1] == c then |s| - 1
    else LastIndexOf(s[..|s| - 1], c)
  }

  /** `p` occurs in `s` at index `k`. */
  predicate OccursAt(s: string, p: string, k: int) {
    0 <= k && k + |p| <= |s| && s[k..k + |p|] == p
  }

  lemma OccursShift(s: string, p: string, k: int)
    requires 1 <= k < |s|
    ensures OccursAt(s, p, k) <==> OccursAt(s[1..], p, k - 1)
  {
    if k + |p| <= |s| {
      assert s[k..k + |p|] == s[1..][k - 1..k - 1 + |p|];
    }
  }

  /** Index of the first occurrence of a non-empty pattern, or -1: Python's `str.find`. */
  function Find(s: string, p: string): (r: int)
    requires |p| > 0
    ensures r == -1 || 0 <= r <= |s| - |p|
    ensures r >= 0 ==> OccursAt(s, p, r)
    ensures forall k :: 0 <= k < |s| && (r < 0 || k < r) ==> !OccursAt(s, p, k)
    decreases |s|
  {
    if |s| < |p| then -1
    else if s[..|p|] == p then 0
    else
      var r := Find(s[1..], p);
      assert forall k :: 1 <= k < |s| ==> (OccursAt(s, p, k) <==> OccursAt(s[1..], p, k - 1)) by {
        forall k | 1 <= k < |s| ensures OccursAt(s, p, k) <==> OccursAt(s[1..], p, k - 1) {
          OccursShift(s, p, k);
        }
      }
      if r < 0 then -1 else r + 1
  }

  /** `s.split(sep)[0]` for a non-empty separator. */
  function BeforeFirst(s: string, sep: string): (r: string)
    requires |sep| > 0
    ensures |r| <= |s|
    ensures StartsWith(s, r)
  {
    var i := Find(s, sep);
    if i < 0 then s else s[..i]
  }

  // ---------------------------------------------------------------------------
  // Stripping
  // ---------------------------------------------------------------------------

  /** Position `i` of `s` holds a whitespace character. */
  predicate SpaceAt(s: string, i: int) {
    0 <= i < |s| && IsSpace(s[i])
  }

  /** Where the run of whitespace starting at `k` ends. */
  function SpaceRunEnd(s: string, k: nat): (j: nat)
    requires k <= |s|
    ensures k <= j <= |s|
    ensures j == |s| || !SpaceAt(s, j)
    decreases |s| - k
  {
    if k == |s| || !SpaceAt(s, k) then k else SpaceRunEnd(s, k + 1)
  }

  /** Everything from `k` up to the end of the run is whitespace. */
  lemma {:induction false} SpaceRunEndSpaces(s: string, k: nat)
    requires k <= |s|
    ensures forall i :: k <= i < SpaceRunEnd(s, k) ==> SpaceAt(s, i)
    decreases |s| - k
  {
    if k < |s| && SpaceAt(s, k) {
      SpaceRunEndSpaces(s, k + 1);
    }
  }

  /** The run ends at the first non-space position from `k` on, and nowhere else. */
  lemma {:induction false} SpaceRunEndIs(s: string, k: nat, j: nat)
    requires k <= j <= |s| && (j == |s| || !SpaceAt(s, j))
    requires forall i :: k <= i < j ==> SpaceAt(s, i)
    ensures SpaceRunEnd(s, k) == j
    decreases j - k
  {
    if k < j {
      SpaceRunEndIs(s, k + 1, j);
    }
  }

  /** Where the run of whitespace ending just before `k` starts. */
  function SpaceRunStart(s: string, k: nat): (j: nat)
    requires k <= |s|
    ensures j <= k
    ensures j == 0 || !SpaceAt(s, j - 1)
  {
    if k == 0 || !SpaceAt(s, k - 1) then k else SpaceRunStart(s, k - 1)
  }

  /** Everything from the start of the run up to `k` is whitespace. */
  lemma {:induction false} SpaceRunStartSpaces(s: string, k: nat)
    requires k <= |s|
    ensures forall i :: SpaceRunStart(s, k) <= i < k ==> SpaceAt(s, i)
  {
    if k > 0 && SpaceAt(s, k - 1) {
      SpaceRunStartSpaces(s, k - 1);
    }
  }

  /** The run starts just after the last non-space position before `k`, and nowhere else. */
  lemma {:induction false} SpaceRunStartIs(s: string, k: nat, j: nat)
    requires j <= k <= |s| && (j == 0 || !SpaceAt(s, j - 1))
    requires forall i :: j <= i < k ==> SpaceAt(s, i)
    ensures SpaceRunStart(s, k) == j
    decreases k - j
  {
    if j < k {
      SpaceRunStartIs(s, k - 1, j);
    }
  }

  /** Python's `str.lstrip()`. */
  function LStrip(s: string): (r: string)
    ensures |r| <= |s|
    ensures r == [] || !SpaceAt(r, 0)
  {
    s[SpaceRunEnd(s, 0)..]
  }

  /** Python's `str.rstrip()`. */
  function RStrip(s: string): (r: string)
    ensures |r| <= |s|
    ensures r == [] || !SpaceAt(r, |r| - 1)
  {
    s[..SpaceRunStart(s, |s|)]
  }

  /** Python's `str.strip()`: from the first to the last non-space character. */
  function Strip(s: string): (r: string)
    ensures |r| <= |s|
    ensures r == [] || (!SpaceAt(r, 0) && !SpaceAt(r, |r| - 1))
  {
    var a := SpaceRunEnd(s, 0);
    var b := SpaceRunStart(s, |s|);
    if a < b then s[a..b] else []
  }

  /** `strip()` by the ends of its two runs of whitespace. */
  lemma StripOfSpans(s: string, a: nat, b: nat)
    requires a < b <= |s| && SpaceRunEnd(s, 0) == a && SpaceRunStart(s, |s|) == b
    ensures Strip(s) == s[a..b]
  {
  }

  /** Python's `str.strip(chars)`. */
  function StripChars(s: string, chars: set<char>): (r: string)
    ensures |r| <= |s|
    ensures r == [] || (r[0] !in chars && r[|r| - 1] !in chars)
  {
    LStripChars(RStripChars(s, chars), chars)
  }

  function LStripChars(s: string, chars: set<char>): (r: string)
    ensures |r| <= |s| && r == s[|s| - |r|..]
    ensures r == [] || r[0] !in chars
  {
    if s == [] then s
    else if s[0] in chars then LStripChars(s[1..], chars)
    else s
  }

  function RStripChars(s: string, chars: set<char>): (r: string)
    ensures |r| <= |s| && r == s[..|r|]
    ensures r == [] || r[|r| - 1] !in chars
  {
    if s == [] then s
    else if s[|s| - 1] in chars then RStripChars(s[..|s| - 1], chars)
    else s
  }

  lemma StripCharsNoop(s: string, chars: set<char>)
    requires forall i :: 0 <= i < |s| ==> s[i] !in chars
    ensures StripChars(s, chars) == s
  {
  }

  /** `strip()` keeps exactly the span from the first to the last non-space character. */
  lemma StripIs(s: string, a: nat, b: nat)
    requires a < b <= |s| && !SpaceAt(s, a) && !SpaceAt(s, b - 1)
    requires forall i :: 0 <= i < a ==> SpaceAt(s, i)
    requires forall i :: b <= i < |s| ==> SpaceAt(s, i)
    ensures Strip(s) == s[a..b]
  {
    SpaceRunEndIs(s, 0, a);
    SpaceRunStartIs(s, |s|, b);
  }

  /** `strip()` is the same as `lstrip()` after `rstrip()`. */
  lemma StripIsBothSides(s: string)
    ensures Strip(s) == LStrip(RStrip(s))
  {
    var b := SpaceRunStart(s, |s|);
    var r := s[..b];
    var a := SpaceRunEnd(s, 0);
    SpaceRunEndSpaces(s, 0);
    if a < b {
      assert forall i :: 0 <= i < a ==> SpaceAt(r, i) by {
        forall i | 0 <= i < a ensures SpaceAt(r, i) {
          assert r[i] == s[i] && SpaceAt(s, i);
        }
      }
      assert r[a] == s[a];
      SpaceRunEndIs(r, 0, a);
    } else {
      SpaceRunEndIs(r, 0, b);
    }
  }

  // ---------------------------------------------------------------------------
  // Order
  // ---------------------------------------------------------------------------

  /** Python's string order: lexicographic by code point. */
  predicate LexLe(a: string, b: string) {
    a == [] || (b != [] && (a[0] < b[0] || (a[0] == b[0] && LexLe(a[1..], b[1..]))))
  }

  lemma {:induction false} LexLeTotal(a: string, b: string)
    ensures LexLe(a, b) || LexLe(b, a)
  {
    if a != [] && b != [] && a[0] == b[0] {
      LexLeTotal(a[1..], b[1..]);
    }
  }

  lemma {:induction false} LexLeTrans(a: string, b: string, c: string)
    requires LexLe(a, b) && LexLe(b, c)
    ensures LexLe(a, c)
  {
    if a != [] && b != [] && c != [] && a[0] == b[0] == c[0] {
      LexLeTrans(a[1..], b[1..], c[1..]);
    }
  }

  /** `m` is the greatest string of `s`. */
  predicate IsLexMax(m: string, s: set<string>) {
    m in s && forall x :: x in s ==> LexLe(x, m)
  }

  /** A non-empty finite set of strings has a greatest element, the first of `sorted(..., reverse=True)`. */
  lemma {:induction false} LexMaxExists(s: set<string>)
    requires s != {}
    ensures exists m :: IsLexMax(m, s)
    decreases |s|
  {
    var y :| y in s;
    LexLeRefl(y);
    if s == {y} {
      assert IsLexMax(y, s);
    } else {
      LexMaxExists(s - {y});
      var m :| IsLexMax(m, s - {y});
      LexLeTotal(y, m);
      if LexLe(m, y) {
        forall x | x in s - {y} ensures LexLe(x, y) {
          LexLeTrans(x, m, y);
        }
        assert IsLexMax(y, s);
      } else {
        assert IsLexMax(m, s);
      }
    }
  }

  lemma {:induction false} LexLeRefl(a: string)
    ensures LexLe(a, a)
  {
    if a != [] { LexLeRefl(a[1..]); }
  }

  // ---------------------------------------------------------------------------
  // Splitting and joining
  // ---------------------------------------------------------------------------

  /** Python's `s.split(c)` for a one-character separator. */
  function Split(s: string, c: char): (r: seq<string>)
    ensures |r| >= 1
    ensures forall k :: 0 <= k < |r| ==> c !in r[k]
    decreases |s|
  {
    var i := FirstIndexOf(s, c);
    if i == |s| then [s] else [s[..i]] + Split(s[i + 1..], c)
  }

  lemma SplitNoSeparator(s: string, c: char)
    requires c !in s
    ensures Split(s, c) == [s]
  {
  }

  /**
   * Regrouping of a concatenation.  Stated once so that proofs about long
   * generated strings do not have to rediscover it element by element.
   */
  lemma AppendAssoc<T>(a: seq<T>, b: seq<T>, c: seq<T>)
    ensures (a + b) + c == a + (b + c)
  {
  }

  /** The pieces of `ls` written one after another. */
  function Flatten<T>(ls: seq<seq<T>>): (r: seq<T>)
    ensures ls != [] ==> |r| >= |ls[0]|
  {
    if ls == [] then [] else ls[0] + Flatten(ls[1..])
  }

  lemma {:induction false} FlattenAppend<T>(ls: seq<seq<T>>, x: seq<T>)
    ensures Flatten(ls + [x]) == Flatten(ls) + x
  {
    if ls == [] {
      assert [x][1..] == [];
    } else {
      assert (ls + [x])[1..] == ls[1..] + [x];
      FlattenAppend(ls[1..], x);
      AppendAssoc(ls[0], Flatten(ls[1..]), x);
    }
  }

  /** Copies of the pieces `ls`, one after another from `p` to the end of `s`. */
  predicate PiecesAt<T(==)>(s: seq<T>, p: nat, ls: seq<seq<T>>)
    decreases |ls|
  {
    if ls == [] then p == |s|
    else p + |ls[0]| <= |s| && s[p..p + |ls[0]|] == ls[0] && PiecesAt(s, p + |ls[0]|, ls[1..])
  }

  /** A suffix that is the flattening of `ls` holds the pieces of `ls` in order. */
  lemma {:induction false} FlattenAt<T>(s: seq<T>, p: nat, ls: seq<seq<T>>)
    requires p <= |s| && s[p..] == Flatten(ls)
    ensures PiecesAt(s, p, ls)
    decreases |ls|
  {
    if ls != [] {
      SplitSlice(s, p, ls[0], Flatten(ls[1..]));
      FlattenAt(s, p + |ls[0]|, ls[1..]);
    }
  }

  /** A suffix that is `a + b` splits into a copy of `a` followed by a suffix `b`. */
  lemma SplitSlice<T>(s: seq<T>, p: nat, a: seq<T>, b: seq<T>)
    requires p + |a| + |b| == |s| && s[p..] == a + b
    ensures s[p..p + |a|] == a && s[p + |a|..] == b
  {
    assert s[p..p + |a|] == s[p..][..|a|];
    assert s[p + |a|..] == s[p..][|a|..];
  }

  /** A sequence is its part before `q`, its element at `q` and its part after. */
  lemma SplitAt<T>(s: seq<T>, q: nat)
    requires q < |s|
    ensures s == s[..q] + [s[q]] + s[q + 1..]
    ensures s[..q] + [s[q]] == s[..q + 1]
  {
  }

  /** A slice of a slice is a slice of the whole. */
  lemma SliceOfSlice<T>(s: seq<T>, p: nat, n: nat, a: nat, b: nat)
    requires p + n <= |s| && a <= b <= n
    ensures s[p..p + n][a..b] == s[p + a..p + b]
  {
    var u := s[p..p + n];
    var v := s[p + a..p + b];
    forall i | 0 <= i < b - a
      ensures u[a..b][i] == v[i]
    {
      assert u[a..b][i] == u[a + i] == s[p + a + i];
    }
  }

  /** `sep.join(parts)`. */
  function Join(parts: seq<string>, sep: string): string {
    if parts == [] then []
    else if |parts| == 1 then parts[0]
    else parts[0] + sep + Join(parts[1..], sep)
  }

  lemma JoinAppend(parts: seq<string>, x: string, sep: string)
    ensures Join(parts + [x], sep) == if parts == [] then x else Join(parts, sep) + sep + x
  {
    if |parts| > 1 {
      assert (parts + [x])[1..] == parts[1..] + [x];
      JoinAppend(parts[1..], x, sep);
    } else if |parts| == 1 {
      assert (parts + [x])[1..] == [x];
    }
  }

  /** `len(s.split())`: the number of maximal runs of non-whitespace characters. */
  function WordCount(s: string): nat {
    WordCountAfter(s, true)
  }

  function WordCountAfter(s: string, prevSpace: bool): nat
    decreases |s|
  {
    if s == [] then 0
    else
      (if prevSpace && !IsSpace(s[0]) then 1 else 0) + WordCountAfter(s[1..], IsSpace(s[0]))
  }

  // ---------------------------------------------------------------------------
  // Replacement
  // ---------------------------------------------------------------------------

  /** `s.replace(c, r)` for a one-character `c`. */
  function ReplaceChar(s: string, c: char, r: string): (t: string)
    ensures c !in r ==> c !in t
    ensures |t| >= |s| - (if |r| == 0 then |s| else 0)
    ensures |r| >= 1 ==> |t| >= |s|
    ensures c !in s ==> t == s
  {
    if s == [] then []
    else (if s[0] == c then r else [s[0]]) + ReplaceChar(s[1..], c, r)
  }

  lemma ReplaceCharKeeps(s: string, c: char, r: string, d: char)
    requires d != c && d !in r
    ensures d in ReplaceChar(s, c, r) <==> d in s
  {
    if s != [] { ReplaceCharKeeps(s[1..], c, r, d); }
  }

  lemma ReplaceCharSingle(c: char, d: char, r: string)
    ensures ReplaceChar([c], d, r) == if c == d then r else [c]
  {
    assert [c][1..] == [];
  }

  lemma {:induction false} ReplaceCharAppend(a: string, b: string, c: char, r: string)
    ensures ReplaceChar(a + b, c, r) == ReplaceChar(a, c, r) + ReplaceChar(b, c, r)
  {
    if a != [] {
      var h := if a[0] == c then r else [a[0]];
      assert (a + b)[1..] == a[1..] + b && (a + b)[0] == a[0];
      ReplaceCharAppend(a[1..], b, c, r);
      AppendAssoc(h, ReplaceChar(a[1..], c, r), ReplaceChar(b, c, r));
    } else {
      assert a + b == b;
    }
  }

  /** `s.replace(old, new)` for a non-empty `old`: left to right, non-overlapping. */
  function Replace(s: string, pat: string, rep: string): string
    requires |pat| > 0
    decreases |s|
  {
    if |s| < |pat| then s
    else if s[..|pat|] == pat then rep + Replace(s[|pat|..], pat, rep)
    else [s[0]] + Replace(s[1..], pat, rep)
  }

  // ---------------------------------------------------------------------------
  // Numbers
  // ---------------------------------------------------------------------------

  function DigitChar(d: nat): (c: char)
    requires d < 10
    ensures IsDigit(c)
  {
    ('0' as int + d) as char
  }

  function DigitValue(c: char): (d: nat)
    requires IsDigit(c)
    ensures d < 10
  {
    c as int - '0' as int
  }

  /** Decimal rendering of a natural number, without leading zeros: `str(n)`. */
  function NatToString(n: nat): (s: string)
    ensures |s| >= 1 && AllDigits(s)
  {
    if n < 10 then [DigitChar(n)] else NatToString(n / 10) + [DigitChar(n % 10)]
  }

  /** The value of a string of decimal digits ("" reads as 0). */
  function DigitsValue(s: string): nat
    requires AllDigits(s)
  {
    if s == [] then 0 else DigitsValue(s[..|s| - 1]) * 10 + DigitValue(s[|s| - 1])
  }

  lemma {:induction false} NatToStringValue(n: nat)
    ensures DigitsValue(NatToString(n)) == n
  {
    if n >= 10 {
      var s := NatToString(n);
      assert s[..|s| - 1] == NatToString(n / 10);
      NatToStringValue(n / 10);
    }
  }

  lemma NatToStringLength(n: nat)
    ensures n < 10 ==> |NatToString(n)| == 1
    ensures 10 <= n < 100 ==> |NatToString(n)| == 2
    ensures 100 <= n < 1000 ==> |NatToString(n)| == 3
    ensures 10 <= n ==> |NatToString(n)| >= 2
  {
    if n >= 10 { NatToStringLength(n / 10); }
  }

  lemma {:induction false} LeadingZeroValue(s: string)
    requires AllDigits(s)
    ensures AllDigits(['0'] + s) && DigitsValue(['0'] + s) == DigitsValue(s)
  {
    if s != [] {
      var t := ['0'] + s;
      assert t[..|t| - 1] == ['0'] + s[..|s| - 1];
      LeadingZeroValue(s[..|s| - 1]);
    }
  }

  /** `s` left-padded with '0' to at least `w` characters. */
  function ZeroPad(s: string, w: nat): (r: string)
    ensures |r| == if |s| >= w then |s| else w
    decreases w - |s|
  {
    if |s| >= w then s else ZeroPad(['0'] + s, w)
  }

  /** Python's `f"{n:0{w}d}"` for a natural number. */
  function Padded(n: nat, w: nat): (s: string)
    ensures AllDigits(s)
    ensures |s| >= w
  {
    var d := NatToString(n);
    var r := ZeroPad(d, w);
    ZeroPadValue(d, w);
    r
  }

  lemma {:induction false} ZeroPadValue(s: string, w: nat)
    requires AllDigits(s)
    ensures AllDigits(ZeroPad(s, w)) && DigitsValue(ZeroPad(s, w)) == DigitsValue(s)
    decreases w - |s|
  {
    if |s| < w {
      LeadingZeroValue(s);
      ZeroPadValue(['0'] + s, w);
    }
  }

  /** Padding never changes the value the digits stand for. */
  lemma PaddedValue(n: nat, w: nat)
    ensures DigitsValue(Padded(n, w)) == n
  {
    NatToStringValue(n);
    ZeroPadValue(NatToString(n), w);
  }

  lemma PaddedLength(n: nat, w: nat)
    requires 1 <= w <= 3
    ensures n < 10 ==> |Padded(n, w)| == w
    ensures w >= 2 && n < 100 ==> |Padded(n, w)| == w
    ensures w == 3 && n < 1000 ==> |Padded(n, w)| == 3
    ensures w == 2 && 100 <= n < 1000 ==> |Padded(n, w)| == 3
  {
    NatToStringLength(n);
  }

  /**
   * Python's `int(s)` on the decimal text this model reads: surrounding
   * whitespace, an optional sign and ASCII digits.  `int` also accepts `_`
   * between digits and non-ASCII decimal digits; those give `None` here.
   */
  function IntValue(s: string): Option<int>
  {
    var t := Strip(s);
    if t == [] then None
    else if (t[0] == '+' || t[0] == '-') && |t| >= 2 && AllDigits(t[1..]) then
      var v: int := DigitsValue(t[1..]);
      Some(if t[0] == '-' then -v else v)
    else if AllDigits(t) then Some(DigitsValue(t))
    else None
  }


  /** `int()` reads back any non-empty run of digits as its value. */
  lemma IntValueOfDigits(s: string)
    requires s != [] && AllDigits(s)
    ensures IntValue(s) == Some(DigitsValue(s) as int)
  {
    StripIs(s, 0, |s|);
    assert s[0..|s|] == s;
  }
}
