/**
 * `fix_hovedindex.py`: rewrite the folder links of `hovedindex.html` so that
 * they name the folders by their safe names.
 *
 * The substitution `re.sub(r'href="([^"/]+?)/folder_index\.html"', ...)` is
 * modelled by `Rewrite`: scanning from the left, a link at the current
 * position is replaced and the scan resumes after it, otherwise one
 * character is kept.  Because the folder group excludes `/` and `"`, its
 * lazy `+?` can only end at the first of those two characters, so the group
 * is exactly the run of characters up to the first stop character.
 */
module FixHovedindex {
  import opened Wrappers
  import opened Strings
  import RenameSafe

  // ---------------------------------------------------------------------------
  // `safe_name`: four chained `str.replace` calls
  // ---------------------------------------------------------------------------

  /** `safe_name` as written: space, then ø, then æ, then å. */
  function SafeName(name: string): string {
    ReplaceChar(ReplaceChar(ReplaceChar(ReplaceChar(name, ' ', "_"),
      '\U{00F8}', "o"), '\U{00E6}', "ae"), '\U{00E5}', "aa")
  }

  /** The characters `safe_name` replaces: only the lower-case letters and space. */
  predicate Mapped(c: char) {
    c == ' ' || c == '\U{00F8}' || c == '\U{00E6}' || c == '\U{00E5}'
  }

  /** What one character becomes under `safe_name`. */
  function MapChar(c: char): (r: string)
    ensures !Mapped(c) <==> r == [c]
    ensures 1 <= |r| <= 2
    ensures forall i :: 0 <= i < |r| ==> !Mapped(r[i])
    ensures Mapped(c) ==> '"' !in r && '/' !in r
  {
    if c == ' ' then "_"
    else if c == '\U{00F8}' then "o"
    else if c == '\U{00E6}' then "ae"
    else if c == '\U{00E5}' then "aa"
    else [c]
  }

  /** A name `safe_name` leaves as it is. */
  predicate Safe(s: string) {
    forall i :: 0 <= i < |s| ==> !Mapped(s[i])
  }

  /** The per-character reading of `safe_name`. */
  function MapEach(s: string): string {
    if s == [] then [] else MapChar(s[0]) + MapEach(s[1..])
  }

  lemma SafeNameAppend(a: string, b: string)
    ensures SafeName(a + b) == SafeName(a) + SafeName(b)
  {
    var s1, s2 := ReplaceChar(a, ' ', "_"), ReplaceChar(b, ' ', "_");
    ReplaceCharAppend(a, b, ' ', "_");
    var t1, t2 := ReplaceChar(s1, '\U{00F8}', "o"), ReplaceChar(s2, '\U{00F8}', "o");
    ReplaceCharAppend(s1, s2, '\U{00F8}', "o");
    var u1, u2 := ReplaceChar(t1, '\U{00E6}', "ae"), ReplaceChar(t2, '\U{00E6}', "ae");
    ReplaceCharAppend(t1, t2, '\U{00E6}', "ae");
    ReplaceCharAppend(u1, u2, '\U{00E5}', "aa");
  }

  lemma SafeNameSingle(c: char)
    ensures SafeName([c]) == MapChar(c)
  {
    ReplaceCharSingle(c, ' ', "_");
    if c == ' ' {
      assert SafeName([c]) == "_";
    } else {
      ReplaceCharSingle(c, '\U{00F8}', "o");
      if c != '\U{00F8}' {
        ReplaceCharSingle(c, '\U{00E6}', "ae");
        if c != '\U{00E6}' {
          ReplaceCharSingle(c, '\U{00E5}', "aa");
        }
      }
    }
  }

  /** The chained replacements act character by character. */
  lemma {:induction false} SafeNameIsMapEach(s: string)
    ensures SafeName(s) == MapEach(s)
  {
    if s != [] {
      assert s == [s[0]] + s[1..];
      SafeNameAppend([s[0]], s[1..]);
      SafeNameSingle(s[0]);
      SafeNameIsMapEach(s[1..]);
    }
  }

  /** The result holds no mapped character, no `"` and no `/` the name did not hold, and is never shorter. */
  lemma {:induction false} MapEachShape(s: string)
    ensures Safe(MapEach(s))
    ensures |MapEach(s)| >= |s|
    ensures ('"' in MapEach(s) <==> '"' in s) && ('/' in MapEach(s) <==> '/' in s)
  {
    if s != [] {
      MapEachShape(s[1..]);
      var h, t := MapChar(s[0]), MapEach(s[1..]);
      assert h + t == MapEach(s);
      forall i | 0 <= i < |h + t| ensures !Mapped((h + t)[i]) {
        if i >= |h| { assert (h + t)[i] == t[i - |h|]; }
      }
      assert s == [s[0]] + s[1..];
    }
  }

  /** `safe_name` leaves a name as it is exactly when no space, ø, æ or å occurs in it. */
  lemma {:induction false} SafeNameFixed(s: string)
    ensures SafeName(s) == s <==> Safe(s)
  {
    SafeNameIsMapEach(s);
    MapEachShape(s);
    if s != [] {
      SafeNameFixed(s[1..]);
      SafeNameIsMapEach(s[1..]);
      if Safe(s) {
        assert Safe(s[1..]) by {
          forall i | 0 <= i < |s[1..]| ensures !Mapped(s[1..][i]) {
            assert s[1..][i] == s[i + 1];
          }
        }
        assert s == [s[0]] + s[1..];
      }
    }
  }

  /** Applying `safe_name` twice changes nothing more. */
  lemma SafeNameIdempotent(s: string)
    ensures SafeName(SafeName(s)) == SafeName(s)
  {
    SafeNameIsMapEach(s);
    MapEachShape(s);
    SafeNameFixed(SafeName(s));
  }

  /** The upper-case Ø, Æ and Å pass through `safe_name` unchanged. */
  lemma SafeNameKeepsUpper()
    ensures forall c :: c in "\U{00D8}\U{00C6}\U{00C5}" ==> SafeName([c]) == [c]
  {
    forall c | c in "\U{00D8}\U{00C6}\U{00C5}" ensures SafeName([c]) == [c] {
      SafeNameSingle(c);
    }
  }

  // ---------------------------------------------------------------------------
  // The link pattern
  // ---------------------------------------------------------------------------

  const Href: string := "href=\""
  const TailRest: string := "folder_index.html\""
  const Tail: string := ['/'] + TailRest

  /** The characters the folder group `[^"/]` cannot hold. */
  predicate IsStop(c: char) { c == '"' || c == '/' }

  predicate NoStop(s: string) { forall i :: 0 <= i < |s| ==> !IsStop(s[i]) }

  /** Length of the longest prefix without a stop character. */
  function StopIndex(s: string): (r: nat)
    ensures r <= |s|
    ensures NoStop(s[..r])
    ensures r < |s| ==> IsStop(s[r])
  {
    if s == [] then 0
    else if IsStop(s[0]) then 0
    else
      assert s[..1 + StopIndex(s[1..])] == [s[0]] + s[1..][..StopIndex(s[1..])];
      1 + StopIndex(s[1..])
  }

  lemma {:induction false} StopIndexIs(s: string, p: nat)
    requires p <= |s| && NoStop(s[..p])
    requires p < |s| ==> IsStop(s[p])
    ensures StopIndex(s) == p
  {
    if p > 0 {
      assert s[0] == s[..p][0];
      assert s[1..][..p - 1] == s[..p][1..];
      StopIndexIs(s[1..], p - 1);
    }
  }

  /** The length of the folder name when a link starts at the beginning of `s`. */
  function LinkAt(s: string): (r: Option<nat>)
    ensures r.Some? ==>
      && StartsWith(s, Href) && 0 < r.value && |Href| + r.value <= |s|
      && NoStop(s[|Href|..|Href| + r.value]) && OccursAt(s, Tail, |Href| + r.value)
  {
    if StartsWith(s, Href) then
      var n := StopIndex(s[|Href|..]);
      if n > 0 && OccursAt(s, Tail, |Href| + n) then
        assert s[|Href|..|Href| + n] == s[|Href|..][..n];
        Some(n)
      else None
    else None
  }

  /**
   * `re.sub` of the link pattern, each folder name replaced by `safe(name)`.
   */
  function Rewrite(s: string, safe: string -> string): string
    decreases |s|
  {
    if s == [] then []
    else match LinkAt(s)
      case Some(n) =>
        Href + safe(s[|Href|..|Href| + n]) + Tail + Rewrite(s[|Href| + n + |Tail|..], safe)
      case None => [s[0]] + Rewrite(s[1..], safe)
  }

  // ---------------------------------------------------------------------------
  // What the rewrite changes
  // ---------------------------------------------------------------------------

  lemma {:induction false} StopIndexAfter(x: string, t: string)
    requires NoStop(x) && t != [] && IsStop(t[0])
    ensures StopIndex(x + t) == |x|
  {
    assert (x + t)[..|x|] == x;
    StopIndexIs(x + t, |x|);
  }

  /** A link is replaced by the link to the folder's new name. */
  lemma RewriteLink(x: string, rest: string, safe: string -> string)
    requires x != [] && NoStop(x)
    ensures Rewrite(Href + x + Tail + rest, safe) == Href + safe(x) + Tail + Rewrite(rest, safe)
  {
    var s := Href + x + Tail + rest;
    assert s[..|Href|] == Href;
    assert s[|Href|..] == x + (Tail + rest);
    StopIndexAfter(x, Tail + rest);
    assert s[|Href| + |x|..|Href| + |x| + |Tail|] == Tail;
    assert s[|Href|..|Href| + |x|] == x;
    assert s[|Href| + |x| + |Tail|..] == rest;
  }

  /** A text with no `"` holds no link and is left as it is. */
  lemma {:induction false} RewriteNoQuote(s: string, safe: string -> string)
    requires '"' !in s
    ensures Rewrite(s, safe) == s
  {
    if s != [] {
      assert !StartsWith(s, Href) by {
        if |s| >= |Href| { assert s[..|Href|][5] == s[5]; }
      }
      RewriteNoQuote(s[1..], safe);
      assert s == [s[0]] + s[1..];
    }
  }

  /** Only a text starting with `h` can start a link. */
  lemma RewriteNotH(c: char, t: string, safe: string -> string)
    requires c != 'h'
    ensures Rewrite([c] + t, safe) == [c] + Rewrite(t, safe)
  {
    var s := [c] + t;
    assert !StartsWith(s, Href) by {
      if |s| >= |Href| { assert s[..|Href|][0] == c; }
    }
    assert s[1..] == t;
  }

  lemma {:induction false} RewriteNoHPrefix(a: string, t: string, safe: string -> string)
    requires 'h' !in a
    ensures Rewrite(a + t, safe) == a + Rewrite(t, safe)
  {
    if a != [] {
      assert a + t == [a[0]] + (a[1..] + t);
      RewriteNotH(a[0], a[1..] + t, safe);
      RewriteNoHPrefix(a[1..], t, safe);
    } else {
      assert a + t == t;
    }
  }

  /** Text without stop characters followed by a `/` holds no link before the `/`. */
  lemma {:induction false} RewritePlainPrefix(a: string, b: string, safe: string -> string)
    requires NoStop(a) && (b == [] || b[0] == '/')
    ensures Rewrite(a + b, safe) == a + Rewrite(b, safe)
  {
    if a != [] {
      var v := a + b;
      PlainNotHref(a, b);
      RewriteKeepsFirst(v, safe);
      assert v[1..] == a[1..] + b;
      RewritePlainPrefix(a[1..], b, safe);
      ConsPrefix(a, Rewrite(v[1..], safe), Rewrite(b, safe), Rewrite(v, safe));
    } else {
      assert a + b == b;
    }
  }

  lemma ConsPrefix(a: string, r1: string, rb: string, rv: string)
    requires a != [] && rv == [a[0]] + r1 && r1 == a[1..] + rb
    ensures rv == a + rb
  {
    AppendAssoc([a[0]], a[1..], rb);
    assert [a[0]] + a[1..] == a;
  }

  lemma HrefShape()
    ensures |Href| == 6 && Href[0] == 'h' && Href[5] == '"'
  {
  }

  lemma PlainNotHref(a: string, b: string)
    requires a != [] && NoStop(a) && (b == [] || b[0] == '/')
    ensures !StartsWith(a + b, Href)
  {
    var v := a + b;
    HrefShape();
    if |v| >= |Href| {
      if |a| > 5 {
        assert v[..|Href|][5] == a[5];
      } else {
        assert v[..|Href|][|a|] == b[0];
      }
    }
  }

  /** A text that does not start with `href="` keeps its first character. */
  lemma RewriteKeepsFirst(v: string, safe: string -> string)
    requires v != [] && !StartsWith(v, Href)
    ensures Rewrite(v, safe) == [v[0]] + Rewrite(v[1..], safe)
  {
  }

  /** `v` agrees with `s` up to and including the first stop character of `s`. */
  predicate KeepsToStop(s: string, v: string) {
    var p := StopIndex(s);
    if p < |s| then |v| > p && v[..p + 1] == s[..p + 1] else v == s
  }

  lemma KeepsToStopStep(s: string, v: string)
    requires s != [] && KeepsToStop(s[1..], v)
    ensures KeepsToStop(s, [s[0]] + v)
  {
    if !IsStop(s[0]) {
      var p := StopIndex(s[1..]);
      if p < |s| - 1 {
        assert ([s[0]] + v)[..p + 2] == [s[0]] + v[..p + 1];
        assert s[..p + 2] == [s[0]] + s[1..][..p + 1];
      } else {
        assert s == [s[0]] + s[1..];
      }
    }
  }

  lemma KeepsToStopHref(s: string, v: string)
    requires StartsWith(s, Href) && StartsWith(v, Href)
    ensures KeepsToStop(s, v)
  {
    assert NoStop(s[..5]) by { assert s[..5] == Href[..5]; }
    StopIndexIs(s, 5);
    assert v[..6] == Href == s[..6];
  }

  lemma StartsWithHref(x: string)
    ensures StartsWith(Href + x, Href)
  {
    assert (Href + x)[..|Href|] == Href;
  }

  lemma KeepsToStopLink(s: string, safe: string -> string)
    requires s != [] && LinkAt(s).Some?
    ensures KeepsToStop(s, Rewrite(s, safe))
  {
    var n := LinkAt(s).value;
    var a, r := safe(s[|Href|..|Href| + n]), Rewrite(s[|Href| + n + |Tail|..], safe);
    RewriteAtLink(s, n, safe);
    AppendAssoc(Href, a, Tail);
    AppendAssoc(Href, a + Tail, r);
    var x := a + Tail + r;
    StartsWithHref(x);
    KeepsToStopHref(s, Href + x);
  }

  /** The rewrite keeps everything up to and including the first stop character. */
  lemma {:induction false} RewriteKeepsToStop(s: string, safe: string -> string)
    ensures KeepsToStop(s, Rewrite(s, safe))
  {
    if s != [] {
      if LinkAt(s).Some? {
        KeepsToStopLink(s, safe);
      } else {
        RewriteKeepsToStop(s[1..], safe);
        KeepsToStopStep(s, Rewrite(s[1..], safe));
      }
    }
  }

  /** Text agreeing up to its first stop character starts a link only where the original did. */
  lemma HrefBackSeq(c: char, w: string, v: string)
    requires KeepsToStop(w, v)
    ensures StartsWith([c] + v, Href) ==> StartsWith([c] + w, Href)
  {
    if StartsWith([c] + v, Href) {
      assert v[..5] == "ref=\"" by {
        assert ([c] + v)[..6][1..] == v[..5];
      }
      var p := StopIndex(w);
      if p < |w| {
        assert v[p] == v[..p + 1][p] == w[..p + 1][p] == w[p];
        assert p >= 4;
        assert v[..5] == v[..p + 1][..5];
        assert w[..5] == w[..p + 1][..5];
      }
      assert ([c] + w)[..6] == [c] + w[..5];
    }
  }

  /** Text agreeing up to its first stop character starts with the tail only where the original did. */
  lemma TailBackSeq(z: string, v: string)
    requires KeepsToStop(z, v)
    ensures StartsWith(v, TailRest) ==> StartsWith(z, TailRest)
  {
    if StartsWith(v, TailRest) {
      var r := StopIndex(z);
      if r < |z| {
        assert v[..17] == TailRest[..17];
        assert NoStop(v[..17]);
        StopIndexIs(v, 17);
        assert v[..r] == v[..r + 1][..r] == z[..r + 1][..r] == z[..r];
        assert v[r] == v[..r + 1][r] == z[..r + 1][r] == z[r];
        StopIndexIs(v, r);
        assert z[..18] == z[..r + 1] == v[..r + 1] == v[..18];
      }
    }
  }

  /**
   * The link test after `href="` sees the same folder group in the original
   * text `y` and in its rewrite `ry`, and the rewrite adds no link tail.
   */
  lemma LinkAtSeq(y: string, ry: string, rz: string, q: nat)
    requires KeepsToStop(y, ry) && q == StopIndex(y)
    requires q < |y| && y[q] == '/' ==>
      ry == y[..q + 1] + rz && (StartsWith(rz, TailRest) ==> StartsWith(y[q + 1..], TailRest))
    ensures LinkAfter(y).None? ==> LinkAfter(ry).None?
  {
    if q < |y| {
      SameStop(y, ry);
      if y[q] == '/' {
        SlashTail(y, q, rz);
        assert LinkAfter(y).None? ==> LinkAfter(ry).None?;
      } else {
        assert ry[q] != Tail[0];
        assert !OccursAt(ry, Tail, q);
        assert LinkAfter(y).None? ==> LinkAfter(ry).None?;
      }
    }
  }

  lemma SameStop(y: string, ry: string)
    requires KeepsToStop(y, ry) && StopIndex(y) < |y|
    ensures StopIndex(ry) == StopIndex(y) && ry[StopIndex(y)] == y[StopIndex(y)]
  {
    var q := StopIndex(y);
    assert ry[..q] == ry[..q + 1][..q] == y[..q + 1][..q] == y[..q];
    assert ry[q] == ry[..q + 1][q] == y[..q + 1][q] == y[q];
    StopIndexIs(ry, q);
  }

  /** After a `/` the tail occurs in the rewrite only if it occurred in the text. */
  lemma SlashTail(y: string, q: nat, rz: string)
    requires q < |y| && y[q] == '/'
    requires StartsWith(rz, TailRest) ==> StartsWith(y[q + 1..], TailRest)
    ensures OccursAt(y[..q + 1] + rz, Tail, q) ==> OccursAt(y, Tail, q)
  {
    var a := y[..q + 1];
    assert y == a + y[q + 1..];
    assert [a[|a| - 1]] + TailRest == Tail;
    OccursAfter(a, y[q + 1..], TailRest);
    OccursAfter(a, rz, TailRest);
  }

  /** A pattern starting with the last character of `a` occurs there exactly when its rest starts `b`. */
  lemma OccursAfter(a: string, b: string, t: string)
    requires a != []
    ensures OccursAt(a + b, [a[|a| - 1]] + t, |a| - 1) <==> StartsWith(b, t)
  {
    var k := |a| - 1;
    if k + 1 + |t| <= |a + b| {
      var w := (a + b)[k..k + 1 + |t|];
      assert w == [a[k]] + b[..|t|];
      assert w[1..] == b[..|t|];
      assert ([a[k]] + t)[1..] == t;
    }
  }

  /** The link test on the text after `href="`. */
  function LinkAfter(y: string): Option<nat> {
    var n := StopIndex(y);
    if n > 0 && OccursAt(y, Tail, n) then Some(n) else None
  }

  /** Whether a link follows `href="`, read on the text after it. */
  lemma LinkAtHref(y: string)
    ensures LinkAt(Href + y) == LinkAfter(y)
  {
    var s := Href + y;
    assert s[..|Href|] == Href;
    assert s[|Href|..] == y;
    var n := StopIndex(y);
    if |Href| + n + |Tail| <= |s| {
      assert s[|Href| + n..|Href| + n + |Tail|] == y[n..n + |Tail|];
    }
  }

  /** Nothing before the first stop character is rewritten when that character is a `/`. */
  lemma RewriteAtSlash(y: string, q: nat, safe: string -> string)
    requires q == StopIndex(y) && q < |y| && y[q] == '/'
    ensures Rewrite(y, safe) == y[..q + 1] + Rewrite(y[q + 1..], safe)
  {
    SplitAt(y, q);
    SlashAfterPlain(y[..q], y[q + 1..], safe);
  }

  lemma SlashAfterPlain(a: string, z: string, safe: string -> string)
    requires NoStop(a)
    ensures Rewrite(a + ['/'] + z, safe) == a + ['/'] + Rewrite(z, safe)
  {
    AppendAssoc(a, ['/'], z);
    RewritePlainPrefix(a, ['/'] + z, safe);
    RewriteNotH('/', z, safe);
    AppendAssoc(a, ['/'], Rewrite(z, safe));
  }

  /** Rewriting the text after `href="` never makes a link follow it. */
  lemma NoLinkAfter(y: string, safe: string -> string)
    requires LinkAfter(y).None?
    ensures LinkAfter(Rewrite(y, safe)).None?
  {
    RewriteKeepsToStop(y, safe);
    var q := StopIndex(y);
    var rz: string := [];
    if q < |y| && y[q] == '/' {
      RewriteAtSlash(y, q, safe);
      rz := Rewrite(y[q + 1..], safe);
      RewriteKeepsToStop(y[q + 1..], safe);
      TailBackSeq(y[q + 1..], rz);
    }
    LinkAtSeq(y, Rewrite(y, safe), rz, q);
  }

  /** A text starting with `href="` and its rewrite, read after `href="`. */
  lemma HrefSplit(c: char, w: string, safe: string -> string)
    requires StartsWith([c] + w, Href)
    ensures [c] + w == Href + w[5..]
    ensures [c] + Rewrite(w, safe) == Href + Rewrite(w[5..], safe)
  {
    var a, y := w[..5], w[5..];
    assert Href == [c] + a by { assert ([c] + w)[..6] == [c] + a; }
    assert 'h' !in Href[1..];
    assert a == Href[1..];
    assert w == a + y;
    RewriteNoHPrefix(a, y, safe);
    AppendAssoc([c], a, y);
    AppendAssoc([c], a, Rewrite(y, safe));
  }

  /** The rewrite of the rest of a text never creates a link in front of it. */
  lemma NoNewLink(c: char, w: string, safe: string -> string)
    requires LinkAt([c] + w).None?
    ensures LinkAt([c] + Rewrite(w, safe)).None?
  {
    RewriteKeepsToStop(w, safe);
    HrefBackSeq(c, w, Rewrite(w, safe));
    if StartsWith([c] + Rewrite(w, safe), Href) {
      HrefSplit(c, w, safe);
      var y := w[5..];
      LinkAtHref(y);
      NoLinkAfter(y, safe);
      LinkAtHref(Rewrite(y, safe));
    }
  }

  /** What `safe` must do for the rewrite to be idempotent. */
  ghost predicate LinkSafe(safe: string -> string) {
    forall x :: x != [] && NoStop(x) ==>
      safe(x) != [] && NoStop(safe(x)) && safe(safe(x)) == safe(x)
  }

  /** Rewriting the rewritten text changes nothing more. */
  lemma {:induction false} RewriteIdempotent(s: string, safe: string -> string)
    requires LinkSafe(safe)
    ensures Rewrite(Rewrite(s, safe), safe) == Rewrite(s, safe)
    decreases |s|
  {
    if s != [] {
      match LinkAt(s)
      case Some(n) =>
        var x := s[|Href|..|Href| + n];
        var rest := s[|Href| + n + |Tail|..];
        RewriteAtLink(s, n, safe);
        RewriteIdempotent(rest, safe);
        RewriteLink(safe(x), Rewrite(rest, safe), safe);
      case None =>
        var r1 := Rewrite(s[1..], safe);
        RewriteNoLink(s, safe);
        RewriteIdempotent(s[1..], safe);
        assert s == [s[0]] + s[1..];
        NoNewLink(s[0], s[1..], safe);
        RewriteNoLink([s[0]] + r1, safe);
        assert ([s[0]] + r1)[1..] == r1;
    }
  }

  /** A link at the front is replaced and the scan resumes after it. */
  lemma RewriteAtLink(s: string, n: nat, safe: string -> string)
    requires s != [] && LinkAt(s) == Some(n)
    ensures Rewrite(s, safe)
      == Href + safe(s[|Href|..|Href| + n]) + Tail + Rewrite(s[|Href| + n + |Tail|..], safe)
  {
  }

  /** Without a link at the front the first character is kept. */
  lemma RewriteNoLink(s: string, safe: string -> string)
    requires s != [] && LinkAt(s).None?
    ensures Rewrite(s, safe) == [s[0]] + Rewrite(s[1..], safe)
  {
  }

  // ---------------------------------------------------------------------------
  // `main`
  // ---------------------------------------------------------------------------

  /** `safe_name` keeps the folder group non-empty and free of stop characters, and is idempotent. */
  lemma SafeNameLinkSafe()
    ensures LinkSafe(SafeName)
  {
    forall x | x != [] && NoStop(x)
      ensures SafeName(x) != [] && NoStop(SafeName(x)) && SafeName(SafeName(x)) == SafeName(x)
    {
      SafeNameIsMapEach(x);
      MapEachShape(x);
      SafeNameIdempotent(x);
      assert NoStop(MapEach(x)) by {
        forall i | 0 <= i < |MapEach(x)| ensures !IsStop(MapEach(x)[i]) {
          assert MapEach(x)[i] in MapEach(x);
        }
      }
    }
  }

  /**
   * `main`: the new text of `hovedindex.html`, or `None` (nothing written)
   * when the file does not exist.
   */
  function FixLinks(content: Option<string>): (written: Option<string>)
    ensures written.None? <==> content.None?
    ensures written.Some? ==> Rewrite(written.value, SafeName) == written.value
  {
    match content
    case None => None
    case Some(text) =>
      SafeNameLinkSafe();
      RewriteIdempotent(text, SafeName);
      Some(Rewrite(text, SafeName))
  }

  // ---------------------------------------------------------------------------
  // The upper-case letters
  // ---------------------------------------------------------------------------

  /**
   * A folder `Å` is renamed to `AA` by `rename_safe.py`, but its link is
   * left pointing at `Å`.
   */
  lemma UpperCaseLinkMissesRename()
    ensures var link := Href + "\U{00C5}" + Tail;
      FixLinks(Some(link)) == Some(link)
      && RenameSafe.SafeName("\U{00C5}") == "AA"
  {
    UpperLinkKept();
    UpperRenamed();
  }

  lemma UpperLinkKept()
    ensures var link := Href + "\U{00C5}" + Tail; FixLinks(Some(link)) == Some(link)
  {
    var x := "\U{00C5}";
    assert x != [] && NoStop(x);
    RewriteLink(x, [], SafeName);
    SafeNameSingle('\U{00C5}');
    assert Rewrite([], SafeName) == [];
    assert Href + x + Tail + [] == Href + x + Tail;
  }

  lemma UpperRenamed()
    ensures RenameSafe.SafeName("\U{00C5}") == "AA"
  {
    assert "\U{00C5}"[1..] == [];
  }

  /** `rename_safe.py`'s name map keeps the folder group non-empty, stop-free and idempotent. */
  lemma RenameSafeLinkSafe()
    ensures LinkSafe(RenameSafe.SafeName)
  {
    forall x | x != [] && NoStop(x)
      ensures RenameSafe.SafeName(x) != [] && NoStop(RenameSafe.SafeName(x))
        && RenameSafe.SafeName(RenameSafe.SafeName(x)) == RenameSafe.SafeName(x)
    {
      RenameSafe.SafeNameIsSafe(x);
      RenameSafe.SafeNameIdempotent(x);
      RenameSafeNoStop(x);
    }
  }

  lemma {:induction false} RenameSafeNoStop(x: string)
    requires NoStop(x)
    ensures NoStop(RenameSafe.SafeName(x))
  {
    if x != [] {
      RenameSafeNoStop(x[1..]);
      RenameMapCharNoStop(x[0]);
      NoStopAppend(RenameSafe.MapChar(x[0]), RenameSafe.SafeName(x[1..]));
    }
  }

  lemma RenameMapCharNoStop(c: char)
    requires !IsStop(c)
    ensures NoStop(RenameSafe.MapChar(c))
  {
    var r := RenameSafe.MapChar(c);
    if RenameSafe.Mapped(c) {
      assert forall i :: 0 <= i < |r| ==> r[i] != '"' && r[i] != '/';
    }
  }

  lemma NoStopAppend(a: string, b: string)
    requires NoStop(a) && NoStop(b)
    ensures NoStop(a + b)
  {
    forall i | 0 <= i < |a + b| ensures !IsStop((a + b)[i]) {
      if i >= |a| { assert (a + b)[i] == b[i - |a|]; }
    }
  }

  /**
   * The intended rewrite: each link names the folder by the name
   * `rename_safe.py` gives it; rewriting twice changes nothing more.
   */
  function FixLinksIntended(content: Option<string>): (written: Option<string>)
    ensures written.None? <==> content.None?
    ensures written.Some? ==>
      Rewrite(written.value, RenameSafe.SafeName) == written.value
  {
    match content
    case None => None
    case Some(text) =>
      RenameSafeLinkSafe();
      RewriteIdempotent(text, RenameSafe.SafeName);
      Some(Rewrite(text, RenameSafe.SafeName))
  }

  /** Under the intended rewrite a link to `X` becomes a link to the renamed folder. */
  lemma IntendedLinkFollowsRename(x: string, rest: string)
    requires x != [] && NoStop(x)
    ensures FixLinksIntended(Some(Href + x + Tail + rest))
      == Some(Href + RenameSafe.SafeName(x) + Tail + Rewrite(rest, RenameSafe.SafeName))
  {
    RewriteLink(x, rest, RenameSafe.SafeName);
  }
}
