/**
 * `generate_folder_index.py`: one `folder_index.html` per visible folder of
 * the input root, listing the folder's markdown summaries as language tabs
 * together with its transcript and first audio file.
 *
 * A folder's contents are given as the sequence of entry names in the order
 * the file system lists them; a glob is the sub-sequence of names matching it.
 */
module FolderIndex {
  import opened Wrappers
  import opened Strings
  import opened Paths
  import EditableHtml

  const IndexFileName: string := "folder_index.html"

  // ---------------------------------------------------------------------------
  // Listings
  // ---------------------------------------------------------------------------

  /** `name` matches the glob pattern `*.<ext>` (the star may match nothing, and dot-names are not hidden). */
  predicate Matches(name: string, ext: string) {
    EndsWith(name, "." + ext)
  }

  /** `folder.glob("*.<ext>")`: the matching names, in listing order. */
  function Glob(names: seq<string>, ext: string): (r: seq<string>)
    ensures |r| <= |names|
    ensures forall n :: n in r <==> n in names && Matches(n, ext)
  {
    if names == [] then []
    else (if Matches(names[0], ext) then [names[0]] else []) + Glob(names[1..], ext)
  }

  /** The first name of a glob is the first matching name of the listing. */
  lemma {:induction false} GlobFirst(names: seq<string>, ext: string)
    ensures Glob(names, ext) == [] <==> forall i :: 0 <= i < |names| ==> !Matches(names[i], ext)
    ensures Glob(names, ext) != [] ==>
      exists i :: 0 <= i < |names| && FirstMatchAt(names, ext, i) && Glob(names, ext)[0] == names[i]
  {
    if names != [] && !Matches(names[0], ext) {
      var rest := names[1..];
      GlobFirst(rest, ext);
      assert forall i :: 0 <= i < |rest| ==> rest[i] == names[i + 1];
      if Glob(rest, ext) != [] {
        var i :| 0 <= i < |rest| && FirstMatchAt(rest, ext, i) && Glob(rest, ext)[0] == rest[i];
        assert FirstMatchAt(names, ext, i + 1);
      }
    } else if names != [] {
      assert FirstMatchAt(names, ext, 0);
    }
  }

  predicate FirstMatchAt(names: seq<string>, ext: string, i: nat) {
    i < |names| && Matches(names[i], ext) && forall j :: 0 <= j < i ==> !Matches(names[j], ext)
  }

  /** A visible folder: a directory whose name does not start with a dot. */
  predicate IsVisibleFolder(name: string, dirs: set<string>) {
    name in dirs && !StartsWith(name, ".")
  }

  /** `get_folders`: the visible folders among the root's entries, in listing order. */
  function GetFolders(entries: seq<string>, dirs: set<string>): (r: seq<string>)
    ensures |r| <= |entries|
    ensures forall n :: n in r <==> n in entries && IsVisibleFolder(n, dirs)
  {
    if entries == [] then []
    else (if IsVisibleFolder(entries[0], dirs) then [entries[0]] else []) + GetFolders(entries[1..], dirs)
  }

  /** `find_transcript`: the first `*.txt` of the folder. */
  function FindTranscript(names: seq<string>): Option<string> {
    var txts := Glob(names, "txt");
    if txts == [] then None else Some(txts[0])
  }

  // ---------------------------------------------------------------------------
  // Audio
  // ---------------------------------------------------------------------------

  /** The audio extensions tried, in order. */
  const FolderAudioOrder: seq<string> := ["m4a", "mp3", "wav", "ogg", "flac"]

  /** The first name matching the earliest extension of `exts` that has any match. */
  function FolderAudio(names: seq<string>, exts: seq<string>): Option<string> {
    if exts == [] then None
    else
      var audios := Glob(names, exts[0]);
      if audios != [] then Some(audios[0]) else FolderAudio(names, exts[1..])
  }

  /** `exts[k]` is the earliest extension with a matching name. */
  predicate FirstExtWithMatch(names: seq<string>, exts: seq<string>, k: nat) {
    k < |exts| && Glob(names, exts[k]) != []
    && forall j :: 0 <= j < k ==> Glob(names, exts[j]) == []
  }

  /**
   * The audio file chosen is the first listed name of the earliest extension
   * that has a match; there is none exactly when no name matches any extension.
   */
  lemma {:induction false} FolderAudioChoice(names: seq<string>, exts: seq<string>)
    ensures FolderAudio(names, exts).None? <==> forall k :: 0 <= k < |exts| ==> Glob(names, exts[k]) == []
    ensures FolderAudio(names, exts).Some? ==>
      exists k: nat :: FirstExtWithMatch(names, exts, k) && FolderAudio(names, exts).value == Glob(names, exts[k])[0]
  {
    if exts != [] && Glob(names, exts[0]) == [] {
      var rest := exts[1..];
      FolderAudioChoice(names, rest);
      assert forall k :: 0 <= k < |rest| ==> rest[k] == exts[k + 1];
      if FolderAudio(names, rest).Some? {
        var k: nat :| FirstExtWithMatch(names, rest, k) && FolderAudio(names, rest).value == Glob(names, rest[k])[0];
        assert FirstExtWithMatch(names, exts, k + 1);
      }
    } else if exts != [] {
      assert FirstExtWithMatch(names, exts, 0);
    }
  }

  /** `find_audio`: try the extensions in turn and take the first match of the first that has one. */
  method FindAudio(names: seq<string>) returns (audio: Option<string>)
    ensures audio == FolderAudio(names, FolderAudioOrder)
  {
    var k := 0;
    while k < |FolderAudioOrder|
      invariant 0 <= k <= |FolderAudioOrder|
      invariant FolderAudio(names, FolderAudioOrder) == FolderAudio(names, FolderAudioOrder[k..])
    {
      var audios := Glob(names, FolderAudioOrder[k]);
      if audios != [] {
        return Some(audios[0]);
      }
      assert FolderAudioOrder[k..][1..] == FolderAudioOrder[k + 1..];
      k := k + 1;
    }
    return None;
  }

  /** `audio.suffix[1:]`: the extension of a name, empty when the name has no suffix. */
  function AudioExt(name: string): string {
    var s := Child([], name).Suffix();
    if s == [] then [] else s[1..]
  }

  /** The MIME subtype of the audio element for an extension; unknown ones get `mpeg`. */
  function Mime(ext: string): (r: string)
    ensures ext == "m4a" ==> r == "mp4"
    ensures ext == "wav" || ext == "ogg" || ext == "flac" ==> r == ext
    ensures ext != "m4a" && ext != "wav" && ext != "ogg" && ext != "flac" ==> r == "mpeg"
  {
    if ext == "m4a" then "mp4"
    else if ext == "mp3" then "mpeg"
    else if ext == "wav" || ext == "ogg" || ext == "flac" then ext
    else "mpeg"
  }

  /**
   * A found audio file `<base>.<ext>` with a non-empty base plays with the
   * MIME type of its extension; a file named just `.<ext>` has no suffix and
   * plays as `mpeg`.
   */
  lemma AudioMime(name: string, ext: string)
    requires ext != [] && '.' !in ext && Matches(name, ext)
    ensures |name| > |ext| + 1 ==> AudioExt(name) == ext
    ensures |name| == |ext| + 1 ==> AudioExt(name) == [] && Mime(AudioExt(name)) == "mpeg"
  {
    var suffix := "." + ext;
    var base := name[..|name| - |suffix|];
    assert name == base + suffix;
    assert suffix[1..] == ext;
    if |name| > |ext| + 1 {
      NameParts(Child([], name), base, suffix);
    } else {
      DotOnlyName(name, ext);
      MimeOfEmpty();
    }
  }

  /** A name that is just `.<ext>` has no suffix. */
  lemma DotOnlyName(name: string, ext: string)
    requires name == "." + ext && '.' !in ext
    ensures AudioExt(name) == []
  {
    forall k | 0 < k < |name| ensures name[k] != '.' {
      assert name[k] == ext[k - 1];
    }
    LastIndexOfIs(name, '.', 0);
  }

  lemma MimeOfEmpty()
    ensures Mime([]) == "mpeg"
  {
    assert |"m4a"| == 3 && |"wav"| == 3 && |"ogg"| == 3 && |"flac"| == 4;
  }

  // ---------------------------------------------------------------------------
  // Summaries
  // ---------------------------------------------------------------------------

  /** One summary tab; every tab shows a markdown file. */
  datatype FolderTab = FolderTab(code: string, name: string, file: string)

  /** The language code of a summary stem: the text after its last `_`, or `primary` without one. */
  function LangCode(stem: string): (r: string)
    ensures '_' !in stem ==> r == "primary"
    ensures '_' in stem ==> '_' !in r && EndsWith(stem, "_" + r)
  {
    var i := LastIndexOf(stem, '_');
    if i < 0 then "primary"
    else
      var r := stem[i + 1..];
      assert stem[|stem| - |"_" + r|..] == "_" + r;
      r
  }

  /** A stem built as `<base>_<code>` gives back its code when the code has no `_`. */
  lemma LangCodeOfSuffixed(base: string, code: string)
    requires '_' !in code
    ensures LangCode(base + "_" + code) == code
  {
    var stem := base + "_" + code;
    var i := |base|;
    forall k | i < k < |stem| ensures stem[k] != '_' {
      assert stem[k] == code[k - i - 1];
    }
    LastIndexOfIs(stem, '_', i);
    assert stem[i + 1..] == code;
  }

  /** Display name of a tab: fixed for `no`, `en` and `primary`, title-cased otherwise. */
  function TabLabel(code: string): (r: string)
    ensures code != "no" && code != "en" && code != "primary" ==> |r| == |code|
  {
    if code == "no" then "Norsk"
    else if code == "en" then "English"
    else if code == "primary" then "Primær"
    else Title(code)
  }

  function StemOf(name: string): string {
    Child([], name).Stem()
  }

  function TabOf(name: string): (t: FolderTab)
    ensures t.file == name
  {
    var code := LangCode(StemOf(name));
    FolderTab(code, TabLabel(code), name)
  }

  /** `xs[i]` is the first of `xs` with its key. */
  predicate FirstOfKey(xs: seq<string>, key: string -> string, i: nat)
    requires i < |xs|
  {
    forall j :: 0 <= j < i ==> key(xs[j]) != key(xs[i])
  }

  function KeptEntries(xs: seq<string>, key: string -> string): (r: seq<Option<string>>)
    ensures |r| == |xs|
    ensures forall i :: 0 <= i < |xs| ==> r[i] == if FirstOfKey(xs, key, i) then Some(xs[i]) else None
  {
    seq(|xs|, i requires 0 <= i < |xs| => if FirstOfKey(xs, key, i) then Some(xs[i]) else None)
  }

  /** The names kept when skipping every name whose key was seen before. */
  function Kept(xs: seq<string>, key: string -> string): seq<string> {
    Present(KeptEntries(xs, key))
  }

  function Keys(xs: seq<string>, key: string -> string): set<string> {
    set i | 0 <= i < |xs| :: key(xs[i])
  }

  lemma KeptStep(xs: seq<string>, key: string -> string, k: nat)
    requires k < |xs|
    ensures Kept(xs[..k + 1], key) == Kept(xs[..k], key) + if FirstOfKey(xs, key, k) then [xs[k]] else []
    ensures FirstOfKey(xs, key, k) <==> key(xs[k]) !in Keys(xs[..k], key)
  {
    var e := KeptEntries(xs[..k + 1], key);
    assert e[..k] == KeptEntries(xs[..k], key) by {
      forall i | 0 <= i < k ensures e[..k][i] == KeptEntries(xs[..k], key)[i] {
        assert FirstOfKey(xs[..k + 1], key, i) == FirstOfKey(xs[..k], key, i);
      }
    }
    assert FirstOfKey(xs[..k + 1], key, k) == FirstOfKey(xs, key, k);
    PresentStep(e, k);
    assert e[..k + 1] == e;
    assert forall j :: 0 <= j < k ==> xs[..k][j] == xs[j];
  }

  lemma KeysAppend(xs: seq<string>, x: string, key: string -> string)
    ensures Keys(xs + [x], key) == Keys(xs, key) + {key(x)}
  {
    var a := xs + [x];
    forall y ensures y in Keys(a, key) <==> y in Keys(xs, key) || y == key(x) {
      if y in Keys(a, key) {
        var i :| 0 <= i < |a| && key(a[i]) == y;
        if i < |xs| { assert a[i] == xs[i]; }
      }
      if y in Keys(xs, key) {
        var i :| 0 <= i < |xs| && key(xs[i]) == y;
        assert a[i] == xs[i];
      }
      if y == key(x) { assert a[|xs|] == x; }
    }
  }

  lemma KeysStep(xs: seq<string>, key: string -> string, k: nat)
    requires k < |xs|
    ensures Keys(xs[..k + 1], key) == Keys(xs[..k], key) + {key(xs[k])}
  {
    assert xs[..k + 1] == xs[..k] + [xs[k]];
    KeysAppend(xs[..k], xs[k], key);
  }

  /** Kept names are names of the list, and their keys are all the keys of the list. */
  lemma {:induction false} KeptKeys(xs: seq<string>, key: string -> string)
    ensures forall x :: x in Kept(xs, key) ==> x in xs
    ensures Keys(Kept(xs, key), key) == Keys(xs, key)
  {
    if xs != [] {
      var k := |xs| - 1;
      var pre := xs[..k];
      KeptKeys(pre, key);
      KeptStep(xs, key, k);
      KeysStep(xs, key, k);
      assert xs[..k + 1] == xs;
      var head := Kept(pre, key);
      assert forall x :: x in pre ==> x in xs;
      if FirstOfKey(xs, key, k) {
        KeysAppend(head, xs[k], key);
      } else {
        assert Kept(xs, key) == head;
      }
    }
  }

  /**
   * Skipping seen keys keeps exactly one name per key: kept names have
   * pairwise different keys, each is one of the names, and every key is covered.
   */
  lemma {:induction false} KeptOnePerKey(xs: seq<string>, key: string -> string)
    ensures forall i, j :: 0 <= i < j < |Kept(xs, key)| ==> key(Kept(xs, key)[i]) != key(Kept(xs, key)[j])
    ensures forall x :: x in Kept(xs, key) ==> x in xs
    ensures Keys(Kept(xs, key), key) == Keys(xs, key)
  {
    KeptKeys(xs, key);
    if xs != [] {
      var k := |xs| - 1;
      var pre := xs[..k];
      KeptOnePerKey(pre, key);
      KeptKeys(pre, key);
      KeptStep(xs, key, k);
      assert xs[..k + 1] == xs;
      var head := Kept(pre, key);
      if FirstOfKey(xs, key, k) {
        var r := head + [xs[k]];
        assert forall i :: 0 <= i < |head| ==> key(head[i]) in Keys(pre, key);
        assert forall i :: 0 <= i < |head| ==> r[i] == head[i];
      }
    }
  }

  /** One tab per name. */
  function TabsOf(names: seq<string>): (r: seq<FolderTab>)
    ensures |r| == |names|
    ensures forall i :: 0 <= i < |names| ==> r[i] == TabOf(names[i])
  {
    seq(|names|, i requires 0 <= i < |names| => TabOf(names[i]))
  }

  lemma TabsOfAppend(names: seq<string>, x: string)
    ensures TabsOf(names + [x]) == TabsOf(names) + [TabOf(x)]
  {
    var l, r := TabsOf(names + [x]), TabsOf(names) + [TabOf(x)];
    forall i | 0 <= i < |l| ensures l[i] == r[i] {
      if i < |names| { assert (names + [x])[i] == names[i]; }
    }
  }

  /** The tabs collected from the markdown names: one per stem, from its first name. */
  function Collected(mds: seq<string>): seq<FolderTab> {
    TabsOf(Kept(mds, StemOf))
  }

  lemma CollectStep(mds: seq<string>, k: nat, tabs: seq<FolderTab>, seen: set<string>)
    requires k < |mds|
    requires tabs == TabsOf(Kept(mds[..k], StemOf)) && seen == Keys(mds[..k], StemOf)
    ensures var stem := StemOf(mds[k]);
      (if stem in seen then tabs else tabs + [TabOf(mds[k])]) == TabsOf(Kept(mds[..k + 1], StemOf))
      && seen + {stem} == Keys(mds[..k + 1], StemOf)
  {
    KeptStep(mds, StemOf, k);
    KeysStep(mds, StemOf, k);
    TabsOfAppend(Kept(mds[..k], StemOf), mds[k]);
  }

  /** The collecting loop of `find_summaries`: skip a stem already seen. */
  method CollectSummaries(mds: seq<string>) returns (tabs: seq<FolderTab>)
    ensures tabs == Collected(mds)
  {
    tabs := [];
    var seen: set<string> := {};
    var k := 0;
    while k < |mds|
      invariant 0 <= k <= |mds|
      invariant tabs == TabsOf(Kept(mds[..k], StemOf))
      invariant seen == Keys(mds[..k], StemOf)
    {
      var stem := StemOf(mds[k]);
      CollectStep(mds, k, tabs, seen);
      if stem !in seen {
        seen := seen + {stem};
        tabs := tabs + [TabOf(mds[k])];
      }
      k := k + 1;
    }
    assert mds[..k] == mds;
  }

  /** Python's `(group, code)` sort key: the primary first, then Norwegian, then the rest by code. */
  function Group(code: string): nat {
    if code == "primary" then 0 else if code == "no" then 1 else 2
  }

  /** The sort key of `a` is at most that of `b`. */
  predicate KeyLe(a: FolderTab, b: FolderTab) {
    Group(a.code) < Group(b.code)
    || (Group(a.code) == Group(b.code) && (Group(a.code) < 2 || LexLe(a.code, b.code)))
  }

  lemma KeyLeTotal(a: FolderTab, b: FolderTab)
    ensures KeyLe(a, b) || KeyLe(b, a)
  {
    LexLeTotal(a.code, b.code);
  }

  predicate SortedByKey(s: seq<FolderTab>) {
    forall i :: 0 < i < |s| ==> KeyLe(s[i - 1], s[i])
  }

  /** Insert `x` after every leading entry whose key is at most its own. */
  function Insert(x: FolderTab, s: seq<FolderTab>): (r: seq<FolderTab>)
    ensures |r| == |s| + 1
  {
    if s == [] || !KeyLe(s[0], x) then [x] + s
    else [s[0]] + Insert(x, s[1..])
  }

  /** `sorted(summaries, key=sort_key)`: a stable insertion sort. */
  function SortTabs(xs: seq<FolderTab>): (r: seq<FolderTab>)
    ensures |r| == |xs|
  {
    if xs == [] then [] else Insert(xs[|xs| - 1], SortTabs(xs[..|xs| - 1]))
  }

  lemma {:induction false} InsertSorted(x: FolderTab, s: seq<FolderTab>)
    requires SortedByKey(s)
    ensures SortedByKey(Insert(x, s))
    ensures multiset(Insert(x, s)) == multiset(s) + multiset{x}
    ensures Insert(x, s)[0] == x || (s != [] && Insert(x, s)[0] == s[0])
  {
    if s == [] || !KeyLe(s[0], x) {
      if s != [] {
        KeyLeTotal(s[0], x);
      }
    } else {
      var rest := s[1..];
      assert SortedByKey(rest) by {
        forall i | 0 < i < |rest| ensures KeyLe(rest[i - 1], rest[i]) {
          assert rest[i - 1] == s[i] && rest[i] == s[i + 1];
        }
      }
      InsertSorted(x, rest);
      var ins := Insert(x, rest);
      var r := [s[0]] + ins;
      assert s == [s[0]] + rest;
      assert KeyLe(s[0], ins[0]) by {
        if ins[0] != x { assert ins[0] == rest[0] == s[1]; }
      }
      forall i | 0 < i < |r| ensures KeyLe(r[i - 1], r[i]) {
        if i > 1 { assert r[i - 1] == ins[i - 2] && r[i] == ins[i - 1]; }
      }
    }
  }

  /** The sorted tabs are a permutation of the collected ones, in key order. */
  lemma {:induction false} SortTabsCorrect(xs: seq<FolderTab>)
    ensures SortedByKey(SortTabs(xs))
    ensures multiset(SortTabs(xs)) == multiset(xs)
  {
    if xs != [] {
      var pre := xs[..|xs| - 1];
      SortTabsCorrect(pre);
      InsertSorted(xs[|xs| - 1], SortTabs(pre));
      assert xs == pre + [xs[|xs| - 1]];
    }
  }

  lemma KeyLeTrans(a: FolderTab, b: FolderTab, c: FolderTab)
    requires KeyLe(a, b) && KeyLe(b, c)
    ensures KeyLe(a, c)
  {
    if Group(a.code) == Group(b.code) == Group(c.code) == 2 {
      LexLeTrans(a.code, b.code, c.code);
    }
  }

  /** `a` and `b` share their sort key. */
  predicate SameKey(a: FolderTab, b: FolderTab) {
    KeyLe(a, b) && KeyLe(b, a)
  }

  /** The tabs of `s` that share the sort key of `k`, in their order in `s`. */
  function KeyRun(k: FolderTab, s: seq<FolderTab>): seq<FolderTab> {
    if s == [] then [] else (if SameKey(s[0], k) then [s[0]] else []) + KeyRun(k, s[1..])
  }

  lemma {:induction false} KeyRunAppend(k: FolderTab, a: seq<FolderTab>, b: seq<FolderTab>)
    ensures KeyRun(k, a + b) == KeyRun(k, a) + KeyRun(k, b)
  {
    if a != [] {
      assert (a + b)[1..] == a[1..] + b;
      KeyRunAppend(k, a[1..], b);
    } else {
      assert a + b == b;
    }
  }

  lemma SortedTail(s: seq<FolderTab>)
    requires SortedByKey(s) && s != []
    ensures SortedByKey(s[1..])
  {
    forall i | 0 < i < |s[1..]| ensures KeyLe(s[1..][i - 1], s[1..][i]) {
      assert s[1..][i - 1] == s[i] && s[1..][i] == s[i + 1];
    }
  }

  /** Nothing in a sorted list that starts above `x` shares the key `x` shares with `k`. */
  lemma {:induction false} KeyRunAbove(k: FolderTab, x: FolderTab, s: seq<FolderTab>)
    requires SortedByKey(s) && s != [] && !KeyLe(s[0], x) && SameKey(x, k)
    ensures KeyRun(k, s) == []
  {
    if SameKey(s[0], k) {
      KeyLeTrans(s[0], k, x);
      assert false;
    }
    if |s| > 1 {
      SortedTail(s);
      if KeyLe(s[1], x) {
        KeyLeTrans(s[0], s[1], x);
        assert false;
      }
      KeyRunAbove(k, x, s[1..]);
    }
  }

  /** Inserting `x` puts it after every tab of the same key. */
  lemma {:induction false} InsertStable(k: FolderTab, x: FolderTab, s: seq<FolderTab>)
    requires SortedByKey(s)
    ensures KeyRun(k, Insert(x, s)) == KeyRun(k, s) + (if SameKey(x, k) then [x] else [])
  {
    if s == [] {
      assert KeyRun(k, [x]) == (if SameKey(x, k) then [x] else []) + KeyRun(k, []);
    } else if !KeyLe(s[0], x) {
      assert ([x] + s)[1..] == s;
      if SameKey(x, k) {
        KeyRunAbove(k, x, s);
      }
    } else {
      SortedTail(s);
      InsertStable(k, x, s[1..]);
      assert ([s[0]] + Insert(x, s[1..]))[1..] == Insert(x, s[1..]);
    }
  }

  /** The sort is stable: tabs of equal key keep the order they were collected in. */
  lemma {:induction false} SortTabsStable(k: FolderTab, xs: seq<FolderTab>)
    ensures KeyRun(k, SortTabs(xs)) == KeyRun(k, xs)
  {
    if xs != [] {
      var pre, last := xs[..|xs| - 1], xs[|xs| - 1];
      SortTabsStable(k, pre);
      SortTabsCorrect(pre);
      InsertStable(k, last, SortTabs(pre));
      assert xs == pre + [last];
      KeyRunAppend(k, pre, [last]);
      assert KeyRun(k, [last]) == (if SameKey(last, k) then [last] else []) + KeyRun(k, []);
    }
  }

  /** In a key-sorted list every primary tab precedes every Norwegian one, which precede all others. */
  lemma {:induction false} SortedGroups(s: seq<FolderTab>, i: nat, j: nat)
    requires SortedByKey(s) && i <= j < |s|
    ensures Group(s[i].code) <= Group(s[j].code)
    decreases j - i
  {
    if i < j {
      SortedGroups(s, i, j - 1);
    }
  }

  /** `find_summaries`: collect one tab per markdown stem, then sort. */
  method FindSummaries(names: seq<string>) returns (summaries: seq<FolderTab>)
    ensures summaries == SortTabs(Collected(Glob(names, "md")))
  {
    var tabs := CollectSummaries(Glob(names, "md"));
    summaries := SortTabs(tabs);
  }

  /** The collected tabs show one markdown name per stem, covering every stem. */
  lemma CollectedOnePerStem(mds: seq<string>)
    ensures forall i, j :: 0 <= i < j < |Collected(mds)| ==> StemOf(Collected(mds)[i].file) != StemOf(Collected(mds)[j].file)
    ensures forall t :: t in Collected(mds) ==> t.file in mds
    ensures Keys(FilesOf(Collected(mds)), StemOf) == Keys(mds, StemOf)
  {
    var kept := Kept(mds, StemOf);
    KeptOnePerKey(mds, StemOf);
    var c := TabsOf(kept);
    assert FilesOf(c) == kept;
  }

  function FilesOf(tabs: seq<FolderTab>): (r: seq<string>)
    ensures |r| == |tabs|
    ensures forall i :: 0 <= i < |tabs| ==> r[i] == tabs[i].file
  {
    seq(|tabs|, i requires 0 <= i < |tabs| => tabs[i].file)
  }

  /**
   * The summaries of a folder: in key order (primary, Norwegian, then the
   * rest by code), a permutation of the collected tabs, each showing a
   * `*.md` of the folder.
   */
  lemma FolderSummariesOrdered(names: seq<string>)
    ensures var r := SortTabs(Collected(Glob(names, "md")));
      SortedByKey(r)
      && multiset(r) == multiset(Collected(Glob(names, "md")))
      && (forall t :: t in r ==> t.file in names && Matches(t.file, "md"))
  {
    var mds := Glob(names, "md");
    var c := Collected(mds);
    SortTabsCorrect(c);
    CollectedOnePerStem(mds);
    var r := SortTabs(c);
    forall t | t in r ensures t.file in names && Matches(t.file, "md") {
      assert t in multiset(r);
      assert t in c;
      assert t.file in mds;
    }
  }

  // ---------------------------------------------------------------------------
  // Page
  // ---------------------------------------------------------------------------

  /** Python's `s[a:b]` for `a <= b`: out-of-range bounds are clamped. */
  function Slice(s: string, a: nat, b: nat): (r: string)
    requires a <= b
    ensures |r| <= b - a
  {
    var i := if a < |s| then a else |s|;
    var j := if b < |s| then b else |s|;
    s[i..j]
  }

  const UnknownDate: string := "Ukjent dato"

  /** The date `DD.MM.20YY` taken from the first six characters before ` - ` of the folder name (shorter text gives shorter parts). */
  function FolderDate(folderName: string): (r: string)
    ensures r != UnknownDate
  {
    var d := BeforeFirst(folderName, " - ");
    var r := Slice(d, 0, 2) + "." + Slice(d, 2, 4) + ".20" + Slice(d, 4, 6);
    assert |r| <= 10 < |UnknownDate|;
    r
  }

  /** When the name starts with six characters before ` - `, both page generators show the same date. */
  lemma DatesAgree(folderName: string)
    requires |BeforeFirst(folderName, " - ")| == 6
    ensures FolderDate(folderName) == EditableHtml.DateFromName(folderName)
  {
  }

  datatype AudioPlayer = AudioPlayer(file: string, mime: string)

  /** The values put into the folder page's template. */
  datatype FolderPage = FolderPage(title: string, date: string, audio: Option<AudioPlayer>, summaries: seq<FolderTab>, baseName: string)

  /** The page for a folder, or none when it has no transcript. */
  function PageFor(folderName: string, names: seq<string>): Option<FolderPage> {
    var transcript := FindTranscript(names);
    if transcript.None? then None
    else
      var audio := FolderAudio(names, FolderAudioOrder);
      var player := if audio.None? then None else Some(AudioPlayer(audio.value, Mime(AudioExt(audio.value))));
      Some(FolderPage(folderName, FolderDate(folderName), player,
        SortTabs(Collected(Glob(names, "md"))), StemOf(transcript.value)))
  }

  /**
   * `generate_folder_index` for the folder `parent/folderName` listing
   * `names`: nothing is written without a `*.txt`; otherwise the page is
   * written to `folder_index.html` inside the folder.
   */
  method GenerateFolderIndex(parent: seq<string>, folderName: string, names: seq<string>)
    returns (page: Option<FolderPage>, written: Option<Path>)
    ensures page == PageFor(folderName, names)
    ensures written.Some? <==> page.Some?
    ensures page.None? <==> Glob(names, "txt") == []
    ensures written.Some? ==> written.value == Child(parent + [folderName], IndexFileName)
  {
    var transcript := FindTranscript(names);
    var audio := FindAudio(names);
    var summaries := FindSummaries(names);
    if transcript.None? {
      return None, None;
    }
    var date := FolderDate(folderName);
    var player: Option<AudioPlayer> := None;
    if audio.Some? {
      player := Some(AudioPlayer(audio.value, Mime(AudioExt(audio.value))));
    }
    page := Some(FolderPage(folderName, date, player, summaries, StemOf(transcript.value)));
    written := Some(Child(parent + [folderName], IndexFileName));
  }

  function ListingOf(listings: map<string, seq<string>>, folder: string): seq<string> {
    if folder in listings then listings[folder] else []
  }

  /** The pages written for `folders`, in order: one per folder that has a transcript. */
  function WrittenIndexes(root: seq<string>, folders: seq<string>, listings: map<string, seq<string>>): (r: seq<Path>)
    ensures forall p :: p in r <==> exists f :: f in folders && Glob(ListingOf(listings, f), "txt") != [] && p == Child(root + [f], IndexFileName)
  {
    if folders == [] then []
    else
      var f := folders[|folders| - 1];
      var pre := WrittenIndexes(root, folders[..|folders| - 1], listings);
      var r := pre + if Glob(ListingOf(listings, f), "txt") != [] then [Child(root + [f], IndexFileName)] else [];
      assert forall g :: g in folders <==> g in folders[..|folders| - 1] || g == f by {
        assert folders == folders[..|folders| - 1] + [f];
      }
      r
  }

  /** `run`: generate the page of every visible folder of the root, in listing order. */
  method Run(root: seq<string>, entries: seq<string>, dirs: set<string>, listings: map<string, seq<string>>)
    returns (written: seq<Path>)
    ensures written == WrittenIndexes(root, GetFolders(entries, dirs), listings)
  {
    var folders := GetFolders(entries, dirs);
    written := [];
    var k := 0;
    while k < |folders|
      invariant 0 <= k <= |folders|
      invariant written == WrittenIndexes(root, folders[..k], listings)
    {
      var page, out := GenerateFolderIndex(root, folders[k], ListingOf(listings, folders[k]));
      assert folders[..k + 1][..k] == folders[..k];
      if out.Some? {
        written := written + [out.value];
      }
      k := k + 1;
    }
    assert folders[..k] == folders;
  }

  /** An index is written exactly into each visible folder of the root that holds a `*.txt`. */
  lemma RunWritesTranscribedFolders(root: seq<string>, entries: seq<string>, dirs: set<string>, listings: map<string, seq<string>>, p: Path)
    ensures p in WrittenIndexes(root, GetFolders(entries, dirs), listings) <==>
      exists f :: f in entries && IsVisibleFolder(f, dirs) && Glob(ListingOf(listings, f), "txt") != []
        && p == Child(root + [f], IndexFileName)
  {
  }
}
