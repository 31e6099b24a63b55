/**
 * The rules of the HTML site generator (`generate_index.py`) that do not
 * concern page layout: reading `[HH:MM:SS]` stamps back into seconds, which
 * transcript lines become clickable entries, the grouping of audio files by
 * folder with its counters, the theme suffix, the breadcrumb and the status
 * badges of a folder card.
 */
module SiteIndex {

  import opened Wrappers
  import opened Strings
  import opened Timestamps
  import opened Paths

  // ---------------------------------------------------------------------------
  // parse_timestamp_to_seconds
  // ---------------------------------------------------------------------------

  /**
   * `parse_timestamp_to_seconds`: brackets stripped, split at `:`, three parts
   * read as h, m, s and two as m, s; any other count gives 0.  `None` stands for
   * the `ValueError` that `int()` raises on a part that is not a number.
   */
  function ParseTimestampToSeconds(timestamp: string): (r: Option<int>)
  {
    ParseParts(Split(StripChars(timestamp, {'[', ']'}), ':'))
  }

  /** The value of the `:`-separated parts of a stamp. */
  function ParseParts(parts: seq<string>): (r: Option<int>)
  {
    if |parts| == 3 then
      var h, m, s := IntValue(parts[0]), IntValue(parts[1]), IntValue(parts[2]);
      if h.Some? && m.Some? && s.Some? then Some(h.value * 3600 + m.value * 60 + s.value) else None
    else if |parts| == 2 then
      var m, s := IntValue(parts[0]), IntValue(parts[1]);
      if m.Some? && s.Some? then Some(m.value * 60 + s.value) else None
    else Some(0)
  }

  /** The value of a stamp once its stripped text and its parts are known. */
  lemma ParseOfStripped(timestamp: string, inner: string, parts: seq<string>)
    requires StripChars(timestamp, {'[', ']'}) == inner && Split(inner, ':') == parts
    ensures ParseTimestampToSeconds(timestamp) == ParseParts(parts)
  {
  }

  /** The value of a three-part stamp once its parts read as integers. */
  lemma ParseOfThree(parts: seq<string>, h: int, m: int, s: int, v: int)
    requires |parts| == 3 && v == h * 3600 + m * 60 + s
    requires IntValue(parts[0]) == Some(h) && IntValue(parts[1]) == Some(m) && IntValue(parts[2]) == Some(s)
    ensures ParseParts(parts) == Some(v)
  {
    ClockOfThree(IntValue(parts[0]), IntValue(parts[1]), IntValue(parts[2]), h, m, s);
  }

  lemma ClockOfThree(a: Option<int>, b: Option<int>, c: Option<int>, h: int, m: int, s: int)
    requires a == Some(h) && b == Some(m) && c == Some(s)
    ensures (if a.Some? && b.Some? && c.Some? then Some(a.value * 3600 + b.value * 60 + c.value) else None)
      == Some(h * 3600 + m * 60 + s)
  {
  }

  /** The value of a two-part stamp once its parts read as integers. */
  lemma ParseOfTwo(parts: seq<string>, m: int, s: int, v: int)
    requires |parts| == 2 && v == m * 60 + s
    requires IntValue(parts[0]) == Some(m) && IntValue(parts[1]) == Some(s)
    ensures ParseParts(parts) == Some(v)
  {
  }

  /** Splitting at the first separator peels off the text before it. */
  lemma SplitAtFirst(a: string, c: char, b: string)
    requires c !in a
    ensures Split(a + [c] + b, c) == [a] + Split(b, c)
  {
    var s := a + [c] + b;
    assert forall k :: 0 <= k < |a| ==> s[k] == a[k] && a[k] in a;
    assert s[|a|] == c;
    assert FirstIndexOf(s, c) == |a|;
    assert s[..|a|] == a && s[|a| + 1..] == b;
  }

  /** Stripping the brackets off `[inner]` gives `inner` when it holds no bracket. */
  lemma StripBrackets(inner: string)
    requires inner != [] && '[' !in inner && ']' !in inner
    ensures StripChars("[" + inner + "]", {'[', ']'}) == inner
  {
    var b := {'[', ']'};
    var t := ['['] + inner;
    var s := t + [']'];
    assert "[" + inner + "]" == s;
    assert s[..|s| - 1] == t;
    assert RStripChars(s, b) == RStripChars(t, b);
    assert inner[|inner| - 1] in inner && t[|t| - 1] == inner[|inner| - 1];
    assert RStripChars(t, b) == t;
    assert t[1..] == inner;
    assert LStripChars(t, b) == LStripChars(inner, b);
    assert inner[0] in inner;
  }

  /** The same, and a text without brackets is left as it is. */
  lemma StripBracketsOrNone(t: string, inner: string)
    requires inner != [] && '[' !in inner && ']' !in inner
    requires t == "[" + inner + "]" || t == inner
    ensures StripChars(t, {'[', ']'}) == inner
  {
    if t == inner {
      StripCharsNoop(inner, {'[', ']'});
    } else {
      StripBrackets(inner);
    }
  }

  /** Digits are neither brackets nor colons. */
  lemma DigitsHaveNoMarks(s: string)
    requires AllDigits(s)
    ensures '[' !in s && ']' !in s && ':' !in s
  {
    forall i | 0 <= i < |s| ensures s[i] != '[' && s[i] != ']' && s[i] != ':' {
      assert IsDigit(s[i]);
    }
  }

  /** The three digit fields of `h:m:s` are its three parts. */
  lemma SplitThree(h: string, m: string, s: string)
    requires AllDigits(h) && AllDigits(m) && AllDigits(s)
    ensures Split(h + ":" + m + ":" + s, ':') == [h, m, s]
  {
    DigitsHaveNoMarks(h);
    DigitsHaveNoMarks(m);
    DigitsHaveNoMarks(s);
    assert h + ":" + m + ":" + s == h + [':'] + (m + [':'] + s);
    SplitAtFirst(h, ':', m + [':'] + s);
    SplitAtFirst(m, ':', s);
    SplitNoSeparator(s, ':');
  }

  /** The two digit fields of `m:s` are its two parts. */
  lemma SplitTwo(m: string, s: string)
    requires AllDigits(m) && AllDigits(s)
    ensures Split(m + ":" + s, ':') == [m, s]
  {
    DigitsHaveNoMarks(m);
    DigitsHaveNoMarks(s);
    assert m + ":" + s == m + [':'] + s;
    SplitAtFirst(m, ':', s);
    SplitNoSeparator(s, ':');
  }

  /** The text between the brackets of `[h:m:s]` holds no bracket. */
  lemma InnerHasNoBrackets(h: string, m: string, s: string, inner: string)
    requires AllDigits(h) && AllDigits(m) && AllDigits(s)
    requires inner == h + ":" + m + ":" + s || inner == m + ":" + s
    ensures '[' !in inner && ']' !in inner
  {
    DigitsHaveNoMarks(h);
    DigitsHaveNoMarks(m);
    DigitsHaveNoMarks(s);
    assert forall i :: 0 <= i < |inner| ==> inner[i] in h || inner[i] == ':' || inner[i] in m || inner[i] in s;
  }

  /** Three digit fields read as h*3600 + m*60 + s, however many digits each has. */
  lemma DigitPartsThree(h: string, m: string, s: string, v: int)
    requires h != [] && m != [] && s != [] && AllDigits(h) && AllDigits(m) && AllDigits(s)
    requires v == DigitsValue(h) * 3600 + DigitsValue(m) * 60 + DigitsValue(s)
    ensures ParseParts([h, m, s]) == Some(v)
  {
    IntValueOfDigits(h);
    IntValueOfDigits(m);
    IntValueOfDigits(s);
    ParseOfThree([h, m, s], DigitsValue(h), DigitsValue(m), DigitsValue(s), v);
  }

  /** Two digit fields read as m*60 + s. */
  lemma DigitPartsTwo(m: string, s: string, v: int)
    requires m != [] && s != [] && AllDigits(m) && AllDigits(s)
    requires v == DigitsValue(m) * 60 + DigitsValue(s)
    ensures ParseParts([m, s]) == Some(v)
  {
    IntValueOfDigits(m);
    IntValueOfDigits(s);
    ParseOfTwo([m, s], DigitsValue(m), DigitsValue(s), v);
  }

  /** A stamp reads as its parts do, once its parts are known. */
  lemma ParseViaThree(t: string, inner: string, h: string, m: string, s: string, v: int)
    requires h != [] && m != [] && s != [] && AllDigits(h) && AllDigits(m) && AllDigits(s)
    requires inner == h + ":" + m + ":" + s && (t == "[" + inner + "]" || t == inner)
    requires ParseParts([h, m, s]) == Some(v)
    ensures ParseTimestampToSeconds(t) == Some(v)
  {
    InnerHasNoBrackets(h, m, s, inner);
    StripBracketsOrNone(t, inner);
    SplitThree(h, m, s);
    ParseOfStripped(t, inner, [h, m, s]);
  }

  /** The same for a two-part stamp `[m:s]`. */
  lemma ParseViaTwo(t: string, inner: string, m: string, s: string, v: int)
    requires m != [] && s != [] && AllDigits(m) && AllDigits(s)
    requires inner == m + ":" + s && (t == "[" + inner + "]" || t == inner)
    requires ParseParts([m, s]) == Some(v)
    ensures ParseTimestampToSeconds(t) == Some(v)
  {
    InnerHasNoBrackets(m, m, s, inner);
    StripBracketsOrNone(t, inner);
    SplitTwo(m, s);
    ParseOfStripped(t, inner, [m, s]);
  }

  /** Stripping characters off the ends never brings in a character. */
  lemma StripCharsKeepsOut(s: string, chars: set<char>, c: char)
    requires c !in s
    ensures c !in StripChars(s, chars)
  {
    var t := StripChars(s, chars);
    var r := RStripChars(s, chars);
    assert t == r[|r| - |t|..];
    forall i | 0 <= i < |t| ensures t[i] != c {
      assert t[i] == s[|r| - |t| + i];
    }
  }

  /** Text without a colon is one part, which reads as 0 seconds. */
  lemma ParseWithoutColon(timestamp: string)
    requires ':' !in timestamp
    ensures ParseTimestampToSeconds(timestamp) == Some(0)
  {
    var t := StripChars(timestamp, {'[', ']'});
    StripCharsKeepsOut(timestamp, {'[', ']'}, ':');
    SplitNoSeparator(t, ':');
  }

  /** A zero-padded field reads back as its number. */
  lemma IntValueOfPadded(n: nat)
    ensures IntValue(Padded(n, 2)) == Some(n)
  {
    PaddedValue(n, 2);
    IntValueOfDigits(Padded(n, 2));
  }

  /** The padded clock fields of a stamp read as the seconds they stand for. */
  lemma PaddedPartsValue(hours: nat, minutes: nat, seconds: nat, v: int)
    requires v == hours * 3600 + minutes * 60 + seconds
    ensures ParseParts([Padded(hours, 2), Padded(minutes, 2), Padded(seconds, 2)]) == Some(v)
  {
    var h, m, s := Padded(hours, 2), Padded(minutes, 2), Padded(seconds, 2);
    IntValueOfPadded(hours);
    IntValueOfPadded(minutes);
    IntValueOfPadded(seconds);
    ParseOfThree([h, m, s], hours, minutes, seconds, v);
  }

  /**
   * The page generator reads back every stamp the transcriber writes, at any
   * length of recording: the split does not limit the number of hour digits.
   */
  lemma ParseFormatRoundTrip(ms: nat)
    ensures ParseTimestampToSeconds(FormatTimestamp(ms)) == Some(ms / 1000)
  {
    var c := ClockOf(ms);
    var h, m, s := Padded(c.hours, 2), Padded(c.minutes, 2), Padded(c.seconds, 2);
    var inner := h + ":" + m + ":" + s;
    assert FormatTimestamp(ms) == "[" + inner + "]";
    assert c.hours * 3600 + c.minutes * 60 + c.seconds == ms / 1000;
    PaddedPartsValue(c.hours, c.minutes, c.seconds, ms / 1000);
    ParseViaThree(FormatTimestamp(ms), inner, h, m, s, ms / 1000);
  }

  // ---------------------------------------------------------------------------
  // Clickable transcript lines of a file page
  // ---------------------------------------------------------------------------

  /** `[d:dd:dd]`, the hours taking one digit. */
  predicate IsShortHoursStamp(t: string) {
    |t| == 9 && t[0] == '[' && IsDigit(t[1]) && t[2] == ':' && IsDigit(t[3]) && IsDigit(t[4])
    && t[5] == ':' && IsDigit(t[6]) && IsDigit(t[7]) && t[8] == ']'
  }

  /** `[dd:dd]`. */
  predicate IsMinutesStamp(t: string) {
    |t| == 7 && t[0] == '[' && IsDigit(t[1]) && IsDigit(t[2]) && t[3] == ':'
    && IsDigit(t[4]) && IsDigit(t[5]) && t[6] == ']'
  }

  /** `[d:dd]`. */
  predicate IsShortMinutesStamp(t: string) {
    |t| == 6 && t[0] == '[' && IsDigit(t[1]) && t[2] == ':' && IsDigit(t[3]) && IsDigit(t[4]) && t[5] == ']'
  }

  /**
   * The length of the bracketed stamp `\[(\d{1,2}:\d{2}:\d{2}|\d{1,2}:\d{2})\]`
   * matches at the start of `t`, 0 when it does not match: the alternatives in
   * the pattern's order, the greedy `\d{1,2}` trying two digits before one;
   * `\d` is read as an ASCII digit.
   */
  function StampLength(t: string): (n: nat)
    ensures n == 0 || 6 <= n <= |t|
    ensures n == 10 <==> |t| >= 10 && IsBracketStamp(t[..10])
  {
    if |t| >= 10 && IsBracketStamp(t[..10]) then 10
    else if |t| >= 9 && IsShortHoursStamp(t[..9]) then 9
    else if |t| >= 7 && IsMinutesStamp(t[..7]) then 7
    else if |t| >= 6 && IsShortMinutesStamp(t[..6]) then 6
    else 0
  }

  /** The text inside a stamp of the three-field shape, its hours `hl` digits long, reads as its seconds. */
  lemma InnerThreeParses(stamp: string, hl: nat)
    requires hl == 1 || hl == 2
    requires |stamp| == hl + 6 && stamp[hl] == ':' && stamp[hl + 3] == ':'
    requires AllDigits(stamp[..hl]) && AllDigits(stamp[hl + 1..hl + 3]) && AllDigits(stamp[hl + 4..])
    ensures ParseTimestampToSeconds(stamp).Some?
  {
    var h, m, s := stamp[..hl], stamp[hl + 1..hl + 3], stamp[hl + 4..];
    assert stamp == h + ":" + m + ":" + s;
    var v := DigitsValue(h) * 3600 + DigitsValue(m) * 60 + DigitsValue(s);
    DigitPartsThree(h, m, s, v);
    ParseViaThree(stamp, stamp, h, m, s, v);
  }

  /** The text inside a stamp of the two-field shape, its minutes `ml` digits long, reads as its seconds. */
  lemma InnerTwoParses(stamp: string, ml: nat)
    requires ml == 1 || ml == 2
    requires |stamp| == ml + 3 && stamp[ml] == ':'
    requires AllDigits(stamp[..ml]) && AllDigits(stamp[ml + 1..])
    ensures ParseTimestampToSeconds(stamp).Some?
  {
    var m, s := stamp[..ml], stamp[ml + 1..];
    assert stamp == m + ":" + s;
    var v := DigitsValue(m) * 60 + DigitsValue(s);
    DigitPartsTwo(m, s, v);
    ParseViaTwo(stamp, stamp, m, s, v);
  }

  /** Whatever the pattern matched, `parse_timestamp_to_seconds` reads it without raising. */
  lemma MatchedStampParses(t: string)
    requires StampLength(t) > 0
    ensures ParseTimestampToSeconds(t[1..StampLength(t) - 1]).Some?
  {
    var n := StampLength(t);
    var stamp := t[1..n - 1];
    if n == 10 {
      assert forall i :: 0 <= i < 2 ==> stamp[..2][i] == t[1 + i];
      assert forall i :: 0 <= i < 2 ==> stamp[3..5][i] == t[4 + i] && stamp[6..][i] == t[7 + i];
      InnerThreeParses(stamp, 2);
    } else if n == 9 {
      assert forall i :: 0 <= i < 2 ==> stamp[2..4][i] == t[3 + i] && stamp[5..][i] == t[6 + i];
      assert stamp[..1][0] == t[1];
      InnerThreeParses(stamp, 1);
    } else if n == 7 {
      assert forall i :: 0 <= i < 2 ==> stamp[..2][i] == t[1 + i] && stamp[3..][i] == t[4 + i];
      InnerTwoParses(stamp, 2);
    } else {
      assert forall i :: 0 <= i < 2 ==> stamp[2..][i] == t[3 + i];
      assert stamp[..1][0] == t[1];
      InnerTwoParses(stamp, 1);
    }
  }

  /** One clickable line: the stamp as written, its `data-time` in seconds, and the text after it. */
  datatype Entry = Entry(stamp: string, seconds: int, text: string)

  /**
   * The match on a stripped transcript line: the stamp group, its seconds as
   * `parse_timestamp_to_seconds` reads them, and `(.*)` after `\s*`, which
   * stops at a line break.
   */
  function MatchEntry(t: string): (r: Option<Entry>)
    ensures r.Some? <==> StampLength(t) > 0
    ensures r.Some? ==> ParseTimestampToSeconds(r.value.stamp) == Some(r.value.seconds)
    ensures r.Some? ==> '\n' !in r.value.text
  {
    var n := StampLength(t);
    if n == 0 then None
    else
      var stamp := t[1..n - 1];
      MatchedStampParses(t);
      var rest := t[SpaceRunEnd(t, n)..];
      BeforeFirstLacks(rest, '\n');
      Some(Entry(stamp, ParseTimestampToSeconds(stamp).value, rest[..FirstIndexOf(rest, '\n')]))
  }

  lemma BeforeFirstLacks(s: string, c: char)
    ensures c !in s[..FirstIndexOf(s, c)]
  {
    var i := FirstIndexOf(s, c);
    assert forall k :: 0 <= k < i ==> s[..i][k] == s[k];
  }

  /** A line of the transcript file: stripped, skipped when blank, otherwise matched. */
  function LineEntry(line: string): (r: Option<Entry>)
    ensures Strip(line) == [] ==> r.None?
  {
    var t := Strip(line);
    if t == [] then None else MatchEntry(t)
  }

  /** The entries `f` finds in `lines`, in line order. */
  function Collect(lines: seq<string>, f: string -> Option<Entry>): (r: seq<Entry>)
    ensures |r| <= |lines|
  {
    if lines == [] then []
    else
      var e := f(lines[|lines| - 1]);
      Collect(lines[..|lines| - 1], f) + (if e.Some? then [e.value] else [])
  }

  /** The entries of a transcript, in line order. */
  function Entries(lines: seq<string>): (r: seq<Entry>)
    ensures |r| <= |lines|
  {
    Collect(lines, LineEntry)
  }

  /** One more line adds its entry, if it has one, at the end. */
  lemma CollectStep(lines: seq<string>, i: nat, f: string -> Option<Entry>)
    requires i < |lines|
    ensures Collect(lines[..i + 1], f) == Collect(lines[..i], f) + (if f(lines[i]).Some? then [f(lines[i]).value] else [])
  {
    var all := lines[..i + 1];
    assert all[..|all| - 1] == lines[..i];
  }

  /** The loop of `_get_file_page_template` over the transcript's lines. */
  method TranscriptEntries(lines: seq<string>) returns (entries: seq<Entry>)
    ensures entries == Entries(lines)
  {
    entries := [];
    for i := 0 to |lines|
      invariant entries == Entries(lines[..i])
    {
      var t := Strip(lines[i]);
      var e := None;
      if t != [] {
        e := MatchEntry(t);
      }
      assert e == LineEntry(lines[i]);
      CollectStep(lines, i, LineEntry);
      if e.Some? {
        entries := entries + [e.value];
      }
    }
    assert lines[..|lines|] == lines;
  }

  // ---------------------------------------------------------------------------
  // scan_folders
  // ---------------------------------------------------------------------------

  /** `str(rel_folder)`, or `root` for the input folder itself. */
  function FolderKey(rel: seq<string>): (k: string)
    ensures rel == [] ==> k == "root"
    ensures |rel| == 1 ==> k == rel[0]
  {
    if rel == [] then "root" else Join(rel, "/")
  }

  /** Files directly in the input folder and files in a sub-folder named `root` share one key. */
  lemma RootKeyShared()
    ensures FolderKey([]) == FolderKey(["root"])
  {
  }

  /** What `scan_folders` records about one audio file: its neighbours named after its stem. */
  datatype FileInfo = FileInfo(
    audio: Path, stem: string,
    hasTranscript: bool, hasSummaryNo: bool, hasSummaryEn: bool,
    transcript: Path, summaryNo: Path, summaryEn: Path)

  /** One entry of `folder_data`. */
  datatype FolderInfo = FolderInfo(path: seq<string>, rel: seq<string>, files: seq<FileInfo>, displayName: string)

  /** The record for `item`: `<stem>.txt`, `<stem>_no.md` and `<stem>_en.md` in its folder, and whether they exist. */
  function InfoOf(fs: set<Path>, item: Path): FileInfo {
    var t, n, e := Child(item.dir, item.Stem() + ".txt"), Child(item.dir, item.Stem() + "_no.md"), Child(item.dir, item.Stem() + "_en.md");
    FileInfo(item, item.Stem(), t in fs, n in fs, e in fs, t, n, e)
  }

  /** `item.suffix.lower() in self.audio_extensions`. */
  predicate IsAudio(item: Path, extensions: seq<string>) {
    Lower(item.Suffix()) in extensions
  }

  /** `item` lies somewhere below directory `input`. */
  predicate Below(item: Path, input: seq<string>) {
    |input| <= |item.dir| && item.dir[..|input|] == input
  }

  /** Every path `rglob` yields lies below the input folder. */
  predicate AllBelow(items: seq<Path>, input: seq<string>) {
    forall j :: 0 <= j < |items| ==> Below(items[j], input)
  }

  /** The folder of `item` relative to `input`. */
  function RelOf(item: Path, input: seq<string>): seq<string>
    requires Below(item, input)
  {
    item.dir[|input|..]
  }

  /** `item.parent.relative_to(input)` succeeds on an item below `input`, giving its relative folder. */
  lemma RelOfIsRelativeTo(item: Path, input: seq<string>)
    requires Below(item, input)
    ensures RelativeTo(item, input) == Ok(RelOf(item, input))
  {
  }

  /** The audio files among `items`, in order. */
  function AudioItems(items: seq<Path>, extensions: seq<string>): (r: seq<Path>)
    ensures |r| <= |items|
  {
    if items == [] then []
    else
      var last := items[|items| - 1];
      AudioItems(items[..|items| - 1], extensions) + (if IsAudio(last, extensions) then [last] else [])
  }

  /** The folder key of an item below the input folder. */
  function KeyOf(item: Path, input: seq<string>): string
    requires Below(item, input)
  {
    FolderKey(RelOf(item, input))
  }

  /** The audio files among `items` whose folder key is `k`, in order. */
  function InFolder(items: seq<Path>, input: seq<string>, extensions: seq<string>, k: string): (r: seq<Path>)
    requires AllBelow(items, input)
  {
    if items == [] then []
    else
      var last := items[|items| - 1];
      InFolder(items[..|items| - 1], input, extensions, k)
      + (if IsAudio(last, extensions) && KeyOf(last, input) == k then [last] else [])
  }

  /** The records of `items`, in order. */
  function Infos(fs: set<Path>, items: seq<Path>): (r: seq<FileInfo>)
    ensures |r| == |items|
  {
    if items == [] then [] else Infos(fs, items[..|items| - 1]) + [InfoOf(fs, items[|items| - 1])]
  }

  /** The entry made for the folder of `item` on first sight: named `Root` for the input folder, else after the folder. */
  function NewFolder(item: Path, rel: seq<string>): FolderInfo
    requires |rel| <= |item.dir|
  {
    FolderInfo(item.dir, rel, [], if rel == [] then "Root" else item.dir[|item.dir| - 1])
  }

  /**
   * One iteration of the loop of `scan_folders` on an audio file: its folder's
   * entry is created on first sight (named `Root` for the input folder, else
   * after the folder), and its record is appended.
   */
  function AddFile(m: map<string, FolderInfo>, fs: set<Path>, input: seq<string>, item: Path): (r: map<string, FolderInfo>)
    requires Below(item, input)
    ensures r.Keys == m.Keys + {KeyOf(item, input)}
    ensures forall k :: k in m && k != KeyOf(item, input) ==> r[k] == m[k]
    ensures var k := KeyOf(item, input);
      r[k].files == (if k in m then m[k].files else []) + [InfoOf(fs, item)]
  {
    var rel := RelOf(item, input);
    var k := FolderKey(rel);
    var entry := if k in m then m[k] else NewFolder(item, rel);
    m[k := entry.(files := entry.files + [InfoOf(fs, item)])]
  }

  /** `folder_data` after the loop of `scan_folders` has seen `items`. */
  function Grouped(fs: set<Path>, input: seq<string>, extensions: seq<string>, items: seq<Path>): (m: map<string, FolderInfo>)
    requires AllBelow(items, input)
  {
    if items == [] then map[]
    else
      var last := items[|items| - 1];
      var m := Grouped(fs, input, extensions, items[..|items| - 1]);
      if IsAudio(last, extensions) then AddFile(m, fs, input, last) else m
  }

  /** One more item extends the audio files and the grouping by that item alone. */
  lemma GroupedAppend(fs: set<Path>, input: seq<string>, extensions: seq<string>, prefix: seq<Path>, item: Path)
    requires AllBelow(prefix + [item], input)
    ensures AllBelow(prefix, input)
    ensures AudioItems(prefix + [item], extensions)
      == AudioItems(prefix, extensions) + (if IsAudio(item, extensions) then [item] else [])
    ensures Grouped(fs, input, extensions, prefix + [item])
      == if IsAudio(item, extensions) then AddFile(Grouped(fs, input, extensions, prefix), fs, input, item)
         else Grouped(fs, input, extensions, prefix)
  {
    var all := prefix + [item];
    assert all[..|all| - 1] == prefix;
    assert all[|all| - 1] == item;
    forall j | 0 <= j < |prefix| ensures Below(prefix[j], input) {
      assert prefix[j] == all[j];
    }
  }

  /** The same step, for the prefixes of the scanned items. */
  lemma GroupedStep(fs: set<Path>, input: seq<string>, extensions: seq<string>, items: seq<Path>, i: nat)
    requires AllBelow(items, input) && i < |items|
    ensures AllBelow(items[..i], input) && AllBelow(items[..i + 1], input) && Below(items[i], input)
    ensures AudioItems(items[..i + 1], extensions)
      == AudioItems(items[..i], extensions) + (if IsAudio(items[i], extensions) then [items[i]] else [])
    ensures Grouped(fs, input, extensions, items[..i + 1])
      == if IsAudio(items[i], extensions) then AddFile(Grouped(fs, input, extensions, items[..i]), fs, input, items[i])
         else Grouped(fs, input, extensions, items[..i])
  {
    var prefix, item := items[..i], items[i];
    assert items[..i + 1] == prefix + [item];
    forall j | 0 <= j < i + 1 ensures Below((prefix + [item])[j], input) {
      assert (prefix + [item])[j] == items[j];
    }
    GroupedAppend(fs, input, extensions, prefix, item);
  }

  /** The body of the loop of `scan_folders` for an audio file. */
  method AddToFolders(folders: map<string, FolderInfo>, fs: set<Path>, input: seq<string>, item: Path)
    returns (r: map<string, FolderInfo>)
    requires Below(item, input)
    ensures r == AddFile(folders, fs, input, item)
  {
    RelOfIsRelativeTo(item, input);
    var rel := RelativeTo(item, input).value;
    var k := FolderKey(rel);
    var entry := if k in folders then folders[k] else NewFolder(item, rel);
    r := folders[k := entry.(files := entry.files + [InfoOf(fs, item)])];
  }

  /** `scan_folders`: `folder_data` and `total_files`, `items` standing for what `rglob("*")` yields that is a file. */
  method ScanFolders(fs: set<Path>, input: seq<string>, extensions: seq<string>, items: seq<Path>)
    returns (folders: map<string, FolderInfo>, total: nat)
    requires AllBelow(items, input)
    ensures folders == Grouped(fs, input, extensions, items)
    ensures total == |AudioItems(items, extensions)|
  {
    folders := map[];
    total := 0;
    ghost var audio: seq<Path> := [];
    var i := 0;
    while i < |items|
      invariant 0 <= i <= |items|
      invariant folders == Grouped(fs, input, extensions, items[..i])
      invariant audio == AudioItems(items[..i], extensions) && total == |audio|
    {
      var item := items[i];
      GroupedStep(fs, input, extensions, items, i);
      if IsAudio(item, extensions) {
        folders := AddToFolders(folders, fs, input, item);
        total := total + 1;
        audio := audio + [item];
      }
      i := i + 1;
    }
    assert items[..i] == items;
  }

  /** Records of a list with one more item. */
  lemma InfosAppend(fs: set<Path>, items: seq<Path>, item: Path)
    ensures Infos(fs, items + [item]) == Infos(fs, items) + [InfoOf(fs, item)]
  {
    assert (items + [item])[..|items|] == items;
  }

  /**
   * Each audio file of the scan is recorded exactly once, in the list of its own
   * folder, in the order `rglob` yields it; a key has an entry exactly when
   * some audio file lies in that folder.
   */
  lemma {:induction false} GroupedByFolder(fs: set<Path>, input: seq<string>, extensions: seq<string>, items: seq<Path>, k: string)
    requires AllBelow(items, input)
    ensures k in Grouped(fs, input, extensions, items) <==> InFolder(items, input, extensions, k) != []
    ensures k in Grouped(fs, input, extensions, items)
      ==> Grouped(fs, input, extensions, items)[k].files == Infos(fs, InFolder(items, input, extensions, k))
  {
    if items != [] {
      var prefix, last := items[..|items| - 1], items[|items| - 1];
      assert items == prefix + [last];
      GroupedAppend(fs, input, extensions, prefix, last);
      GroupedByFolder(fs, input, extensions, prefix, k);
      var m, r := Grouped(fs, input, extensions, prefix), Grouped(fs, input, extensions, items);
      var f, g := InFolder(prefix, input, extensions, k), InFolder(items, input, extensions, k);
      if IsAudio(last, extensions) && KeyOf(last, input) == k {
        assert g == f + [last];
        InfosAppend(fs, f, last);
        assert r[k].files == (if k in m then m[k].files else []) + [InfoOf(fs, last)];
        assert (if k in m then m[k].files else []) == Infos(fs, f);
      } else {
        assert g == f;
        assert k in r <==> k in m;
        assert k in r ==> r[k] == m[k];
      }
    }
  }

  /** The counters of `_get_hovedindex_template`: all files, transcribed, Norwegian and English summaries. */
  datatype Stat = Files | Transcribed | SummarizedNo | SummarizedEn

  predicate Counted(f: FileInfo, s: Stat) {
    match s
    case Files => true
    case Transcribed => f.hasTranscript
    case SummarizedNo => f.hasSummaryNo
    case SummarizedEn => f.hasSummaryEn
  }

  /** The number of records in `files` that counter `s` counts. */
  function CountIn(files: seq<FileInfo>, s: Stat): (n: nat)
    ensures n <= |files|
    ensures s == Files ==> n == |files|
  {
    if files == [] then 0
    else CountIn(files[..|files| - 1], s) + (if Counted(files[|files| - 1], s) then 1 else 0)
  }

  lemma CountInAppend(files: seq<FileInfo>, f: FileInfo, s: Stat)
    ensures CountIn(files + [f], s) == CountIn(files, s) + (if Counted(f, s) then 1 else 0)
  {
    assert (files + [f])[..|files|] == files;
  }

  /** The sum of counter `s` over the folders `keys` of `m`, taken in any order, as a sum over a dict's values is. */
  ghost function TallyOver(m: map<string, FolderInfo>, keys: set<string>, s: Stat): nat
    requires keys <= m.Keys
    decreases keys
  {
    if keys == {} then 0
    else
      var k :| k in keys;
      CountIn(m[k].files, s) + TallyOver(m, keys - {k}, s)
  }

  /** `sum(1 for f in folder_data.values() for file in f['files'] if ...)`. */
  ghost function Tally(m: map<string, FolderInfo>, s: Stat): nat {
    TallyOver(m, m.Keys, s)
  }

  /** The sum does not depend on which folder is taken first. */
  lemma {:induction false} TallyOverRemove(m: map<string, FolderInfo>, keys: set<string>, k: string, s: Stat)
    requires keys <= m.Keys && k in keys
    ensures TallyOver(m, keys, s) == CountIn(m[k].files, s) + TallyOver(m, keys - {k}, s)
    decreases keys
  {
    var j :| j in keys && TallyOver(m, keys, s) == CountIn(m[j].files, s) + TallyOver(m, keys - {j}, s);
    if j != k {
      TallyOverRemove(m, keys - {j}, k, s);
      TallyOverRemove(m, keys - {k}, j, s);
      assert keys - {j} - {k} == keys - {k} - {j};
    }
  }

  /** The sum over `keys` only reads the folders of `keys`. */
  lemma {:induction false} TallyOverFrame(m: map<string, FolderInfo>, n: map<string, FolderInfo>, keys: set<string>, s: Stat)
    requires keys <= m.Keys && keys <= n.Keys
    requires forall k :: k in keys ==> m[k] == n[k]
    ensures TallyOver(m, keys, s) == TallyOver(n, keys, s)
    decreases keys
  {
    if keys != {} {
      var k :| k in keys;
      TallyOverRemove(m, keys, k, s);
      TallyOverRemove(n, keys, k, s);
      TallyOverFrame(m, n, keys - {k}, s);
    }
  }

  /** Replacing one folder's entry changes the sum by that folder's difference. */
  lemma TallyUpdate(m: map<string, FolderInfo>, k: string, v: FolderInfo, s: Stat)
    ensures Tally(m[k := v], s) + (if k in m then CountIn(m[k].files, s) else 0) == Tally(m, s) + CountIn(v.files, s)
  {
    var n := m[k := v];
    TallyOverRemove(n, n.Keys, k, s);
    TallyOverFrame(m, n, m.Keys - {k}, s);
    if k in m {
      TallyOverRemove(m, m.Keys, k, s);
      assert n.Keys - {k} == m.Keys - {k};
    } else {
      assert n.Keys - {k} == m.Keys;
      assert m.Keys - {k} == m.Keys;
    }
  }

  /** Adding one file to its folder raises a counter's sum by one exactly when that file is counted. */
  lemma TallyAddFile(m: map<string, FolderInfo>, fs: set<Path>, input: seq<string>, item: Path, s: Stat)
    requires Below(item, input)
    ensures Tally(AddFile(m, fs, input, item), s) == Tally(m, s) + (if Counted(InfoOf(fs, item), s) then 1 else 0)
  {
    var r := AddFile(m, fs, input, item);
    var k := KeyOf(item, input);
    var before := if k in m then m[k].files else [];
    var entry := r[k];
    assert r == m[k := entry];
    TallyUpdate(m, k, entry, s);
    CountInAppend(before, InfoOf(fs, item), s);
  }

  /** Every counter summed over the folders equals the same counter over all audio files of the scan. */
  lemma {:induction false} GroupedTally(fs: set<Path>, input: seq<string>, extensions: seq<string>, items: seq<Path>, s: Stat)
    requires AllBelow(items, input)
    ensures Tally(Grouped(fs, input, extensions, items), s) == CountIn(Infos(fs, AudioItems(items, extensions)), s)
  {
    if items == [] {
      var m := Grouped(fs, input, extensions, items);
      assert m == map[];
      assert TallyOver(m, m.Keys, s) == 0;
    } else {
      var prefix, last := items[..|items| - 1], items[|items| - 1];
      assert items == prefix + [last];
      GroupedAppend(fs, input, extensions, prefix, last);
      GroupedTally(fs, input, extensions, prefix, s);
      GroupedTallyStep(fs, input, extensions, prefix, last, s);
    }
  }

  /** The inductive step of `GroupedTally`: one more scanned item keeps the two counts equal. */
  lemma GroupedTallyStep(fs: set<Path>, input: seq<string>, extensions: seq<string>, prefix: seq<Path>, last: Path, s: Stat)
    requires AllBelow(prefix + [last], input) && AllBelow(prefix, input)
    requires Tally(Grouped(fs, input, extensions, prefix), s) == CountIn(Infos(fs, AudioItems(prefix, extensions)), s)
    ensures Tally(Grouped(fs, input, extensions, prefix + [last]), s)
      == CountIn(Infos(fs, AudioItems(prefix + [last], extensions)), s)
  {
    GroupedAppend(fs, input, extensions, prefix, last);
    var m, r := Grouped(fs, input, extensions, prefix), Grouped(fs, input, extensions, prefix + [last]);
    var a, b := AudioItems(prefix, extensions), AudioItems(prefix + [last], extensions);
    if IsAudio(last, extensions) {
      AudioStep(m, fs, input, a, last, s);
    } else {
      assert r == m && b == a;
    }
  }

  /** An audio item adds its record to the folders and to the audio files alike. */
  lemma AudioStep(m: map<string, FolderInfo>, fs: set<Path>, input: seq<string>, a: seq<Path>, last: Path, s: Stat)
    requires Below(last, input)
    requires Tally(m, s) == CountIn(Infos(fs, a), s)
    ensures Tally(AddFile(m, fs, input, last), s) == CountIn(Infos(fs, a + [last]), s)
  {
    TallyAddFile(m, fs, input, last, s);
    InfosAppend(fs, a, last);
    CountInAppend(Infos(fs, a), InfoOf(fs, last), s);
  }

  /**
   * `total_files` is the sum of the lengths of all file lists, and the
   * transcribed, Norwegian-summary and English-summary counts never exceed it.
   */
  lemma HovedindexStats(fs: set<Path>, input: seq<string>, extensions: seq<string>, items: seq<Path>, s: Stat)
    requires AllBelow(items, input)
    ensures Tally(Grouped(fs, input, extensions, items), Files) == |AudioItems(items, extensions)|
    ensures Tally(Grouped(fs, input, extensions, items), s) <= |AudioItems(items, extensions)|
  {
    GroupedTally(fs, input, extensions, items, Files);
    GroupedTally(fs, input, extensions, items, s);
  }

  // ---------------------------------------------------------------------------
  // Theme suffix of the generated pages
  // ---------------------------------------------------------------------------

  /** `theme_suffix`: `-n` for the nostalgia theme, `-m` for any other (also for `None`, the empty text here). */
  function ThemeSuffix(theme: string): (r: string)
    ensures |r| == 2 && r[0] == '-'
    ensures r == "-n" <==> theme == "nostalgia"
  {
    if theme == "nostalgia" then "-n" else "-m"
  }

  /** The name `generate_folder_index` writes, and the one the file pages link to. */
  function FolderIndexName(theme: string): string {
    "folder_index" + ThemeSuffix(theme) + ".html"
  }

  /** The name `generate_file_page` writes, and the link of the file's card in its folder index. */
  function FilePageName(stem: string, theme: string): string {
    stem + ThemeSuffix(theme) + ".html"
  }

  /**
   * Two file pages share a name only for the same stem under the same kind of
   * theme, so the nostalgia and modern passes never overwrite each other's pages.
   */
  lemma FilePageNameInjective(stem1: string, theme1: string, stem2: string, theme2: string)
    requires FilePageName(stem1, theme1) == FilePageName(stem2, theme2)
    ensures stem1 == stem2
    ensures (theme1 == "nostalgia") == (theme2 == "nostalgia")
  {
    var a, b := FilePageName(stem1, theme1), FilePageName(stem2, theme2);
    var s1, s2 := ThemeSuffix(theme1), ThemeSuffix(theme2);
    assert |stem1| == |stem2|;
    assert a[..|stem1|] == stem1 && b[..|stem2|] == stem2;
    assert a[|stem1| + 1] == s1[1] && b[|stem2| + 1] == s2[1];
    assert s1 == [s1[0], s1[1]] && s2 == [s2[0], s2[1]];
  }

  /** The two theme passes write different folder indexes. */
  lemma FolderIndexNamesDiffer(theme1: string, theme2: string)
    requires (theme1 == "nostalgia") != (theme2 == "nostalgia")
    ensures FolderIndexName(theme1) != FolderIndexName(theme2)
  {
    var a, b := FolderIndexName(theme1), FolderIndexName(theme2);
    assert a[13] == ThemeSuffix(theme1)[1] && b[13] == ThemeSuffix(theme2)[1];
  }

  // ---------------------------------------------------------------------------
  // Breadcrumb of a folder index
  // ---------------------------------------------------------------------------

  /** A piece of the breadcrumb; `CrumbHtml` is the markup each one stands for. */
  datatype Crumb = Home | Plain(part: string) | Bold(part: string)

  function CrumbHtml(c: Crumb): string {
    match c
    case Home => "<a href=\"../hovedindex.html\">\U{1F3E0} Home</a>"
    case Plain(part) => " / " + part
    case Bold(part) => " / <strong>" + part + "</strong>"
  }

  /** The crumb of the part at index `i` of `parts`. */
  function CrumbAt(parts: seq<string>, i: nat): (r: Crumb)
    requires i < |parts|
    ensures !r.Home? && r.part == parts[i]
    ensures r.Bold? <==> i == |parts| - 1
  {
    if i == |parts| - 1 then Bold(parts[i]) else Plain(parts[i])
  }

  /**
   * The breadcrumb loop of `_get_folder_index_template`: home, then for a
   * sub-folder every part of its relative path in order, only the last one bold.
   */
  method Breadcrumb(key: string, parts: seq<string>) returns (breadcrumb: seq<Crumb>)
    ensures |breadcrumb| == (if key == "root" then 1 else |parts| + 1) && breadcrumb[0] == Home
    ensures key != "root" ==> forall i :: 1 <= i < |breadcrumb| ==> breadcrumb[i] == CrumbAt(parts, i - 1)
  {
    breadcrumb := [Home];
    if key != "root" {
      var i := 0;
      while i < |parts|
        invariant 0 <= i <= |parts| && |breadcrumb| == i + 1 && breadcrumb[0] == Home
        invariant forall j :: 1 <= j <= i ==> breadcrumb[j] == CrumbAt(parts, j - 1)
      {
        if i == |parts| - 1 {
          breadcrumb := breadcrumb + [Bold(parts[i])];
        } else {
          breadcrumb := breadcrumb + [Plain(parts[i])];
        }
        i := i + 1;
      }
    }
  }

  // ---------------------------------------------------------------------------
  // Status badges of a folder card on the main index
  // ---------------------------------------------------------------------------

  /** A success badge of a card; `BadgeHtml` is the span each one stands for. */
  datatype Badge = TranscriptDone | NorwegianDone | EnglishDone

  function BadgeHtml(b: Badge): string {
    match b
    case TranscriptDone => "<span class=\"status-badge status-success\">✓ Transcript</span>"
    case NorwegianDone => "<span class=\"status-badge status-success\">✓ NO</span>"
    case EnglishDone => "<span class=\"status-badge status-success\">✓ EN</span>"
  }

  /** The badges of one file: one per artefact it has, in the order transcript, Norwegian, English. */
  function SuccessBadges(f: FileInfo): (r: seq<Badge>)
    ensures TranscriptDone in r <==> f.hasTranscript
    ensures NorwegianDone in r <==> f.hasSummaryNo
    ensures EnglishDone in r <==> f.hasSummaryEn
    ensures |r| <= 3
  {
    (if f.hasTranscript then [TranscriptDone] else [])
    + (if f.hasSummaryNo then [NorwegianDone] else [])
    + (if f.hasSummaryEn then [EnglishDone] else [])
  }

  /**
   * The badge loop of `_get_hovedindex_template`, which breaks after its first
   * iteration: a folder card shows the badges of its first file only, and none
   * for a folder without files.
   */
  method FolderCardBadges(files: seq<FileInfo>) returns (badges: seq<Badge>)
    ensures files == [] ==> badges == []
    ensures files != [] ==> badges == SuccessBadges(files[0])
  {
    badges := [];
    // The loop body runs for the first file and then breaks.
    if files != [] {
      var file := files[0];
      if file.hasTranscript {
        badges := badges + [TranscriptDone];
      }
      if file.hasSummaryNo {
        badges := badges + [NorwegianDone];
      }
      if file.hasSummaryEn {
        badges := badges + [EnglishDone];
      }
    }
  }
}
