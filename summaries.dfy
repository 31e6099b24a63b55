/**
 * The two summary scripts, `regenerate_summaries.py` and `summary_only.py`:
 * where a summary of a transcript is looked for and written, the plain text
 * they extract from a transcript, the word-count gate, the language names and
 * sampling temperatures, the line classification of the Word document, and
 * the per-language loop.  The Ollama request is an oracle: the set of
 * languages for which it answers.
 */
module Summaries {

  import opened Wrappers
  import opened Strings
  import opened Timestamps
  import opened Paths

  // ---------------------------------------------------------------------------
  // Summary file names, regenerate_summaries.py
  // ---------------------------------------------------------------------------

  /** Whether a language's summary sits next to the transcript under the transcript's own stem. */
  predicate IsPrimaryName(lang: string) {
    lang == "no" || lang == "primary"
  }

  /**
   * The `.docx` that `should_skip_summary` looks for: the transcript path with
   * suffix `.docx` for `no` and `primary`, `<stem>_<lang>.docx` beside it otherwise.
   */
  function RegenSkipPath(out: Path, lang: string): (r: Result<Path>)
    ensures r.Ok? <==> out.name != [] || !IsPrimaryName(lang)
  {
    if IsPrimaryName(lang) then out.WithSuffix(".docx")
    else Ok(Child(out.dir, out.Stem() + "_" + lang + ".docx"))
  }

  /** The two files a generated summary is written to. */
  datatype SummaryFiles = SummaryFiles(docx: Path, md: Path)

  /** The paths `generate_summary_for_language` writes, named a second time in the source. */
  function RegenWritePaths(out: Path, lang: string): (r: Result<SummaryFiles>)
  {
    if IsPrimaryName(lang) then
      match out.WithSuffix(".docx")
      case Err(e) => Err(e)
      case Ok(docx) =>
        match out.WithSuffix(".md")
        case Err(e) => Err(e)
        case Ok(md) => Ok(SummaryFiles(docx, md))
    else
      Ok(SummaryFiles(Child(out.dir, out.Stem() + "_" + lang + ".docx"), Child(out.dir, out.Stem() + "_" + lang + ".md")))
  }

  /**
   * The skip check looks at exactly the `.docx` that generation later writes,
   * and the `.md` sits in the same folder under the same stem.
   */
  lemma SkipPathIsWrittenPath(out: Path, lang: string)
    requires out.name != []
    ensures RegenSkipPath(out, lang).Ok? && RegenWritePaths(out, lang).Ok?
    ensures RegenSkipPath(out, lang).value == RegenWritePaths(out, lang).value.docx
    ensures var w := RegenWritePaths(out, lang).value;
      w.md.dir == w.docx.dir == out.dir && w.md.Stem() == w.docx.Stem()
      && w.docx.Suffix() == ".docx" && w.md.Suffix() == ".md"
  {
    StemNonEmpty(out);
    if IsPrimaryName(lang) {
      PrimaryPaths(out, lang);
    } else {
      LanguagePaths(out, lang);
    }
  }

  lemma PrimaryPaths(out: Path, lang: string)
    requires out.name != [] && IsPrimaryName(lang)
    ensures RegenWritePaths(out, lang).Ok?
    ensures var w := RegenWritePaths(out, lang).value;
      w.docx == out.WithSuffix(".docx").value && w.md.dir == w.docx.dir == out.dir && w.md.Stem() == w.docx.Stem()
      && w.docx.Suffix() == ".docx" && w.md.Suffix() == ".md"
  {
    MdIsDotted();
    DocxIsDotted();
    WithSuffixDotted(out, ".docx");
    WithSuffixDotted(out, ".md");
  }

  lemma LanguagePaths(out: Path, lang: string)
    requires out.name != [] && !IsPrimaryName(lang)
    ensures var w := RegenWritePaths(out, lang).value;
      w.md.dir == w.docx.dir == out.dir && w.md.Stem() == w.docx.Stem()
      && w.docx.Suffix() == ".docx" && w.md.Suffix() == ".md"
  {
    StemNonEmpty(out);
    var base := out.Stem() + "_" + lang;
    var docx, md := Child(out.dir, base + ".docx"), Child(out.dir, base + ".md");
    NameParts(docx, base, ".docx");
    NameParts(md, base, ".md");
  }

  /** `should_skip_summary` of `regenerate_summaries.py`; `Err` is the exception `with_suffix` raises on an empty name. */
  function RegenShouldSkip(fs: set<Path>, out: Path, lang: string, force: bool): (r: Result<bool>)
    ensures force ==> r == Ok(false)
    ensures !force && out.name != [] ==> r == Ok(RegenSkipPath(out, lang).value in fs)
  {
    if force then Ok(false)
    else
      match RegenSkipPath(out, lang)
      case Err(e) => Err(e)
      case Ok(p) => Ok(p in fs)
  }

  // ---------------------------------------------------------------------------
  // Summary file names, summary_only.py
  // ---------------------------------------------------------------------------

  /**
   * The `.md` path of `summary_only.py` as written: `with_suffix('.md')` for
   * `primary`, `with_suffix('_<lang>.md')` for any other language.
   */
  function OnlySummaryPath(out: Path, lang: string): (r: Result<Path>)
  {
    if lang == "primary" then out.WithSuffix(".md") else out.WithSuffix("_" + lang + ".md")
  }

  /** `with_suffix` rejects a suffix that does not start with a dot: every non-primary language raises. */
  lemma OnlySummaryPathRaises(out: Path, lang: string)
    ensures lang != "primary" ==> OnlySummaryPath(out, lang).Err?
  {
    assert ("_" + lang + ".md")[0] == '_';
  }

  /** `should_skip_summary` of `summary_only.py` as written; the exception is not caught there. */
  function OnlyShouldSkip(fs: set<Path>, out: Path, lang: string, force: bool): (r: Result<bool>)
    ensures force ==> r == Ok(false)
    ensures !force && lang != "primary" ==> r.Err?
    ensures !force && lang == "primary" ==> (r.Ok? <==> out.name != [])
    ensures !force && lang == "primary" && out.name != [] ==> r == Ok(IntendedSummaryPath(out, lang) in fs)
  {
    OnlySummaryPathRaises(out, lang);
    if force then Ok(false)
    else
      match OnlySummaryPath(out, lang)
      case Err(e) => Err(e)
      case Ok(p) => Ok(p in fs)
  }

  /** Without `--force`, the skip check raises on the first language that is not `primary`. */
  lemma OnlySkipCheckRaises(fs: set<Path>, out: Path, lang: string)
    requires lang != "primary"
    ensures OnlyShouldSkip(fs, out, lang, false).Err?
  {
    OnlySummaryPathRaises(out, lang);
  }

  /** The evidently intended path: `<stem>.md` for `primary`, `<stem>_<lang>.md` beside the transcript otherwise. */
  function IntendedSummaryPath(out: Path, lang: string): Path {
    if lang == "primary" then Child(out.dir, out.Stem() + ".md")
    else Child(out.dir, out.Stem() + "_" + lang + ".md")
  }

  /**
   * The intended path never fails, lies beside the transcript, has suffix `.md`,
   * agrees with `with_suffix('.md')` for `primary` and with the naming of
   * `regenerate_summaries.py` for every other language but `no`.
   */
  lemma IntendedSummaryPathSound(out: Path, lang: string)
    requires out.name != []
    ensures IntendedSummaryPath(out, lang).dir == out.dir
    ensures IntendedSummaryPath(out, lang).Suffix() == ".md"
    ensures lang == "primary" ==> OnlySummaryPath(out, lang) == Ok(IntendedSummaryPath(out, lang))
    ensures !IsPrimaryName(lang) ==> RegenWritePaths(out, lang).value.md == IntendedSummaryPath(out, lang)
  {
    if lang == "primary" {
      IntendedPrimary(out);
    } else {
      IntendedLanguage(out, lang);
    }
  }

  lemma IntendedPrimary(out: Path)
    requires out.name != []
    ensures var p := IntendedSummaryPath(out, "primary");
      p.Suffix() == ".md" && out.WithSuffix(".md") == Ok(p)
  {
    MdIsDotted();
    WithSuffixDotted(out, ".md");
  }

  lemma MdIsDotted()
    ensures Dotted(".md")
  {
    assert ".md"[1..] == "md";
  }

  lemma DocxIsDotted()
    ensures Dotted(".docx")
  {
    assert ".docx"[1..] == "docx";
  }

  lemma IntendedLanguage(out: Path, lang: string)
    requires out.name != [] && lang != "primary"
    ensures var p := IntendedSummaryPath(out, lang);
      p.Suffix() == ".md" && p == Path(out.dir, out.Stem() + "_" + lang + ".md")
  {
    StemNonEmpty(out);
    var base := out.Stem() + "_" + lang;
    NameParts(Path(out.dir, base + ".md"), base, ".md");
  }

  /** Different languages get different intended paths. */
  lemma IntendedSummaryPathsDistinct(out: Path, lang1: string, lang2: string)
    requires lang1 != lang2
    ensures IntendedSummaryPath(out, lang1) != IntendedSummaryPath(out, lang2)
  {
    var stem := out.Stem();
    var n1, n2 := IntendedSummaryPath(out, lang1).name, IntendedSummaryPath(out, lang2).name;
    if lang1 != "primary" && lang2 != "primary" && |lang1| == |lang2| {
      var lo, hi := |stem| + 1, |stem| + 1 + |lang1|;
      assert n1[lo..hi] == lang1;
      assert n2[lo..hi] == lang2;
    } else {
      assert |n1| != |n2|;
    }
  }

  /** `should_skip_summary` of `summary_only.py` with the intended path. */
  function IntendedShouldSkip(fs: set<Path>, out: Path, lang: string, force: bool): (r: bool)
    ensures r ==> IntendedSummaryPath(out, lang) in fs
    ensures force ==> !r
    ensures !force && IntendedSummaryPath(out, lang) in fs ==> r
  {
    !force && IntendedSummaryPath(out, lang) in fs
  }

  // ---------------------------------------------------------------------------
  // Language names and sampling temperature
  // ---------------------------------------------------------------------------

  /** The display name both scripts give a language code: Norwegian, English, or the code in capitals. */
  function LanguageName(lang: string): (r: string)
    ensures lang != "no" && lang != "en" ==> |r| == |lang|
  {
    if lang == "no" then "Norwegian"
    else if lang == "en" then "English"
    else Upper(lang)
  }

  /** Only `no` is called Norwegian and only `en` English: an upper-cased code has no lower-case ASCII letter. */
  lemma LanguageNameNamesOnlyItsCode(lang: string)
    ensures LanguageName(lang) == "Norwegian" <==> lang == "no"
    ensures LanguageName(lang) == "English" <==> lang == "en"
  {
    var r := LanguageName(lang);
    if lang != "no" && lang != "en" && |lang| >= 2 {
      assert r[1] == ToUpperChar(lang[1]) && !IsAsciiLower(r[1]);
      assert "Norwegian"[1] == 'o' && "English"[1] == 'n';
    }
  }

  /** Temperature of the regenerate request, in tenths: 0.5 for Norwegian, 0.7 otherwise. */
  function RegenTemperature(lang: string): (r: nat)
    ensures r == 5 <==> lang == "no"
    ensures r == 5 || r == 7
  {
    if lang == "no" then 5 else 7
  }

  /** Temperature of the `summary_only.py` request, in tenths: always 0.7. */
  function OnlyTemperature(lang: string): (r: nat) {
    7
  }

  /** The two scripts ask for the same temperature for every language except Norwegian. */
  lemma TemperaturesAgreeExceptNorwegian(lang: string)
    ensures RegenTemperature(lang) == OnlyTemperature(lang) <==> lang != "no"
  {
  }

  // ---------------------------------------------------------------------------
  // Timestamp removal: the two regular expressions of the extraction loop
  // ---------------------------------------------------------------------------

  /** `\[\d{2}:\d{2}:\d{2}\]` and `\[\d+\.?\d*s?\]`. */
  datatype Pattern = ClockStamp | SecondsMark

  /** Where the run of digits starting at `k` ends. */
  function DigitRunEnd(s: string, k: nat): (j: nat)
    requires k <= |s|
    ensures k <= j <= |s|
    ensures j == |s| || !IsDigit(s[j])
    ensures forall i :: k <= i < j ==> IsDigit(s[i])
    decreases |s| - k
  {
    if k == |s| || !IsDigit(s[k]) then k else DigitRunEnd(s, k + 1)
  }

  /**
   * The length of the match of `p` at the start of `s`, 0 when there is none.
   * Both patterns end at a `]` that none of their inner characters can be, so
   * the match at a position is unique and a left-to-right scan finds it.
   */
  function MatchLen(p: Pattern, s: string): (n: nat)
    ensures n <= |s|
    ensures n > 0 ==> n >= 3 && s[0] == '[' && s[n - 1] == ']'
  {
    match p
    case ClockStamp =>
      if |s| >= 10 && IsBracketStamp(s[..10]) then 10 else 0
    case SecondsMark =>
      if s == [] || s[0] != '[' then 0
      else
        var a := DigitRunEnd(s, 1);
        var b := if a < |s| && s[a] == '.' then DigitRunEnd(s, a + 1) else a;
        var c := if b < |s| && s[b] == 's' then b + 1 else b;
        if a > 1 && c < |s| && s[c] == ']' then c + 1 else 0
  }

  /** The text between the brackets of `\[\d+\.?\d*s?\]`, without its optional `s`: digits first, at most one dot. */
  predicate SecondsBody(body: string) {
    body != [] && IsDigit(body[0])
    && (forall i :: 0 <= i < |body| ==> IsDigit(body[i]) || body[i] == '.')
    && (forall i, j :: 0 <= i < j < |body| && body[i] == '.' ==> body[j] != '.')
  }

  /** The strings `\[\d+\.?\d*s?\]` matches in full. */
  predicate SecondsShape(t: string) {
    |t| >= 3 && t[0] == '[' && t[|t| - 1] == ']'
    && (SecondsBody(t[1..|t| - 1]) || (t[|t| - 2] == 's' && SecondsBody(t[1..|t| - 2])))
  }

  /** The scan finds a seconds mark exactly when a prefix has the shape, and then of that prefix's length. */
  lemma SecondsMatchIsShape(s: string, n: nat)
    requires 0 < n <= |s|
    ensures MatchLen(SecondsMark, s) == n <==> SecondsShape(s[..n])
  {
    if MatchLen(SecondsMark, s) == n {
      SecondsScanHasShape(s);
    }
    if SecondsShape(s[..n]) {
      SecondsShapeIsScanned(s, n);
    }
  }

  lemma SecondsScanHasShape(s: string)
    requires MatchLen(SecondsMark, s) > 0
    ensures SecondsShape(s[..MatchLen(SecondsMark, s)])
  {
    var n := MatchLen(SecondsMark, s);
    var a := DigitRunEnd(s, 1);
    var b := if a < |s| && s[a] == '.' then DigitRunEnd(s, a + 1) else a;
    var c := if b < |s| && s[b] == 's' then b + 1 else b;
    assert n == c + 1 && 1 < a <= b;
    assert forall i :: 1 <= i < b && i != a ==> IsDigit(s[i]);
    SecondsFactsShape(s, n, b);
  }

  /** Digits and at most one dot in `s[1..e]`, then an optional `s` and the `]`: the prefix has the shape. */
  lemma SecondsFactsShape(s: string, n: nat, e: nat)
    requires 1 < e < n <= |s| && s[0] == '[' && s[n - 1] == ']' && IsDigit(s[1])
    requires e == n - 1 || (e == n - 2 && s[e] == 's')
    requires forall i :: 1 <= i < e ==> IsDigit(s[i]) || s[i] == '.'
    requires forall i, j :: 1 <= i < j < e && s[i] == '.' ==> s[j] != '.'
    ensures SecondsShape(s[..n])
  {
    var t := s[..n];
    var body := s[1..e];
    assert forall i :: 0 <= i < |body| ==> body[i] == s[i + 1];
    assert SecondsBody(body);
    if e == n - 1 {
      assert t[1..|t| - 1] == body;
    } else {
      assert t[1..|t| - 2] == body;
    }
  }

  lemma SecondsShapeIsScanned(s: string, n: nat)
    requires 0 < n <= |s| && SecondsShape(s[..n])
    ensures MatchLen(SecondsMark, s) == n
  {
    var e := SecondsShapeFacts(s, n);
    SecondsFactsScanned(s, n, e);
  }

  /** The shape read off `s` itself: digits and one dot at most in `s[1..e]`, then an optional `s` and the `]`. */
  lemma SecondsShapeFacts(s: string, n: nat) returns (e: nat)
    requires 0 < n <= |s| && SecondsShape(s[..n])
    ensures 1 < e < n && s[0] == '[' && s[n - 1] == ']' && IsDigit(s[1])
    ensures e == n - 1 || (e == n - 2 && s[e] == 's')
    ensures forall i :: 1 <= i < e ==> IsDigit(s[i]) || s[i] == '.'
    ensures forall i, j :: 1 <= i < j < e && s[i] == '.' ==> s[j] != '.'
  {
    var t := s[..n];
    e := if SecondsBody(t[1..|t| - 1]) then n - 1 else n - 2;
    var body := t[1..e];
    assert SecondsBody(body);
    assert forall i :: 1 <= i < e ==> s[i] == body[i - 1];
  }

  lemma SecondsFactsScanned(s: string, n: nat, e: nat)
    requires 1 < e < n <= |s| && s[0] == '[' && s[n - 1] == ']' && IsDigit(s[1])
    requires e == n - 1 || (e == n - 2 && s[e] == 's')
    requires forall i :: 1 <= i < e ==> IsDigit(s[i]) || s[i] == '.'
    requires forall i, j :: 1 <= i < j < e && s[i] == '.' ==> s[j] != '.'
    ensures MatchLen(SecondsMark, s) == n
  {
    assert !IsDigit(s[e]);
    if d :| 1 <= d < e && s[d] == '.' {
      assert forall i :: 1 <= i < d ==> IsDigit(s[i]);
      assert forall i :: d < i < e ==> IsDigit(s[i]);
      DigitRunEndIs(s, 1, d);
      DigitRunEndIs(s, d + 1, e);
    } else {
      DigitRunEndIs(s, 1, e);
    }
  }

  /** The run of digits from `k` ends at the first non-digit. */
  lemma {:induction false} DigitRunEndIs(s: string, k: nat, j: nat)
    requires k <= j <= |s| && (j == |s| || !IsDigit(s[j]))
    requires forall i :: k <= i < j ==> IsDigit(s[i])
    ensures DigitRunEnd(s, k) == j
    decreases j - k
  {
    if k < j {
      DigitRunEndIs(s, k + 1, j);
    }
  }

  /** `re.sub(p, '', s)`: every match, found left to right without overlap, removed. */
  function Sub(p: Pattern, s: string): (r: string)
    ensures |r| <= |s|
    decreases |s|
  {
    if s == [] then []
    else
      var n := MatchLen(p, s);
      if n > 0 then Sub(p, s[n..]) else [s[0]] + Sub(p, s[1..])
  }

  /** Text before the first `[` is kept as it is. */
  lemma {:induction false} SubKeepsPlainPrefix(p: Pattern, a: string, b: string)
    requires '[' !in a
    ensures Sub(p, a + b) == a + Sub(p, b)
  {
    if a != [] {
      var s := a + b;
      assert s[0] == a[0] && MatchLen(p, s) == 0;
      assert s[1..] == a[1..] + b;
      SubKeepsPlainPrefix(p, a[1..], b);
    } else {
      assert a + b == b;
    }
  }

  /** A line without `[` is left alone. */
  lemma SubWithoutBracket(p: Pattern, s: string)
    requires '[' !in s
    ensures Sub(p, s) == s
  {
    SubKeepsPlainPrefix(p, s, []);
    assert s + [] == s;
  }

  /** A match at the start is removed. */
  lemma SubRemovesLeadingMatch(p: Pattern, m: string, b: string)
    requires MatchLen(p, m + b) == |m| && m != []
    ensures Sub(p, m + b) == Sub(p, b)
  {
    assert (m + b)[|m|..] == b;
  }

  // ---------------------------------------------------------------------------
  // Text extraction from a transcript (`process_transcription_file`)
  // ---------------------------------------------------------------------------

  /** A stripped line that carries metadata rather than speech. */
  predicate IsMetadataLine(t: string) {
    StartsWith(t, "Language:") || StartsWith(t, "Detected language:")
  }

  /** The speech a line contributes: stripped, without clock stamps and seconds marks; none for blank and metadata lines. */
  function LineText(line: string): (r: Option<string>)
    ensures r.Some? ==> r.value != [] && !SpaceAt(r.value, 0) && !SpaceAt(r.value, |r.value| - 1)
    ensures r.Some? ==> !IsMetadataLine(Strip(line))
  {
    var t := Strip(line);
    if t == [] || IsMetadataLine(t) then None
    else
      var u := Strip(Sub(SecondsMark, Sub(ClockStamp, t)));
      if u == [] then None else Some(u)
  }

  /** The language a metadata line announces: whatever follows its first colon, when it contains `Language:`. */
  function LineLanguage(line: string): (r: Option<string>)
    ensures r.Some? ==> IsMetadataLine(Strip(line)) && Contains(Strip(line), "Language:")
  {
    var t := Strip(line);
    if t != [] && IsMetadataLine(t) then
      var f := Find(t, "Language:");
      if f >= 0 then
        assert t[f..f + 9] == "Language:";
        assert t[f + 8] == ':';
        Some(Strip(t[FirstIndexOf(t, ':') + 1..]))
      else None
    else None
  }

  /** What each line contributes. */
  function LineTexts(lines: seq<string>): (r: seq<Option<string>>)
    ensures |r| == |lines|
    ensures forall i :: 0 <= i < |lines| ==> r[i] == LineText(lines[i])
  {
    seq(|lines|, i requires 0 <= i < |lines| => LineText(lines[i]))
  }

  /** What each line announces. */
  function LineLanguages(lines: seq<string>): (r: seq<Option<string>>)
    ensures |r| == |lines|
    ensures forall i :: 0 <= i < |lines| ==> r[i] == LineLanguage(lines[i])
  {
    seq(|lines|, i requires 0 <= i < |lines| => LineLanguage(lines[i]))
  }

  /** The speech lines of a transcript, in order. */
  function KeptLines(lines: seq<string>): (r: seq<string>)
    ensures |r| <= |lines|
  {
    Present(LineTexts(lines))
  }

  /** The language of the last line announcing one, `unknown` without such a line. */
  function DetectedLanguage(lines: seq<string>): string {
    LastPresent(LineLanguages(lines), "unknown")
  }

  /** The speech of a transcript file: its kept lines joined by single spaces. */
  function TranscriptText(content: string): string {
    Join(KeptLines(Split(content, '\n')), " ")
  }

  /** The extraction of a transcript a summary is made from. */
  datatype Transcription = Transcription(text: string, detectedLang: string)

  /** A transcript of fewer than 50 words gets no summary. */
  const MinWords: nat := 50

  /** The lines of a shorter transcript contribute what they did before. */
  lemma LineTextsSlices(lines: seq<string>, i: nat)
    requires i < |lines|
    ensures LineTexts(lines)[..i] + LineTexts(lines)[i + 1..] == LineTexts(lines[..i] + lines[i + 1..])
  {
  }

  /** Blank and metadata lines can be dropped from a transcript without changing its text. */
  lemma DroppedLineChangesNothing(lines: seq<string>, i: nat)
    requires i < |lines| && LineText(lines[i]).None?
    ensures KeptLines(lines) == KeptLines(lines[..i] + lines[i + 1..])
  {
    var xs := LineTexts(lines);
    PresentWithout(xs, i);
    LineTextsSlices(lines, i);
  }

  /** The last line announcing a language decides the detected language. */
  lemma LastAnnouncementWins(lines: seq<string>, i: nat)
    requires i < |lines| && LineLanguage(lines[i]).Some?
    requires forall j :: i < j < |lines| ==> LineLanguage(lines[j]).None?
    ensures DetectedLanguage(lines) == LineLanguage(lines[i]).value
  {
    LastPresentIs(LineLanguages(lines), "unknown", i);
  }

  /** Without an announcing line the language stays `unknown`. */
  lemma NoAnnouncementIsUnknown(lines: seq<string>)
    requires forall j :: 0 <= j < |lines| ==> LineLanguage(lines[j]).None?
    ensures DetectedLanguage(lines) == "unknown"
  {
    LastPresentDefault(LineLanguages(lines), "unknown");
  }

  /** A pattern whose first character does not occur in `t` is not found in it. */
  lemma NotFoundWithoutFirstChar(t: string, p: string)
    requires p != [] && p[0] !in t
    ensures Find(t, p) < 0
  {
    forall k | 0 <= k <= |t| - |p| ensures !OccursAt(t, p, k) {
      assert t[k] in t;
      assert t[k..k + |p|][0] == t[k] != p[0];
    }
  }

  /** A `Detected language:` line is skipped without changing the detected language. */
  lemma DetectedLanguageLineOnlySkipped()
    ensures LineLanguage("Detected language: en") == None
    ensures LineText("Detected language: en") == None
  {
    var t := "Detected language: en";
    StripIs(t, 0, |t|);
    assert Strip(t) == t;
    assert t[..18] == "Detected language:";
    assert 'L' !in t;
    NotFoundWithoutFirstChar(t, "Language:");
  }

  /** A clock stamp in front of text without `[` is removed, and nothing else. */
  lemma ClockStampRemoved(stamp: string, rest: string)
    requires IsBracketStamp(stamp) && '[' !in rest
    ensures Sub(ClockStamp, stamp + rest) == rest
    ensures Sub(SecondsMark, rest) == rest
  {
    var line := stamp + rest;
    assert line[..10] == stamp;
    assert MatchLen(ClockStamp, line) == 10;
    SubRemovesLeadingMatch(ClockStamp, stamp, rest);
    SubWithoutBracket(ClockStamp, rest);
    SubWithoutBracket(SecondsMark, rest);
  }

  /** A written line is already stripped. */
  lemma WrittenLineStripped(stamp: string, text: string)
    requires |stamp| == 10 && stamp[0] == '['
    requires text != [] && !SpaceAt(text, |text| - 1)
    ensures Strip(stamp + " " + text) == stamp + " " + text
    ensures Strip(" " + text) == text || SpaceAt(text, 0)
  {
    var line := stamp + " " + text;
    assert line[0] == '[' && line[|line| - 1] == text[|text| - 1];
    StripIs(line, 0, |line|);
    assert line[0..|line|] == line;
    var rest := " " + text;
    assert rest[|rest| - 1] == text[|text| - 1];
    if !SpaceAt(text, 0) {
      assert SpaceAt(rest, 0) && rest[1] == text[0];
      StripIs(rest, 1, |rest|);
      assert rest[1..|rest|] == text;
    }
  }

  /**
   * A line the transcriber writes, `[HH:MM:SS] text`, gives back its text when
   * the text is stripped, non-empty and free of `[`.
   */
  lemma WrittenLineGivesItsText(ms: nat, text: string)
    requires ClockOf(ms).hours < 100
    requires text != [] && !SpaceAt(text, 0) && !SpaceAt(text, |text| - 1) && '[' !in text
    ensures LineText(FormatTimestamp(ms) + " " + text) == Some(text)
  {
    var stamp := FormatTimestamp(ms);
    var rest := " " + text;
    var line := stamp + rest;
    assert line == stamp + " " + text;
    WrittenLineStripped(stamp, text);
    assert !IsMetadataLine(line) by {
      assert line[0] == '[';
    }
    assert '[' !in rest;
    ClockStampRemoved(stamp, rest);
    assert Strip(Sub(SecondsMark, Sub(ClockStamp, line))) == text;
  }

  /** One more line: its text, if any, is appended, and its announcement, if any, takes over. */
  lemma ExtractStep(lines: seq<string>, i: nat)
    requires i < |lines|
    ensures KeptLines(lines[..i + 1]) == KeptLines(lines[..i]) + (if LineText(lines[i]).Some? then [LineText(lines[i]).value] else [])
    ensures DetectedLanguage(lines[..i + 1]) == if LineLanguage(lines[i]).Some? then LineLanguage(lines[i]).value else DetectedLanguage(lines[..i])
  {
    var xs, ys := LineTexts(lines[..i + 1]), LineLanguages(lines[..i + 1]);
    assert xs[..i] == LineTexts(lines[..i]) && xs[i] == LineText(lines[i]);
    assert ys[..i] == LineLanguages(lines[..i]) && ys[i] == LineLanguage(lines[i]);
  }

  /** `process_transcription_file`'s reading part: the speech and language of a transcript, or none below the word gate. */
  method ExtractTranscription(content: string) returns (r: Option<Transcription>)
    ensures r.Some? <==> WordCount(TranscriptText(content)) >= MinWords
    ensures r.Some? ==> r.value == Transcription(TranscriptText(content), DetectedLanguage(Split(content, '\n')))
  {
    var lines := Split(content, '\n');
    var textLines: seq<string> := [];
    var detected := "unknown";
    var i := 0;
    while i < |lines|
      invariant 0 <= i <= |lines|
      invariant textLines == KeptLines(lines[..i])
      invariant detected == DetectedLanguage(lines[..i])
    {
      ExtractStep(lines, i);
      var line := Strip(lines[i]);
      if line == [] {
        i := i + 1;
        continue;
      }
      if StartsWith(line, "Language:") || StartsWith(line, "Detected language:") {
        var lang := LineLanguage(lines[i]);
        if lang.Some? {
          detected := lang.value;
        }
        i := i + 1;
        continue;
      }
      line := Sub(ClockStamp, line);
      line := Sub(SecondsMark, line);
      line := Strip(line);
      if line != [] {
        textLines := textLines + [line];
      }
      i := i + 1;
    }
    assert lines[..i] == lines;
    var text := Join(textLines, " ");
    if WordCount(text) < MinWords {
      return None;
    }
    return Some(Transcription(text, detected));
  }

  // ---------------------------------------------------------------------------
  // The Word document's body (`generate_summary_for_language`)
  // ---------------------------------------------------------------------------

  /** How a summary line is laid out in the Word document. */
  datatype DocParagraph =
    | Heading(text: string)
    | BoldRun(text: string)
    | BulletItem(text: string)
    | NumberedItem(text: string)
    | Paragraph(text: string)

  /** `line[:4]`. */
  function FirstFour(line: string): (r: string)
    ensures StartsWith(line, r) && |r| <= 4
  {
    if |line| <= 4 then line else line[..4]
  }

  /** A digit first and `". "` within the first four characters. */
  predicate IsNumberedLine(line: string) {
    line != [] && IsDigit(line[0]) && Find(FirstFour(line), ". ") >= 0
  }

  /** The first `". "` of a numbered line lies at position 1 or 2. */
  lemma NumberedSeparator(line: string)
    requires IsNumberedLine(line)
    ensures 1 <= Find(line, ". ") <= 2
  {
    var f := Find(FirstFour(line), ". ");
    assert FirstFour(line)[f..f + 2] == ". " && line[f..f + 2] == ". ";
    assert OccursAt(line, ". ", f);
    assert f != 0 by {
      assert FirstFour(line)[f] == '.' && line[0] != '.';
    }
  }

  /**
   * The paragraph a non-blank, stripped summary line becomes.  The tests are
   * tried in this order: a `#` heading, an upper-case line shorter than 50
   * characters, a `**bold**` line, a `- ` or `* ` bullet, a `1. ` item, and
   * otherwise a plain paragraph.
   */
  function ClassifyDocLine(line: string): (r: DocParagraph)
    requires line != []
    ensures r.Heading? <==> StartsWith(line, "#") || (IsUpperStr(line) && |line| < 50)
    ensures r.BoldRun? <==> !r.Heading? && StartsWith(line, "**") && EndsWith(line, "**")
    ensures r.BulletItem? <==> !r.Heading? && !r.BoldRun? && (StartsWith(line, "- ") || StartsWith(line, "* "))
    ensures r.NumberedItem? <==> !r.Heading? && !r.BoldRun? && !r.BulletItem? && IsNumberedLine(line)
    ensures r.Paragraph? ==> r.text == line
    ensures r.Heading? && !StartsWith(line, "#") ==> r.text == line
    ensures r.BulletItem? ==> line == line[..2] + r.text
    ensures r.NumberedItem? ==> EndsWith(line, r.text) && |r.text| + 3 <= |line|
    ensures |r.text| <= |line|
  {
    if StartsWith(line, "#") then Heading(Strip(LStripChars(line, {'#'})))
    else if IsUpperStr(line) && |line| < 50 then Heading(line)
    else if StartsWith(line, "**") && EndsWith(line, "**") then BoldRun(StripChars(line, {'*'}))
    else if StartsWith(line, "- ") || StartsWith(line, "* ") then
      assert line == line[..2] + line[2..];
      BulletItem(line[2..])
    else if IsNumberedLine(line) then
      NumberedSeparator(line);
      var k := Find(line, ". ") + 2;
      TailEndsWith(line, k);
      NumberedItem(line[k..])
    else Paragraph(line)
  }

  lemma TailEndsWith(s: string, k: nat)
    requires k <= |s|
    ensures EndsWith(s, s[k..])
  {
  }

  /** Which branch a line takes, when the earlier tests are known to fail. */
  predicate NoMarker(line: string) {
    !StartsWith(line, "#") && !StartsWith(line, "**") && !StartsWith(line, "- ") && !StartsWith(line, "* ")
  }

  lemma NoMarkerOfFirst(line: string)
    requires line != [] && line[0] != '#' && line[0] != '*' && line[0] != '-'
    ensures NoMarker(line)
  {
    assert line[..1][0] == line[0];
    if |line| >= 2 {
      assert line[..2][0] == line[0];
    }
  }

  lemma CapsHeading(line: string)
    requires line != [] && !StartsWith(line, "#") && IsUpperStr(line) && |line| < 50
    ensures ClassifyDocLine(line) == Heading(line)
  {
  }

  lemma NumberedBranch(line: string)
    requires line != [] && NoMarker(line) && (!IsUpperStr(line) || |line| >= 50) && IsNumberedLine(line)
    ensures ClassifyDocLine(line) == NumberedItem(line[Find(line, ". ") + 2..])
  {
  }

  lemma ParagraphBranch(line: string)
    requires line != [] && NoMarker(line) && (!IsUpperStr(line) || |line| >= 50) && !IsNumberedLine(line)
    ensures ClassifyDocLine(line) == Paragraph(line)
  {
  }

  /** An upper-case line in asterisks, shorter than 50, becomes a heading that keeps its asterisks: the capitals test comes first. */
  lemma UpperBoldLineIsHeading(word: string, line: string)
    requires line == "**" + word + "**"
    requires IsUpperStr(word) && |word| < 46
    ensures ClassifyDocLine(line) == Heading(line)
  {
    assert forall i :: 0 <= i < |word| ==> line[i + 2] == word[i];
    var k :| 0 <= k < |word| && IsCased(word[k]);
    assert IsCased(line[k + 2]);
    assert forall i :: 0 <= i < |line| ==> !IsLowerChar(line[i]) by {
      forall i | 0 <= i < |line| ensures !IsLowerChar(line[i]) {
        if 2 <= i < |word| + 2 {
          assert line[i] == word[i - 2];
        } else {
          assert line[i] == '*';
        }
      }
    }
    assert !StartsWith(line, "#") by {
      assert line[..1][0] == '*';
    }
    CapsHeading(line);
  }

  /** An item numbered with three digits is not recognised: its `". "` falls outside the first four characters. */
  lemma ThreeDigitItemIsParagraph(line: string)
    requires |line| >= 5 && IsDigit(line[0]) && IsDigit(line[1]) && IsDigit(line[2]) && line[3] == '.' && line[4] == ' '
    requires !IsUpperStr(line) || |line| >= 50
    ensures ClassifyDocLine(line) == Paragraph(line)
  {
    var first := FirstFour(line);
    assert first == line[..4];
    assert ' ' !in first by {
      assert forall i :: 0 <= i < 4 ==> first[i] == line[i];
    }
    assert forall k :: 0 <= k <= |first| - 2 ==> !OccursAt(first, ". ", k) by {
      forall k | 0 <= k <= |first| - 2 ensures !OccursAt(first, ". ", k) {
        assert first[k..k + 2][1] == first[k + 1];
        assert first[k + 1] in first;
      }
    }
    assert Find(first, ". ") < 0;
    NoMarkerOfFirst(line);
    ParagraphBranch(line);
  }

  /** An item numbered with one or two digits keeps the text after its number. */
  lemma ShortItemIsNumbered(line: string, k: nat)
    requires 1 <= k <= 2 && k + 2 <= |line|
    requires forall i :: 0 <= i < k ==> IsDigit(line[i])
    requires line[k] == '.' && line[k + 1] == ' '
    requires !IsUpperStr(line) || |line| >= 50
    ensures ClassifyDocLine(line) == NumberedItem(line[k + 2..])
  {
    var first := FirstFour(line);
    assert first[k..k + 2] == line[k..k + 2] == ". ";
    assert OccursAt(first, ". ", k);
    assert forall j :: 0 <= j < k ==> !OccursAt(line, ". ", j) by {
      forall j | 0 <= j < k ensures !OccursAt(line, ". ", j) {
        assert IsDigit(line[j]);
        assert j + 2 > |line| || line[j..j + 2][0] == line[j];
      }
    }
    assert OccursAt(line, ". ", k);
    assert Find(line, ". ") == k;
    assert IsNumberedLine(line);
    NoMarkerOfFirst(line);
    NumberedBranch(line);
  }

  /** What one line of the summary adds to the document: nothing when blank. */
  function DocLineOf(line: string): Option<DocParagraph> {
    var t := Strip(line);
    if t == [] then None else Some(ClassifyDocLine(t))
  }

  /** The document's body paragraphs for the lines of a stripped summary. */
  function DocParagraphs(lines: seq<string>): (r: seq<DocParagraph>)
    ensures |r| <= |lines|
  {
    if lines == [] then []
    else
      var last := DocLineOf(lines[|lines| - 1]);
      DocParagraphs(lines[..|lines| - 1]) + (if last.Some? then [last.value] else [])
  }

  /** A one-line summary becomes one paragraph. */
  lemma SingleLineSummary(line: string)
    requires Strip(line) != []
    ensures DocParagraphs([line]) == [ClassifyDocLine(Strip(line))]
  {
    assert [line][..0] == [];
  }

  lemma DocStep(lines: seq<string>, i: nat)
    requires i < |lines|
    ensures DocParagraphs(lines[..i + 1]) == DocParagraphs(lines[..i]) + (if DocLineOf(lines[i]).Some? then [DocLineOf(lines[i]).value] else [])
  {
    assert lines[..i + 1][..i] == lines[..i];
  }

  /** The body loop: one paragraph per non-blank line of the stripped summary, in order. */
  method DocumentBody(summary: string) returns (body: seq<DocParagraph>)
    ensures body == DocParagraphs(Split(Strip(summary), '\n'))
  {
    var lines := Split(Strip(summary), '\n');
    body := [];
    for i := 0 to |lines|
      invariant body == DocParagraphs(lines[..i])
    {
      DocStep(lines, i);
      var line := Strip(lines[i]);
      if line != [] {
        body := body + [ClassifyDocLine(line)];
      }
    }
    assert lines[..|lines|] == lines;
  }

  // ---------------------------------------------------------------------------
  // The per-language loop (`process_transcription_file`)
  // ---------------------------------------------------------------------------

  /** The files that exist, and the languages generation was tried for and failed for, in order. */
  datatype RunState = RunState(fs: set<Path>, attempted: seq<string>, failed: seq<string>)

  /** The `.docx` and `.md` of a language, beside a transcript with a name. */
  function SummaryFilesOf(out: Path, lang: string): (w: SummaryFiles)
    requires out.name != []
    ensures w.docx.dir == out.dir && w.md.dir == out.dir
    ensures RegenSkipPath(out, lang) == Ok(w.docx)
    ensures RegenWritePaths(out, lang) == Ok(w)
  {
    SkipPathIsWrittenPath(out, lang);
    RegenWritePaths(out, lang).value
  }

  /**
   * One language of `regenerate_summaries.py`, given its files: skipped when
   * its `.docx` exists and `--force` is off; otherwise the request is made,
   * and when the model answers the `.md` is written, and the `.docx` too when
   * python-docx is installed.
   */
  function RegenStep(st: RunState, w: SummaryFiles, lang: string, force: bool, answered: set<string>, docxAvailable: bool): (r: RunState)
    ensures st.fs <= r.fs
    ensures forall p :: p in r.fs && p !in st.fs ==> p == w.md || p == w.docx
    ensures r.attempted == st.attempted + (if !force && w.docx in st.fs then [] else [lang])
  {
    if !force && w.docx in st.fs then st
    else if lang !in answered then st.(attempted := st.attempted + [lang], failed := st.failed + [lang])
    else st.(fs := st.fs + {w.md} + (if docxAvailable then {w.docx} else {}), attempted := st.attempted + [lang])
  }

  /** The files of each language in `langs`. */
  function NamesFor(out: Path, langs: seq<string>): (names: map<string, SummaryFiles>)
    requires out.name != []
    ensures forall l :: l in langs ==> l in names && names[l] == SummaryFilesOf(out, l)
  {
    map l | l in langs :: SummaryFilesOf(out, l)
  }

  lemma NamesForHas(out: Path, langs: seq<string>, l: string)
    requires out.name != [] && l in langs
    ensures l in NamesFor(out, langs) && NamesFor(out, langs)[l] == SummaryFilesOf(out, l)
  {
  }

  /** Every language of `langs` has its files in `names`. */
  predicate Named(names: map<string, SummaryFiles>, langs: seq<string>) {
    forall l :: l in langs ==> l in names
  }

  /** The languages in order, each seeing the files the earlier ones wrote. */
  function RegenRun(st: RunState, names: map<string, SummaryFiles>, langs: seq<string>, force: bool, answered: set<string>, docxAvailable: bool): (r: RunState)
    requires Named(names, langs)
    ensures st.fs <= r.fs
    ensures |st.attempted| <= |r.attempted| && r.attempted[..|st.attempted|] == st.attempted
    ensures forall k :: |st.attempted| <= k < |r.attempted| ==> r.attempted[k] in langs
  {
    if langs == [] then st
    else
      var init := langs[..|langs| - 1];
      var lang := langs[|langs| - 1];
      assert forall l :: l in init ==> l in langs;
      var prev := RegenRun(st, names, init, force, answered, docxAvailable);
      RegenStep(prev, names[lang], lang, force, answered, docxAvailable)
  }

  /** The last language of the list runs after the others. */
  lemma RegenRunLast(st: RunState, names: map<string, SummaryFiles>, langs: seq<string>, force: bool, answered: set<string>, docxAvailable: bool)
    requires langs != [] && Named(names, langs)
    ensures Named(names, langs[..|langs| - 1]) && langs[|langs| - 1] in names
    ensures RegenRun(st, names, langs, force, answered, docxAvailable)
      == RegenStep(RegenRun(st, names, langs[..|langs| - 1], force, answered, docxAvailable),
                   names[langs[|langs| - 1]], langs[|langs| - 1], force, answered, docxAvailable)
  {
    assert forall l :: l in langs[..|langs| - 1] ==> l in langs;
  }

  /** One more language of the list. */
  lemma RegenRunExtends(st: RunState, names: map<string, SummaryFiles>, langs: seq<string>, i: nat, force: bool, answered: set<string>, docxAvailable: bool)
    requires i < |langs| && Named(names, langs)
    ensures Named(names, langs[..i]) && Named(names, langs[..i + 1]) && langs[i] in names
    ensures RegenRun(st, names, langs[..i + 1], force, answered, docxAvailable)
      == RegenStep(RegenRun(st, names, langs[..i], force, answered, docxAvailable), names[langs[i]], langs[i], force, answered, docxAvailable)
  {
    assert langs[..i + 1][..i] == langs[..i];
    assert forall l :: l in langs[..i + 1] ==> l in langs;
  }

  /** The loop over the languages; the request's outcome is the oracle `answered`. */
  method ProcessLanguages(fs: set<Path>, out: Path, langs: seq<string>, force: bool, answered: set<string>, docxAvailable: bool)
    returns (files: set<Path>, failed: seq<string>)
    requires out.name != []
    ensures files == RegenRun(RunState(fs, [], []), NamesFor(out, langs), langs, force, answered, docxAvailable).fs
    ensures failed == RegenRun(RunState(fs, [], []), NamesFor(out, langs), langs, force, answered, docxAvailable).failed
  {
    ghost var st := RunState(fs, [], []);
    ghost var names := NamesFor(out, langs);
    files, failed := fs, [];
    ghost var attempted: seq<string> := [];
    var i := 0;
    while i < |langs|
      invariant 0 <= i <= |langs|
      invariant RunState(files, attempted, failed) == RegenRun(st, names, langs[..i], force, answered, docxAvailable)
    {
      var lang := langs[i];
      RegenRunExtends(st, names, langs, i, force, answered, docxAvailable);
      var w := SummaryFilesOf(out, lang);
      assert names[lang] == w;
      var skip := RegenShouldSkip(files, out, lang, force);
      assert skip == Ok(!force && w.docx in files);
      if !skip.value {
        attempted := attempted + [lang];
        if lang !in answered {
          failed := failed + [lang];
        } else {
          var written := RegenWritePaths(out, lang).value;
          files := files + {written.md};
          if docxAvailable {
            files := files + {written.docx};
          }
        }
      }
      i := i + 1;
    }
    assert langs[..i] == langs;
  }

  /** With `--force` every language is tried, in order. */
  lemma {:induction false} ForceTriesEveryLanguage(st: RunState, names: map<string, SummaryFiles>, langs: seq<string>, answered: set<string>, docxAvailable: bool)
    requires Named(names, langs)
    ensures RegenRun(st, names, langs, true, answered, docxAvailable).attempted == st.attempted + langs
  {
    if langs == [] {
      assert st.attempted + langs == st.attempted;
    } else {
      var init, last := langs[..|langs| - 1], langs[|langs| - 1];
      RegenRunLast(st, names, langs, true, answered, docxAvailable);
      ForceTriesEveryLanguage(st, names, init, answered, docxAvailable);
      AppendAssoc(st.attempted, init, [last]);
      assert langs == init + [last];
    }
  }

  /** Without `--force`, no language whose `.docx` existed beforehand is tried again. */
  lemma {:induction false} NoRetryOfExisting(st: RunState, names: map<string, SummaryFiles>, langs: seq<string>, answered: set<string>, docxAvailable: bool)
    requires Named(names, langs)
    ensures forall k :: |st.attempted| <= k < |RegenRun(st, names, langs, false, answered, docxAvailable).attempted| ==>
              names[RegenRun(st, names, langs, false, answered, docxAvailable).attempted[k]].docx !in st.fs
  {
    if langs != [] {
      var init := langs[..|langs| - 1];
      var lang := langs[|langs| - 1];
      assert forall l :: l in init ==> l in langs;
      var prev := RegenRun(st, names, init, false, answered, docxAvailable);
      NoRetryOfExisting(st, names, init, answered, docxAvailable);
      assert forall k :: |st.attempted| <= k < |prev.attempted| ==> names[prev.attempted[k]].docx !in st.fs;
      var r := RegenStep(prev, names[lang], lang, false, answered, docxAvailable);
      assert r == RegenRun(st, names, langs, false, answered, docxAvailable);
      forall k | |st.attempted| <= k < |r.attempted|
        ensures names[r.attempted[k]].docx !in st.fs
      {
        if k < |prev.attempted| {
          assert r.attempted[..|prev.attempted|] == prev.attempted;
          assert r.attempted[k] == prev.attempted[k];
          assert names[prev.attempted[k]].docx !in st.fs;
        } else {
          assert r.attempted == prev.attempted + [lang];
          assert r.attempted[k] == lang && names[lang].docx !in prev.fs;
          assert st.fs <= prev.fs;
        }
      }
    }
  }

  /** Every file a run writes is one of the named files of its languages. */
  lemma {:induction false} RunWritesNamedFiles(st: RunState, names: map<string, SummaryFiles>, langs: seq<string>, force: bool, answered: set<string>, docxAvailable: bool, dir: seq<string>)
    requires Named(names, langs)
    requires forall l :: l in langs ==> names[l].docx.dir == dir && names[l].md.dir == dir
    ensures var r := RegenRun(st, names, langs, force, answered, docxAvailable);
      forall p :: p in r.fs && p !in st.fs ==> p.dir == dir
  {
    if langs != [] {
      var init := langs[..|langs| - 1];
      var lang := langs[|langs| - 1];
      assert forall l :: l in init ==> l in langs;
      RunWritesNamedFiles(st, names, init, force, answered, docxAvailable, dir);
    }
  }

  /** Summaries are written only beside the transcript. */
  lemma SummariesBesideTranscript(fs: set<Path>, out: Path, langs: seq<string>, force: bool, answered: set<string>, docxAvailable: bool)
    requires out.name != []
    ensures var r := RegenRun(RunState(fs, [], []), NamesFor(out, langs), langs, force, answered, docxAvailable);
      forall p :: p in r.fs && p !in fs ==> p.dir == out.dir
  {
    RunWritesNamedFiles(RunState(fs, [], []), NamesFor(out, langs), langs, force, answered, docxAvailable, out.dir);
  }

  /**
   * `no` and `primary` share one `.docx`: without `--force`, once `no` is
   * written `primary` is skipped.
   */
  lemma NorwegianCoversPrimary(st: RunState, out: Path, answered: set<string>)
    requires out.name != [] && "no" in answered
    requires SummaryFilesOf(out, "no").docx !in st.fs
    ensures RegenRun(st, NamesFor(out, ["no", "primary"]), ["no", "primary"], false, answered, true).attempted == st.attempted + ["no"]
  {
    var langs := ["no", "primary"];
    SharedDocx(out, langs);
    NoThenPrimary(st, NamesFor(out, langs), langs, answered);
  }

  lemma SharedDocx(out: Path, langs: seq<string>)
    requires out.name != [] && langs == ["no", "primary"]
    ensures "no" in NamesFor(out, langs) && "primary" in NamesFor(out, langs)
    ensures NamesFor(out, langs)["no"] == SummaryFilesOf(out, "no")
    ensures NamesFor(out, langs)["no"].docx == NamesFor(out, langs)["primary"].docx
  {
    assert langs[0] == "no" && langs[1] == "primary";
    NamesForHas(out, langs, "no");
    NamesForHas(out, langs, "primary");
    PrimaryPaths(out, "no");
    PrimaryPaths(out, "primary");
  }

  /** Two languages with one `.docx`: once the first is written, the second is skipped. */
  lemma NoThenPrimary(st: RunState, names: map<string, SummaryFiles>, langs: seq<string>, answered: set<string>)
    requires langs == ["no", "primary"] && "no" in names && "primary" in names && "no" in answered
    requires names["no"].docx == names["primary"].docx && names["no"].docx !in st.fs
    ensures Named(names, langs)
    ensures RegenRun(st, names, langs, false, answered, true).attempted == st.attempted + ["no"]
  {
    assert langs[0] == "no" && langs[1] == "primary";
    assert langs[..1] == ["no"] && ["no"][..0] == [];
    RegenRunLast(st, names, langs, false, answered, true);
    RegenRunLast(st, names, ["no"], false, answered, true);
    var r1 := RegenStep(st, names["no"], "no", false, answered, true);
    assert names["primary"].docx in r1.fs;
  }

  /**
   * One language of `summary_only.py`: its skip check is outside any `try`,
   * so an exception there ends the run (`Err`, exit status 1).  Inside the
   * request a failure of the path is caught and counted as a failed language.
   */
  function OnlyStep(st: RunState, out: Path, lang: string, force: bool, answered: set<string>): (r: Result<RunState>)
    requires out.name != []
    ensures !force && lang != "primary" ==> r.Err?
    ensures force && lang != "primary" ==> r == Ok(st.(attempted := st.attempted + [lang], failed := st.failed + [lang]))
    ensures force ==> r.Ok? && r.value.attempted == st.attempted + [lang]
    ensures force ==> forall p :: p in r.value.fs && p !in st.fs ==> p == IntendedSummaryPath(out, "primary")
  {
    OnlySummaryPathRaises(out, lang);
    IntendedSummaryPathSound(out, "primary");
    match OnlyShouldSkip(st.fs, out, lang, force)
    case Err(e) => Err(e)
    case Ok(skip) =>
      if skip then Ok(st)
      else if lang !in answered then Ok(st.(attempted := st.attempted + [lang], failed := st.failed + [lang]))
      else
        match OnlySummaryPath(out, lang)
        case Err(_) => Ok(st.(attempted := st.attempted + [lang], failed := st.failed + [lang]))
        case Ok(md) => Ok(st.(fs := st.fs + {md}, attempted := st.attempted + [lang]))
  }

  function OnlyRun(st: RunState, out: Path, langs: seq<string>, force: bool, answered: set<string>): (r: Result<RunState>)
    requires out.name != []
  {
    if langs == [] then Ok(st)
    else
      match OnlyRun(st, out, langs[..|langs| - 1], force, answered)
      case Err(e) => Err(e)
      case Ok(prev) => OnlyStep(prev, out, langs[|langs| - 1], force, answered)
  }

  /** Without `--force`, any language other than `primary` ends the run with an error. */
  lemma {:induction false} OnlyRunFails(st: RunState, out: Path, langs: seq<string>, answered: set<string>, k: nat)
    requires out.name != [] && k < |langs| && langs[k] != "primary"
    ensures OnlyRun(st, out, langs, false, answered).Err?
  {
    var init := langs[..|langs| - 1];
    if k < |langs| - 1 {
      assert init[k] == langs[k];
      OnlyRunFails(st, out, init, answered, k);
    } else {
      match OnlyRun(st, out, init, false, answered)
      case Err(_) =>
      case Ok(prev) => OnlySkipCheckRaises(prev.fs, out, langs[k]);
    }
  }

  /** With `--force`, the run completes, every language is tried, and nothing is written except the `primary` summary. */
  lemma {:induction false} OnlyForcedWritesOnlyPrimary(st: RunState, out: Path, langs: seq<string>, answered: set<string>)
    requires out.name != []
    ensures OnlyRun(st, out, langs, true, answered).Ok?
    ensures var r := OnlyRun(st, out, langs, true, answered).value;
      r.attempted == st.attempted + langs
      && (forall p :: p in r.fs && p !in st.fs ==> p == IntendedSummaryPath(out, "primary"))
      && ("primary" !in langs ==> r == st.(attempted := st.attempted + langs, failed := st.failed + langs))
  {
    if langs == [] {
      assert st.attempted + langs == st.attempted && st.failed + langs == st.failed;
    } else {
      var init := langs[..|langs| - 1];
      var lang := langs[|langs| - 1];
      assert langs == init + [lang];
      OnlyForcedWritesOnlyPrimary(st, out, init, answered);
      var prev := OnlyRun(st, out, init, true, answered).value;
      assert "primary" !in langs ==> "primary" !in init;
      var r := OnlyStep(prev, out, lang, true, answered);
      assert r == OnlyRun(st, out, langs, true, answered);
    }
  }

  /** With the default languages, `no` and `en`, nothing is written with or without `--force`. */
  lemma DefaultLanguagesWriteNothing(st: RunState, out: Path, answered: set<string>)
    requires out.name != []
    ensures OnlyRun(st, out, ["no", "en"], false, answered).Err?
    ensures OnlyRun(st, out, ["no", "en"], true, answered) == Ok(st.(attempted := st.attempted + ["no", "en"], failed := st.failed + ["no", "en"]))
  {
    OnlyRunFails(st, out, ["no", "en"], answered, 0);
    OnlyForcedWritesOnlyPrimary(st, out, ["no", "en"], answered);
  }
}
