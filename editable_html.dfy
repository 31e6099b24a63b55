/**
 * `generate_editable_html.py`: one editable HTML page per transcript, with a
 * tab per summary found beside the transcript, an audio player for the first
 * audio file found, and a date read from the file name.
 */
module EditableHtml {
  import opened Wrappers
  import opened Strings
  import opened Paths

  // ---------------------------------------------------------------------------
  // Summary tabs
  // ---------------------------------------------------------------------------

  /** One summary entry: language code, display name, the file shown and the `.docx` offered for download. */
  datatype SummaryTab = SummaryTab(code: string, name: string, file: string, docxFile: Option<string>)

  /** The languages looked for, in the order their tabs appear. */
  const LanguageOrder: seq<string> := ["no", "en", "sv", "da", "de", "fr", "es"]

  /** The display name of the primary summary, as the script spells it (the UTF-8 bytes of "æ" read as Mac Roman). */
  const PrimaryName: string := "Prim\U{221A}\U{00B6}r"

  /** Display name of a language code. */
  function TabName(code: string): (r: string)
    ensures code != "no" && code != "en" && code != "primary" ==> |r| == |code|
  {
    if code == "no" then "Norsk"
    else if code == "en" then "English"
    else if code == "primary" then PrimaryName
    else Upper(code)
  }

  /** Only `no` is called Norsk and only `en` English: an upper-cased code has no lower-case ASCII letter. */
  lemma TabNameNamesOnlyItsCode(code: string)
    ensures TabName(code) == "Norsk" <==> code == "no"
    ensures TabName(code) == "English" <==> code == "en"
  {
    var r := TabName(code);
    if code != "no" && code != "en" && code != "primary" && |code| >= 2 {
      assert r[1] == ToUpperChar(code[1]) && !IsAsciiLower(r[1]);
      assert "Norsk"[1] == 'o' && "English"[1] == 'n';
    }
  }

  /**
   * The entry for the summary files `<stem>.summary.txt` / `<stem>.docx` in `dir`:
   * the text file is shown when it exists, else the document; none when neither exists.
   */
  function TabFor(fs: set<Path>, dir: seq<string>, stem: string, code: string, name: string): (r: Option<SummaryTab>)
    ensures r.Some? <==> Child(dir, stem + ".summary.txt") in fs || Child(dir, stem + ".docx") in fs
    ensures r.Some? ==> r.value.code == code && r.value.name == name
    ensures r.Some? ==> (r.value.docxFile.None? <==> Child(dir, stem + ".docx") !in fs)
    ensures r.Some? && r.value.docxFile.Some? ==> r.value.docxFile.value == stem + ".docx"
    ensures r.Some? ==> (r.value.file == stem + ".summary.txt" <==> Child(dir, stem + ".summary.txt") in fs)
    ensures r.Some? && Child(dir, stem + ".summary.txt") !in fs ==> r.value.file == stem + ".docx"
  {
    var txt := stem + ".summary.txt";
    var docx := stem + ".docx";
    if Child(dir, txt) in fs then
      Some(SummaryTab(code, name, txt, if Child(dir, docx) in fs then Some(docx) else None))
    else if Child(dir, docx) in fs then
      assert docx != txt by { assert docx[|docx| - 1] == 'x' && txt[|txt| - 1] == 't'; }
      Some(SummaryTab(code, name, docx, Some(docx)))
    else None
  }

  /** The entry for language `code` beside the transcript `base`. */
  function LanguageTab(fs: set<Path>, base: Path, code: string): Option<SummaryTab> {
    TabFor(fs, base.dir, base.Stem() + "_" + code, code, TabName(code))
  }

  /** The primary entry (no language suffix) beside the transcript `base`. */
  function PrimaryTab(fs: set<Path>, base: Path): Option<SummaryTab> {
    TabFor(fs, base.dir, base.Stem(), "primary", PrimaryName)
  }

  /** The language entries in `LanguageOrder`, absent ones as `None`. */
  function LanguageTabs(fs: set<Path>, base: Path): (r: seq<Option<SummaryTab>>)
    ensures |r| == |LanguageOrder|
    ensures forall k :: 0 <= k < |r| ==> r[k] == LanguageTab(fs, base, LanguageOrder[k])
  {
    seq(|LanguageOrder|, k requires 0 <= k < |LanguageOrder| => LanguageTab(fs, base, LanguageOrder[k]))
  }

  /** What `find_summaries` returns: the primary entry first, then the language entries found. */
  function Summaries(fs: set<Path>, base: Path): seq<SummaryTab> {
    var p := PrimaryTab(fs, base);
    (if p.Some? then [p.value] else []) + Present(LanguageTabs(fs, base))
  }

  /** `find_summaries`: collect the language entries in order, then put the primary one in front. */
  method FindSummaries(fs: set<Path>, base: Path) returns (summaries: seq<SummaryTab>)
    ensures summaries == Summaries(fs, base)
  {
    var stem := base.Stem();
    summaries := [];
    var k := 0;
    while k < |LanguageOrder|
      invariant 0 <= k <= |LanguageOrder|
      invariant summaries == Present(LanguageTabs(fs, base)[..k])
    {
      var code := LanguageOrder[k];
      var tab := TabFor(fs, base.dir, stem + "_" + code, code, TabName(code));
      PresentStep(LanguageTabs(fs, base), k);
      if tab.Some? {
        summaries := summaries + [tab.value];
      }
      k := k + 1;
    }
    assert LanguageTabs(fs, base)[..k] == LanguageTabs(fs, base);
    var primary := TabFor(fs, base.dir, stem, "primary", PrimaryName);
    if primary.Some? {
      summaries := [primary.value] + summaries;
    }
  }

  /** Position of a code in the tab order: the primary first, then `LanguageOrder`, anything else last. */
  function Rank(code: string): nat {
    if code == "primary" then 0
    else if code == "no" then 1
    else if code == "en" then 2
    else if code == "sv" then 3
    else if code == "da" then 4
    else if code == "de" then 5
    else if code == "fr" then 6
    else if code == "es" then 7
    else 8
  }

  predicate StrictlyRanked(tabs: seq<SummaryTab>) {
    forall i, j :: 0 <= i < j < |tabs| ==> Rank(tabs[i].code) < Rank(tabs[j].code)
  }

  predicate RanksWithin(tabs: seq<SummaryTab>, lo: nat, hi: nat) {
    forall j :: 0 <= j < |tabs| ==> lo <= Rank(tabs[j].code) < hi
  }

  /** Entries whose rank is their position (plus one) come out of `Present` in strictly increasing rank. */
  lemma {:induction false} PresentRanked(xs: seq<Option<SummaryTab>>)
    requires forall i :: 0 <= i < |xs| && xs[i].Some? ==> Rank(xs[i].value.code) == i + 1
    ensures RanksWithin(Present(xs), 1, |xs| + 1)
    ensures StrictlyRanked(Present(xs))
  {
    if xs != [] {
      var pre := xs[..|xs| - 1];
      assert forall i :: 0 <= i < |pre| ==> pre[i] == xs[i];
      PresentRanked(pre);
      var head := Present(pre);
      var tail: seq<SummaryTab> := if xs[|xs| - 1].Some? then [xs[|xs| - 1].value] else [];
      assert Present(xs) == head + tail;
      assert RanksWithin(tail, |xs|, |xs| + 1);
    }
  }

  lemma LanguageRanks(fs: set<Path>, base: Path)
    ensures forall k :: 0 <= k < |LanguageOrder| ==> Rank(LanguageOrder[k]) == k + 1
    ensures forall i :: 0 <= i < |LanguageTabs(fs, base)| && LanguageTabs(fs, base)[i].Some? ==>
      Rank(LanguageTabs(fs, base)[i].value.code) == i + 1
  {
  }

  /** Ranked lists whose ranks lie in adjacent ranges stay ranked when concatenated. */
  lemma ConcatRanked(a: seq<SummaryTab>, b: seq<SummaryTab>, lo: nat, mid: nat, hi: nat)
    requires StrictlyRanked(a) && RanksWithin(a, lo, mid)
    requires StrictlyRanked(b) && RanksWithin(b, mid, hi)
    requires lo <= mid <= hi
    ensures StrictlyRanked(a + b) && RanksWithin(a + b, lo, hi)
  {
    var ab := a + b;
    forall i, j | 0 <= i < j < |ab| ensures Rank(ab[i].code) < Rank(ab[j].code) {
      if j < |a| {
        assert ab[i] == a[i] && ab[j] == a[j];
      } else if i < |a| {
        assert ab[i] == a[i] && ab[j] == b[j - |a|];
      } else {
        assert ab[i] == b[i - |a|] && ab[j] == b[j - |a|];
      }
    }
    forall j | 0 <= j < |ab| ensures lo <= Rank(ab[j].code) < hi {
      if j < |a| { assert ab[j] == a[j]; } else { assert ab[j] == b[j - |a|]; }
    }
  }

  /** A code ranked before the end is the primary or one of `LanguageOrder`. */
  lemma RankKnown(code: string)
    requires Rank(code) < 8
    ensures code == "primary" || code in LanguageOrder
  {
    if code != "primary" {
      assert code == LanguageOrder[Rank(code) - 1];
    }
  }

  /**
   * The summaries come in tab order with each code at most once: the primary
   * entry (present exactly when a primary file exists) first, then the
   * languages in `LanguageOrder`; so there are at most eight.
   */
  lemma SummariesOrdered(fs: set<Path>, base: Path)
    ensures |Summaries(fs, base)| <= 1 + |LanguageOrder|
    ensures StrictlyRanked(Summaries(fs, base))
    ensures forall i, j :: 0 <= i < j < |Summaries(fs, base)| ==> Summaries(fs, base)[i].code != Summaries(fs, base)[j].code
    ensures forall j :: 0 <= j < |Summaries(fs, base)| ==>
      Summaries(fs, base)[j].code == "primary" || Summaries(fs, base)[j].code in LanguageOrder
    ensures PrimaryTab(fs, base).Some? <==> |Summaries(fs, base)| > 0 && Summaries(fs, base)[0].code == "primary"
  {
    var xs := LanguageTabs(fs, base);
    LanguageRanks(fs, base);
    PresentRanked(xs);
    PrimaryThenRanked(PrimaryTab(fs, base), Present(xs));
  }

  /** The ordering facts of `SummariesOrdered`, for an optional primary entry put in front of ranked language entries. */
  lemma PrimaryThenRanked(p: Option<SummaryTab>, tail: seq<SummaryTab>)
    requires p.Some? ==> p.value.code == "primary"
    requires StrictlyRanked(tail) && RanksWithin(tail, 1, 8) && |tail| <= 7
    ensures var r := (if p.Some? then [p.value] else []) + tail;
      |r| <= 8 && StrictlyRanked(r)
      && (forall i, j :: 0 <= i < j < |r| ==> r[i].code != r[j].code)
      && (forall j :: 0 <= j < |r| ==> r[j].code == "primary" || r[j].code in LanguageOrder)
      && (p.Some? <==> |r| > 0 && r[0].code == "primary")
  {
    var head: seq<SummaryTab> := if p.Some? then [p.value] else [];
    var r := head + tail;
    assert RanksWithin(head, 0, 1);
    ConcatRanked(head, tail, 0, 1, 8);
    forall j | 0 <= j < |r|
      ensures r[j].code == "primary" || r[j].code in LanguageOrder
    {
      RankKnown(r[j].code);
    }
    if p.None? {
      assert r == tail;
      if |r| > 0 { assert Rank(r[0].code) >= 1; }
    }
  }

  /** A summary is listed exactly when it is the primary entry or the entry of one of the languages looked for. */
  lemma SummariesComplete(fs: set<Path>, base: Path, t: SummaryTab)
    ensures t in Summaries(fs, base) <==>
      PrimaryTab(fs, base) == Some(t) || exists k :: 0 <= k < |LanguageOrder| && LanguageTab(fs, base, LanguageOrder[k]) == Some(t)
  {
    var xs := LanguageTabs(fs, base);
    PresentMembers(xs);
    var p := PrimaryTab(fs, base);
    var head: seq<SummaryTab> := if p.Some? then [p.value] else [];
    assert Summaries(fs, base) == head + Present(xs);
    if Some(t) in xs {
      var k :| 0 <= k < |xs| && xs[k] == Some(t);
      assert LanguageTab(fs, base, LanguageOrder[k]) == Some(t);
    }
    if exists k :: 0 <= k < |LanguageOrder| && LanguageTab(fs, base, LanguageOrder[k]) == Some(t) {
      var k :| 0 <= k < |LanguageOrder| && LanguageTab(fs, base, LanguageOrder[k]) == Some(t);
      assert xs[k] == Some(t);
    }
  }

  // ---------------------------------------------------------------------------
  // Audio, duration and date
  // ---------------------------------------------------------------------------

  /** The audio extensions looked for, in order of preference. */
  const AudioOrder: seq<string> := ["mp3", "wav", "m4a", "flac", "ogg", "opus", "webm", "aac"]

  function AudioCandidate(base: Path, ext: string): Path {
    Child(base.dir, base.Stem() + "." + ext)
  }

  /** The first candidate among `exts` that exists. */
  function FirstAudio(fs: set<Path>, base: Path, exts: seq<string>): Option<Path> {
    if exts == [] then None
    else if AudioCandidate(base, exts[0]) in fs then Some(AudioCandidate(base, exts[0]))
    else FirstAudio(fs, base, exts[1..])
  }

  /** `exts[k]` is the earliest extension whose candidate exists. */
  predicate FirstExisting(fs: set<Path>, base: Path, exts: seq<string>, k: nat) {
    k < |exts| && AudioCandidate(base, exts[k]) in fs
    && forall j :: 0 <= j < k ==> AudioCandidate(base, exts[j]) !in fs
  }

  /** The audio file found is the candidate of the earliest extension whose file exists; none exactly when no candidate exists. */
  lemma {:induction false} FirstAudioIsFirst(fs: set<Path>, base: Path, exts: seq<string>)
    ensures FirstAudio(fs, base, exts).None? <==> forall k :: 0 <= k < |exts| ==> AudioCandidate(base, exts[k]) !in fs
    ensures FirstAudio(fs, base, exts).Some? ==>
      exists k: nat :: FirstExisting(fs, base, exts, k) && FirstAudio(fs, base, exts).value == AudioCandidate(base, exts[k])
  {
    if exts != [] && AudioCandidate(base, exts[0]) !in fs {
      var rest := exts[1..];
      FirstAudioIsFirst(fs, base, rest);
      assert FirstAudio(fs, base, exts) == FirstAudio(fs, base, rest);
      if FirstAudio(fs, base, rest).Some? {
        var k: nat :| FirstExisting(fs, base, rest, k) && FirstAudio(fs, base, rest).value == AudioCandidate(base, rest[k]);
        assert forall j :: 0 <= j < k + 1 ==> AudioCandidate(base, exts[j]) !in fs by {
          forall j | 0 <= j < k + 1 ensures AudioCandidate(base, exts[j]) !in fs {
            if j > 0 { assert exts[j] == rest[j - 1]; }
          }
        }
        assert FirstExisting(fs, base, exts, k + 1);
      } else {
        forall k | 0 <= k < |exts| ensures AudioCandidate(base, exts[k]) !in fs {
          if k > 0 { assert exts[k] == rest[k - 1]; }
        }
      }
    }
  }

  /** `find_audio_file`: the first `<stem>.<ext>` that exists, trying the extensions of `AudioOrder` in turn. */
  method FindAudioFile(fs: set<Path>, base: Path) returns (audio: Option<Path>)
    ensures audio == FirstAudio(fs, base, AudioOrder)
  {
    var k := 0;
    while k < |AudioOrder|
      invariant 0 <= k <= |AudioOrder|
      invariant FirstAudio(fs, base, AudioOrder) == FirstAudio(fs, base, AudioOrder[k..])
    {
      var candidate := Child(base.dir, base.Stem() + "." + AudioOrder[k]);
      if candidate in fs {
        return Some(candidate);
      }
      assert AudioOrder[k..][1..] == AudioOrder[k + 1..];
      k := k + 1;
    }
    return None;
  }

  const MiB: nat := 1024 * 1024

  /**
   * `format_duration`: the file size in whole mebibytes as an estimate of the
   * minutes, `~N min`; `Unknown` when the size cannot be read (`None`).
   */
  function FormatDuration(size: Option<nat>): (r: string)
    ensures size.None? <==> r == "Unknown"
    ensures size.Some? ==> |r| >= 6 && r[0] == '~' && EndsWith(r, " min")
    ensures size.Some? ==> AllDigits(r[1..|r| - 4]) && DigitsValue(r[1..|r| - 4]) == size.value / MiB
  {
    if size.None? then "Unknown"
    else
      var digits := NatToString(size.value / MiB);
      NatToStringValue(size.value / MiB);
      var r := "~" + digits + " min";
      assert r[1..|r| - 4] == digits;
      assert r[|r| - 4..] == " min";
      r
  }

  const UnknownDate: string := "Unknown Date"

  /** The date `DD.MM.20YY` read from the text before the first ` - ` of the stem when that text is six characters long. */
  function DateFromName(stem: string): (r: string)
    ensures |BeforeFirst(stem, " - ")| == 6 <==> r != UnknownDate
    ensures r != UnknownDate ==> |r| == 10 && r[2] == '.' && r[5] == '.' && r[6..8] == "20"
    ensures r != UnknownDate ==> r[..2] + r[3..5] + r[8..] == BeforeFirst(stem, " - ")
    ensures r != UnknownDate ==> StartsWith(stem, r[..2] + r[3..5] + r[8..])
  {
    var d := BeforeFirst(stem, " - ");
    if |d| == 6 then
      var r := d[0..2] + "." + d[2..4] + ".20" + d[4..6];
      assert r[..2] == d[0..2] && r[3..5] == d[2..4] && r[8..] == d[4..6];
      assert d == d[0..2] + d[2..4] + d[4..6];
      assert r[2] == '.' && r != UnknownDate;
      r
    else UnknownDate
  }

  // ---------------------------------------------------------------------------
  // Page
  // ---------------------------------------------------------------------------

  /** Text of `generate_summary_contents_html` when there is nothing to show. */
  const NoSummariesText: string := "<p>Ingen sammendrag tilgjengelig</p>"

  /**
   * `generate_summary_tabs_html`: one button per entry (rendered by `button`),
   * joined by newlines; empty without entries.
   */
  function SummaryTabsHtml(summaries: seq<SummaryTab>, button: SummaryTab -> string): (r: string)
    ensures summaries == [] ==> r == ""
    ensures |summaries| == 1 ==> r == button(summaries[0])
  {
    Join(seq(|summaries|, i requires 0 <= i < |summaries| => button(summaries[i])), "\n")
  }

  /**
   * `generate_summary_contents_html`: one section per entry (rendered by
   * `section`), or the Norwegian placeholder without entries.
   */
  function SummaryContentsHtml(summaries: seq<SummaryTab>, section: SummaryTab -> string): (r: string)
    ensures summaries == [] ==> r == NoSummariesText
    ensures |summaries| == 1 ==> r == section(summaries[0])
  {
    if summaries == [] then NoSummariesText
    else Join(seq(|summaries|, i requires 0 <= i < |summaries| => section(summaries[i])), "\n")
  }

  /** The values put into the page template. */
  datatype Page = Page(title: string, date: string, duration: string, audio: Option<Path>, summaries: seq<SummaryTab>)

  /** The page written for the transcript `txt`, or none when it has no summaries. */
  function PageFor(fs: set<Path>, sizes: map<Path, nat>, txt: Path): Option<Page> {
    var summaries := Summaries(fs, txt);
    if summaries == [] then None
    else
      var audio := FirstAudio(fs, txt, AudioOrder);
      var duration := if audio.None? then "N/A"
        else FormatDuration(if audio.value in sizes then Some(sizes[audio.value]) else None);
      Some(Page(txt.Stem(), DateFromName(txt.Stem()), duration, audio, summaries))
  }

  /** Where the page for the transcript `txt` is written: `<stem>.html` beside it. */
  function HtmlPath(txt: Path): (p: Path)
    ensures p.dir == txt.dir
    ensures txt.name != [] ==> p.Stem() == txt.Stem() && p.Suffix() == ".html"
  {
    var p := Child(txt.dir, txt.Stem() + ".html");
    if txt.name == [] then p
    else
      StemNonEmpty(txt);
      NameParts(p, txt.Stem(), ".html");
      p
  }

  /**
   * `generate_html`: without summaries nothing is written and the result is
   * `None`; otherwise the page is written to `HtmlPath(txt)` and that path
   * returned. `sizes` holds the sizes that `stat` can read.
   */
  method GenerateHtml(fs: set<Path>, sizes: map<Path, nat>, txt: Path)
    returns (written: Option<Path>, page: Option<Page>, fs': set<Path>)
    ensures page == PageFor(fs, sizes, txt)
    ensures written.None? <==> Summaries(fs, txt) == []
    ensures written.None? ==> fs' == fs
    ensures written.Some? ==> written.value == HtmlPath(txt) && fs' == fs + {HtmlPath(txt)}
  {
    var summaries := FindSummaries(fs, txt);
    if summaries == [] {
      return None, None, fs;
    }
    var audio := FindAudioFile(fs, txt);
    var date := DateFromName(txt.Stem());
    var duration: string;
    if audio.Some? {
      var size := if audio.value in sizes then Some(sizes[audio.value]) else None;
      duration := FormatDuration(size);
    } else {
      duration := "N/A";
    }
    page := Some(Page(txt.Stem(), date, duration, audio, summaries));
    var html := HtmlPath(txt);
    written := Some(html);
    fs' := fs + {html};
  }

  /** A page is produced exactly when the transcript has a summary file of its own or for a language looked for. */
  lemma PageExactlyWithSummaries(fs: set<Path>, sizes: map<Path, nat>, txt: Path)
    ensures PageFor(fs, sizes, txt).Some? <==>
      PrimaryTab(fs, txt).Some? || exists k :: 0 <= k < |LanguageOrder| && LanguageTab(fs, txt, LanguageOrder[k]).Some?
    ensures PageFor(fs, sizes, txt).Some? ==> PageFor(fs, sizes, txt).value.summaries != []
  {
    var r := Summaries(fs, txt);
    if exists k :: 0 <= k < |LanguageOrder| && LanguageTab(fs, txt, LanguageOrder[k]).Some? {
      var k :| 0 <= k < |LanguageOrder| && LanguageTab(fs, txt, LanguageOrder[k]).Some?;
      SummariesComplete(fs, txt, LanguageTab(fs, txt, LanguageOrder[k]).value);
    }
    if r != [] {
      SummariesComplete(fs, txt, r[0]);
    }
  }

  /** Without an audio file the duration shows `N/A`; with one it is the size estimate or `Unknown`. */
  lemma DurationShown(fs: set<Path>, sizes: map<Path, nat>, txt: Path)
    requires PageFor(fs, sizes, txt).Some?
    ensures PageFor(fs, sizes, txt).value.audio.None? <==> PageFor(fs, sizes, txt).value.duration == "N/A"
    ensures var p := PageFor(fs, sizes, txt).value;
      p.audio.Some? ==> (p.duration == "Unknown" <==> p.audio.value !in sizes)
  {
    var p := PageFor(fs, sizes, txt).value;
    if p.audio.Some? {
      var size := if p.audio.value in sizes then Some(sizes[p.audio.value]) else None;
      assert p.duration == FormatDuration(size);
      assert p.duration[0] == '~' || p.duration == "Unknown";
      assert "N/A"[0] == 'N';
    }
  }
}
