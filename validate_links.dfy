/**
 * `validate_links.py`: scan the input tree, warn about Norwegian and English
 * summaries whose transcript is gone, and delete stale index pages.
 *
 * The tree is the sequence of its files in walk order, each as a path
 * relative to the input root (so a file directly in the root has `dir == []`).
 */
module ValidateLinks {
  import opened Wrappers
  import opened Strings
  import opened Paths

  const Hovedindex: string := "hovedindex.html"
  const FolderIndexName: string := "folder_index.html"

  // ---------------------------------------------------------------------------
  // Scanning
  // ---------------------------------------------------------------------------

  /** The suffixes of the configured audio formats: `.<fmt>` each. */
  function AudioExtensions(formats: seq<string>): (r: seq<string>)
    ensures |r| == |formats|
    ensures forall i :: 0 <= i < |formats| ==> r[i] == "." + formats[i]
  {
    seq(|formats|, i requires 0 <= i < |formats| => "." + formats[i])
  }

  /** A file is audio when its lower-cased suffix is one of the audio suffixes. */
  predicate IsAudio(p: Path, formats: seq<string>) {
    Lower(p.Suffix()) in AudioExtensions(formats)
  }

  lemma LowerDot(ext: string)
    ensures Lower("." + ext) == "." + Lower(ext)
  {
    var l, r := Lower("." + ext), "." + Lower(ext);
    forall i | 0 <= i < |l| ensures l[i] == r[i] {
      if i > 0 { assert ("." + ext)[i] == ext[i - 1]; }
    }
  }

  /** `.<e>` is an audio suffix exactly when `e` is a configured format. */
  lemma InAudioExtensions(e: string, formats: seq<string>)
    ensures "." + e in AudioExtensions(formats) <==> e in formats
  {
    var es := AudioExtensions(formats);
    if e in formats {
      var i :| 0 <= i < |formats| && formats[i] == e;
      assert es[i] == "." + e;
    }
    if "." + e in es {
      var i :| 0 <= i < |es| && es[i] == "." + e;
      assert ("." + e)[1..] == e == formats[i];
    }
  }

  /**
   * A file `<base>.<ext>` with a non-empty base is audio exactly when its
   * extension, lower-cased, is a configured format: case is ignored in the
   * file name but not in the configuration.
   */
  lemma AudioByExtension(p: Path, base: string, ext: string, formats: seq<string>)
    requires p.name == base + "." + ext && base != [] && ext != [] && '.' !in ext
    ensures IsAudio(p, formats) <==> Lower(ext) in formats
  {
    assert ("." + ext)[1..] == ext;
    assert p.name == base + ("." + ext);
    NameParts(p, base, "." + ext);
    LowerDot(ext);
    InAudioExtensions(Lower(ext), formats);
  }

  predicate IsTranscript(p: Path) { EndsWith(p.name, ".txt") }
  predicate IsNoSummary(p: Path) { EndsWith(p.name, "_no.md") }
  predicate IsEnSummary(p: Path) { EndsWith(p.name, "_en.md") }

  /** HTML pages other than the two generated index pages. */
  predicate IsListedHtml(p: Path) {
    EndsWith(p.name, ".html") && p.name != Hovedindex && p.name != FolderIndexName
  }

  /** The sets `scan_existing_files` returns. */
  datatype Scan = Scan(transcripts: set<Path>, summariesNo: set<Path>, summariesEn: set<Path>, audio: set<Path>, html: set<Path>)

  /** The files of the walk that satisfy `P`. */
  function Matching(walk: seq<Path>, P: Path -> bool): set<Path> {
    set p | p in walk && P(p)
  }

  /** One more file of the walk adds itself when it matches. */
  lemma MatchingStep(walk: seq<Path>, k: nat, P: Path -> bool)
    requires k < |walk|
    ensures Matching(walk[..k + 1], P) == Matching(walk[..k], P) + (if P(walk[k]) then {walk[k]} else {})
  {
    assert walk[..k + 1] == walk[..k] + [walk[k]];
  }

  /** What scanning the tree finds: each set holds the files of the tree of its kind. */
  function ScanOf(walk: seq<Path>, formats: seq<string>): Scan {
    Scan(
      Matching(walk, IsTranscript),
      Matching(walk, IsNoSummary),
      Matching(walk, IsEnSummary),
      Matching(walk, p => IsAudio(p, formats)),
      Matching(walk, IsListedHtml))
  }

  /** One recursive glob over the tree: the files that match `P`. */
  method Rglob(walk: seq<Path>, P: Path -> bool) returns (found: set<Path>)
    ensures found == Matching(walk, P)
  {
    found := {};
    var k := 0;
    while k < |walk|
      invariant 0 <= k <= |walk|
      invariant found == Matching(walk[..k], P)
    {
      MatchingStep(walk, k, P);
      if P(walk[k]) {
        found := found + {walk[k]};
      }
      k := k + 1;
    }
    assert walk[..k] == walk;
  }

  /** `scan_existing_files`: one glob over the tree per kind of file. */
  method ScanExistingFiles(walk: seq<Path>, formats: seq<string>) returns (files: Scan)
    ensures files == ScanOf(walk, formats)
  {
    var transcripts := Rglob(walk, IsTranscript);
    var no := Rglob(walk, IsNoSummary);
    var en := Rglob(walk, IsEnSummary);
    var html := Rglob(walk, IsListedHtml);
    var audio := Rglob(walk, p => IsAudio(p, formats));
    files := Scan(transcripts, no, en, audio, html);
  }

  /** The index pages are never listed as HTML files, and every listed page is an `.html` of the tree. */
  lemma ScanSkipsIndexPages(walk: seq<Path>, formats: seq<string>, p: Path)
    ensures p in ScanOf(walk, formats).html <==>
      p in walk && EndsWith(p.name, ".html") && p.name != Hovedindex && p.name != FolderIndexName
  {
  }

  // ---------------------------------------------------------------------------
  // Orphaned summaries
  // ---------------------------------------------------------------------------

  /** Python's `s.replace(p, "")`: every non-overlapping occurrence of `p`, left to right, removed. */
  function RemoveAll(s: string, p: string): (r: string)
    requires |p| > 0
    ensures |r| <= |s|
    decreases |s|
  {
    if |s| < |p| then s
    else if OccursAt(s, p, 0) then RemoveAll(s[|p|..], p)
    else [s[0]] + RemoveAll(s[1..], p)
  }

  function TranscriptStems(transcripts: set<Path>): set<string> {
    set t | t in transcripts :: t.Stem()
  }

  /** The summaries warned about as written: the stem with every `marker` removed names no transcript. */
  function OrphanedAsWritten(summaries: set<Path>, transcripts: set<Path>, marker: string): set<Path>
    requires |marker| > 0
  {
    set s | s in summaries && RemoveAll(s.Stem(), marker) !in TranscriptStems(transcripts)
  }

  /** The transcript stem a summary belongs to: its stem without the trailing language marker. */
  function SummaryBase(s: Path, marker: string): (r: string)
    ensures EndsWith(s.Stem(), marker) ==> r + marker == s.Stem()
  {
    var st := s.Stem();
    if EndsWith(st, marker) then st[..|st| - |marker|] else st
  }

  /** The summaries whose own transcript is missing. */
  function Orphaned(summaries: set<Path>, transcripts: set<Path>, marker: string): set<Path> {
    set s | s in summaries && SummaryBase(s, marker) !in TranscriptStems(transcripts)
  }

  /** `<x>_no.md` has stem `<x>_no`, and `<x>.txt` stem `<x>`. */
  lemma SummaryStems(d: seq<string>, e: seq<string>, x: string, marker: string)
    requires x != [] && |marker| > 0 && '.' !in marker
    ensures Child(d, x + marker + ".md").Stem() == x + marker
    ensures Child(e, x + ".txt").Stem() == x
    ensures SummaryBase(Child(d, x + marker + ".md"), marker) == x
  {
    assert ".md"[1..] == "md" && ".txt"[1..] == "txt";
    NameParts(Child(d, x + marker + ".md"), x + marker, ".md");
    NameParts(Child(e, x + ".txt"), x, ".txt");
    var st := x + marker;
    assert st[|st| - |marker|..] == marker;
    assert st[..|st| - |marker|] == x;
  }

  /** A summary `<x><marker>.md` is orphaned exactly when no transcript anywhere has stem `x`. */
  lemma OrphanedIff(d: seq<string>, x: string, marker: string, summaries: set<Path>, transcripts: set<Path>)
    requires x != [] && |marker| > 0 && '.' !in marker
    requires Child(d, x + marker + ".md") in summaries
    ensures Child(d, x + marker + ".md") in Orphaned(summaries, transcripts, marker) <==>
      forall t :: t in transcripts ==> t.Stem() != x
  {
    SummaryStems(d, d, x, marker);
  }

  /** A summary beside a transcript `<x>.txt` (in any folder) is never reported. */
  lemma SummaryWithTranscriptNotOrphaned(d: seq<string>, e: seq<string>, x: string, marker: string,
                                          summaries: set<Path>, transcripts: set<Path>)
    requires x != [] && |marker| > 0 && '.' !in marker
    requires Child(e, x + ".txt") in transcripts
    ensures Child(d, x + marker + ".md") !in Orphaned(summaries, transcripts, marker)
  {
    SummaryStems(d, e, x, marker);
    assert x in TranscriptStems(transcripts);
  }

  /** Removing every marker from `<x><marker>` gives `x` when the marker does not occur earlier. */
  lemma {:induction false} RemoveTrailing(x: string, marker: string)
    requires |marker| > 0
    requires forall i :: 0 <= i < |x| ==> !OccursAt(x + marker, marker, i)
    ensures RemoveAll(x + marker, marker) == x
  {
    var s := x + marker;
    if x == [] {
      assert s == marker && OccursAt(s, marker, 0);
      assert s[|marker|..] == [];
    } else {
      assert !OccursAt(s, marker, 0);
      var rest := x[1..];
      assert s[1..] == rest + marker;
      forall i | 0 <= i < |rest| ensures !OccursAt(rest + marker, marker, i) {
        assert !OccursAt(s, marker, i + 1);
        assert (rest + marker)[i..i + |marker|] == s[i + 1..i + 1 + |marker|];
      }
      RemoveTrailing(rest, marker);
      assert x == [x[0]] + rest;
    }
  }

  /** Where the marker does not occur inside the transcript name, the rule as written agrees with the intended one. */
  lemma AsWrittenAgrees(d: seq<string>, x: string, marker: string, summaries: set<Path>, transcripts: set<Path>)
    requires x != [] && |marker| > 0 && '.' !in marker
    requires forall i :: 0 <= i < |x| ==> !OccursAt(x + marker, marker, i)
    ensures Child(d, x + marker + ".md") in OrphanedAsWritten(summaries, transcripts, marker) <==>
      Child(d, x + marker + ".md") in Orphaned(summaries, transcripts, marker)
  {
    SummaryStems(d, d, x, marker);
    RemoveTrailing(x, marker);
  }

  /** Text that cannot start the marker passes through unchanged. */
  lemma {:induction false} RemoveAllPlainPrefix(a: string, s: string, marker: string)
    requires |marker| > 0 && marker[0] !in a
    ensures RemoveAll(a + s, marker) == a + RemoveAll(s, marker)
  {
    if a != [] {
      assert (a + s)[0] == a[0];
      assert !OccursAt(a + s, marker, 0);
      if |a + s| >= |marker| {
        assert (a + s)[1..] == a[1..] + s;
        RemoveAllPlainPrefix(a[1..], s, marker);
        assert a == [a[0]] + a[1..];
      } else {
        assert |s| < |marker|;
      }
    } else {
      assert a + s == s;
    }
  }

  /** A leading marker is dropped. */
  lemma RemoveAllLeading(s: string, marker: string)
    requires |marker| > 0
    ensures RemoveAll(marker + s, marker) == RemoveAll(s, marker)
  {
    assert OccursAt(marker + s, marker, 0);
    assert (marker + s)[|marker|..] == s;
  }

  /** Removing every marker from `<a><marker><b><marker>` leaves `<a><b>` when neither part can start one. */
  lemma RemoveBothMarkers(a: string, b: string, marker: string)
    requires |marker| > 0 && marker[0] !in a && marker[0] !in b
    ensures RemoveAll(a + marker + b + marker, marker) == a + b
  {
    var tail := b + marker;
    assert a + marker + b + marker == a + (marker + tail);
    RemoveAllPlainPrefix(a, marker + tail, marker);
    RemoveAllLeading(tail, marker);
    RemoveAllPlainPrefix(b, marker, marker);
    assert marker == marker + [];
    RemoveAllLeading([], marker);
  }

  /**
   * The rule as written misfires when the marker also occurs inside the
   * transcript name: for a transcript `<a><marker><b>.txt`, removing every
   * marker from the summary's stem leaves `<a><b>`, which names no transcript.
   */
  lemma MarkerInsideName(d: seq<string>, a: string, b: string, marker: string)
    requires a != [] && |marker| > 0 && '.' !in marker && marker[0] !in a && marker[0] !in b
    ensures var x := a + marker + b;
      var t := Child(d, x + ".txt");
      var s := Child(d, x + marker + ".md");
      s in OrphanedAsWritten({s}, {t}, marker) && s !in Orphaned({s}, {t}, marker)
  {
    var x := a + marker + b;
    var t := Child(d, x + ".txt");
    var s := Child(d, x + marker + ".md");
    SummaryStems(d, d, x, marker);
    RemoveBothMarkers(a, b, marker);
    assert |a + b| < |x|;
    OneSummary(s, t, marker);
  }

  /** With one summary and one transcript, both rules compare a single pair of stems. */
  lemma OneSummary(s: Path, t: Path, marker: string)
    requires |marker| > 0
    ensures s in OrphanedAsWritten({s}, {t}, marker) <==> RemoveAll(s.Stem(), marker) != t.Stem()
    ensures s in Orphaned({s}, {t}, marker) <==> SummaryBase(s, marker) != t.Stem()
  {
    OneStem(t);
    var stems := TranscriptStems({t});
    assert s in OrphanedAsWritten({s}, {t}, marker) <==> RemoveAll(s.Stem(), marker) !in stems;
    assert s in Orphaned({s}, {t}, marker) <==> SummaryBase(s, marker) !in stems;
  }

  lemma OneStem(t: Path)
    ensures TranscriptStems({t}) == {t.Stem()}
  {
  }

  /**
   * For example, the Norwegian summary `meeting_notes_no.md` of the
   * transcript `meeting_notes.txt` is reported, because removing every `_no`
   * leaves `meetingtes`.
   */
  lemma OrphanRuleMisfires()
    ensures var x := "meeting" + "_no" + "tes";
      var t := Child([], x + ".txt");
      var s := Child([], x + "_no" + ".md");
      s in OrphanedAsWritten({s}, {t}, "_no") && s !in Orphaned({s}, {t}, "_no")
  {
    MarkerInsideName([], "meeting", "tes", "_no");
  }

  // ---------------------------------------------------------------------------
  // Stale index pages
  // ---------------------------------------------------------------------------

  /** The folder `dir` directly holds an audio file. */
  predicate HasAudio(files: set<Path>, dir: seq<string>, formats: seq<string>) {
    exists f :: f in files && f.dir == dir && IsAudio(f, formats)
  }

  /** A `hovedindex.html` below the root (not in it) is stale. */
  predicate StaleHovedindex(p: Path) {
    p.name == Hovedindex && p.dir != []
  }

  /** A `folder_index.html` whose folder holds no audio file is stale. */
  predicate StaleFolderIndex(p: Path, files: set<Path>, formats: seq<string>) {
    p.name == FolderIndexName && !HasAudio(files, p.dir, formats)
  }

  /** The files left after the first pass, which deletes the stale `hovedindex.html` pages. */
  function AfterHovedindex(walk: seq<Path>): set<Path> {
    (set p | p in walk) - Matching(walk, StaleHovedindex)
  }

  /**
   * The files left after the cleanup: the second pass looks for audio in the
   * tree as the first pass left it.
   */
  function AfterCleanup(walk: seq<Path>, formats: seq<string>): set<Path> {
    var first := AfterHovedindex(walk);
    first - Matching(walk, p => StaleFolderIndex(p, first, formats))
  }

  /**
   * Deleting stale `folder_index.html` pages never changes whether a folder
   * holds audio: such a page is only deleted from a folder without any.
   */
  lemma DeletionKeepsAudio(first: set<Path>, files: set<Path>, d: seq<string>, formats: seq<string>)
    requires files <= first
    requires forall q :: q in first && q !in files ==> StaleFolderIndex(q, first, formats)
    ensures HasAudio(files, d, formats) <==> HasAudio(first, d, formats)
  {
    if HasAudio(first, d, formats) {
      var f :| f in first && f.dir == d && IsAudio(f, formats);
      assert f in files;
    }
  }

  /**
   * `_cleanup_old_html_files`: delete every `hovedindex.html` below the root,
   * then every `folder_index.html` whose folder, as it is at that moment,
   * holds no audio file.
   */
  method CleanupOldHtmlFiles(walk: seq<Path>, formats: seq<string>) returns (files: set<Path>)
    ensures files == AfterCleanup(walk, formats)
  {
    files := set p | p in walk;
    var k := 0;
    while k < |walk|
      invariant 0 <= k <= |walk|
      invariant files == (set p | p in walk) - Matching(walk[..k], StaleHovedindex)
    {
      var p := walk[k];
      MatchingStep(walk, k, StaleHovedindex);
      if p.name == Hovedindex && p.dir != [] {
        files := files - {p};
      }
      k := k + 1;
    }
    assert walk[..k] == walk;
    ghost var first := files;
    ghost var stale := p => StaleFolderIndex(p, first, formats);
    k := 0;
    while k < |walk|
      invariant 0 <= k <= |walk|
      invariant files == first - Matching(walk[..k], stale)
    {
      var p := walk[k];
      MatchingStep(walk, k, stale);
      if p.name == FolderIndexName {
        var hasAudio := exists f | f in files :: f.dir == p.dir && IsAudio(f, formats);
        DeletionKeepsAudio(first, files, p.dir, formats);
        if !hasAudio {
          files := files - {p};
        }
      }
      k := k + 1;
    }
    assert walk[..k] == walk;
  }

  /** The root's own `hovedindex.html` survives; one in a sub-folder does not. */
  lemma HovedindexKeptOnlyAtRoot(walk: seq<Path>, formats: seq<string>, p: Path)
    requires p in walk && p.name == Hovedindex
    ensures p in AfterCleanup(walk, formats) <==> p.dir == []
  {
  }

  /**
   * A folder's `folder_index.html` survives exactly when the folder holds an
   * audio file once the stale `hovedindex.html` pages are gone.
   */
  lemma FolderIndexKeptIffAudio(walk: seq<Path>, formats: seq<string>, p: Path)
    requires p in walk && p.name == FolderIndexName
    ensures p in AfterCleanup(walk, formats) <==> HasAudio(AfterHovedindex(walk), p.dir, formats)
  {
  }

  /**
   * Unless `html` is itself a configured audio format, the first pass
   * deletes no audio, so the second looks at the audio the tree started with.
   */
  lemma AudioSurvivesFirstPass(walk: seq<Path>, formats: seq<string>, d: seq<string>)
    requires "html" !in formats
    ensures HasAudio(AfterHovedindex(walk), d, formats) <==> HasAudio((set p | p in walk), d, formats)
  {
    if HasAudio((set p | p in walk), d, formats) {
      var f :| f in walk && f.dir == d && IsAudio(f, formats);
      if f.name == Hovedindex {
        HovedindexNotAudio(f, formats);
      }
      assert f in AfterHovedindex(walk);
    }
  }

  /** `hovedindex.html` is audio only when `html` is a configured format. */
  lemma HovedindexNotAudio(p: Path, formats: seq<string>)
    requires p.name == Hovedindex && "html" !in formats
    ensures !IsAudio(p, formats)
  {
    var html := "html";
    assert Lower(html) == html by {
      forall i | 0 <= i < |html| ensures Lower(html)[i] == html[i] {
        assert 'a' <= html[i] <= 'z';
      }
    }
    assert p.name == "hovedindex" + "." + html;
    AudioByExtension(p, "hovedindex", html, formats);
  }

  /** Nothing but the two index pages is ever deleted. */
  lemma CleanupKeepsOtherFiles(walk: seq<Path>, formats: seq<string>, p: Path)
    requires p in walk && p.name != Hovedindex && p.name != FolderIndexName
    ensures p in AfterCleanup(walk, formats)
  {
  }

  // ---------------------------------------------------------------------------
  // The whole run
  // ---------------------------------------------------------------------------

  /** What one validation run reports and leaves behind. */
  datatype Report = Report(orphanedNo: set<Path>, orphanedEn: set<Path>, remaining: set<Path>)

  /**
   * `validate_and_cleanup`: scan, warn about orphaned summaries (with the
   * marker-removal rule as written), then clean up stale index pages.
   */
  method ValidateAndCleanup(walk: seq<Path>, formats: seq<string>) returns (report: Report)
    ensures report.orphanedNo == OrphanedAsWritten(ScanOf(walk, formats).summariesNo, ScanOf(walk, formats).transcripts, "_no")
    ensures report.orphanedEn == OrphanedAsWritten(ScanOf(walk, formats).summariesEn, ScanOf(walk, formats).transcripts, "_en")
    ensures report.remaining == AfterCleanup(walk, formats)
  {
    var files := ScanExistingFiles(walk, formats);
    var no := OrphanedAsWritten(files.summariesNo, files.transcripts, "_no");
    var en := OrphanedAsWritten(files.summariesEn, files.transcripts, "_en");
    var remaining := CleanupOldHtmlFiles(walk, formats);
    report := Report(no, en, remaining);
  }
}
