/**
 * The LLM merge of several transcription passes (`_llm_merge_transcriptions` in
 * transcribe.py): the comparison text sent to the model, the parser that turns
 * the model's answer back into segments, and the choice of the pass whose
 * metadata the merged result carries.  The HTTP call is an oracle.
 */
module Merge {

  import opened Wrappers
  import opened Strings
  import opened Timestamps

  /** The `audio_processing` entry of a result. */
  datatype Processing = Processing(aiDenoise: string, ffmpegEnhance: string, normalize: string)

  /**
   * A transcription result.  `probability` is the language probability in
   * thousandths.  `passInfo` is the `multi_pass_info` entry a fallback result
   * gets; `strategiesUsed` is present exactly on a merged result
   * (`multi_pass_merged` is then true).
   */
  datatype TranscriptResult = TranscriptResult(
    language: string,
    probability: nat,
    segments: seq<Segment>,
    fullText: string,
    processing: Processing,
    passInfo: Option<map<string, nat>>,
    strategiesUsed: Option<seq<string>>)

  /** What the Ollama endpoint answered: its status and, when the JSON had one, the `response` text. */
  datatype HttpResponse = HttpResponse(status: int, response: Option<string>)

  // ---------------------------------------------------------------------------
  // Choosing the best pass: Python's `max` by language probability
  // ---------------------------------------------------------------------------

  /**
   * The index `max` picks: a highest probability, and the first one among equals,
   * because `max` only replaces its candidate on a strictly greater key.
   */
  function BestIndex(keys: seq<string>, probs: map<string, nat>): (r: nat)
    requires |keys| >= 1 && forall k :: k in keys ==> k in probs
    ensures r < |keys|
    ensures forall j :: 0 <= j < |keys| ==> probs[keys[j]] <= probs[keys[r]]
    ensures forall j :: 0 <= j < r ==> probs[keys[j]] < probs[keys[r]]
  {
    if |keys| == 1 then 0
    else
      var i := BestIndex(keys[..|keys| - 1], probs);
      if probs[keys[|keys| - 1]] > probs[keys[i]] then |keys| - 1 else i
  }

  /** The language probabilities of the results, `{k: v['language_probability']}`. */
  function Probabilities(results: map<string, TranscriptResult>): (m: map<string, nat>)
    ensures m.Keys == results.Keys
    ensures forall k :: k in results ==> m[k] == results[k].probability
  {
    map k | k in results :: results[k].probability
  }

  // ---------------------------------------------------------------------------
  // The comparison text and the prompt
  // ---------------------------------------------------------------------------

  /** `f"{p:.1%}"` for a probability given in thousandths. */
  function PercentText(p: nat): string {
    NatToString(p / 10) + "." + [DigitChar(p % 10)] + "%"
  }

  /** One pass in the comparison: its header line, its timestamped lines and a blank line. */
  function StrategySection(strategy: string, r: TranscriptResult): string {
    SectionHeader(strategy, r) + TxtLines(r.segments) + "\n"
  }

  function SectionHeader(strategy: string, r: TranscriptResult): string {
    "=== Strategy: " + strategy + " (confidence: " + PercentText(r.probability) + ") ===\n"
  }

  function Sections(keys: seq<string>, results: map<string, TranscriptResult>): string
    requires forall k :: k in keys ==> k in results
  {
    if keys == [] then []
    else Sections(keys[..|keys| - 1], results) + StrategySection(keys[|keys| - 1], results[keys[|keys| - 1]])
  }

  /** The whole comparison: a title naming the audio file, then every pass in insertion order. */
  function Comparison(audioName: string, keys: seq<string>, results: map<string, TranscriptResult>): string
    requires forall k :: k in keys ==> k in results
  {
    "Multiple transcriptions of: " + audioName + "\n\n" + Sections(keys, results)
  }

  /** The instructions that open the prompt. */
  const PromptHead: string := "You are analyzing multiple transcriptions of the same audio. \nYour task is to create the BEST POSSIBLE transcription by:\n1. Comparing segments at each timestamp\n2. Choosing the most accurate text (best grammar, most sensible content)\n3. Maintaining exact timestamps\n\n"

  /** The output format that closes the prompt. */
  const PromptTail: string := "\n\nOutput ONLY the final transcription in this format:\n[HH:MM:SS] text\n\nDo not add explanations or comments."

  /** The prompt sent to the model, with the comparison in its middle. */
  function Prompt(comparison: string): (r: string)
    ensures Contains(r, comparison)
  {
    var r := PromptHead + comparison + PromptTail;
    assert r[|PromptHead|..|PromptHead| + |comparison|] == comparison;
    assert OccursAt(r, comparison, |PromptHead|);
    r
  }

  /** Builds the comparison with `+=`, pass by pass, as the source does. */
  method BuildComparison(audioName: string, keys: seq<string>, results: map<string, TranscriptResult>)
    returns (comparison: string)
    requires forall k :: k in keys ==> k in results
    ensures comparison == Comparison(audioName, keys, results)
  {
    comparison := "Multiple transcriptions of: " + audioName + "\n\n";
    var i := 0;
    while i < |keys|
      invariant 0 <= i <= |keys|
      invariant comparison == Comparison(audioName, keys[..i], results)
    {
      var r := results[keys[i]];
      var before := comparison;
      var header := SectionHeader(keys[i], r);
      comparison := comparison + header;
      comparison := AppendTranscriptLines(comparison, r.segments);
      comparison := comparison + "\n";
      AppendAssoc(before, header, TxtLines(r.segments));
      AppendAssoc(before, header + TxtLines(r.segments), "\n");
      SectionsStep(keys, i, results);
      AppendAssoc("Multiple transcriptions of: " + audioName + "\n\n", Sections(keys[..i], results),
        StrategySection(keys[i], r));
      i := i + 1;
    }
    assert keys[..i] == keys;
  }

  lemma SectionsStep(keys: seq<string>, i: nat, results: map<string, TranscriptResult>)
    requires i < |keys| && forall k :: k in keys ==> k in results
    ensures Sections(keys[..i + 1], results)
      == Sections(keys[..i], results) + StrategySection(keys[i], results[keys[i]])
  {
    assert keys[..i + 1][..i] == keys[..i];
  }

  /** The inner loop: one `[HH:MM:SS] text` line per segment, in order. */
  method AppendTranscriptLines(text: string, segs: seq<Segment>) returns (r: string)
    ensures r == text + TxtLines(segs)
  {
    r := text;
    var j := 0;
    while j < |segs|
      invariant 0 <= j <= |segs|
      invariant r == text + TxtLines(segs[..j])
    {
      TxtLinesAppend(segs[..j], segs[j]);
      assert segs[..j + 1] == segs[..j] + [segs[j]];
      AppendAssoc(text, TxtLines(segs[..j]), TxtLine(segs[j]));
      r := r + TxtLine(segs[j]);
      j := j + 1;
    }
    assert segs[..j] == segs;
  }

  // ---------------------------------------------------------------------------
  // The response parser: re.finditer(r'\[(\d{2}):(\d{2}):(\d{2})\]\s*(.+?)(?=\[|$)', text, re.DOTALL)
  // ---------------------------------------------------------------------------

  /** `\[(\d{2}):(\d{2}):(\d{2})\]` matches at `p`, `\d` read as an ASCII digit. */
  predicate StampAt(s: string, p: nat) {
    p + 10 <= |s| && IsBracketStamp(s[p..p + 10])
  }

  /** The lookahead `(?=\[|$)` holds at `e`; `$` also matches before a final newline. */
  predicate LookaheadAt(s: string, e: nat) {
    e == |s| || (e < |s| && s[e] == '[') || (e + 1 == |s| && s[e] == '\n')
  }

  /** Where the lazy `.+?` stops: the first position from `k` on where the lookahead holds. */
  function LazyEnd(s: string, k: nat): (e: nat)
    requires k <= |s|
    ensures k <= e <= |s| && LookaheadAt(s, e)
    decreases |s| - k
  {
    if LookaheadAt(s, k) then k else LazyEnd(s, k + 1)
  }

  /** The lazy group stops at the first position from `k` on where the lookahead holds, and nowhere else. */
  lemma {:induction false} LazyEndIs(s: string, k: nat, e: nat)
    requires k <= e <= |s| && LookaheadAt(s, e)
    requires forall i :: k <= i < e ==> !LookaheadAt(s, i)
    ensures LazyEnd(s, k) == e
    decreases e - k
  {
    if k < e {
      LazyEndIs(s, k + 1, e);
    }
  }

  /** A match: where it ends, the seconds its three fields denote, and its text group. */
  datatype Match = Match(end: nat, seconds: nat, text: string)

  /**
   * The match starting at `p`, if any.  The text group is one or more characters;
   * when only whitespace follows the stamp, `\s*` gives back its last character
   * to the text group.
   */
  function MatchAt(s: string, p: nat): (r: Option<Match>)
    requires p <= |s|
    ensures r.Some? ==> StampAt(s, p) && p + 10 < r.value.end <= |s|
    ensures r.Some? ==> r.value.seconds == BracketSeconds(s[p..p + 10])
    ensures !StampAt(s, p) ==> r.None?
  {
    if !StampAt(s, p) then None
    else
      var j := SpaceRunEnd(s, p + 10);
      if j < |s| then
        var e := LazyEnd(s, j + 1);
        Some(Match(e, BracketSeconds(s[p..p + 10]), s[j..e]))
      else if j > p + 10 then Some(Match(|s|, BracketSeconds(s[p..p + 10]), s[j - 1..]))
      else None
  }

  /** The segment a match becomes: start in whole seconds, end five seconds later, text stripped. */
  function SegmentOf(m: Match): (seg: Segment)
    ensures seg.endMs == seg.startMs + 5000
  {
    Segment(m.seconds * 1000, (m.seconds + 5) * 1000, Strip(m.text))
  }

  /** All matches from position `p` on, scanning left to right without overlap. */
  function MatchesFrom(s: string, p: nat): (segs: seq<Segment>)
    requires p <= |s|
    ensures forall k :: 0 <= k < |segs| ==> segs[k].endMs == segs[k].startMs + 5000
    decreases |s| - p
  {
    if p == |s| then []
    else
      var r := MatchAt(s, p);
      if r.None? then MatchesFrom(s, p + 1)
      else
        var rest := MatchesFrom(s, r.value.end);
        var seg := SegmentOf(r.value);
        [seg] + rest
  }

  /** The parsing loop: one `finditer` step per iteration, appending a segment per match. */
  method ParseMergedText(text: string) returns (segs: seq<Segment>)
    ensures segs == MatchesFrom(text, 0)
  {
    segs := [];
    var p := 0;
    while p < |text|
      invariant p <= |text|
      invariant segs + MatchesFrom(text, p) == MatchesFrom(text, 0)
      decreases |text| - p
    {
      var m := MatchAt(text, p);
      if m.Some? {
        assert MatchesFrom(text, p) == [SegmentOf(m.value)] + MatchesFrom(text, m.value.end);
        segs := segs + [SegmentOf(m.value)];
        p := m.value.end;
      } else {
        p := p + 1;
      }
    }
  }

  /** Text with no `[`: no stamp starts inside it. */
  function SegmentTexts(segs: seq<Segment>): (r: seq<string>)
    ensures |r| == |segs|
    ensures forall k :: 0 <= k < |segs| ==> r[k] == segs[k].text
  {
    seq(|segs|, k requires 0 <= k < |segs| => segs[k].text)
  }

  // ---------------------------------------------------------------------------
  // The merge outcome
  // ---------------------------------------------------------------------------

  /**
   * What `_llm_merge_transcriptions` returns for a given answer: nothing on a failed
   * request, a status other than 200, an answer without `response`, or an answer
   * without any match; otherwise the parsed segments, with language, probability
   * and processing taken from the first most probable pass and every pass listed
   * as used.
   */
  function MergeOutcome(answer: Option<HttpResponse>, keys: seq<string>, results: map<string, TranscriptResult>)
    : (r: Option<TranscriptResult>)
    requires |keys| >= 1 && forall k :: k in keys ==> k in results
    ensures r.Some? <==>
      answer.Some? && answer.value.status == 200 && answer.value.response.Some?
      && MatchesFrom(answer.value.response.value, 0) != []
    ensures r.Some? ==> r.value.segments == MatchesFrom(answer.value.response.value, 0)
    ensures r.Some? ==> r.value.fullText == Join(SegmentTexts(r.value.segments), " ")
    ensures r.Some? ==> r.value.strategiesUsed == Some(keys) && r.value.passInfo.None?
    ensures r.Some? ==>
      (exists b :: 0 <= b < |keys|
        && r.value.probability == results[keys[b]].probability
        && r.value.language == results[keys[b]].language
        && r.value.processing == results[keys[b]].processing
        && (forall j :: 0 <= j < |keys| ==> results[keys[j]].probability <= r.value.probability)
        && (forall j :: 0 <= j < b ==> results[keys[j]].probability < r.value.probability))
  {
    match answer
    case None => None
    case Some(resp) =>
      if resp.status != 200 || resp.response.None? then None
      else
        var segs := MatchesFrom(resp.response.value, 0);
        if segs == [] then None
        else
          var probs := Probabilities(results);
          var b := BestIndex(keys, probs);
          var best := results[keys[b]];
          Some(TranscriptResult(best.language, best.probability, segs,
            Join(SegmentTexts(segs), " "), best.processing, None, Some(keys)))
  }

  /** `_llm_merge_transcriptions`: builds the prompt, asks the model once, and parses its answer. */
  method LlmMerge(audioName: string, keys: seq<string>, results: map<string, TranscriptResult>,
                  ask: string -> Option<HttpResponse>)
    returns (r: Option<TranscriptResult>)
    requires |keys| >= 1 && forall k :: k in keys ==> k in results
    ensures r == MergeOutcome(ask(Prompt(Comparison(audioName, keys, results))), keys, results)
  {
    var comparison := BuildComparison(audioName, keys, results);
    var answer := ask(Prompt(comparison));
    if answer.None? || answer.value.status != 200 || answer.value.response.None? {
      return None;
    }
    var segs := ParseMergedText(answer.value.response.value);
    if segs == [] {
      return None;
    }
    var b := BestIndex(keys, Probabilities(results));
    var best := results[keys[b]];
    r := Some(TranscriptResult(best.language, best.probability, segs,
      Join(SegmentTexts(segs), " "), best.processing, None, Some(keys)));
  }

  // ---------------------------------------------------------------------------
  // Round trip: an answer made of transcript lines parses back into their segments
  // ---------------------------------------------------------------------------

  /** A line the parser reads back: a start before 100:00:00 and a text it reads back. */
  predicate Echoable(seg: Segment) {
    seg.startMs < 360_000_000 && ReadableText(seg.text)
  }

  /** No `[` in the text, and some non-space character. */
  predicate ReadableText(t: string) {
    '[' !in t && exists i :: 0 <= i < |t| && !SpaceAt(t, i)
  }

  /** The segment the parser yields for a transcript line of `seg`. */
  function Reparsed(seg: Segment): Segment {
    Segment(seg.startMs / 1000 * 1000, (seg.startMs / 1000 + 5) * 1000, Strip(seg.text))
  }

  function AllReparsed(segs: seq<Segment>): (r: seq<Segment>)
    ensures |r| == |segs|
  {
    if segs == [] then [] else [Reparsed(segs[0])] + AllReparsed(segs[1..])
  }

  /** A text with a non-space character has its first non-space before its last one. */
  lemma TextSpan(t: string)
    requires exists i :: 0 <= i < |t| && !SpaceAt(t, i)
    ensures SpaceRunEnd(t, 0) < SpaceRunStart(t, |t|)
  {
    var i :| 0 <= i < |t| && !SpaceAt(t, i);
    SpaceRunEndSpaces(t, 0);
    SpaceRunStartSpaces(t, |t|);
    assert SpaceRunEnd(t, 0) <= i < SpaceRunStart(t, |t|);
  }

  /** A transcript line at `p`, character by character. */
  predicate LineAt(s: string, p: nat, seg: Segment) {
    var t := seg.text;
    p + |t| + 12 <= |s|
    && IsBracketStamp(s[p..p + 10]) && BracketSeconds(s[p..p + 10]) == seg.startMs / 1000
    && s[p + 10] == ' ' && s[p + 11..p + 11 + |t|] == t && s[p + 11 + |t|] == '\n'
  }

  /** A copy of `TxtLine(seg)` at `p` is a line the parser can read there. */
  lemma TxtLineAt(s: string, p: nat, seg: Segment)
    requires ClockOf(seg.startMs).hours < 100
    requires p + |TxtLine(seg)| <= |s| && s[p..p + |TxtLine(seg)|] == TxtLine(seg)
    ensures |TxtLine(seg)| == |seg.text| + 12
    ensures LineAt(s, p, seg)
  {
    var line := TxtLine(seg);
    TxtLineLayout(seg);
    BracketRoundTrip(seg.startMs);
    var t := seg.text;
    SliceOfSlice(s, p, |line|, 0, 10);
    SliceOfSlice(s, p, |line|, 11, |t| + 11);
    assert s[p + 10] == line[10] && s[p + 11 + |t|] == line[|t| + 11];
  }

  /** One transcript line at `p`, followed by the end or by another `[`, is one match. */
  lemma LineMatches(s: string, p: nat, seg: Segment)
    requires ReadableText(seg.text) && LineAt(s, p, seg)
    requires p + |seg.text| + 12 == |s| || s[p + |seg.text| + 12] == '['
    ensures MatchAt(s, p).Some?
    ensures MatchAt(s, p).value.end
      == if p + |seg.text| + 12 == |s| then |s| - 1 else p + |seg.text| + 12
    ensures SegmentOf(MatchAt(s, p).value) == Reparsed(seg)
  {
    var t := seg.text;
    var j := p + 11 + SpaceRunEnd(t, 0);
    var e := if p + |t| + 12 == |s| then p + |t| + 11 else p + |t| + 12;
    LineMatchAt(s, p, seg, j, e);
    LineStrip(s, p + 11, t, j, e);
    SegmentOfIs(Match(e, seg.startMs / 1000, s[j..e]), seg);
  }

  /** Where the match at a transcript line starts and ends. */
  lemma LineMatchAt(s: string, p: nat, seg: Segment, j: nat, e: nat)
    requires ReadableText(seg.text) && LineAt(s, p, seg)
    requires p + |seg.text| + 12 == |s| || s[p + |seg.text| + 12] == '['
    requires j == p + 11 + SpaceRunEnd(seg.text, 0)
    requires e == if p + |seg.text| + 12 == |s| then p + |seg.text| + 11 else p + |seg.text| + 12
    ensures j <= e <= |s| && MatchAt(s, p) == Some(Match(e, seg.startMs / 1000, s[j..e]))
  {
    assert StampAt(s, p);
    LineRun(s, p, seg);
    LineLazyEnd(s, p + 11, seg.text, SpaceRunEnd(seg.text, 0));
    MatchAtIs(s, p, j, e);
  }

  /** After the stamp of a transcript line, `\s*` runs up to the first non-space character of its text. */
  lemma LineRun(s: string, p: nat, seg: Segment)
    requires ReadableText(seg.text) && LineAt(s, p, seg)
    ensures SpaceRunEnd(seg.text, 0) < |seg.text|
    ensures SpaceRunEnd(s, p + 10) == p + 11 + SpaceRunEnd(seg.text, 0) < |s|
  {
    var t := seg.text;
    TextSpan(t);
    SpaceRunEndSpaces(t, 0);
    CopiedText(s, p + 11, t);
    LeadingRun(s, p + 11, t, SpaceRunEnd(t, 0));
  }

  /** The lazy group of a transcript line ends at its newline or just after it. */
  lemma LineLazyEnd(s: string, start: nat, t: string, q: nat)
    requires start + |t| < |s| && s[start..start + |t|] == t && s[start + |t|] == '\n'
    requires '[' !in t && q < |t|
    requires start + |t| + 1 == |s| || s[start + |t| + 1] == '['
    ensures LazyEnd(s, start + q + 1) == if start + |t| + 1 == |s| then start + |t| else start + |t| + 1
  {
    CopiedText(s, start, t);
    LazyEndAfter(s, start, t, q);
  }

  /** The lazy group of a transcript line strips to the stripped text of the line. */
  lemma LineStrip(s: string, start: nat, t: string, j: nat, e: nat)
    requires exists i :: 0 <= i < |t| && !SpaceAt(t, i)
    requires start + |t| < |s| && s[start..start + |t|] == t && s[start + |t|] == '\n'
    requires j == start + SpaceRunEnd(t, 0)
    requires e == start + |t| || e == start + |t| + 1
    ensures j <= e <= |s| && Strip(s[j..e]) == Strip(t)
  {
    LineTail(s, start, t, SpaceRunEnd(t, 0), e);
    StripFromLead(t, s[j..e]);
  }

  /** A copy of `t` at `start` followed by a newline, read from offset `q` of `t` to the newline or past it. */
  lemma LineTail(s: string, start: nat, t: string, q: nat, e: nat)
    requires q <= |t| && start + |t| < |s| && s[start..start + |t|] == t && s[start + |t|] == '\n'
    requires e == start + |t| || e == start + |t| + 1
    ensures s[start + q..e] == t[q..] || s[start + q..e] == t[q..] + "\n"
  {
    SliceOfSlice(s, start, |t|, q, |t|);
    if e == start + |t| + 1 {
      assert s[start + q..e] == s[start + q..e - 1] + [s[e - 1]];
    }
  }

  /** The text from its first non-space character on, with or without a final newline, strips like the text. */
  lemma StripFromLead(t: string, x: string)
    requires exists i :: 0 <= i < |t| && !SpaceAt(t, i)
    requires x == t[SpaceRunEnd(t, 0)..] || x == t[SpaceRunEnd(t, 0)..] + "\n"
    ensures Strip(x) == Strip(t)
  {
    var q := SpaceRunEnd(t, 0);
    var b := SpaceRunStart(t, |t|);
    TextSpan(t);
    TailSpans(t, q, b, x);
    StripOfSpans(t, q, b);
    StripOfSpans(x, 0, b - q);
  }

  /** Where the runs of whitespace at both ends of such a copy lie. */
  lemma TailSpans(t: string, q: nat, b: nat, x: string)
    requires q == SpaceRunEnd(t, 0) && b == SpaceRunStart(t, |t|) && q < b
    requires x == t[q..] || x == t[q..] + "\n"
    ensures b - q <= |x| && x[0..b - q] == t[q..b]
    ensures SpaceRunEnd(x, 0) == 0 && SpaceRunStart(x, |x|) == b - q
  {
    SpaceRunStartSpaces(t, |t|);
    LeadCopy(t, q, x);
    CopySpans(t, q, b, x);
  }

  /** The same, stated on characters alone. */
  lemma CopySpans(t: string, q: nat, b: nat, x: string)
    requires q < b <= |t| && !SpaceAt(t, q) && !SpaceAt(t, b - 1)
    requires forall i :: b <= i < |t| ==> SpaceAt(t, i)
    requires |x| == |t| - q || (|x| == |t| - q + 1 && x[|x| - 1] == '\n')
    requires forall i :: 0 <= i < |t| - q ==> x[i] == t[q + i]
    ensures b - q <= |x| && x[0..b - q] == t[q..b]
    ensures SpaceRunEnd(x, 0) == 0 && SpaceRunStart(x, |x|) == b - q
  {
    assert x[0..b - q] == t[q..b];
    forall i | b - q <= i < |x| ensures SpaceAt(x, i) {
      if i < |t| - q {
        assert x[i] == t[q + i] && SpaceAt(t, q + i);
      }
    }
    assert x[0] == t[q] && x[b - q - 1] == t[b - 1];
    SpaceRunEndIs(x, 0, 0);
    SpaceRunStartIs(x, |x|, b - q);
  }

  /** A copy of `t` from `q` on, possibly followed by a newline, character by character. */
  lemma LeadCopy(t: string, q: nat, x: string)
    requires q <= |t| && (x == t[q..] || x == t[q..] + "\n")
    ensures |x| == |t| - q || (|x| == |t| - q + 1 && x[|x| - 1] == '\n')
    ensures forall i :: 0 <= i < |t| - q ==> x[i] == t[q + i]
  {
    var u := t[q..];
    assert x[..|u|] == u by {
      if x != u {
        assert x == u + "\n";
      }
    }
    forall i | 0 <= i < |t| - q
      ensures x[i] == t[q + i]
    {
      assert x[i] == x[..|u|][i] == u[i];
    }
  }

  lemma SegmentOfIs(m: Match, seg: Segment)
    requires m.seconds == seg.startMs / 1000 && Strip(m.text) == Strip(seg.text)
    ensures SegmentOf(m) == Reparsed(seg)
  {
  }

  /** The characters of a copy of `t` at `start`, one by one. */
  lemma CopiedText(s: string, start: nat, t: string)
    requires start + |t| <= |s| && s[start..start + |t|] == t
    ensures forall i :: 0 <= i < |t| ==> s[start + i] == t[i]
  {
    forall i | 0 <= i < |t| ensures s[start + i] == t[i] {
      assert s[start..start + |t|][i] == t[i];
    }
  }

  /** After the space behind the stamp, `\s*` runs up to the first non-space character of the text. */
  lemma LeadingRun(s: string, start: nat, t: string, q: nat)
    requires start >= 1 && start + |t| <= |s| && forall i :: 0 <= i < |t| ==> s[start + i] == t[i]
    requires s[start - 1] == ' '
    requires q < |t| && !SpaceAt(t, q) && forall i :: 0 <= i < q ==> SpaceAt(t, i)
    ensures SpaceRunEnd(s, start - 1) == start + q
  {
    forall i | start - 1 <= i < start + q
      ensures SpaceAt(s, i)
    {
      if i >= start {
        assert s[i] == t[i - start] && SpaceAt(t, i - start);
      }
    }
    assert !SpaceAt(s, start + q);
    SpaceRunEndIs(s, start - 1, start + q);
  }

  /** With no `[` in `t`, the lazy group stops at the line's newline when it ends the answer, else just after it. */
  lemma LazyEndAfter(s: string, start: nat, t: string, q: nat)
    requires start + |t| < |s| && forall i :: 0 <= i < |t| ==> s[start + i] == t[i]
    requires '[' !in t && q < |t| && s[start + |t|] == '\n'
    requires start + |t| + 1 == |s| || s[start + |t| + 1] == '['
    ensures LazyEnd(s, start + q + 1) == if start + |t| + 1 == |s| then start + |t| else start + |t| + 1
  {
    var target := if start + |t| + 1 == |s| then start + |t| else start + |t| + 1;
    assert LookaheadAt(s, target);
    forall i | start + q + 1 <= i < target
      ensures !LookaheadAt(s, i)
    {
      assert i < start + |t| ==> s[i] == t[i - start];
    }
    LazyEndIs(s, start + q + 1, target);
  }

  /** A match whose whitespace run stops before the end takes the text up to the lookahead. */
  lemma MatchAtIs(s: string, p: nat, j: nat, e: nat)
    requires StampAt(s, p) && SpaceRunEnd(s, p + 10) == j && j < |s| && LazyEnd(s, j + 1) == e
    ensures MatchAt(s, p) == Some(Match(e, BracketSeconds(s[p..p + 10]), s[j..e]))
  {
  }

  /** One transcript line at `p`, followed by the end or by another line, parses as its segment. */
  lemma LineParses(s: string, p: nat, seg: Segment)
    requires ReadableText(seg.text) && LineAt(s, p, seg)
    requires p + |seg.text| + 12 == |s| || s[p + |seg.text| + 12] == '['
    ensures MatchesFrom(s, p) == [Reparsed(seg)] + MatchesFrom(s, p + |seg.text| + 12)
  {
    if p + |seg.text| + 12 == |s| {
      assert MatchesFrom(s, |s| - 1) == [] by {
        assert MatchAt(s, |s| - 1).None?;
      }
    }
    LineMatches(s, p, seg);
    MatchesFromStep(s, p);
  }

  /** Transcript lines of `segs`, one after another from `p` to the end of `s`. */
  predicate LinesAt(s: string, p: nat, segs: seq<Segment>)
    decreases |segs|
  {
    if segs == [] then p == |s|
    else LineAt(s, p, segs[0]) && LinesAt(s, p + |segs[0].text| + 12, segs[1..])
  }

  /** Every segment can be echoed back through a transcript line. */
  predicate AllEchoable(segs: seq<Segment>)
    decreases |segs|
  {
    segs == [] || (Echoable(segs[0]) && AllEchoable(segs[1..]))
  }

  lemma {:induction false} AllEchoableIs(segs: seq<Segment>)
    requires forall seg :: seg in segs ==> Echoable(seg)
    ensures AllEchoable(segs)
    decreases |segs|
  {
    if segs != [] {
      assert segs[0] in segs;
      AllEchoableIs(segs[1..]);
    }
  }

  /** Copies of the transcript lines of `segs`, laid end to end, are lines in the parser's sense. */
  lemma {:induction false} PiecesAreLines(s: string, p: nat, segs: seq<Segment>)
    requires AllEchoable(segs) && PiecesAt(s, p, TxtLineList(segs))
    ensures LinesAt(s, p, segs)
    decreases |segs|
  {
    if segs != [] {
      LinesRest(s, p, segs);
      PiecesAreLines(s, p + |segs[0].text| + 12, segs[1..]);
      FirstPieceIsLine(s, p, segs);
      LinesAtCons(s, p, segs);
    } else {
      assert p == |s|;
    }
  }

  lemma FirstPieceIsLine(s: string, p: nat, segs: seq<Segment>)
    requires segs != [] && segs[0].startMs < 360_000_000 && PiecesAt(s, p, TxtLineList(segs))
    ensures LineAt(s, p, segs[0])
  {
    assert TxtLineList(segs)[0] == TxtLine(segs[0]);
    HoursBelow100(segs[0].startMs);
    TxtLineAt(s, p, segs[0]);
  }

  lemma LinesAtCons(s: string, p: nat, segs: seq<Segment>)
    requires segs != [] && LineAt(s, p, segs[0]) && LinesAt(s, p + |segs[0].text| + 12, segs[1..])
    ensures LinesAt(s, p, segs)
  {
  }

  /** The laid-out lines after the first start where the first line ends. */
  lemma LinesRest(s: string, p: nat, segs: seq<Segment>)
    requires segs != [] && segs[0].startMs < 360_000_000 && PiecesAt(s, p, TxtLineList(segs))
    ensures p + |segs[0].text| + 12 <= |s| && PiecesAt(s, p + |segs[0].text| + 12, TxtLineList(segs[1..]))
  {
    var ls := TxtLineList(segs);
    assert ls[1..] == TxtLineList(segs[1..]);
    assert |ls[0]| == |segs[0].text| + 12 by {
      HoursBelow100(segs[0].startMs);
      TxtLineLayout(segs[0]);
    }
  }

  /** The first of the laid-out lines is one match, and the scan resumes where the next line starts. */
  lemma FirstLineMatches(s: string, p: nat, segs: seq<Segment>)
    requires segs != [] && ReadableText(segs[0].text) && LinesAt(s, p, segs)
    ensures MatchesFrom(s, p) == [Reparsed(segs[0])] + MatchesFrom(s, p + |segs[0].text| + 12)
  {
    assert p + |segs[0].text| + 12 == |s| || s[p + |segs[0].text| + 12] == '[' by {
      if segs[1..] != [] {
        assert LineAt(s, p + |segs[0].text| + 12, segs[1..][0]);
      }
    }
    LineParses(s, p, segs[0]);
  }

  /** Parsing lines laid out one after another gives each segment back. */
  lemma {:induction false} LinesParseFrom(s: string, p: nat, segs: seq<Segment>)
    requires AllEchoable(segs) && LinesAt(s, p, segs)
    ensures MatchesFrom(s, p) == AllReparsed(segs)
    decreases |segs|
  {
    if segs != [] {
      LinesParseFrom(s, p + |segs[0].text| + 12, segs[1..]);
      FirstLineMatches(s, p, segs);
    }
  }

  lemma MatchesFromStep(s: string, p: nat)
    requires p < |s| && MatchAt(s, p).Some?
    ensures MatchesFrom(s, p) == [SegmentOf(MatchAt(s, p).value)] + MatchesFrom(s, MatchAt(s, p).value.end)
  {
  }


  /**
   * An answer that repeats transcript lines verbatim parses back into those
   * segments: start cut to whole seconds, end five seconds later, text stripped.
   */
  lemma MergeParsesTranscriptLines(segs: seq<Segment>)
    requires forall seg :: seg in segs ==> Echoable(seg)
    ensures MatchesFrom(TxtLines(segs), 0) == AllReparsed(segs)
  {
    var s := TxtLines(segs);
    assert s[0..] == s;
    FlattenAt(s, 0, TxtLineList(segs));
    AllEchoableIs(segs);
    PiecesAreLines(s, 0, segs);
    LinesParseFrom(s, 0, segs);
  }
}
