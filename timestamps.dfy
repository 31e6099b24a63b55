/**
 * The transcript's time notations (transcribe.py): the `[HH:MM:SS]` stamp of a
 * transcript line, and the `HH:MM:SS,mmm` / `HH:MM:SS.mmm` times of SRT and
 * WebVTT cues.  Time is a whole number of milliseconds; the Python code works on
 * float seconds, and its `int(x // 3600)`-style arithmetic is the integer
 * division used here.
 */
module Timestamps {

  import opened Wrappers
  import opened Strings

  /** A time split into its clock fields. */
  datatype Clock = Clock(hours: nat, minutes: nat, seconds: nat, millis: nat)

  /** One transcript segment: start and end in milliseconds, and its text. */
  datatype Segment = Segment(startMs: nat, endMs: nat, text: string)

  /**
   * The clock fields of a time: minutes and seconds below 60, millis below 1000.
   * Whole seconds are split by 60 twice, which gives the same fields as the
   * source's `// 3600`, `% 3600 // 60` and `% 60` on the seconds.
   */
  function ClockOf(ms: nat): (c: Clock)
    ensures c.minutes < 60 && c.seconds < 60 && c.millis < 1000
    ensures (c.hours * 60 + c.minutes) * 60 + c.seconds == ms / 1000
    ensures ms == (ms / 1000) * 1000 + c.millis
  {
    var secs := ms / 1000;
    Clock(secs / 60 / 60, secs / 60 % 60, secs % 60, ms % 1000)
  }

  /** The fields agree with the source's divisions of the seconds by 3600 and 60. */
  lemma ClockOfFields(ms: nat)
    ensures ClockOf(ms).hours == (ms / 1000) / 3600
    ensures ClockOf(ms).minutes == ((ms / 1000) % 3600) / 60
    ensures ClockOf(ms).seconds == (ms / 1000) % 60
  {
    var secs := ms / 1000;
    var c := ClockOf(ms);
    assert secs == c.hours * 3600 + (c.minutes * 60 + c.seconds);
    assert 0 <= c.minutes * 60 + c.seconds < 3600;
  }

  // ---------------------------------------------------------------------------
  // [HH:MM:SS]
  // ---------------------------------------------------------------------------

  /** Times before 100:00:00 have at most two hour digits. */
  lemma HoursBelow100(ms: nat)
    requires ms < 360_000_000
    ensures ClockOf(ms).hours < 100
  {
    ClockOfFields(ms);
    assert ms / 1000 < 360_000;
  }

  /** `format_timestamp`: `[HH:MM:SS]`, each field zero-padded to two digits. */
  function FormatTimestamp(ms: nat): (r: string)
    ensures ClockOf(ms).hours < 100 ==> IsBracketStamp(r)
    ensures |r| >= 10 && r[0] == '[' && r[|r| - 1] == ']'
  {
    Stamp(ClockOf(ms))
  }

  function Stamp(c: Clock): (r: string)
    requires c.minutes < 60 && c.seconds < 60
    ensures c.hours < 100 ==> IsBracketStamp(r)
    ensures |r| >= 10 && r[0] == '[' && r[|r| - 1] == ']'
  {
    var h := Padded(c.hours, 2);
    var m := Padded(c.minutes, 2);
    var sec := Padded(c.seconds, 2);
    PaddedLength(c.hours, 2);
    PaddedLength(c.minutes, 2);
    PaddedLength(c.seconds, 2);
    var r := "[" + h + ":" + m + ":" + sec + "]";
    assert |m| == 2 && |sec| == 2;
    assert c.hours < 100 ==>
      |h| == 2 && r[1] == h[0] && r[2] == h[1] && r[4] == m[0]
      && r[5] == m[1] && r[7] == sec[0] && r[8] == sec[1];
    r
  }

  /** Exactly `[dd:dd:dd]`, the form the merge parser and the HTML pages read. */
  predicate IsBracketStamp(t: string) {
    |t| == 10 && t[0] == '[' && t[3] == ':' && t[6] == ':' && t[9] == ']'
    && IsDigit(t[1]) && IsDigit(t[2]) && IsDigit(t[4]) && IsDigit(t[5])
    && IsDigit(t[7]) && IsDigit(t[8])
  }

  /** The seconds a `[dd:dd:dd]` stamp denotes: h*3600 + m*60 + s (fields are not range-checked). */
  function BracketSeconds(t: string): nat
    requires IsBracketStamp(t)
  {
    DigitsValue(t[1..3]) * 3600 + DigitsValue(t[4..6]) * 60 + DigitsValue(t[7..9])
  }

  /** Reading back a formatted stamp gives the time in whole seconds (below 100 hours). */
  lemma BracketRoundTrip(ms: nat)
    requires ClockOf(ms).hours < 100
    ensures IsBracketStamp(FormatTimestamp(ms))
    ensures BracketSeconds(FormatTimestamp(ms)) == ms / 1000
  {
    StampRoundTrip(ClockOf(ms));
  }

  lemma StampRoundTrip(c: Clock)
    requires c.minutes < 60 && c.seconds < 60 && c.hours < 100
    ensures IsBracketStamp(Stamp(c))
    ensures BracketSeconds(Stamp(c)) == c.hours * 3600 + c.minutes * 60 + c.seconds
  {
    var t := Stamp(c);
    PaddedLength(c.hours, 2);
    PaddedLength(c.minutes, 2);
    PaddedLength(c.seconds, 2);
    assert t[1..3] == Padded(c.hours, 2);
    assert t[4..6] == Padded(c.minutes, 2);
    assert t[7..9] == Padded(c.seconds, 2);
    PaddedValue(c.hours, 2);
    PaddedValue(c.minutes, 2);
    PaddedValue(c.seconds, 2);
  }

  // ---------------------------------------------------------------------------
  // SRT and WebVTT cue times
  // ---------------------------------------------------------------------------

  /** `HH:MM:SS<sep>mmm`: hours at least two digits, millis three. */
  function ClockText(ms: nat, sep: char): (r: string)
    ensures |r| >= 12
    ensures r[|r| - 4] == sep && r[|r| - 7] == ':' && r[|r| - 10] == ':'
  {
    var c := ClockOf(ms);
    var r := ClockFieldsText(c, sep);
    assert |r| >= 12 && r[|r| - 4] == sep && r[|r| - 7] == ':' && r[|r| - 10] == ':';
    r
  }

  function ClockFieldsText(c: Clock, sep: char): (r: string)
    requires c.minutes < 60 && c.seconds < 60 && c.millis < 1000
    ensures |r| >= 12
    ensures r[|r| - 4] == sep && r[|r| - 7] == ':' && r[|r| - 10] == ':'
  {
    var h := Padded(c.hours, 2);
    var m := Padded(c.minutes, 2);
    var sec := Padded(c.seconds, 2);
    var f := Padded(c.millis, 3);
    PaddedLength(c.minutes, 2);
    PaddedLength(c.seconds, 2);
    PaddedLength(c.millis, 3);
    var r := h + ":" + m + ":" + sec + [sep] + f;
    assert |m| == 2 && |sec| == 2 && |f| == 3 && |r| == |h| + 10;
    assert r[|r| - 4] == sep && r[|r| - 7] == ':' && r[|r| - 10] == ':';
    r
  }

  /** `_format_srt_time`: `HH:MM:SS,mmm`. */
  function SrtTime(ms: nat): (r: string)
    ensures |r| >= 12 && r[|r| - 4] == ','
  {
    ClockText(ms, ',')
  }

  /** `_format_vtt_time`: `HH:MM:SS.mmm`, a WebVTT timestamp. */
  function VttTime(ms: nat): (r: string)
    ensures IsWebVttTimestamp(r)
  {
    ClockTextRoundTrip(ms, '.');
    ClockText(ms, '.')
  }

  /**
   * The timestamp syntax of section 4.1 of the W3C WebVTT specification:
   * optional hours (two or more digits) and ':', two-digit minutes 00-59, ':',
   * two-digit seconds 00-59, '.', three-digit fractional seconds.
   */
  predicate IsWebVttTimestamp(s: string) {
    var n := |s|;
    n >= 9 && s[n - 4] == '.' && s[n - 7] == ':'
    && AllDigits(s[n - 3..]) && AllDigits(s[n - 6..n - 4]) && AllDigits(s[n - 9..n - 7])
    && DigitsValue(s[n - 6..n - 4]) < 60 && DigitsValue(s[n - 9..n - 7]) < 60
    && (n == 9 || (n >= 12 && s[n - 10] == ':' && AllDigits(s[..n - 10])))
  }

  /** The fields of a `ClockText`, read by position from its end. */
  lemma ClockTextShape(c: Clock, sep: char)
    requires c.minutes < 60 && c.seconds < 60 && c.millis < 1000
    ensures var r := ClockFieldsText(c, sep); var n := |r|;
      n >= 12
      && r[..n - 10] == Padded(c.hours, 2) && r[n - 9..n - 7] == Padded(c.minutes, 2)
      && r[n - 6..n - 4] == Padded(c.seconds, 2) && r[n - 3..] == Padded(c.millis, 3)
      && AllDigits(r[..n - 10]) && AllDigits(r[n - 9..n - 7]) && AllDigits(r[n - 6..n - 4])
      && AllDigits(r[n - 3..])
      && DigitsValue(r[n - 9..n - 7]) == c.minutes && DigitsValue(r[n - 6..n - 4]) == c.seconds
      && DigitsValue(r[..n - 10]) == c.hours && DigitsValue(r[n - 3..]) == c.millis
  {
    var h := Padded(c.hours, 2);
    var m := Padded(c.minutes, 2);
    var sec := Padded(c.seconds, 2);
    var f := Padded(c.millis, 3);
    PaddedLength(c.minutes, 2);
    PaddedLength(c.seconds, 2);
    PaddedLength(c.millis, 3);
    var r := ClockFieldsText(c, sep);
    var n := |r|;
    assert r == h + ":" + m + ":" + sec + [sep] + f;
    assert n == |h| + 10;
    assert r[..n - 10] == h;
    assert r[n - 9..n - 7] == m;
    assert r[n - 6..n - 4] == sec;
    assert r[n - 3..] == f;
    PaddedValue(c.hours, 2);
    PaddedValue(c.minutes, 2);
    PaddedValue(c.seconds, 2);
    PaddedValue(c.millis, 3);
  }

  /** Reads `H+:MM:SS<sep>mmm` (hours required) back into milliseconds. */
  function ParseClockText(s: string, sep: char): (r: Option<nat>)
    ensures r.Some? && sep == '.' ==> IsWebVttTimestamp(s)
  {
    var n := |s|;
    if n < 12 || s[n - 4] != sep || s[n - 7] != ':' || s[n - 10] != ':' then None
    else if !(AllDigits(s[..n - 10]) && AllDigits(s[n - 9..n - 7]) && AllDigits(s[n - 6..n - 4])
              && AllDigits(s[n - 3..])) then None
    else
      var h := DigitsValue(s[..n - 10]);
      var m := DigitsValue(s[n - 9..n - 7]);
      var sec := DigitsValue(s[n - 6..n - 4]);
      if m >= 60 || sec >= 60 || n - 10 < 2 then None
      else Some(((h * 60 + m) * 60 + sec) * 1000 + DigitsValue(s[n - 3..]))
  }

  /** SRT and WebVTT times read back to the exact millisecond. */
  lemma ClockTextRoundTrip(ms: nat, sep: char)
    ensures ParseClockText(ClockText(ms, sep), sep) == Some(ms)
  {
    var c := ClockOf(ms);
    ClockTextShape(c, sep);
    assert ParseClockText(ClockText(ms, sep), sep)
      == Some(((c.hours * 60 + c.minutes) * 60 + c.seconds) * 1000 + c.millis);
  }

  /** SRT and WebVTT times agree everywhere except the separator before the millis. */
  lemma SrtVttDifferOnlyInSeparator(ms: nat)
    ensures |SrtTime(ms)| == |VttTime(ms)|
    ensures forall i :: 0 <= i < |SrtTime(ms)| && i != |SrtTime(ms)| - 4 ==> SrtTime(ms)[i] == VttTime(ms)[i]
    ensures SrtTime(ms)[|SrtTime(ms)| - 4] == ',' && VttTime(ms)[|VttTime(ms)| - 4] == '.'
  {
    var c := ClockOf(ms);
    var x := Padded(c.hours, 2) + ":" + Padded(c.minutes, 2) + ":" + Padded(c.seconds, 2);
    var f := Padded(c.millis, 3);
    assert SrtTime(ms) == ClockFieldsText(c, ',') == x + [','] + f;
    assert VttTime(ms) == ClockFieldsText(c, '.') == x + ['.'] + f;
    PaddedLength(c.millis, 3);
  }

  /** A clock text holds digits, colons and its separator, and no space. */
  lemma ClockTextHasNoSpace(ms: nat, sep: char)
    requires sep != ' '
    ensures forall i :: 0 <= i < |ClockText(ms, sep)| ==> ClockText(ms, sep)[i] != ' '
  {
    var c := ClockOf(ms);
    assert ClockText(ms, sep) == ClockFieldsText(c, sep);
    FieldsTextHasNoSpace(c, sep);
  }

  lemma FieldsTextHasNoSpace(c: Clock, sep: char)
    requires c.minutes < 60 && c.seconds < 60 && c.millis < 1000
    requires sep != ' '
    ensures forall i :: 0 <= i < |ClockFieldsText(c, sep)| ==> ClockFieldsText(c, sep)[i] != ' '
  {
    var h := Padded(c.hours, 2);
    var m := Padded(c.minutes, 2);
    var sec := Padded(c.seconds, 2);
    var f := Padded(c.millis, 3);
    var r := ClockFieldsText(c, sep);
    PaddedLength(c.minutes, 2);
    PaddedLength(c.seconds, 2);
    PaddedLength(c.millis, 3);
    assert r == h + ":" + m + ":" + sec + [sep] + f;
    forall i | 0 <= i < |r| ensures r[i] != ' ' {
      if i < |h| { assert r[i] == h[i]; }
      else if |h| + 1 <= i < |h| + 3 { assert r[i] == m[i - |h| - 1]; }
      else if |h| + 4 <= i < |h| + 6 { assert r[i] == sec[i - |h| - 4]; }
      else if |h| + 7 <= i { assert r[i] == f[i - |h| - 7]; }
    }
  }

  /** The timing line of a cue, `start --> end`. */
  function CueTiming(startMs: nat, endMs: nat, sep: char): string {
    ClockText(startMs, sep) + " --> " + ClockText(endMs, sep)
  }

  /** Reads a cue timing line back into its start and end. */
  function ParseCueTiming(line: string, sep: char): Option<(nat, nat)> {
    var i := Find(line, " --> ");
    if i < 0 then None
    else
      match (ParseClockText(line[..i], sep), ParseClockText(line[i + 5..], sep))
      case (Some(a), Some(b)) => Some((a, b))
      case _ => None
  }

  /** SRT and WebVTT cue timings read back to the exact start and end. */
  lemma CueTimingRoundTrip(startMs: nat, endMs: nat, sep: char)
    requires sep != ' '
    ensures ParseCueTiming(CueTiming(startMs, endMs, sep), sep) == Some((startMs, endMs))
  {
    var x := ClockText(startMs, sep);
    var y := ClockText(endMs, sep);
    var line := CueTiming(startMs, endMs, sep);
    ClockTextHasNoSpace(startMs, sep);
    assert OccursAt(line, " --> ", |x|);
    forall k | 0 <= k < |x| ensures !OccursAt(line, " --> ", k) {
      assert line[k] == x[k];
    }
    assert Find(line, " --> ") == |x|;
    assert line[..|x|] == x;
    assert line[|x| + 5..] == y;
    ClockTextRoundTrip(startMs, sep);
    ClockTextRoundTrip(endMs, sep);
  }

  // ---------------------------------------------------------------------------
  // Line and file shapes of the saved outputs
  // ---------------------------------------------------------------------------

  /** One line of a timestamped `.txt` transcript: `[HH:MM:SS] text\n`. */
  function TxtLine(seg: Segment): string {
    FormatTimestamp(seg.startMs) + " " + seg.text + "\n"
  }

  /** Where the stamp, the space, the text and the newline sit in a transcript line. */
  lemma TxtLineLayout(seg: Segment)
    requires ClockOf(seg.startMs).hours < 100
    ensures |TxtLine(seg)| == |seg.text| + 12
    ensures TxtLine(seg)[..10] == FormatTimestamp(seg.startMs)
    ensures TxtLine(seg)[10] == ' ' && TxtLine(seg)[|seg.text| + 11] == '\n'
    ensures TxtLine(seg)[11..|seg.text| + 11] == seg.text
  {
    var stamp := FormatTimestamp(seg.startMs);
    var line := stamp + " " + seg.text + "\n";
    assert |stamp| == 10;
    assert line[..10] == stamp;
    assert line[11..|seg.text| + 11] == seg.text;
  }

  /** `_save_txt`: timestamped lines in segment order, or the full text when timestamps are off. */
  function TxtFile(segs: seq<Segment>, fullText: string, timestamps: bool): string {
    if timestamps then TxtLines(segs) else fullText
  }

  /** The lines of a timestamped transcript, one per segment. */
  function TxtLineList(segs: seq<Segment>): (r: seq<string>)
    ensures |r| == |segs|
  {
    if segs == [] then [] else [TxtLine(segs[0])] + TxtLineList(segs[1..])
  }

  function TxtLines(segs: seq<Segment>): string {
    Flatten(TxtLineList(segs))
  }

  lemma {:induction false} TxtLineListAppend(segs: seq<Segment>, seg: Segment)
    ensures TxtLineList(segs + [seg]) == TxtLineList(segs) + [TxtLine(seg)]
  {
    if segs == [] {
      assert segs + [seg] == [seg];
      assert [seg][1..] == [];
    } else {
      var all := segs + [seg];
      assert all[0] == segs[0];
      assert all[1..] == segs[1..] + [seg];
      TxtLineListAppend(segs[1..], seg);
    }
  }

  lemma TxtLinesAppend(segs: seq<Segment>, seg: Segment)
    ensures TxtLines(segs + [seg]) == TxtLines(segs) + TxtLine(seg)
  {
    TxtLineListAppend(segs, seg);
    FlattenAppend(TxtLineList(segs), TxtLine(seg));
  }

  /** One SRT cue: its 1-based number, the time range, the text and a blank line. */
  function SrtCue(index: nat, seg: Segment): string {
    NatToString(index) + "\n" + CueTiming(seg.startMs, seg.endMs, ',') + "\n" + seg.text + "\n\n"
  }

  /** `_save_srt`: cues numbered from 1 in segment order. */
  function SrtFile(segs: seq<Segment>): (r: string)
    ensures segs != [] ==> EndsWith(r, SrtCue(|segs|, segs[|segs| - 1]))
  {
    if segs == [] then [] else SrtFile(segs[..|segs| - 1]) + SrtCue(|segs|, segs[|segs| - 1])
  }

  /** One WebVTT cue: the time range, the text and a blank line. */
  function VttCue(seg: Segment): string {
    CueTiming(seg.startMs, seg.endMs, '.') + "\n" + seg.text + "\n\n"
  }

  function VttCues(segs: seq<Segment>): string {
    if segs == [] then [] else VttCues(segs[..|segs| - 1]) + VttCue(segs[|segs| - 1])
  }

  /** `_save_vtt`: the `WEBVTT` header line and a blank line, then the cues. */
  function VttFile(segs: seq<Segment>): (r: string)
    ensures StartsWith(r, "WEBVTT\n\n")
  {
    "WEBVTT\n\n" + VttCues(segs)
  }

  /** The n-th SRT cue (1-based) starts with its number on its own line. */
  lemma SrtCueNumbered(n: nat, seg: Segment)
    ensures StartsWith(SrtCue(n, seg), NatToString(n) + "\n")
    ensures forall i :: 0 <= i < |NatToString(n)| ==> IsDigit(SrtCue(n, seg)[i])
  {
    var d := NatToString(n);
    var rest := CueTiming(seg.startMs, seg.endMs, ',') + "\n" + seg.text + "\n\n";
    assert SrtCue(n, seg) == (d + "\n") + rest;
  }
}
