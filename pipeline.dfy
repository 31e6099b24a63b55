/**
 * The transcription pipeline of transcribe.py's `TranscriptionProcessor`: AI
 * denoising (Demucs, then DeepFilterNet), ffmpeg enhancement, one transcription
 * pass, the multi-pass run over the configured strategies and the choice of the
 * result, and the output path of a file.
 *
 * Demucs, DeepFilterNet, ffmpeg, the speech engine and the Ollama endpoint are
 * oracles: a `PassOracle` says how each tool call of one pass ends.  Temp files
 * are numbered in creation order; `live` holds those still on disk.  The source
 * file is never deleted.
 */
module Pipeline {

  import opened Wrappers
  import opened Strings
  import opened Timestamps
  import opened Paths
  import opened Merge

  /** An audio file the pipeline hands on: the input itself, or a temp file by its number. */
  datatype Audio = Source | Temp(id: nat)

  /**
   * How `_apply_deepfilternet` ends: the import inside it fails before any file is
   * made, the enhancement fails after its temp file was made, or it succeeds.
   */
  datatype DfnOutcome = DfnImportError | DfnFailed | DfnDone

  /** What the speech engine reports: language, its probability in thousandths, raw segments. */
  datatype EngineOutput = EngineOutput(language: string, probability: nat, segments: seq<Segment>)

  /**
   * How the tool calls of one pass end.  `demucsOk` is a zero exit status with the
   * stem written; `ffmpegOk` is a zero exit status; `engine` answers for the file it
   * is given and the VAD options, `None` standing for an exception.
   */
  datatype PassOracle = PassOracle(
    demucsOk: bool,
    dfn: DfnOutcome,
    ffmpegOk: bool,
    engine: (Audio, map<string, nat>) -> Option<EngineOutput>)

  /** The configuration entries the pipeline reads. */
  datatype Config = Config(
    denoiseEnabled: bool,
    denoiseMethod: string,
    enhance: bool,
    normalize: bool,
    vad: map<string, nat>,
    multiPass: bool,
    strategies: seq<string>,
    llmMerge: bool)

  // ---------------------------------------------------------------------------
  // The effect of each step on the temp files
  // ---------------------------------------------------------------------------

  /**
   * A step's effect: the temp file it hands on, the temp files it leaves on disk
   * that nobody deletes, and the next free temp number.
   */
  datatype Step = Step(out: Option<nat>, left: set<nat>, next: nat)

  /** `_apply_demucs` from temp number `n`: an output directory, then on success a copy of the stem. */
  function DemucsStep(ok: bool, n: nat): Step {
    if ok then Step(Some(n + 1), {}, n + 2) else Step(None, {n}, n + 1)
  }

  /** `_apply_deepfilternet` from temp number `n`. */
  function DfnStep(o: DfnOutcome, n: nat): Step {
    match o
    case DfnImportError => Step(None, {}, n)
    case DfnFailed => Step(None, {n}, n + 1)
    case DfnDone => Step(Some(n), {}, n + 1)
  }

  /** `enhance_audio` from temp number `n`. */
  function EnhanceStep(enabled: bool, ok: bool, n: nat): Step {
    if !enabled then Step(None, {}, n)
    else if ok then Step(Some(n), {}, n + 1)
    else Step(None, {n}, n + 1)
  }

  /** The denoise methods `ai_denoise` tells apart; any other name is `OtherMethod`. */
  datatype Denoise = NoDenoise | Demucs | DeepFilterNet | Both | OtherMethod

  /** The method a configured name stands for. */
  function MethodOf(name: string): (m: Denoise)
    ensures m == NoDenoise <==> name == "none"
    ensures m == Demucs <==> name == "demucs"
    ensures m == DeepFilterNet <==> name == "deepfilternet"
    ensures m == Both <==> name == "both"
  {
    if name == "none" then NoDenoise
    else if name == "demucs" then Demucs
    else if name == "deepfilternet" then DeepFilterNet
    else if name == "both" then Both
    else OtherMethod
  }

  /**
   * The method `ai_denoise` runs: none when denoising is off, the method is `none`,
   * or it is `deepfilternet` without DeepFilterNet; `both` without DeepFilterNet
   * becomes `demucs`.
   */
  function EffectiveMethod(enabled: bool, m: Denoise, dfnAvailable: bool): (r: Option<Denoise>)
    ensures r.None? <==> !enabled || m == NoDenoise || (m == DeepFilterNet && !dfnAvailable)
    ensures r.Some? && m == Both && !dfnAvailable ==> r.value == Demucs
    ensures r.Some? && (m != Both || dfnAvailable) ==> r.value == m
  {
    if !enabled || m == NoDenoise then None
    else if (m == DeepFilterNet || m == Both) && !dfnAvailable then
      if m == DeepFilterNet then None else Some(Demucs)
    else Some(m)
  }

  predicate RunsDemucs(m: Denoise) { m == Demucs || m == Both }

  predicate RunsDfn(m: Denoise, dfnAvailable: bool) { (m == DeepFilterNet || m == Both) && dfnAvailable }

  /**
   * `ai_denoise` from temp number `n`: the pre-created temp `n` is handed on when a
   * step changed the audio, and is left behind otherwise.  The Demucs output is
   * deleted once DeepFilterNet has replaced it, and the last output once copied.
   */
  function DenoiseStep(enabled: bool, method0: Denoise, dfnAvailable: bool, o: PassOracle, n: nat): Step {
    var m := EffectiveMethod(enabled, method0, dfnAvailable);
    if m.None? then Step(None, {}, n) else DenoiseRun(m.value, dfnAvailable, o, n)
  }

  /** The denoising proper once the method `m` is settled: temp `n`, then Demucs, then DeepFilterNet. */
  function DenoiseRun(m: Denoise, dfnAvailable: bool, o: PassOracle, n: nat): Step {
    var d := if RunsDemucs(m) then DemucsStep(o.demucsOk, n + 1) else Step(None, {}, n + 1);
    var f := if RunsDfn(m, dfnAvailable) then DfnStep(o.dfn, d.next) else Step(None, {}, d.next);
    if d.out.None? && f.out.None? then Step(None, d.left + f.left + {n}, f.next)
    else Step(Some(n), d.left + f.left, f.next)
  }

  /** Every temp file a step hands on or leaves behind is one it created. */
  predicate Fresh(s: Step, n: nat) {
    n <= s.next
    && (forall i :: i in s.left ==> n <= i < s.next)
    && (s.out.Some? ==> n <= s.out.value < s.next && s.out.value !in s.left)
  }

  /** The temp file a step hands on, as a set. */
  function Outs(s: Step): set<nat> {
    if s.out.Some? then {s.out.value} else {}
  }

  /** `ai_denoise` hands on and leaves behind only temp files it created, and never one file as both. */
  lemma DenoiseFresh(enabled: bool, m: Denoise, dfnAvailable: bool, o: PassOracle, n: nat)
    ensures Fresh(DenoiseStep(enabled, m, dfnAvailable, o, n), n)
  {
  }

  /** Disabled denoising, method `none`, and `deepfilternet` without DeepFilterNet create nothing and return nothing. */
  lemma DenoiseSkipped(enabled: bool, m: Denoise, dfnAvailable: bool, o: PassOracle, n: nat)
    ensures DenoiseStep(enabled, m, dfnAvailable, o, n) == Step(None, {}, n)
      <==> !enabled || m == NoDenoise || (m == DeepFilterNet && !dfnAvailable)
  {
    if EffectiveMethod(enabled, m, dfnAvailable).Some? {
      assert DenoiseStep(enabled, m, dfnAvailable, o, n).next > n;
    }
  }

  /** Without DeepFilterNet, `both` behaves exactly as `demucs`. */
  lemma BothDemotedToDemucs(enabled: bool, o: PassOracle, n: nat)
    ensures DenoiseStep(enabled, Both, false, o, n) == DenoiseStep(enabled, Demucs, false, o, n)
  {
  }

  /** A denoised file comes back exactly when Demucs or DeepFilterNet ran and succeeded, and it is the pre-created temp. */
  lemma DenoiseResult(enabled: bool, m: Denoise, dfnAvailable: bool, o: PassOracle, n: nat)
    ensures var s := DenoiseStep(enabled, m, dfnAvailable, o, n);
      var e := EffectiveMethod(enabled, m, dfnAvailable);
      s.out.Some? <==> e.Some? && ((RunsDemucs(e.value) && o.demucsOk) || (RunsDfn(e.value, dfnAvailable) && o.dfn == DfnDone))
    ensures DenoiseStep(enabled, m, dfnAvailable, o, n).out.Some? ==> DenoiseStep(enabled, m, dfnAvailable, o, n).out == Some(n)
  {
  }

  /**
   * Nothing is left behind when every step it runs succeeds; when a method runs but
   * changes nothing, the pre-created temp file is left behind.
   */
  lemma DenoiseLeaks(enabled: bool, m: Denoise, dfnAvailable: bool, o: PassOracle, n: nat)
    ensures var s := DenoiseStep(enabled, m, dfnAvailable, o, n);
      o.demucsOk && o.dfn == DfnDone ==>
        (s.left == {} <==> s.out.Some? || EffectiveMethod(enabled, m, dfnAvailable).None?)
    ensures var s := DenoiseStep(enabled, m, dfnAvailable, o, n);
      EffectiveMethod(enabled, m, dfnAvailable).Some? && s.out.None? ==> n in s.left
  {
  }

  /**
   * The denoising as evidently intended: the same steps, but the pre-created temp
   * `n` is removed again when no step changed the audio.
   */
  function IntendedDenoiseRun(m: Denoise, dfnAvailable: bool, o: PassOracle, n: nat): Step {
    var d := if RunsDemucs(m) then DemucsStep(o.demucsOk, n + 1) else Step(None, {}, n + 1);
    var f := if RunsDfn(m, dfnAvailable) then DfnStep(o.dfn, d.next) else Step(None, {}, d.next);
    Step(if d.out.None? && f.out.None? then None else Some(n), d.left + f.left, f.next)
  }

  /**
   * The intended run hands on what `ai_denoise` hands on, never leaves the
   * pre-created temp behind, and leaves nothing at all when Demucs succeeds and
   * DeepFilterNet does not fail after creating its file.
   */
  lemma IntendedDenoiseNoLeak(m: Denoise, dfnAvailable: bool, o: PassOracle, n: nat)
    ensures var s := IntendedDenoiseRun(m, dfnAvailable, o, n);
      s.out == DenoiseRun(m, dfnAvailable, o, n).out && s.next == DenoiseRun(m, dfnAvailable, o, n).next
      && n !in s.left
      && (o.demucsOk && o.dfn != DfnFailed ==> s.left == {})
  {
  }

  /** As written, a method that runs but changes nothing leaves the pre-created temp behind: Demucs failing, for one. */
  lemma DemucsFailureLeaksTemp(o: PassOracle, n: nat)
    requires !o.demucsOk
    ensures n in DenoiseStep(true, Demucs, false, o, n).left
    ensures n !in IntendedDenoiseRun(Demucs, false, o, n).left
  {
  }

  // ---------------------------------------------------------------------------
  // One pass
  // ---------------------------------------------------------------------------

  const MinSpeech: string := "min_speech_duration_ms"
  const MinSilence: string := "min_silence_duration_ms"

  /** The VAD options passed to the engine: only the two supported entries, when configured. */
  function VadOptions(vad: map<string, nat>): (r: map<string, nat>)
    ensures forall k :: k in r <==> k in vad && (k == MinSpeech || k == MinSilence)
    ensures forall k :: k in r ==> r[k] == vad[k]
  {
    map k | k in vad && (k == MinSpeech || k == MinSilence) :: vad[k]
  }

  /** The engine's segments with their texts stripped, in engine order. */
  function StrippedSegments(raw: seq<Segment>): (r: seq<Segment>)
    ensures |r| == |raw|
  {
    seq(|raw|, k requires 0 <= k < |raw| => Segment(raw[k].startMs, raw[k].endMs, Strip(raw[k].text)))
  }

  /** The result dictionary of a successful pass. */
  function PassResult(out: EngineOutput, processing: Processing): TranscriptResult {
    var segs := StrippedSegments(out.segments);
    TranscriptResult(out.language, out.probability, segs, Join(SegmentTexts(segs), " "), processing, None, None)
  }

  /** The effect of one pass: its result, the temp files it leaves behind, the next free number. */
  datatype PassRun = PassRun(result: Option<TranscriptResult>, left: set<nat>, next: nat)

  /** The file the engine is given: the enhanced file, else the denoised one, else the input. */
  function ProcessPath(denoised: Option<nat>, enhanced: Option<nat>): Audio {
    if enhanced.Some? then Temp(enhanced.value) else if denoised.Some? then Temp(denoised.value) else Source
  }

  /**
   * `_single_pass_transcribe` with the configured method `method` and the override
   * `override` (the empty string standing for no override): denoise, enhance,
   * transcribe, and delete both intermediate files whatever happened.
   */
  function PassStep(cfg: Config, denoiser: string, dfnAvailable: bool, override: string, o: PassOracle, n: nat): PassRun {
    var d := DenoiseStep(cfg.denoiseEnabled, MethodOf(if override != "" then override else denoiser), dfnAvailable, o, n);
    var e := EnhanceStep(cfg.enhance, o.ffmpegOk, d.next);
    PassRun(PassOutcome(cfg, override, o, d.out, e.out), d.left + e.left, e.next)
  }

  /** The `audio_processing` entry: the override only when denoising gave a file. */
  function PassProcessing(cfg: Config, override: string, denoised: Option<nat>, enhanced: Option<nat>): Processing {
    Processing(
      if override != "" && denoised.Some? then override else "None",
      if enhanced.Some? then "Yes" else "No",
      if cfg.normalize then "Yes" else "No")
  }

  /** The engine's answer for the file it is given, as a result dictionary. */
  function PassOutcome(cfg: Config, override: string, o: PassOracle, denoised: Option<nat>, enhanced: Option<nat>)
    : Option<TranscriptResult>
  {
    match o.engine(ProcessPath(denoised, enhanced), VadOptions(cfg.vad))
    case None => None
    case Some(out) => Some(PassResult(out, PassProcessing(cfg, override, denoised, enhanced)))
  }

  /** The temp files on disk after a pass: the intermediates are deleted, the failures' leftovers stay. */
  lemma PassLive(live0: set<nat>, n: nat, d: Step, e: Step)
    requires forall i :: i in live0 ==> i < n
    requires Fresh(d, n) && Fresh(e, d.next)
    ensures live0 + d.left + Outs(d) + e.left + Outs(e) - Outs(e) - Outs(d) == live0 + d.left + e.left
  {
  }

  /** A pass leaves behind only files the failed steps made, and never the files it transcribed. */
  lemma PassCleansUp(cfg: Config, denoiser: string, dfnAvailable: bool, override: string, o: PassOracle, n: nat)
    ensures var r := PassStep(cfg, denoiser, dfnAvailable, override, o, n);
      n <= r.next && forall i :: i in r.left ==> n <= i < r.next
    ensures var r := PassStep(cfg, denoiser, dfnAvailable, override, o, n);
      var m := MethodOf(if override != "" then override else denoiser);
      var d := DenoiseStep(cfg.denoiseEnabled, m, dfnAvailable, o, n);
      var e := EnhanceStep(cfg.enhance, o.ffmpegOk, d.next);
      (d.out.Some? ==> d.out.value !in r.left) && (e.out.Some? ==> e.out.value !in r.left)
    ensures var r := PassStep(cfg, denoiser, dfnAvailable, override, o, n);
      !cfg.denoiseEnabled && !cfg.enhance ==> r.left == {} && r.next == n
  {
    DenoiseFresh(cfg.denoiseEnabled, MethodOf(if override != "" then override else denoiser), dfnAvailable, o, n);
  }

  /**
   * A successful pass keeps the engine's segments in order with stripped texts, and
   * its full text is their texts joined by single spaces.
   */
  lemma PassResultText(out: EngineOutput, processing: Processing)
    ensures var r := PassResult(out, processing);
      |r.segments| == |out.segments|
      && (forall k :: 0 <= k < |out.segments| ==>
            r.segments[k].startMs == out.segments[k].startMs && r.segments[k].endMs == out.segments[k].endMs
            && r.segments[k].text == Strip(out.segments[k].text))
      && r.fullText == Join(SegmentTexts(r.segments), " ")
      && r.language == out.language && r.probability == out.probability
  {
  }

  // ---------------------------------------------------------------------------
  // Several passes
  // ---------------------------------------------------------------------------

  /** `'deepfilternet' in strategy` with DeepFilterNet missing drops the strategy. */
  predicate Usable(strategy: string, dfnAvailable: bool) {
    dfnAvailable || !Contains(strategy, "deepfilternet")
  }

  /** The strategies that stay, in their order. */
  function Available(strategies: seq<string>, dfnAvailable: bool): (r: seq<string>)
    ensures |r| <= |strategies|
  {
    if strategies == [] then []
    else
      var rest := Available(strategies[..|strategies| - 1], dfnAvailable);
      var s := strategies[|strategies| - 1];
      if Usable(s, dfnAvailable) then rest + [s] else rest
  }

  /** A strategy stays exactly when it is configured and usable. */
  lemma {:induction false} AvailableMembers(strategies: seq<string>, dfnAvailable: bool)
    ensures forall s :: s in Available(strategies, dfnAvailable) <==> s in strategies && Usable(s, dfnAvailable)
  {
    if strategies != [] {
      var init := strategies[..|strategies| - 1];
      AvailableMembers(init, dfnAvailable);
      assert strategies == init + [strategies[|strategies| - 1]];
    }
  }

  /** Filtering distributes over concatenation, so the kept strategies keep their order. */
  lemma {:induction false} AvailableAppend(a: seq<string>, b: seq<string>, dfnAvailable: bool)
    ensures Available(a + b, dfnAvailable) == Available(a, dfnAvailable) + Available(b, dfnAvailable)
    decreases |b|
  {
    if b != [] {
      var init := b[..|b| - 1];
      assert (a + b)[..|a + b| - 1] == a + init;
      AvailableAppend(a, init, dfnAvailable);
    } else {
      assert a + b == a;
    }
  }

  /** With DeepFilterNet installed, nothing is dropped. */
  lemma {:induction false} AvailableAll(strategies: seq<string>)
    ensures Available(strategies, true) == strategies
  {
    if strategies != [] {
      AvailableAll(strategies[..|strategies| - 1]);
    }
  }

  /** Every strategy key of `results` is listed once in `keys`, in insertion order. */
  ghost predicate KeysMatch(keys: seq<string>, results: map<string, TranscriptResult>) {
    (forall k :: k in keys <==> k in results)
    && (forall i, j :: 0 <= i < j < |keys| ==> keys[i] != keys[j])
  }

  /** What the passes so far produced: the result map with its key order, and their temp files. */
  datatype Collected = Collected(keys: seq<string>, results: map<string, TranscriptResult>, left: set<nat>, next: nat)

  /** `all_results[strategy] = result` on success: a new key goes last, an old one keeps its place. */
  function Record(c: Collected, strategy: string, p: PassRun): Collected {
    match p.result
    case None => Collected(c.keys, c.results, c.left + p.left, p.next)
    case Some(res) =>
      Collected(if strategy in c.results then c.keys else c.keys + [strategy],
        c.results[strategy := res], c.left + p.left, p.next)
  }

  /** The passes over `strategies`, pass `i` answered by `oracle(i)`, from temp number `n`. */
  function Passes(cfg: Config, denoiser: string, dfnAvailable: bool, strategies: seq<string>,
                  oracle: nat -> PassOracle, n: nat): (c: Collected)
    ensures KeysMatch(c.keys, c.results)
    ensures n <= c.next && forall i :: i in c.left ==> n <= i < c.next
  {
    if strategies == [] then Collected([], map[], {}, n)
    else
      var k := |strategies| - 1;
      var c := Passes(cfg, denoiser, dfnAvailable, strategies[..k], oracle, n);
      var p := PassStep(cfg, denoiser, dfnAvailable, strategies[k], oracle(k), c.next);
      PassFresh(cfg, denoiser, dfnAvailable, strategies[k], oracle(k), c.next);
      RecordKeeps(c, strategies[k], p, n);
      Record(c, strategies[k], p)
  }

  lemma PassFresh(cfg: Config, denoiser: string, dfnAvailable: bool, override: string, o: PassOracle, n: nat)
    ensures var r := PassStep(cfg, denoiser, dfnAvailable, override, o, n);
      n <= r.next && forall i :: i in r.left ==> n <= i < r.next
  {
    PassCleansUp(cfg, denoiser, dfnAvailable, override, o, n);
  }

  /** Recording a pass keeps the keys in step with the results and the temp numbers in range. */
  lemma RecordKeeps(c: Collected, strategy: string, p: PassRun, n: nat)
    requires KeysMatch(c.keys, c.results)
    requires n <= c.next && forall i :: i in c.left ==> n <= i < c.next
    requires c.next <= p.next && forall i :: i in p.left ==> c.next <= i < p.next
    ensures var r := Record(c, strategy, p);
      KeysMatch(r.keys, r.results) && n <= r.next && forall i :: i in r.left ==> n <= i < r.next
  {
  }

  /** Every successful strategy has a result, and only those. */
  lemma {:induction false} PassesKeys(cfg: Config, denoiser: string, dfnAvailable: bool, strategies: seq<string>,
                                     oracle: nat -> PassOracle, n: nat)
    ensures var c := Passes(cfg, denoiser, dfnAvailable, strategies, oracle, n);
      forall s :: s in c.results ==> s in strategies
  {
    if strategies != [] {
      var k := |strategies| - 1;
      var init := strategies[..k];
      PassesKeys(cfg, denoiser, dfnAvailable, init, oracle, n);
      var c := Passes(cfg, denoiser, dfnAvailable, init, oracle, n);
      assert Passes(cfg, denoiser, dfnAvailable, strategies, oracle, n).results.Keys <= c.results.Keys + {strategies[k]};
      assert forall s :: s in init ==> s in strategies;
    }
  }

  /** One more pass records its result on top of the earlier ones. */
  lemma PassesStep(cfg: Config, denoiser: string, dfnAvailable: bool, strategies: seq<string>,
                   oracle: nat -> PassOracle, n: nat, i: nat, result: Option<TranscriptResult>)
    requires i < |strategies|
    requires var c := Passes(cfg, denoiser, dfnAvailable, strategies[..i], oracle, n);
      result == PassStep(cfg, denoiser, dfnAvailable, strategies[i], oracle(i), c.next).result
    ensures var c := Passes(cfg, denoiser, dfnAvailable, strategies[..i], oracle, n);
      var p := PassStep(cfg, denoiser, dfnAvailable, strategies[i], oracle(i), c.next);
      var c' := Passes(cfg, denoiser, dfnAvailable, strategies[..i + 1], oracle, n);
      c'.keys == (if result.Some? && strategies[i] !in c.results then c.keys + [strategies[i]] else c.keys)
      && c'.results == (if result.Some? then c.results[strategies[i] := result.value] else c.results)
      && c'.left == c.left + p.left && c'.next == p.next
  {
    assert strategies[..i + 1][..i] == strategies[..i];
  }

  /** A sequence without repeats lists as many values as the set it enumerates. */
  lemma {:induction false} DistinctCount(keys: seq<string>, s: set<string>)
    requires forall k :: k in keys <==> k in s
    requires forall i, j :: 0 <= i < j < |keys| ==> keys[i] != keys[j]
    ensures |s| == |keys|
  {
    if keys != [] {
      var last := keys[|keys| - 1];
      var init := keys[..|keys| - 1];
      forall k | k in init ensures k != last {
        var i :| 0 <= i < |init| && init[i] == k;
        assert keys[i] == k;
      }
      assert forall k :: k in init ==> k in keys;
      forall k | k in s - {last} ensures k in init {
        var i :| 0 <= i < |keys| && keys[i] == k;
        assert i != |keys| - 1;
        assert init[i] == k;
      }
      DistinctCount(init, s - {last});
    }
  }

  /** `multi_pass_info`: every successful strategy with its probability. */
  function Fallback(keys: seq<string>, results: map<string, TranscriptResult>): (r: TranscriptResult)
    requires |keys| >= 1 && forall k :: k in keys ==> k in results
  {
    var best := results[keys[BestIndex(keys, Probabilities(results))]];
    best.(passInfo := Some(Probabilities(results)))
  }

  /**
   * The result `multi_pass_transcribe` returns once the passes are done: none, the
   * only result, the LLM merge when it is enabled and gives one, else the first
   * most probable result with every pass's probability attached.
   */
  function Selection(audioName: string, keys: seq<string>, results: map<string, TranscriptResult>,
                     mergeOn: bool, ask: string -> Option<HttpResponse>): Option<TranscriptResult>
    requires KeysMatch(keys, results)
  {
    if keys == [] then None
    else if |keys| == 1 then Some(results[keys[0]])
    else
      var merged := if mergeOn then MergeOutcome(ask(Prompt(Comparison(audioName, keys, results))), keys, results) else None;
      if merged.Some? then merged else Some(Fallback(keys, results))
  }

  /** No result exactly when no pass succeeded; a single success is returned as it is. */
  lemma SelectionCases(audioName: string, keys: seq<string>, results: map<string, TranscriptResult>,
                       mergeOn: bool, ask: string -> Option<HttpResponse>)
    requires KeysMatch(keys, results)
    ensures Selection(audioName, keys, results, mergeOn, ask).None? <==> |results| == 0
    ensures |results| == 1 ==> Selection(audioName, keys, results, mergeOn, ask) == Some(results[keys[0]])
  {
    DistinctCount(keys, results.Keys);
  }

  /**
   * Without a merged answer, two or more results give the first of highest
   * probability, carrying the probability of every successful pass.
   */
  lemma SelectionFallback(audioName: string, keys: seq<string>, results: map<string, TranscriptResult>,
                          mergeOn: bool, ask: string -> Option<HttpResponse>)
    requires KeysMatch(keys, results) && |keys| >= 2
    requires !mergeOn || MergeOutcome(ask(Prompt(Comparison(audioName, keys, results))), keys, results).None?
    ensures var r := Selection(audioName, keys, results, mergeOn, ask);
      r.Some? && r.value.passInfo.Some?
      && (forall k :: k in r.value.passInfo.value <==> k in results)
      && (forall k :: k in results ==> r.value.passInfo.value[k] == results[k].probability)
      && exists b :: 0 <= b < |keys|
          && r.value == results[keys[b]].(passInfo := r.value.passInfo)
          && (forall j :: 0 <= j < |keys| ==> results[keys[j]].probability <= results[keys[b]].probability)
          && (forall j :: 0 <= j < b ==> results[keys[j]].probability < results[keys[b]].probability)
  {
    var probs := Probabilities(results);
    var b := BestIndex(keys, probs);
    var r := Selection(audioName, keys, results, mergeOn, ask);
    assert r == Some(Fallback(keys, results));
    assert r.value == results[keys[b]].(passInfo := Some(probs));
    assert forall j :: 0 <= j < |keys| ==> probs[keys[j]] == results[keys[j]].probability;
  }

  // ---------------------------------------------------------------------------
  // The processor
  // ---------------------------------------------------------------------------

  class TranscriptionProcessor {
    const cfg: Config
    const dfnAvailable: bool
    const ollamaAvailable: bool

    /** `config['audio']['ai_denoise']['method']`, which a pass overrides and restores. */
    var denoiser: string
    /** Temp files on disk. */
    var live: set<nat>
    /** The number the next temp file gets. */
    var nextTemp: nat

    /** Every temp file on disk has a number already handed out. */
    predicate Valid()
      reads this
    {
      forall i :: i in live ==> i < nextTemp
    }

    /** The processor with its probed backends; `_check_deepfilternet` and `_check_ollama` are oracles. */
    constructor (cfg: Config, dfnAvailable: bool, ollamaAvailable: bool)
      ensures Valid()
      ensures this.cfg == cfg && this.dfnAvailable == dfnAvailable && this.ollamaAvailable == ollamaAvailable
      ensures denoiser == cfg.denoiseMethod && live == {} && nextTemp == 0
    {
      this.cfg := cfg;
      this.dfnAvailable := dfnAvailable;
      this.ollamaAvailable := ollamaAvailable;
      denoiser := cfg.denoiseMethod;
      live := {};
      nextTemp := 0;
    }

    /** `tempfile.NamedTemporaryFile(delete=False)` or `tempfile.mkdtemp()`. */
    method NewTemp() returns (id: nat)
      requires Valid()
      modifies this
      ensures Valid()
      ensures id == old(nextTemp) && nextTemp == id + 1 && live == old(live) + {id} && denoiser == old(denoiser)
    {
      id := nextTemp;
      live := live + {id};
      nextTemp := nextTemp + 1;
    }

    /** `path.unlink()` or `shutil.rmtree(dir)` on a temp file. */
    method Unlink(id: nat)
      requires Valid() && id in live
      modifies this
      ensures Valid()
      ensures live == old(live) - {id} && nextTemp == old(nextTemp) && denoiser == old(denoiser)
    {
      live := live - {id};
    }

    /** `_apply_demucs`: the output directory stays behind when Demucs fails. */
    method ApplyDemucs(ok: bool) returns (r: Option<nat>)
      requires Valid()
      modifies this
      ensures Valid()
      ensures var s := DemucsStep(ok, old(nextTemp));
        r == s.out && nextTemp == s.next && denoiser == old(denoiser)
        && live == old(live) + s.left + Outs(s)
    {
      var dir := NewTemp();
      if ok {
        var file := NewTemp();
        Unlink(dir);
        return Some(file);
      }
      return None;
    }

    /** `_apply_deepfilternet`: its temp file stays behind when enhancing fails. */
    method ApplyDeepFilterNet(o: DfnOutcome) returns (r: Option<nat>)
      requires Valid()
      modifies this
      ensures Valid()
      ensures var s := DfnStep(o, old(nextTemp));
        r == s.out && nextTemp == s.next && denoiser == old(denoiser)
        && live == old(live) + s.left + Outs(s)
    {
      if o == DfnImportError {
        return None;
      }
      var file := NewTemp();
      if o == DfnDone {
        return Some(file);
      }
      return None;
    }

    /** `enhance_audio`: its temp file stays behind when ffmpeg fails. */
    method EnhanceAudio(ok: bool) returns (r: Option<nat>)
      requires Valid()
      modifies this
      ensures Valid()
      ensures var s := EnhanceStep(cfg.enhance, ok, old(nextTemp));
        r == s.out && nextTemp == s.next && denoiser == old(denoiser)
        && live == old(live) + s.left + Outs(s)
    {
      if !cfg.enhance {
        return None;
      }
      var file := NewTemp();
      if ok {
        return Some(file);
      }
      return None;
    }

    /** `ai_denoise` with the current method. */
    method AiDenoise(o: PassOracle) returns (r: Option<nat>)
      requires Valid()
      modifies this
      ensures Valid()
      ensures var s := DenoiseStep(cfg.denoiseEnabled, MethodOf(old(denoiser)), dfnAvailable, o, old(nextTemp));
        r == s.out && nextTemp == s.next && denoiser == old(denoiser)
        && live == old(live) + s.left + Outs(s)
    {
      if !cfg.denoiseEnabled {
        return None;
      }
      var m := MethodOf(denoiser);
      if m == NoDenoise {
        return None;
      }
      if (m == DeepFilterNet || m == Both) && !dfnAvailable {
        if m == DeepFilterNet {
          return None;
        }
        m := Demucs;
      }
      assert Some(m) == EffectiveMethod(cfg.denoiseEnabled, MethodOf(denoiser), dfnAvailable);
      r := DenoiseWith(m, o);
    }

    /** The body of `ai_denoise` past the method checks, with the effective method `m`. */
    method DenoiseWith(m: Denoise, o: PassOracle) returns (r: Option<nat>)
      requires Valid()
      modifies this
      ensures Valid()
      ensures var s := DenoiseRun(m, dfnAvailable, o, old(nextTemp));
        r == s.out && nextTemp == s.next && denoiser == old(denoiser)
        && live == old(live) + s.left + Outs(s)
    {
      ghost var n := nextTemp;
      ghost var live0 := live;
      var temp := NewTemp();
      var current := Source;
      ghost var d := Step(None, {}, n + 1);
      if m == Demucs || m == Both {
        var out := ApplyDemucs(o.demucsOk);
        d := DemucsStep(o.demucsOk, n + 1);
        if out.Some? {
          current := Temp(out.value);
        }
      }
      assert current == (if d.out.Some? then Temp(d.out.value) else Source);
      assert live == live0 + {temp} + d.left + Outs(d);
      ghost var f := Step(None, {}, d.next);
      if (m == DeepFilterNet || m == Both) && dfnAvailable {
        var out := ApplyDeepFilterNet(o.dfn);
        f := DfnStep(o.dfn, d.next);
        if out.Some? {
          if m == Both && current != Source {
            Unlink(current.id);
          }
          current := Temp(out.value);
        }
      }
      if current != Source {
        Unlink(current.id);
        return Some(temp);
      }
      return None;
    }

    /**
     * `_single_pass_transcribe`: the method is overridden for the preprocessing and
     * restored, and the denoised and enhanced files are deleted after the engine ran.
     */
    method SinglePass(override: string, o: PassOracle) returns (r: Option<TranscriptResult>)
      requires Valid()
      modifies this
      ensures Valid()
      ensures var p := PassStep(cfg, old(denoiser), dfnAvailable, override, o, old(nextTemp));
        r == p.result && denoiser == old(denoiser) && nextTemp == p.next && live == old(live) + p.left
    {
      ghost var n := nextTemp;
      ghost var live0 := live;
      var denoised, enhanced := Preprocess(override, o);
      ghost var d := DenoiseStep(cfg.denoiseEnabled, MethodOf(if override != "" then override else denoiser), dfnAvailable, o, n);
      ghost var e := EnhanceStep(cfg.enhance, o.ffmpegOk, d.next);
      r := Transcribe(override, o, denoised, enhanced);
      ghost var p := PassStep(cfg, denoiser, dfnAvailable, override, o, n);
      assert p == PassRun(r, d.left + e.left, e.next);
      if enhanced.Some? {
        Unlink(enhanced.value);
      }
      assert live == live0 + d.left + Outs(d) + e.left + Outs(e) - Outs(e);
      if denoised.Some? {
        Unlink(denoised.value);
      }
      assert live == live0 + d.left + Outs(d) + e.left + Outs(e) - Outs(e) - Outs(d);
      PassLive(live0, n, d, e);
    }

    /** The preprocessing of a pass: denoising under the overridden method, then enhancement; the method is restored. */
    method Preprocess(override: string, o: PassOracle) returns (denoised: Option<nat>, enhanced: Option<nat>)
      requires Valid()
      modifies this
      ensures Valid() && denoiser == old(denoiser)
      ensures var d := DenoiseStep(cfg.denoiseEnabled, MethodOf(if override != "" then override else old(denoiser)),
                                   dfnAvailable, o, old(nextTemp));
        var e := EnhanceStep(cfg.enhance, o.ffmpegOk, d.next);
        denoised == d.out && enhanced == e.out && nextTemp == e.next
        && live == old(live) + d.left + Outs(d) + e.left + Outs(e)
        && Fresh(d, old(nextTemp)) && Fresh(e, d.next)
    {
      var original := denoiser;
      if override != "" {
        denoiser := override;
      }
      DenoiseFresh(cfg.denoiseEnabled, MethodOf(denoiser), dfnAvailable, o, nextTemp);
      denoised := AiDenoise(o);
      enhanced := EnhanceAudio(o.ffmpegOk);
      denoiser := original;
    }

    /** The engine call of a pass on the file preprocessing gave, and the result dictionary. */
    method Transcribe(override: string, o: PassOracle, denoised: Option<nat>, enhanced: Option<nat>)
      returns (r: Option<TranscriptResult>)
      ensures r == PassOutcome(cfg, override, o, denoised, enhanced)
    {
      var answer := o.engine(ProcessPath(denoised, enhanced), VadOptions(cfg.vad));
      if answer.Some? {
        var segs, text := CollectSegments(answer.value.segments);
        r := Some(TranscriptResult(answer.value.language, answer.value.probability, segs, text,
          PassProcessing(cfg, override, denoised, enhanced), None, None));
      } else {
        r := None;
      }
    }

    /** The loop over the engine's segments: each stripped, and their texts joined by spaces. */
    method CollectSegments(raw: seq<Segment>) returns (segs: seq<Segment>, text: string)
      ensures segs == StrippedSegments(raw)
      ensures text == Join(SegmentTexts(segs), " ")
    {
      segs := [];
      var parts: seq<string> := [];
      var i := 0;
      while i < |raw|
        invariant 0 <= i <= |raw|
        invariant segs == StrippedSegments(raw[..i])
        invariant parts == SegmentTexts(segs)
      {
        var t := Strip(raw[i].text);
        segs := segs + [Segment(raw[i].startMs, raw[i].endMs, t)];
        parts := parts + [t];
        i := i + 1;
      }
      assert raw[..i] == raw;
      text := Join(parts, " ");
    }

    /** The strategy filter of `multi_pass_transcribe`. */
    method FilterStrategies(strategies: seq<string>) returns (r: seq<string>)
      ensures r == Available(strategies, dfnAvailable)
    {
      r := [];
      var i := 0;
      while i < |strategies|
        invariant 0 <= i <= |strategies|
        invariant r == Available(strategies[..i], dfnAvailable)
      {
        assert strategies[..i + 1][..i] == strategies[..i];
        if Usable(strategies[i], dfnAvailable) {
          r := r + [strategies[i]];
        }
        i := i + 1;
      }
      assert strategies[..i] == strategies;
    }

    /**
     * `multi_pass_transcribe`: every usable strategy is run once, in order, pass `i`
     * answered by `oracle(i)`; then the result is chosen.
     */
    method MultiPass(audioName: string, oracle: nat -> PassOracle, ask: string -> Option<HttpResponse>)
      returns (r: Option<TranscriptResult>)
      requires Valid()
      modifies this
      ensures Valid()
      ensures var strategies := Available(cfg.strategies, dfnAvailable);
        var c := Passes(cfg, old(denoiser), dfnAvailable, strategies, oracle, old(nextTemp));
        denoiser == old(denoiser) && nextTemp == c.next && live == old(live) + c.left
        && r == Selection(audioName, c.keys, c.results, cfg.llmMerge && ollamaAvailable, ask)
    {
      var strategies := FilterStrategies(cfg.strategies);
      if strategies == [] {
        return None;
      }
      var keys, results := RunPasses(strategies, oracle);
      r := Choose(audioName, keys, results, ask);
    }

    /** The loop of `multi_pass_transcribe` that runs the passes and fills `all_results`. */
    method RunPasses(strategies: seq<string>, oracle: nat -> PassOracle)
      returns (keys: seq<string>, results: map<string, TranscriptResult>)
      requires Valid()
      modifies this
      ensures Valid()
      ensures var c := Passes(cfg, old(denoiser), dfnAvailable, strategies, oracle, old(nextTemp));
        keys == c.keys && results == c.results
        && denoiser == old(denoiser) && nextTemp == c.next && live == old(live) + c.left
    {
      ghost var live0 := live;
      ghost var n := nextTemp;
      keys := [];
      results := map[];
      for i := 0 to |strategies|
        invariant Valid() && denoiser == old(denoiser)
        invariant var c := Passes(cfg, old(denoiser), dfnAvailable, strategies[..i], oracle, n);
          keys == c.keys && results == c.results && nextTemp == c.next && live == live0 + c.left
      {
        keys, results := RunOne(strategies, oracle, n, live0, i, keys, results);
      }
      assert strategies[..|strategies|] == strategies;
    }

    /** One turn of that loop: run the pass, then record its result under the strategy's name. */
    method RunOne(strategies: seq<string>, oracle: nat -> PassOracle, ghost n: nat, ghost live0: set<nat>,
                  i: nat, keys: seq<string>, results: map<string, TranscriptResult>)
      returns (keys': seq<string>, results': map<string, TranscriptResult>)
      requires Valid() && i < |strategies|
      requires var c := Passes(cfg, denoiser, dfnAvailable, strategies[..i], oracle, n);
        keys == c.keys && results == c.results && nextTemp == c.next && live == live0 + c.left
      modifies this
      ensures Valid() && denoiser == old(denoiser)
      ensures var c' := Passes(cfg, denoiser, dfnAvailable, strategies[..i + 1], oracle, n);
        keys' == c'.keys && results' == c'.results && nextTemp == c'.next && live == live0 + c'.left
    {
      ghost var c := Passes(cfg, denoiser, dfnAvailable, strategies[..i], oracle, n);
      var result := SinglePass(strategies[i], oracle(i));
      PassesStep(cfg, denoiser, dfnAvailable, strategies, oracle, n, i, result);
      ghost var p := PassStep(cfg, denoiser, dfnAvailable, strategies[i], oracle(i), c.next);
      assert live == live0 + c.left + p.left;
      keys', results' := keys, results;
      if result.Some? {
        if strategies[i] !in results {
          keys' := keys + [strategies[i]];
        }
        results' := results[strategies[i] := result.value];
      }
    }

    /** The choice at the end of `multi_pass_transcribe`. */
    method Choose(audioName: string, keys: seq<string>, results: map<string, TranscriptResult>,
                  ask: string -> Option<HttpResponse>)
      returns (r: Option<TranscriptResult>)
      requires KeysMatch(keys, results)
      ensures r == Selection(audioName, keys, results, cfg.llmMerge && ollamaAvailable, ask)
    {
      if |keys| == 0 {
        return None;
      }
      if |keys| == 1 {
        return Some(results[keys[0]]);
      }
      if cfg.llmMerge && ollamaAvailable {
        var merged := LlmMerge(audioName, keys, results, ask);
        if merged.Some? {
          return merged;
        }
      }
      r := Some(Fallback(keys, results));
    }

    /** `transcribe_audio`: the multi-pass run when enabled, else one pass with the configured method. */
    method TranscribeAudio(audioName: string, oracle: nat -> PassOracle, ask: string -> Option<HttpResponse>)
      returns (r: Option<TranscriptResult>)
      requires Valid()
      modifies this
      ensures Valid() && denoiser == old(denoiser)
      ensures !cfg.multiPass ==>
        var p := PassStep(cfg, old(denoiser), dfnAvailable, old(denoiser), oracle(0), old(nextTemp));
        r == p.result && nextTemp == p.next && live == old(live) + p.left
      ensures cfg.multiPass ==>
        var c := Passes(cfg, old(denoiser), dfnAvailable, Available(cfg.strategies, dfnAvailable), oracle, old(nextTemp));
        nextTemp == c.next && live == old(live) + c.left
        && r == Selection(audioName, c.keys, c.results, cfg.llmMerge && ollamaAvailable, ask)
    {
      if cfg.multiPass {
        r := MultiPass(audioName, oracle, ask);
      } else {
        r := SinglePass(denoiser, oracle(0));
      }
    }
  }

  // ---------------------------------------------------------------------------
  // Output paths
  // ---------------------------------------------------------------------------

  /**
   * `get_output_path`: the input itself without an output folder; otherwise the
   * output folder, below it the input's folder relative to the input folder when
   * the structure is preserved and the input lies there, and the input's name.
   * A suffix (the empty string standing for none) then replaces the suffix.
   */
  function OutputPath(outFolder: Option<seq<string>>, inputFolder: seq<string>, preserve: bool,
                      input: Path, suffix: string): (r: Result<Path>)
    ensures suffix == [] ==> r.Ok?
    ensures r.Ok? ==> suffix != [] || r.value.name == input.name
  {
    var base :=
      match outFolder
      case None => input
      case Some(out) =>
        if preserve then
          match RelativeTo(input, inputFolder)
          case Ok(rel) => Path(out + rel, input.name)
          case Err(_) => Path(out, input.name)
        else Path(out, input.name);
    if suffix != [] then base.WithSuffix(suffix) else Ok(base)
  }

  /** With the structure preserved, distinct inputs below the input folder get distinct outputs. */
  lemma OutputPathInjective(out: seq<string>, inputFolder: seq<string>, a: Path, b: Path)
    requires RelativeTo(a, inputFolder).Ok? && RelativeTo(b, inputFolder).Ok? && a != b
    ensures OutputPath(Some(out), inputFolder, true, a, []) != OutputPath(Some(out), inputFolder, true, b, [])
  {
    var ra := RelativeTo(a, inputFolder).value;
    var rb := RelativeTo(b, inputFolder).value;
    assert a.dir == inputFolder + ra by { assert a.dir == a.Parts()[..|a.Parts()| - 1]; }
    assert b.dir == inputFolder + rb by { assert b.dir == b.Parts()[..|b.Parts()| - 1]; }
    assert (out + ra)[|out|..] == ra && (out + rb)[|out|..] == rb;
  }

  /** Without the structure, files of the same name in different folders share an output path. */
  lemma FlatOutputCollides(out: seq<string>, inputFolder: seq<string>, a: Path, b: Path)
    requires a.name == b.name
    ensures OutputPath(Some(out), inputFolder, false, a, []) == OutputPath(Some(out), inputFolder, false, b, [])
  {
  }

  /** `should_skip`: only with `skip_existing` set, and only when the path exists. */
  function ShouldSkip(skipExisting: bool, files: set<Path>, p: Path): (r: bool)
    ensures r ==> p in files
    ensures !skipExisting ==> !r
    ensures skipExisting && p in files ==> r
  {
    skipExisting && p in files
  }
}
