# Transcriber, modelled in Dafny

Transcriber turns Norwegian audio recordings into timestamped transcripts,
summaries and a browsable set of HTML pages. This project models its core and
proves properties of that model:

- **The transcription pipeline** (`transcribe.py`, `TranscriptionProcessor`):
  - choosing and demoting the AI denoising method;
  - the temp files each step creates, hands on, deletes or leaves behind;
  - filtering strategies for the multi-pass run;
  - choosing between no result, one result, an LLM merge and the most confident pass;
  - parsing the merge response back into segments;
  - the output path and the skip rule.
- **The timestamp formats.** The `[HH:MM:SS]` transcript line, SRT times, and
  WebVTT times (the timestamp syntax of section 4.1 of the W3C WebVTT specification).
  These are read back by the site generator (`generate_index.py`) and by the
  summary scripts (`regenerate_summaries.py`, `summary_only.py`).
- **The helper scripts:**
  - summary discovery and page generation (`generate_editable_html.py`,
    `generate_folder_index.py`);
  - link validation and cleanup (`validate_links.py`, `cleanup_wrong_html.py`);
  - URL-safe renaming and link rewriting (`rename_safe.py`, `fix_hovedindex.py`);
  - docx export (`export_docx_to_txt.py`);
  - the upload server's validators (`stenografen_upload_server.py`).

Modelling choices:

- **Time.** Times are whole milliseconds (`nat`). Probabilities are whole thousandths.
- **Paths.** A path is a directory part list plus a name (`Paths.Path`). pathlib's
  `name`, `stem`, `suffix` and `with_suffix` are modelled as pathlib defines them,
  including the `ValueError` that `with_suffix` raises (`Result.Err`).
- **The file system.** It is a set of file paths. Where a script changes it in
  place (`rename_safe.py`, `cleanup_wrong_html.py`), it is a field of a class
  whose methods update it.
- **External tools.** The speech engine, Demucs, DeepFilterNet, ffmpeg, Ollama and
  python-docx are parameters: oracles that answer with a result or with nothing.
- **Where the model follows the code.** When a run of `ai_denoise` changes
  nothing, its pre-created temp file is left behind. The model leaves it behind
  too, and states this (`Pipeline.DenoiseLeaks`).
- **Where the model departs from the code.** In `regenerate_summaries.py`,
  `process_transcription_file` and `process_all` are indented inside the
  module-level function `generate_summary_for_language` (regenerate_summaries.py:124,
  303, 370), so `main` cannot reach them. They are modelled as the free functions
  their code evidently means (`Summaries.ProcessLanguages`).

Modules (one file each):

| module | file |
|---|---|
| `Wrappers` | `wrappers.dfy` |
| `Strings` | `strings.dfy` |
| `Paths` | `paths.dfy` |
| `Timestamps` | `timestamps.dfy` |
| `Merge` | `merge.dfy` |
| `Pipeline` | `pipeline.dfy` |
| `SiteIndex` | `site_index.dfy` |
| `Summaries` | `summaries.dfy` |
| `EditableHtml` | `editable_html.dfy` |
| `FolderIndex` | `folder_index.dfy` |
| `ValidateLinks` | `validate_links.dfy` |
| `ExportDocx` | `export_docx.dfy` |
| `RenameSafe` | `rename_safe.dfy` |
| `FixHovedindex` | `fix_hovedindex.dfy` |
| `CleanupWrongHtml` | `cleanup_wrong_html.dfy` |
| `UploadServer` | `upload_server.dfy` |

## Model

| member | source | states |
|---|---|---|
| Timestamps.ClockOf | transcribe.py:304-309 | hours, minutes and seconds recompose the whole seconds; minutes and seconds are below 60 and milliseconds below 1000 |
| Timestamps.ClockOfFields | transcribe.py:306-308 | hours are ⌊s/3600⌋, minutes ⌊(s mod 3600)/60⌋ and seconds s mod 60 |
| Timestamps.HoursBelow100 | transcribe.py:304-309 | below 100 hours the hour field has two digits |
| Timestamps.FormatTimestamp | transcribe.py:304-309 | the stamp is bracketed, and below 100 hours it is exactly `[HH:MM:SS]` |
| Timestamps.BracketRoundTrip | transcribe.py:304-309 | reading the three fields of a formatted stamp gives back the whole seconds |
| Timestamps.StampRoundTrip | transcribe.py:309 | the digits of each field read back as that field |
| Timestamps.SrtTime | transcribe.py:622-628 | an SRT time ends in `,` and three millisecond digits |
| Timestamps.VttTime | transcribe.py:630-636 | every VTT time is a WebVTT timestamp |
| Timestamps.ClockTextShape | transcribe.py:622-636 | the time is hours, `:`, minutes, `:`, seconds, separator, milliseconds, each zero-padded digits whose values are the clock fields |
| Timestamps.ClockTextRoundTrip | transcribe.py:622-636 | parsing an SRT or VTT time gives back its milliseconds |
| Timestamps.SrtVttDifferOnlyInSeparator | transcribe.py:622-636 | SRT and VTT times of one instant agree everywhere but the `,`/`.` separator |
| Timestamps.CueTimingRoundTrip | transcribe.py:597-614 | the `start --> end` cue line parses back to both times |
| Timestamps.TxtLineLayout | transcribe.py:561-570 | a transcript line is the stamp, a space, the text and a newline |
| Timestamps.TxtLinesAppend | transcribe.py:564-570 | one more segment appends exactly its line |
| Timestamps.SrtFile | transcribe.py:597-603 | the file ends with the last segment's cue, numbered by the segment count |
| Timestamps.SrtCueNumbered | transcribe.py:600-602 | a cue starts with its decimal number and a newline |
| Timestamps.VttFile | transcribe.py:606-612 | the file starts with `WEBVTT` and a blank line |
| Merge.BestIndex | transcribe.py:468-470 | picks a maximal probability, and the first key holding it |
| Merge.Probabilities | transcribe.py:474-475 | maps every successful strategy to its probability, and nothing else |
| Merge.Prompt | transcribe.py:494-506 | the prompt contains the comparison text |
| Merge.BuildComparison | transcribe.py:484-491 | the comparison text is the header followed by one section per strategy in order |
| Merge.SectionsStep | transcribe.py:486-491 | each strategy adds exactly its own section |
| Merge.AppendTranscriptLines | transcribe.py:488-490 | a section's lines are the `.txt` transcript lines of its segments |
| Merge.LazyEndIs | transcribe.py:526 | the lazy text group ends at the first `[` or at the end of the text |
| Merge.MatchAt | transcribe.py:526-535 | a match starts only at a `[DD:DD:DD]` stamp; its seconds are the stamp's value |
| Merge.SegmentOf | transcribe.py:531-537 | a parsed segment ends five seconds after it starts |
| Merge.MatchesFrom | transcribe.py:527-537 | every parsed segment lasts five seconds |
| Merge.MatchesFromStep | transcribe.py:527-537 | matches are taken left to right, each search resuming where the last match ended |
| Merge.ParseMergedText | transcribe.py:525-537 | the loop yields the segments of the matches in order |
| Merge.SegmentTexts | transcribe.py:550 | lists the segment texts in order |
| Merge.MergeOutcome | transcribe.py:523-559 | merge succeeds exactly on status 200 with at least one match. Its segments are the matches and its full text is their space-join. Language, probability and processing come from the first most-confident pass. |
| Merge.LlmMerge | transcribe.py:478-559 | the merge asks with the prompt of the comparison and returns the outcome of the answer |
| Merge.LinesParseFrom | transcribe.py:526-537 | transcript lines laid out in a text parse back one segment per line |
| Merge.MergeParsesTranscriptLines | transcribe.py:488-537 | an LLM that echoes the transcript lines gives back every segment: whole start second, five-second end, stripped text |
| Pipeline.MethodOf | transcribe.py:106-116 | each of the four method names maps to its own method |
| Pipeline.EffectiveMethod | transcribe.py:103-116 | no denoising when disabled, `none`, or `deepfilternet` without DeepFilterNet; `both` without it becomes `demucs` |
| Pipeline.DenoiseFresh | transcribe.py:118-156 | denoising hands on and leaves behind only temp files it created, never one file as both |
| Pipeline.DenoiseSkipped | transcribe.py:103-116 | nothing is created and nothing returned exactly in the three skip cases |
| Pipeline.BothDemotedToDemucs | transcribe.py:112-116 | without DeepFilterNet, `both` behaves exactly as `demucs` |
| Pipeline.DenoiseResult | transcribe.py:126-153 | a file comes back exactly when a step that ran succeeded, and it is the pre-created temp |
| Pipeline.DenoiseLeaks | transcribe.py:118-156 | when Demucs and DeepFilterNet both succeed, nothing is left behind exactly when a file is returned or denoising is skipped. Whenever a method runs and no file is returned, the pre-created temp is left behind. |
| Pipeline.IntendedDenoiseNoLeak | transcribe.py:118-156 | the intended run returns the same file and uses the same temp numbers as the code. It never leaves the pre-created temp, and leaves nothing when Demucs succeeds and DeepFilterNet does not fail. |
| Pipeline.DemucsFailureLeaksTemp | transcribe.py:120-156 | with `demucs` failing, the code leaves the pre-created temp and the intended run does not |
| Pipeline.VadOptions | transcribe.py:352-358 | only `min_speech_duration_ms` and `min_silence_duration_ms` are passed on, with their configured values |
| Pipeline.PassResultText | transcribe.py:384-407 | one segment per engine segment, times kept, text stripped; full text is the space-join; language and probability from the engine |
| Pipeline.PassCleansUp | transcribe.py:327-419 | a pass leaves behind only files it created. The denoised and enhanced files are deleted. With denoising and enhancement off, nothing is created. |
| Pipeline.AvailableMembers | transcribe.py:429-434 | a strategy is kept exactly when it is configured and usable |
| Pipeline.AvailableAppend | transcribe.py:429-434 | filtering keeps the configured order |
| Pipeline.AvailableAll | transcribe.py:429-434 | with DeepFilterNet available every strategy is kept |
| Pipeline.Passes | transcribe.py:440-447 | keys list each successful strategy once, in first-success order; leftover temps are fresh |
| Pipeline.PassesKeys | transcribe.py:440-447 | results exist only for configured strategies |
| Pipeline.PassesStep | transcribe.py:441-447 | a pass adds its result under its strategy, its leftovers to the temps, and nothing else |
| Pipeline.DistinctCount | transcribe.py:453 | the number of results equals the number of keys |
| Pipeline.SelectionCases | transcribe.py:449-455 | no result exactly when no pass succeeded; exactly one success is returned unchanged |
| Pipeline.SelectionFallback | transcribe.py:457-476 | without a merge, the result is the first most-confident pass with `multi_pass_info` mapping every success to its probability |
| Pipeline.TranscriptionProcessor.NewTemp | transcribe.py:120-122 | a new temp number is taken and the file is live |
| Pipeline.TranscriptionProcessor.Unlink | transcribe.py:141 | the file is no longer live; nothing else changes |
| Pipeline.TranscriptionProcessor.ApplyDemucs | transcribe.py:162-209 | `_apply_demucs`'s effect on the live temps is that of `DemucsStep` |
| Pipeline.TranscriptionProcessor.ApplyDeepFilterNet | transcribe.py:211-250 | `_apply_deepfilternet`'s effect is that of `DfnStep` |
| Pipeline.TranscriptionProcessor.EnhanceAudio | transcribe.py:252-302 | `enhance_audio`'s effect is that of `EnhanceStep` |
| Pipeline.TranscriptionProcessor.AiDenoise | transcribe.py:101-160 | `ai_denoise`'s result and effect on the live temps are those of `DenoiseStep` |
| Pipeline.TranscriptionProcessor.DenoiseWith | transcribe.py:118-156 | the steps run in order: pre-created temp, Demucs, DeepFilterNet, copy and unlink |
| Pipeline.TranscriptionProcessor.SinglePass | transcribe.py:322-419 | result and leftovers are those of `PassStep`; the configured method is restored |
| Pipeline.TranscriptionProcessor.Preprocess | transcribe.py:327-345 | denoising runs with the overriding method, then enhancement on its output |
| Pipeline.TranscriptionProcessor.Transcribe | transcribe.py:347-412 | the engine is asked about the processed file with the VAD options |
| Pipeline.TranscriptionProcessor.CollectSegments | transcribe.py:398-407 | segments stripped in engine order; full text their space-join |
| Pipeline.TranscriptionProcessor.FilterStrategies | transcribe.py:428-434 | the loop keeps exactly the usable strategies in order |
| Pipeline.TranscriptionProcessor.MultiPass | transcribe.py:421-476 | passes over the usable strategies, then the selection; the configured method is unchanged |
| Pipeline.TranscriptionProcessor.RunPasses | transcribe.py:440-447 | the loop collects the results and leftovers of every pass |
| Pipeline.TranscriptionProcessor.RunOne | transcribe.py:441-447 | one loop iteration extends the collection by one strategy |
| Pipeline.TranscriptionProcessor.Choose | transcribe.py:449-476 | the returned result is the selection |
| Pipeline.TranscriptionProcessor.TranscribeAudio | transcribe.py:311-320 | multi-pass when enabled, otherwise one pass with the configured method |
| Pipeline.OutputPath | transcribe.py:774-799 | without a suffix the path always exists and keeps the input's name |
| Pipeline.OutputPathInjective | transcribe.py:781-786 | preserving the structure, distinct inputs get distinct outputs |
| Pipeline.FlatOutputCollides | transcribe.py:790-791 | without preserving the structure, inputs sharing a name share the output |
| Pipeline.ShouldSkip | transcribe.py:801-806 | skip exactly when `skip_existing` is on and the output exists |
| SiteIndex.ParseWithoutColon | generate_index.py:56-57 | a text without `:` gives 0 |
| SiteIndex.ParseViaThree | generate_index.py:45-52 | a bracketed or bare `h:m:s` of digits parses to its value |
| SiteIndex.ParseViaTwo | generate_index.py:45-55 | a bracketed or bare `m:s` of digits parses to its value |
| SiteIndex.ParseFormatRoundTrip | generate_index.py:45-52 | parsing `format_timestamp`'s stamp gives back the whole seconds, for every duration |
| SiteIndex.StampLength | generate_index.py:1746 | the matched stamp is one of the three shapes; it is the `[HH:MM:SS]` form exactly when 10 long |
| SiteIndex.MatchedStampParses | generate_index.py:1746-1750 | every stamp the pattern accepts parses without error |
| SiteIndex.MatchEntry | generate_index.py:1746-1757 | an entry exactly for a line starting with an accepted stamp; its `data-time` is the parsed seconds |
| SiteIndex.LineEntry | generate_index.py:1741-1743 | blank lines give no entry |
| SiteIndex.TranscriptEntries | generate_index.py:1740-1757 | the loop yields the entries of the lines in order |
| SiteIndex.FolderKey | generate_index.py:68-70 | a file directly in the input folder is keyed `root`, otherwise by its relative path |
| SiteIndex.RootKeyShared | generate_index.py:70 | a top-level folder named `root` shares the key of the input folder |
| SiteIndex.RelOfIsRelativeTo | generate_index.py:69 | the relative folder is pathlib's `relative_to` |
| SiteIndex.AddFile | generate_index.py:71-92 | the file's info is appended to its folder's list; other folders are unchanged |
| SiteIndex.GroupedStep | generate_index.py:65-93 | an audio item adds one file to its folder; any other item changes nothing |
| SiteIndex.AddToFolders | generate_index.py:71-92 | adding a file to the dictionary is `AddFile` |
| SiteIndex.ScanFolders | generate_index.py:59-95 | the folders are the grouping of the audio items, and `total_files` is their count |
| SiteIndex.GroupedByFolder | generate_index.py:65-93 | a folder appears exactly when it holds an audio item; its files are those items in scan order |
| SiteIndex.CountIn | generate_index.py:955-958 | a count is at most the number of files; the file count is the number of files |
| SiteIndex.GroupedTally | generate_index.py:955-958 | each count over all folders equals the count over the scanned audio items |
| SiteIndex.HovedindexStats | generate_index.py:955-958 | `total_files` is the sum of the list lengths, and each statistic is at most `total_files` |
| SiteIndex.ThemeSuffix | generate_index.py:162 | the suffix is `-n` exactly for `nostalgia`, otherwise `-m` |
| SiteIndex.FilePageNameInjective | generate_index.py:174-175 | a file page name determines the stem and the theme |
| SiteIndex.FolderIndexNamesDiffer | generate_index.py:162-163 | the two themes write different folder index names |
| SiteIndex.CrumbAt | generate_index.py:1637-1641 | each part is shown in order and only the last is bold |
| SiteIndex.Breadcrumb | generate_index.py:1633-1641 | Home, then for a non-root folder one crumb per part |
| SiteIndex.SuccessBadges | generate_index.py:967-973 | one badge per completed artefact, at most three |
| SiteIndex.FolderCardBadges | generate_index.py:966-974 | the badges are those of the folder's first file only |
| Summaries.RegenSkipPath | regenerate_summaries.py:116-120 | the path fails only for a nameless output under `no` or `primary` |
| Summaries.SkipPathIsWrittenPath | regenerate_summaries.py:116-120 | the docx the skip check tests is the docx later written; the md sits beside it with the same stem |
| Summaries.PrimaryPaths | regenerate_summaries.py:227-229 | `no` and `primary` write `<stem>.docx` and `<stem>.md` |
| Summaries.LanguagePaths | regenerate_summaries.py:230-232 | other languages write a `.docx` and a `.md` that share one stem, beside the transcript |
| Summaries.RegenShouldSkip | regenerate_summaries.py:111-122 | never skipped under `--force`; otherwise skipped exactly when the docx exists |
| Summaries.OnlySummaryPathRaises | summary_only.py:116-119 | `with_suffix('_<lang>.md')` raises for every language but `primary` |
| Summaries.OnlyShouldSkip | summary_only.py:111-121 | never skipped under `--force`. Otherwise `primary` is skipped exactly when `<stem>.md` exists (an empty name raises), and every other language raises. |
| Summaries.OnlySkipCheckRaises | summary_only.py:118-121 | without `--force` the skip check raises for every language but `primary` |
| Summaries.IntendedSummaryPathSound | summary_only.py:116-119 | the intended path lies beside the transcript and ends in `.md`. It agrees with the code for `primary`, and with `regenerate_summaries.py` for other languages. |
| Summaries.IntendedSummaryPathsDistinct | summary_only.py:184-187 | different languages get different intended paths |
| Summaries.IntendedShouldSkip | summary_only.py:111-121 | the intended check skips exactly when the summary file exists and `--force` is not given |
| Summaries.LanguageName | summary_only.py:128-136 | codes other than `no` and `en` are shown upper-cased, at their own length |
| Summaries.LanguageNameNamesOnlyItsCode | summary_only.py:128-136 | only `no` is named Norwegian and only `en` English |
| Summaries.RegenTemperature | regenerate_summaries.py:214 | 0.5 exactly for `no`, otherwise 0.7 |
| Summaries.TemperaturesAgreeExceptNorwegian | summary_only.py:173 | the two scripts ask for the same temperature exactly for languages other than `no` |
| Summaries.DigitRunEnd | regenerate_summaries.py:331 | the digit run ends at the first non-digit |
| Summaries.MatchLen | regenerate_summaries.py:330-331 | a match is a bracketed run of at least three characters |
| Summaries.SecondsMatchIsShape | regenerate_summaries.py:331 | `\[\d+\.?\d*s?\]` matches exactly the bracketed digits with at most one `.` and an optional `s` |
| Summaries.Sub | regenerate_summaries.py:330-331 | removal never lengthens the line |
| Summaries.SubKeepsPlainPrefix | regenerate_summaries.py:330-331 | text before the first `[` is kept unchanged |
| Summaries.SubRemovesLeadingMatch | regenerate_summaries.py:330-331 | a match at the start is removed |
| Summaries.LineText | regenerate_summaries.py:319-336 | a kept line is non-blank and stripped, and is not a metadata line |
| Summaries.LineLanguage | regenerate_summaries.py:324-326 | a language comes only from a metadata line containing `Language:` |
| Summaries.DroppedLineChangesNothing | regenerate_summaries.py:320-336 | removing a line that yields no text does not change the kept text |
| Summaries.LastAnnouncementWins | regenerate_summaries.py:324-326 | the detected language is that of the last `Language:` line |
| Summaries.NoAnnouncementIsUnknown | regenerate_summaries.py:316 | without such a line the language is `unknown` |
| Summaries.DetectedLanguageLineOnlySkipped | regenerate_summaries.py:324-327 | a `Detected language:` line is skipped and sets no language, because the test is case-sensitive |
| Summaries.ClockStampRemoved | regenerate_summaries.py:330-331 | a leading `[HH:MM:SS]` stamp is removed and the rest is untouched |
| Summaries.WrittenLineGivesItsText | regenerate_summaries.py:318-336 | a line written by `_save_txt` yields exactly its segment text |
| Summaries.ExtractStep | regenerate_summaries.py:318-336 | each line adds its text, if any, and updates the language only on `Language:` |
| Summaries.ExtractTranscription | regenerate_summaries.py:312-342 | a text is returned exactly when it has at least 50 words; it is the space-join of the kept lines with the detected language |
| Summaries.NumberedSeparator | regenerate_summaries.py:279-280 | a numbered line has its `. ` at index 1 or 2 |
| Summaries.ClassifyDocLine | regenerate_summaries.py:263-281 | the six kinds are tried in priority order: `#` or short all-caps heading, bold, bullet, numbered, paragraph. Each keeps the right part of the line. |
| Summaries.UpperBoldLineIsHeading | regenerate_summaries.py:270-274 | a short upper-case `**…**` line is a heading, not bold |
| Summaries.ThreeDigitItemIsParagraph | regenerate_summaries.py:279-282 | `123. x` has no `. ` in its first four characters, so it is a plain paragraph |
| Summaries.ShortItemIsNumbered | regenerate_summaries.py:279-280 | `1. x` and `12. x` become numbered items with the text after `. ` |
| Summaries.DocParagraphs | regenerate_summaries.py:263-268 | each line gives at most one paragraph |
| Summaries.SingleLineSummary | regenerate_summaries.py:263-281 | a one-line summary is one paragraph, its stripped line classified |
| Summaries.DocumentBody | regenerate_summaries.py:263-281 | the loop yields the paragraphs of the stripped summary's lines |
| Summaries.SummaryFilesOf | regenerate_summaries.py:227-232 | the written files sit beside the transcript and the skip check tests the written docx |
| Summaries.RegenStep | regenerate_summaries.py:361-368 | only the language's own files are added; an existing docx is skipped unless `--force` |
| Summaries.RegenRun | regenerate_summaries.py:360-368 | files are only added, and languages are tried in list order |
| Summaries.ProcessLanguages | regenerate_summaries.py:353-368 | the loop's files and failures are those of `RegenRun` |
| Summaries.ForceTriesEveryLanguage | regenerate_summaries.py:361-368 | with `--force` every language is tried, in order |
| Summaries.NoRetryOfExisting | regenerate_summaries.py:361-363 | without `--force` no language is tried whose docx existed at the start |
| Summaries.SummariesBesideTranscript | regenerate_summaries.py:227-232 | every file a run writes is beside the transcript |
| Summaries.NorwegianCoversPrimary | regenerate_summaries.py:116-117 | `no` and `primary` share one docx, so after `no` is written `primary` is skipped |
| Summaries.OnlyStep | summary_only.py:265-275 | without `--force` any language but `primary` raises; with it, such a language fails and only the primary `.md` can be written |
| Summaries.OnlyRunFails | summary_only.py:265-268 | without `--force` a run containing any language but `primary` ends with an error |
| Summaries.OnlyForcedWritesOnlyPrimary | summary_only.py:265-275 | with `--force` every language is tried and only the primary `.md` can be written |
| Summaries.DefaultLanguagesWriteNothing | summary_only.py:262-275 | the default `no`, `en` writes nothing: an error without `--force`, two failures with it |
| EditableHtml.TabName | generate_editable_html.py:58-74 | codes other than `no`, `en` and `primary` are shown upper-cased, at their own length |
| EditableHtml.TabNameNamesOnlyItsCode | generate_editable_html.py:58-74 | only `no` is shown as Norsk and only `en` as English |
| EditableHtml.TabFor | generate_editable_html.py:68-85 | a tab exists exactly when the `.summary.txt` or the `.docx` exists. The txt is preferred. `docx_file` is absent exactly when the docx is missing. |
| EditableHtml.LanguageTabs | generate_editable_html.py:66-85 | one candidate per language, in the fixed order |
| EditableHtml.FindSummaries | generate_editable_html.py:51-106 | the loop and the insert give the summary list |
| EditableHtml.SummariesOrdered | generate_editable_html.py:66-104 | at most eight tabs, in the fixed language order, one per code, primary first exactly when present |
| EditableHtml.SummariesComplete | generate_editable_html.py:66-104 | a tab is listed exactly when the primary or a language has it |
| EditableHtml.FirstAudioIsFirst | generate_editable_html.py:114-119 | the audio file is the first existing extension in order, or none when none exists |
| EditableHtml.FindAudioFile | generate_editable_html.py:108-119 | the loop returns that first existing file |
| EditableHtml.FormatDuration | generate_editable_html.py:121-129 | `~N min` with N = ⌊size/2^20⌋, or `Unknown` when the size cannot be read |
| EditableHtml.DateFromName | generate_editable_html.py:199-209 | `DD.MM.20YY` exactly when the text before ` - ` is six long, built from its characters |
| EditableHtml.SummaryTabsHtml | generate_editable_html.py:131-144 | no summaries give an empty string; one gives its button |
| EditableHtml.SummaryContentsHtml | generate_editable_html.py:146-149 | no summaries give the Norwegian placeholder; one gives its section |
| EditableHtml.HtmlPath | generate_editable_html.py:249 | the page is `<stem>.html` beside the transcript |
| EditableHtml.GenerateHtml | generate_editable_html.py:184-253 | nothing is written exactly when there are no summaries; otherwise exactly the page file is added |
| EditableHtml.PageExactlyWithSummaries | generate_editable_html.py:189-193 | a page exists exactly when some summary exists, and then it lists at least one |
| EditableHtml.DurationShown | generate_editable_html.py:211-224 | duration is `N/A` exactly without audio, and `Unknown` exactly when the audio's size is unknown |
| FolderIndex.Glob | generate_folder_index.py:34 | the glob keeps exactly the names with the extension |
| FolderIndex.GlobFirst | generate_folder_index.py:34-35 | the first match is the first matching name of the listing |
| FolderIndex.GetFolders | generate_folder_index.py:23-28 | exactly the directories whose name does not start with `.` |
| FolderIndex.FolderAudioChoice | generate_folder_index.py:40-45 | the audio is the first match of the first extension with any match, or none |
| FolderIndex.FindAudio | generate_folder_index.py:40-45 | the loop returns that file, in the order m4a, mp3, wav, ogg, flac |
| FolderIndex.Mime | generate_folder_index.py:113-120 | m4a is mp4; wav, ogg and flac are themselves; anything else is mpeg |
| FolderIndex.AudioMime | generate_folder_index.py:111-120 | a matched audio's extension is its glob extension, or empty for a dot-only name, which maps to mpeg |
| FolderIndex.LangCode | generate_folder_index.py:60-62 | the text after the last `_`, or `primary` without one |
| FolderIndex.LangCodeOfSuffixed | generate_folder_index.py:60-62 | `<base>_<code>` gives `code` |
| FolderIndex.TabLabel | generate_folder_index.py:63-67 | unnamed codes are title-cased at their own length |
| FolderIndex.KeptOnePerKey | generate_folder_index.py:54-58 | the seen-stem filter keeps one file per stem, the first, and loses no stem |
| FolderIndex.CollectStep | generate_folder_index.py:54-77 | one loop iteration keeps the file exactly when its stem is new |
| FolderIndex.CollectSummaries | generate_folder_index.py:50-77 | the loop gives the tabs of the first file per stem, in listing order |
| FolderIndex.InsertSorted | generate_folder_index.py:80-87 | insertion keeps the order and the contents |
| FolderIndex.SortTabsCorrect | generate_folder_index.py:80-87 | the tabs are sorted by (group, code) and are a permutation of the input |
| FolderIndex.InsertStable | generate_folder_index.py:80-87 | an inserted tab goes after every tab of the same key |
| FolderIndex.SortTabsStable | generate_folder_index.py:80-87 | the sort is stable: tabs of equal key keep the order they were collected in |
| FolderIndex.SortedGroups | generate_folder_index.py:80-85 | primary comes first, then `no`, then the rest |
| FolderIndex.FindSummaries | generate_folder_index.py:50-87 | the result is the sorted tabs of the collected markdown files |
| FolderIndex.CollectedOnePerStem | generate_folder_index.py:54-77 | one tab per stem, each for a listed file |
| FolderIndex.FolderSummariesOrdered | generate_folder_index.py:50-87 | sorted, a permutation of the collected tabs, each a listed `.md` file |
| FolderIndex.FolderDate | generate_folder_index.py:103-108 | the date is always built, so `Ukjent dato` never appears |
| FolderIndex.DatesAgree | generate_folder_index.py:103-108 | for a six-character date part, both page generators give the same date |
| FolderIndex.GenerateFolderIndex | generate_folder_index.py:92-178 | a folder with no `.txt` is skipped; otherwise `folder_index.html` is written in it |
| FolderIndex.WrittenIndexes | generate_folder_index.py:184-189 | an index is written exactly for each listed folder holding a transcript |
| FolderIndex.Run | generate_folder_index.py:184-189 | the loop writes those indexes |
| FolderIndex.RunWritesTranscribedFolders | generate_folder_index.py:23-189 | an index is written exactly in each visible folder with a `.txt` |
| ValidateLinks.AudioExtensions | validate_links.py:47 | each configured format becomes `.<fmt>` |
| ValidateLinks.InAudioExtensions | validate_links.py:47-49 | `.e` is an audio extension exactly when `e` is a configured format |
| ValidateLinks.AudioByExtension | validate_links.py:48-50 | a file is audio exactly when its lower-cased extension is configured |
| ValidateLinks.MatchingStep | validate_links.py:33-50 | each walked file joins the set when it matches |
| ValidateLinks.Rglob | validate_links.py:33-50 | the loop collects exactly the matching files |
| ValidateLinks.ScanExistingFiles | validate_links.py:22-52 | the five sets are those of the scan |
| ValidateLinks.ScanSkipsIndexPages | validate_links.py:42-44 | the html set excludes `hovedindex.html` and `folder_index.html` |
| ValidateLinks.RemoveAll | validate_links.py:96 | removal never lengthens the name |
| ValidateLinks.SummaryBase | validate_links.py:96 | a name ending in the marker loses only that ending |
| ValidateLinks.OrphanedIff | validate_links.py:90-104 | under the intended rule, a summary is orphaned exactly when no transcript has its base stem |
| ValidateLinks.SummaryWithTranscriptNotOrphaned | validate_links.py:90-104 | under the intended rule, a summary whose transcript exists is not orphaned |
| ValidateLinks.AsWrittenAgrees | validate_links.py:96-104 | when the marker occurs only at the end, the code and the intended rule agree |
| ValidateLinks.OneSummary | validate_links.py:92-97 | with one transcript, the code compares the name with every marker removed |
| ValidateLinks.MarkerInsideName | validate_links.py:96-98 | a marker inside the name makes the code report a summary whose transcript exists |
| ValidateLinks.OrphanRuleMisfires | validate_links.py:96-98 | `meeting_notes_no.md` beside `meeting_notes.txt` is reported orphaned |
| ValidateLinks.DeletionKeepsAudio | validate_links.py:116-124 | deleting stale folder indexes does not change which folders hold audio |
| ValidateLinks.CleanupOldHtmlFiles | validate_links.py:106-127 | the two deletion loops leave the files of `AfterCleanup` |
| ValidateLinks.HovedindexKeptOnlyAtRoot | validate_links.py:110-113 | a `hovedindex.html` survives exactly at the input root |
| ValidateLinks.FolderIndexKeptIffAudio | validate_links.py:116-124 | a `folder_index.html` survives exactly when its folder holds audio |
| ValidateLinks.AudioSurvivesFirstPass | validate_links.py:110-120 | unless `html` is an audio format, the first pass does not change which folders hold audio |
| ValidateLinks.HovedindexNotAudio | validate_links.py:110-120 | `hovedindex.html` is audio only when `html` is a configured format |
| ValidateLinks.CleanupKeepsOtherFiles | validate_links.py:106-127 | no other file is deleted |
| ValidateLinks.ValidateAndCleanup | validate_links.py:66-88 | reports the code's orphans for both languages and leaves the cleaned files |
| ExportDocx.NonBlank | export_docx_to_txt.py:22-25 | kept paragraphs are at most the paragraphs |
| ExportDocx.NonBlankMembers | export_docx_to_txt.py:22-25 | exactly the paragraphs with non-blank text are kept, unstripped |
| ExportDocx.NonBlankIdempotent | export_docx_to_txt.py:22-25 | filtering twice keeps the same paragraphs |
| ExportDocx.ExtractText | export_docx_to_txt.py:22-32 | the text is the kept paragraphs joined by a blank line |
| ExportDocx.SummaryTxtPath | export_docx_to_txt.py:28 | the path exists exactly for a file with a name |
| ExportDocx.SummaryTxtOfDocx | export_docx_to_txt.py:28 | `x.docx` becomes `x.summary.txt` in the same folder |
| ExportDocx.Export | export_docx_to_txt.py:13-42 | a path comes back exactly when the document could be read; the written text is the joined paragraphs |
| ExportDocx.FindDocx | export_docx_to_txt.py:45-48 | no more files than entries |
| ExportDocx.FindDocxMembers | export_docx_to_txt.py:45-48 | exactly the `.docx` files not starting with `~`, at the top only unless recursive |
| ExportDocx.FindDocxRecursiveMore | export_docx_to_txt.py:47 | the recursive search finds every file the flat one finds |
| ExportDocx.CountWhere | export_docx_to_txt.py:94-97 | the count is at most the number of files |
| ExportDocx.CountWhereAll | export_docx_to_txt.py:94-97 | the count equals the number of files exactly when every export succeeds |
| ExportDocx.CountWhereNone | export_docx_to_txt.py:94-97 | the count is 0 exactly when every export fails |
| ExportDocx.Run | export_docx_to_txt.py:51-100 | with `--file` the exit code is 0 exactly for an existing `.docx` that exports. A missing folder exits 1. Otherwise the count of exports is at most the count found. |
| RenameSafe.MapChar | rename_safe.py:10-15 | exactly the seven mapped characters change, each into one or two unmapped characters |
| RenameSafe.SafeNameIsSafe | rename_safe.py:17-20 | the result has no mapped character and is at least as long |
| RenameSafe.SafeNameFixed | rename_safe.py:17-20 | a name is unchanged exactly when it has no mapped character |
| RenameSafe.SafeNameIdempotent | rename_safe.py:17-20 | renaming twice is renaming once |
| RenameSafe.PartialNameAll | rename_safe.py:17-20 | the successive replacements in `CHAR_MAP` order give the per-character map |
| RenameSafe.ApplyCharMap | rename_safe.py:17-20 | the replacement loop computes the safe name |
| RenameSafe.Rebase | rename_safe.py:30 | a path below the renamed folder moves with it; any other stays |
| RenameSafe.RenameFile | rename_safe.py:30 | renaming a file succeeds exactly when the target is not a directory, and moves only that file |
| RenameSafe.RenameTopFolder | rename_safe.py:30 | renaming a top-level folder replaces it by the new one; other top-level folders stay |
| RenameSafe.FolderStep | rename_safe.py:41-43 | after renaming one folder, every top-level folder is safe or still to be renamed |
| RenameSafe.Disk.Rename | rename_safe.py:30 | the tree changes exactly as `os.rename` prescribes, or not at all when it fails |
| RenameSafe.Disk.RenamePath | rename_safe.py:22-31 | a missing or safe path is returned unchanged. Otherwise the path is renamed to the safe name in the same folder and returned. |
| RenameSafe.Disk.RenameFolders | rename_safe.py:39-43 | a completed folder pass leaves the tree in which every top-level folder carries its safe name, with everything below it moved along; so every top-level folder name is safe |
| RenameSafe.Disk.RenameFiles | rename_safe.py:45-49 | a completed file pass moves every regular file to its safe name in the same folder and changes no folder, so only safe file names are left |
| RenameSafe.Disk.Run | rename_safe.py:33-52 | without `input/` nothing changes. A completed run leaves the tree `Renamed` gives: top-level folders renamed first, then every file. Every file name and every top-level folder name is then safe; nested folders keep their names, as the folder pass lists only the top level. |
| RenameSafe.MoveTopStep | rename_safe.py:30 | renaming one more top-level folder moves exactly what lies below it |
| RenameSafe.FoldersRenamedStep | rename_safe.py:41-43 | one successful folder rename takes the tree of the folders done so far to that of one more |
| RenameSafe.FolderPassRename | rename_safe.py:41-43 | renaming an unsafe folder keeps the folder pass on track |
| RenameSafe.FolderPassKeep | rename_safe.py:41-43 | a safe folder is left alone and the pass moves on |
| RenameSafe.FilePassRename | rename_safe.py:47-49 | renaming an unsafe file keeps the file pass on track |
| RenameSafe.FilePassKeep | rename_safe.py:47-49 | a directory or a safe name is left alone and the pass moves on |
| RenameSafe.RenamedAllSafe | rename_safe.py:33-52 | the tree a completed run leaves holds only safe file names and safe top-level folder names |
| RenameSafe.RenamedIdempotent | rename_safe.py:33-52 | running the script a second time renames nothing |
| FixHovedindex.MapChar | fix_hovedindex.py:5-6 | only space, ø, æ and å change, into characters that are neither `"` nor `/` |
| FixHovedindex.SafeNameIsMapEach | fix_hovedindex.py:5-6 | the chained replacements map each character on its own |
| FixHovedindex.SafeNameFixed | fix_hovedindex.py:5-6 | a name is unchanged exactly when it has no mapped character |
| FixHovedindex.SafeNameIdempotent | fix_hovedindex.py:5-6 | renaming twice is renaming once |
| FixHovedindex.SafeNameKeepsUpper | fix_hovedindex.py:5-6 | upper-case Ø, Æ and Å pass through unchanged |
| FixHovedindex.StopIndex | fix_hovedindex.py:23 | the folder group stops at the first `"` or `/` |
| FixHovedindex.LinkAt | fix_hovedindex.py:23 | a link is `href="`, a non-empty group free of `"` and `/`, then `/folder_index.html"` |
| FixHovedindex.RewriteLink | fix_hovedindex.py:17-26 | a link is replaced by the link to the safe folder name, and the scan resumes after it |
| FixHovedindex.RewriteNoQuote | fix_hovedindex.py:22-26 | text without `"` is unchanged |
| FixHovedindex.RewriteKeepsToStop | fix_hovedindex.py:22-26 | the rewritten text agrees with the original up to and including its first `"` or `/` |
| FixHovedindex.RewriteIdempotent | fix_hovedindex.py:22-26 | for a renaming that keeps links links, rewriting twice is rewriting once |
| FixHovedindex.SafeNameLinkSafe | fix_hovedindex.py:5-6 | `safe_name` keeps a link group a link group |
| FixHovedindex.FixLinks | fix_hovedindex.py:8-28 | nothing is written when `hovedindex.html` is missing; the written content is a fixed point of the rewrite |
| FixHovedindex.UpperCaseLinkMissesRename | fix_hovedindex.py:5-6 | a link to folder `Å` is kept, while `rename_safe.py` renames the folder to `AA` |
| FixHovedindex.RenameSafeLinkSafe | rename_safe.py:17-20 | `rename_safe.py`'s mapping also keeps link groups link groups |
| FixHovedindex.FixLinksIntended | fix_hovedindex.py:8-28 | with `rename_safe.py`'s mapping, the written content is a fixed point |
| FixHovedindex.IntendedLinkFollowsRename | fix_hovedindex.py:17-26 | with that mapping, a link to `X` becomes a link to the folder `rename_safe.py` makes of `X` |
| CleanupWrongHtml.DoomedIn | cleanup_wrong_html.py:16-19 | only existing files are deleted |
| CleanupWrongHtml.DoomedIff | cleanup_wrong_html.py:13-19 | a file is deleted exactly when it is an `.html` other than `folder_index.html` directly in a first-level folder |
| CleanupWrongHtml.CleanupKeeps | cleanup_wrong_html.py:13-19 | files at the root, deeper down, non-HTML files and `folder_index.html` all remain |
| CleanupWrongHtml.OnlyFolderIndexRemains | cleanup_wrong_html.py:16-21 | afterwards the only `.html` in a first-level folder is `folder_index.html` |
| CleanupWrongHtml.CleanupIdempotent | cleanup_wrong_html.py:11-21 | a second run deletes nothing |
| CleanupWrongHtml.FolderStep | cleanup_wrong_html.py:13-20 | folder by folder, the deletions are disjoint and their counts add up |
| CleanupWrongHtml.Input.Cleanup | cleanup_wrong_html.py:11-21 | exactly the doomed files are deleted and `removed` is their number |
| CleanupWrongHtml.Input.CleanFolder | cleanup_wrong_html.py:16-20 | one folder's doomed files are deleted and counted |
| UploadServer.AllowedNeedsDot | stenografen_upload_server.py:30-31 | a name without `.` is refused |
| UploadServer.AllowedFileIff | stenografen_upload_server.py:22-31 | a name is allowed exactly when its lower-cased last extension is an audio format or a document type |
| UploadServer.SanitiseSubsequence | stenografen_upload_server.py:79 | the sanitised name is a subsequence of the input |
| UploadServer.SanitiseMembers | stenografen_upload_server.py:79 | it keeps exactly the alphanumerics, spaces, `-` and `_` |
| UploadServer.SanitiseFixed | stenografen_upload_server.py:79 | a name is unchanged exactly when every character is kept |
| UploadServer.SanitiseLength | stenografen_upload_server.py:79 | it is never longer |
| UploadServer.SanitiseIdempotent | stenografen_upload_server.py:79 | sanitising twice is sanitising once |
| UploadServer.Mkdir | stenografen_upload_server.py:84 | a successful `mkdir` adds the folder and its parents and changes no file |
| UploadServer.CreateFolder | stenografen_upload_server.py:68-91 | a created folder is the sanitised target of a non-blank name; a failure changes nothing |
| UploadServer.CreateNeedsName | stenografen_upload_server.py:73-76 | a blank name gives 400 `Folder name required` |
| UploadServer.CreateSanitisedAway | stenografen_upload_server.py:79-88 | a name sanitised to nothing targets the existing parent: 400 `Folder already exists` |
| UploadServer.CreateFolderIff | stenografen_upload_server.py:73-88 | creation succeeds exactly for a non-blank name whose target is free, and adds that folder with its parents |
| UploadServer.UploadFile | stenografen_upload_server.py:94-127 | the trigger fires only on success, and a refused upload changes nothing |
| UploadServer.UploadCheckOrder | stenografen_upload_server.py:97-112 | missing file, then empty name, then refused type, each 400. A success has passed all three and saved the file in its folder. |
| UploadServer.UploadTriggerIff | stenografen_upload_server.py:115-119 | after a save, transcription triggers exactly when the lower-cased extension is an audio format |
| UploadServer.DotFileNotTriggered | stenografen_upload_server.py:106-119 | `.mp3` is allowed but, having no suffix, does not trigger transcription |
| Paths.WithSuffixDotted | regenerate_summaries.py:228-229 | `with_suffix` of a dotted suffix replaces the last suffix and keeps the folder |
| Strings.IntValueOfDigits | generate_index.py:51 | `int()` reads a run of digits as its value |

## Left out

- The speech engine, Demucs, DeepFilterNet, ffmpeg/ffprobe, Ollama and python-docx are foreign calls. They are parameters of the model (`PassOracle`, the `ask` function, `answered`, `docxAvailable`, the `docs` function), not modelled.
- OCR (`ocr_pdf`, `save_ocr_result`), `generate_summary` and its prompt text in `transcribe.py`, `_save_json` and the format dispatch in `save_transcription` are library and network work. They are not modelled.
- `improved_norwegian_prompt.py` is not part of this model. It is a prompt wrapper around the Ollama call.
- HTML, CSS and JavaScript template bodies, `datetime.now()` footers, logging, `print`, progress bars and argument parsing are not modelled.
- Timestamps.ClockOf: seconds are whole milliseconds, not Python floats. IEEE rounding of `seconds % 1 * 1000` is not modelled.
- Merge.BestIndex: a language probability is a whole number of thousandths. Two passes whose float probabilities differ by less than a thousandth compare equal here, so the first is chosen where `max` in transcribe.py:469-470 would choose the larger.
- Pipeline.TranscriptionProcessor.RunPasses: the `keep_individual` save inside the pass loop (transcribe.py:444-447) is not modelled. It only writes a file through `with_stem` and `_save_txt` and does not affect the result.
- Timestamps.TxtFile: only the `timecode` line form is modelled. The `[start:.2f]s` form of `_save_txt` (transcribe.py:568) needs float formatting.
- Pipeline.TranscriptionProcessor.AiDenoise: an exception inside `shutil.copy` or `unlink` (transcribe.py:147-157) is not modelled as its own outcome; the copy and unlinks are taken to succeed.
- ValidateLinks.ValidateAndCleanup: `regenerate_html_structure` (validate_links.py:85-86) calls into the site generator, a foreign run; it is not modelled.
- ValidateLinks.CleanupOldHtmlFiles: an `unlink` that fails stops the remaining cleanup inside the `try` (validate_links.py:108-127). The model takes every unlink to succeed.
- Summaries.ProcessLanguages: in the source this function, and `process_all`, sit inside `generate_summary_for_language` (regenerate_summaries.py:124, 303, 370), so `main` cannot reach them. The model gives them as the free functions the code evidently means.
- Strings.Upper: only the ASCII letters and the Latin-1 letters à–þ (without ÷) are raised. ß, ÿ and µ are kept, where Python's `upper()` gives `SS`, `Ÿ` (U+0178) and `Μ` (U+039C); letters beyond Latin-1 are kept too.
- Strings.Lower: only the ASCII letters and the Latin-1 letters À–Þ (without ×) are lowered; letters beyond Latin-1 are kept.
- Strings.Title: built on the same character maps, so ß, ÿ and µ are kept where Python's `title()` gives `Ss`, `Ÿ` and `Μ`, and letters beyond Latin-1 are kept.
- Summaries.LanguageName: upper-cases through `Strings.Upper`. For a code holding ß the name Python shows is longer than the code (`SS`), and ÿ, µ and letters beyond Latin-1 are shown unchanged here.
- EditableHtml.TabName: upper-cases through `Strings.Upper`, with the same gaps for ß, ÿ, µ and letters beyond Latin-1.
- FolderIndex.TabLabel: title-cases through `Strings.Title`. ß gives `Ss` in Python, so "at its own length" fails for such codes; ÿ, µ and letters beyond Latin-1 keep their form here.
- CleanupWrongHtml.Input.Cleanup: `folder.glob("*.html")` also yields a directory whose name ends in `.html`, and its `unlink()` raises outside any `try`, ending the run with later files kept. The model lists files only, so every doomed file is deleted.
- CleanupWrongHtml.Input.CleanFolder: the same; a directory named `*.html` inside a first-level folder is not modelled.
- ValidateLinks.ScanExistingFiles: `rglob` also yields directories whose names match `*.txt`, `*_no.md`, `*_en.md` or `*.html`, or carry an audio suffix (validate_links.py:33-50), and the source adds them to its sets. The model walks files only.
- Strings.IntValue: Python's `int()` also accepts `_` digit separators and non-ASCII digits; the model reads only ASCII digits.
- Merge.MatchAt: `\d` is read as the ASCII digits only. Python's `\d` also matches other Unicode digits.
- SiteIndex.MatchEntry: `\d` is read as the ASCII digits only.
- Summaries.MatchLen: `\d` is read as the ASCII digits only.
- SiteIndex.Breadcrumb: `parts` stands for `rel_path.parts` of the folder (generate_index.py:1636); the caller supplies it.
- SiteIndex.ThemeSuffix: `current_theme` is a parameter, not the generator field reassigned between the two theme passes.
- ExportDocx.Export: reading the document is a parameter (`None` for any failure in python-docx); write errors are not modelled.
- UploadServer.UploadFile: `file.save` failures (the 500 reply), file names containing `/`, and `..` in the folder path are not modelled. The allowed-type list in the error message is a set printed in arbitrary order; the model keeps only the message head.
- UploadServer.CreateFolder: a `request.json` of `None`, and the OS error text of the 500 reply, are not modelled.
- RenameSafe.Disk.RenameFiles: `rglob` is taken as a snapshot of the tree before the first file rename.
- RenameSafe.Disk.RenameFolders: a failed rename ends the run with the exception. The model returns false and states nothing about the partly renamed tree.
- Summaries.ClassifyDocLine: `isdigit` is read as the ASCII digits, so a line such as `². Punkt` is a paragraph here but a numbered item in Python. `isupper` knows only ASCII and Latin-1 letters, so a Greek heading such as `ΣΥΝΟΨΗ` is a paragraph here.
- UploadServer.Sanitise: `isalnum` covers ASCII and Latin-1 letters and digits only. Characters such as `Ł` or `ж` are dropped here but kept by Python.
- UploadServer.SanitiseMembers: states membership for the Latin-1 `isalnum` of `UploadServer.Sanitise`, not Python's Unicode one.
- FixHovedindex.RewriteKeepsToStop: states only that the text up to its first `"` or `/` is unchanged, not that everything outside link groups is.
- FolderIndex.GenerateFolderIndex: a directory named `*.txt` or `*.html` is taken to be a file. The page body is abstracted to its parts.
- EditableHtml.GenerateHtml: the page text, the `json.dumps` of the summaries and the contact entries are abstracted to the page's parts.

## Findings

Each row below has both halves. One member models the code as written and exhibits the discrepancy. The other proves the evidently intended property of the corrected definition. The members that model a whole script run keep the behaviour as written: `ValidateLinks.ValidateAndCleanup`, `Pipeline.TranscriptionProcessor.AiDenoise`, `Summaries.OnlyRun` and `FixHovedindex.FixLinks`.

| source | as written | input that shows it | evidently intended | confidence | as-written member | corrected member |
|---|---|---|---|---|---|---|
| summary_only.py:119 | `with_suffix(f'_{lang_code}.md')` passes a suffix without a leading `.`, which pathlib rejects. The skip check raises outside any `try`, and generation fails inside one. | `should_skip_summary(Path('a/x.txt'), 'no')` | `<stem>_<lang>.md` beside the transcript | not executed | Summaries.OnlySkipCheckRaises | Summaries.IntendedSummaryPathSound |
| validate_links.py:96 | `stem.replace('_no', '')` removes every `_no` in the name, not just the trailing marker | `meeting_notes_no.md` beside `meeting_notes.txt` is reported orphaned | strip only the trailing `_no`/`_en` | not executed | ValidateLinks.OrphanRuleMisfires | ValidateLinks.AsWrittenAgrees |
| transcribe.py:120-156 | the temp file made at 120-122 is deleted nowhere when no step changed the audio | method `demucs` with Demucs failing | remove the temp file when returning `None` | not executed | Pipeline.DemucsFailureLeaksTemp | Pipeline.IntendedDenoiseNoLeak |
| fix_hovedindex.py:5-6 | `safe_name` omits Ø, Æ and Å, which `rename_safe.py` maps, so links to renamed upper-case folders stay broken | `href="Å/folder_index.html"` while the folder became `AA` | the same mapping as `rename_safe.py` | not executed | FixHovedindex.UpperCaseLinkMissesRename | FixHovedindex.IntendedLinkFollowsRename |
