# sentiric-tts-coqui-service, modelled in Dafny

The service turns text into speech with a neural voice model. This
project models the logic around that model, in the service's own terms:

- **The engine (`TTSEngine`).**
  - It cleans the request text and decides whether the text is SSML.
  - For plain text, it looks the output up in a disk cache keyed on the request.
  - It resolves a speaker's conditioning latents. It tries clone references first, then the stored latent file, then `<speaker>.wav`, then the first `.wav` of the speakers directory.
  - For SSML, it walks the markup into text and pause segments. It renders each text segment by inference and each pause as zeros, and concatenates them in order.
  - It passes the WAV through ffmpeg and stores plain-text results in the cache.
- **The hardened SSML handler.** A second, never-failing SSML walker with slightly different per-tag rules.
- **The text normalizer.** Whitespace and quote cleanup, plus the Turkish unit and ordinal-dot rules.
- **The ffmpeg command builder** of the audio processor, and its fall-back to the input bytes on failure.
- **The request model.** Field constraints and defaults of a `/generate` body.
- **The browser client.**
  - The checks made before a request is sent.
  - The loop that re-frames streamed byte chunks into whole 16-bit samples and converts them to floats.
  - The priming/jitter buffer. It holds chunks until one second is buffered, flushes them as one buffer and then requests each later chunk to start where the previous one ends.

The engine does not call the handler, the normalizer or the audio processor. The model keeps them as parallel variants and relates them by lemmas:

- `EngineSsml.NormalizeTextIsNormalizerCleanup` relates the engine's text cleanup to the normalizer.
- `Engine.EngineProcessedAddsSilence` relates the engine's ffmpeg pass to the audio processor's.
- The `SsmlRules` lemmas state where the two SSML walkers agree and where they differ.

Modules, one per file:

| module | file | models |
|---|---|---|
| `Wrappers` | wrappers.dfy | `Option`, `Result` |
| `TextOps` | text.dfy | Python's whitespace, `strip`, `re.sub(r'\s+', ' ', …)`, `replace`, `in`, `lower`, `float()`, `str()`, `join` |
| `Normalizer` | normalizer.dfy | `TextNormalizer.normalize` |
| `XmlTree` | xml_tree.dfy | the element tree, `itertext`, `&` escaping, the `<[^>]+>` tag strip |
| `SsmlRules` | ssml_rules.dfy | the per-tag rules of both walkers (rate, emphasis, break time) |
| `SsmlWalk` | ssml_walk.dfy | the recursive `process_element` shared by both walkers, with what its output means |
| `SsmlHandler` | ssml_handler.dfy | `SSMLHandler.is_ssml`, `SSMLHandler.parse` |
| `EngineSsml` | engine_ssml.dfy | `_normalize_text`, the engine's SSML test, `_parse_ssml` |
| `Audio` | audio.dfy | `AudioProcessor.process_audio` |
| `Engine` | engine.dfy | cache key and store, speakers, latents, waveform assembly, `_process_audio`, `synthesize` |
| `Schemas` | schemas.dfy | `TTSRequest` |
| `StreamClient` | stream_client.dfy | `handleGenerate`: pre-request checks, stream re-framing, Int16→float |
| `AudioCore` | audio_core.dfy | the priming/jitter buffer of audio-core.js |

Values that are not code in the repository are parameters:

- the neural model, the latent extractor, the WAV encoder and the ffmpeg run are the functions of `Engine.Backend` (and the `run` parameter of `Audio`);
- the XML parser is `parseXml: string -> Option<Element>`, where `None` stands for its parse error;
- the latent files, the cache files and the speakers directory are fields of the `TTSEngine` class;
- in the client, the chunks `reader.read()` yields are a sequence parameter;
- the audio context's clock is a parameter `now`;
- Web Audio scheduling is the log `scheduled` of started buffers.

## Model

| member | source | states |
|---|---|---|
| TextOps.Collapse | app/core/normalizer.py:19 | the result is single-spaced, no longer than the input, empty only for empty input, and starts (ends) with whitespace exactly when the input does; `CollapseRule` gives its exact content |
| TextOps.CollapseRule | app/core/normalizer.py:19 | for every input, the result is `Squeeze`, the per-character rule: each non-whitespace character is kept in order and each maximal whitespace run leaves exactly one space |
| TextOps.NatToStringRoundTrip | app/core/audio.py:54 | the decimal text of a natural number reads back as that number |
| TextOps.AsciiLower | app/core/engine.py:114 | `lower()` keeps the length and maps exactly the letters A-Z to a-z |
| TextOps.Strip | app/core/normalizer.py:19 | Python's `str.strip()`; stated by `StripSpec` |
| TextOps.ReplaceAll | app/core/normalizer.py:25-28 | Python's `str.replace`: leftmost, non-overlapping occurrences |
| TextOps.ParseFloat | app/core/engine.py:116-117 | Python's `float()` on finite decimal literals, `None` for its `ValueError`; stated by `ParseFloatOfDigits`, `ParseFloatRejects` and `ParseFloatRejectsLetterSuffix` |
| TextOps.StripSpec | app/core/normalizer.py:19 | `strip()` keeps exactly the middle of the string between the leading and trailing whitespace; the result has no whitespace at either end and is empty exactly when the string is blank |
| TextOps.CollapseStripClean | app/core/engine.py:82 | collapsing then stripping always leaves a clean text (single-spaced, trimmed) |
| TextOps.CollapseStripOfClean | app/core/engine.py:82 | collapsing then stripping changes nothing in a text that is already clean |
| TextOps.CollapseBlank | app/core/engine.py:82 | collapsing keeps a text blank exactly when it was blank |
| TextOps.IntToStringRoundTrip | app/core/audio.py:54 | the `str(sample_rate)` written into the command reads back as the same integer, negative ones included |
| TextOps.ParseFloatOfDigits | app/core/engine.py:116-117 | `float()` of a non-empty digit string is its decimal value |
| TextOps.ParseFloatRejects | app/core/ssml_handler.py:51-59 | a string holding any character outside the model's float alphabet (digits, `.`, `e`, `E`, signs, whitespace) raises (no value) |
| TextOps.ParseFloatRejectsLetterSuffix | app/core/ssml_handler.py:52-55 | digits followed by a letter other than `e` do not parse |
| Normalizer.Normalize | app/core/normalizer.py:12-34 | `normalize(text, lang="tr")`: collapse and strip, straighten quotes, then for `tr` the unit rules and the ordinal-dot rule; stated by the lemmas below |
| Normalizer.CanonicalQuotes | app/core/normalizer.py:20 | the three quote replacements; stated by `CanonicalQuotesPointwise` and `CanonicalQuotesIdle` |
| Normalizer.ExpandUnits | app/core/normalizer.py:25-28 | the four unit rewrites in source order; stated by `ExpandUnitsRemovesAll` |
| Normalizer.DropOrdinalDots | app/core/normalizer.py:32 | `re.sub(r'(\d+)\.\s', r'\1 ', s)`; stated by `DropOrdinalDotsRule`, `DropOrdinalDotsLeavesNone`, `DropOrdinalDotsIdempotent` and `DropOrdinalDotsKeepsUnitsOut` |
| Normalizer.DropOrdinalDotsRule | app/core/normalizer.py:32 | for every input, the result is the input with each dot that ends a run of digits and comes before a whitespace character deleted, that whitespace character turned into one space, and every other character kept, in order |
| Normalizer.DropOrdinalDotsLeavesNone | app/core/normalizer.py:32 | in the result no digit is followed by a dot and a whitespace character |
| Normalizer.DropOrdinalDotsIdempotent | app/core/normalizer.py:32 | applying the rule a second time changes nothing |
| Normalizer.NormalizeEmptyIffBlank | app/core/normalizer.py:13-14 | the output is empty exactly when the input is empty or whitespace only, for every language |
| Normalizer.CanonicalQuotesPointwise | app/core/normalizer.py:20 | the three replacements map `’` to `'` and `“`, `”` to `"` character by character, keeping the length |
| Normalizer.CanonicalQuotesIdle | app/core/normalizer.py:20 | a text without typographic quotes is left unchanged |
| Normalizer.NormalizeHasNoCurlyQuotes | app/core/normalizer.py:20-32 | no `’`, `“` or `”` survives, in any language; no later rule brings one back |
| Normalizer.NormalizeCleanUnlessTurkish | app/core/normalizer.py:19-23 | for a language other than `tr` the output has no whitespace at either end and no two whitespace characters in a row |
| Normalizer.NormalizeIdempotentUnlessTurkish | app/core/normalizer.py:12-34 | for a language other than `tr`, normalizing twice equals normalizing once |
| Normalizer.TurkishNotIdempotent | app/core/normalizer.py:25-28 | for `tr` normalizing twice can differ from once: `kg` gives ` kilogram `, which a second pass strips to `kilogram` |
| Normalizer.NormalizeKg | app/core/normalizer.py:26 | Turkish `kg` becomes ` kilogram ` with its padding spaces |
| Normalizer.NormalizeKgWord | app/core/normalizer.py:19-28 | a second Turkish pass over ` kilogram ` strips it to `kilogram` |
| Normalizer.ExpandUnitsRemovesAll | app/core/normalizer.py:25-28 | after the four rewrites, in their order, no `km/h`, `kg`, `cm` or `mm` is left, even inside a word |
| Normalizer.DropOrdinalDotsKeepsUnitsOut | app/core/normalizer.py:32 | removing ordinal dots never creates a unit abbreviation |
| Normalizer.NormalizeSpellsOutAllUnits | app/core/normalizer.py:23-32 | the Turkish output contains none of `km/h`, `kg`, `cm`, `mm` |
| Normalizer.NormalizeTurkishClean | app/core/normalizer.py:19-32 | on a clean text without typographic quotes, Turkish normalization is just the unit rules then the ordinal-dot rule |
| Normalizer.OrdinalDotExample | app/core/normalizer.py:32 | `1. kat` becomes `1 kat`: the dot after a clause-ending number goes, the number stays |
| Normalizer.DropOrdinalDotExample | app/core/normalizer.py:32 | the ordinal rule alone turns `1. kat` into `1 kat` |
| Normalizer.DigitRun | app/core/normalizer.py:32 | the `\d+` run at the front: every character in it is a digit and the next one is not |
| XmlTree.EscapeAmp | app/core/ssml_handler.py:23 | `&` becomes `&amp;` before parsing (both walkers) |
| XmlTree.InnerText | app/core/ssml_handler.py:95 | `"".join(root.itertext())`; stated by `InnerTextIsTextNodes` |
| XmlTree.StripTags | app/core/ssml_handler.py:103 | `re.sub(r'<[^>]+>', '', s)`; stated by `StripTagsLeavesNoTag`, `StripTagsOfTagFree`, `StripTagsIdempotent`, `StripTagsShortens` and `StripTagsKeepsOut` |
| XmlTree.InnerTextIsTextNodes | app/core/engine.py:131 | `"".join(itertext())` is the concatenation of the element's text nodes in document order |
| XmlTree.StripTagsLeavesNoTag | app/core/engine.py:135 | after the tag strip no `<…>` with a non-empty body remains |
| XmlTree.StripTagsOfTagFree | app/core/ssml_handler.py:103 | the tag strip leaves a tag-free text unchanged |
| XmlTree.StripTagsIdempotent | app/core/ssml_handler.py:103 | stripping tags twice equals stripping once |
| XmlTree.StripTagsShortens | app/core/engine.py:135 | the tag strip only deletes, so it never lengthens the text |
| XmlTree.StripTagsKeepsOut | app/core/engine.py:135 | the tag strip never introduces a character that was not there |
| SsmlRules.EngineRateToSpeed | app/core/engine.py:86-90 | a named rate maps to 0.7/0.85/1.0/1.2/1.4; otherwise the parsed number; 1.0 when it does not parse |
| SsmlRules.EngineBreak | app/core/engine.py:113-118 | the engine's break time fails only with the raw `time` attribute (default `0.5s`) as its error |
| SsmlRules.EngineBreakMillis | app/core/engine.py:116 | `Nms` pauses N/1000 s in the engine |
| SsmlRules.EngineBreakSeconds | app/core/engine.py:117 | `Ns` pauses N s in the engine |
| SsmlRules.EngineBreakNoSuffix | app/core/engine.py:114-115 | a time not ending in `s` (after lower-casing) pauses 0.5 s |
| SsmlRules.EngineBreakRaises | app/core/engine.py:116-117 | a number before `s` that `float()` rejects raises, carrying the raw time |
| SsmlRules.EngineEmphasisFromEmpty | app/core/engine.py:92-95 | from the empty overlay the engine walks with, strong/moderate emphasis gives speed 0.9 and penalty 2.4 whatever the request asked |
| SsmlRules.ReducedEmphasisDiffers | app/core/engine.py:96-97 | `reduced` multiplies the engine's speed (default 1.0) by 1.1; the handler ignores it |
| SsmlRules.BadRateDiffers | app/core/ssml_handler.py:62-71 | an unparsable rate resets the engine's speed to 1.0 but keeps the handler's speed as it was |
| SsmlRules.NamedRateAgrees | app/core/ssml_handler.py:63-66 | a named rate sets the same speed in both walkers |
| SsmlRules.ChildOverlayKeys | app/core/ssml_handler.py:47-78 | a child's overlay differs from its parent's at most in speed and repetition penalty |
| SsmlRules.HandlerBreakSeconds | app/core/ssml_handler.py:49-57 | `Ns` pauses N s in the handler, both as written and corrected |
| SsmlRules.HandlerBreakAsWrittenIgnoresMillis | app/core/ssml_handler.py:52-55 | as written, any time containing `ms` pauses the 0.5 s fallback: deleting every `s` leaves an `m` that `float()` rejects |
| SsmlRules.HandlerBreakAsWrittenCounterexample | app/core/ssml_handler.py:52-55 | `200ms` pauses 0.5 s as written and 0.2 s as intended |
| SsmlRules.HandlerBreakMillis | app/core/ssml_handler.py:53-55 | corrected handler: `Nms` pauses N/1000 s |
| SsmlRules.BreakDuration | app/core/ssml_handler.py:49-60 | the pause of a `break`: the handler's never fails; the engine's fails only with the raw time (default `0.5s`) as its error |
| SsmlRules.HandlerPause | app/core/ssml_handler.py:49-60 | the handler's break rule under either reading: as written (the default the handler's parse uses) or corrected |
| SsmlRules.HandlerBreakAsWritten | app/core/ssml_handler.py:49-60 | the handler's break rule as line 52 runs it: lower-case, delete every `s`, then every `ms`, parse, divide by 1000 when the raw attribute holds `ms`, 0.5 s when `float()` raises; its behaviour is stated by `HandlerBreakSeconds` and `HandlerBreakAsWrittenIgnoresMillis` |
| SsmlRules.HandlerBreak | app/core/ssml_handler.py:52-55 | the corrected break rule: `ms` deleted before `s`; stated by `HandlerBreakMillis` and `HandlerBreakSeconds` |
| SsmlRules.EngineProsody | app/core/engine.py:119-121 | the engine's prosody branch: a present non-empty rate sets the speed via `_map_ssml_rate_to_speed`; compared with the handler by `BadRateDiffers` and `NamedRateAgrees` |
| SsmlRules.EngineEmphasis | app/core/engine.py:92-98 | `_apply_emphasis`: strong/moderate scale speed by 0.9 and penalty by 1.2 from 1.0 and 2.0, reduced scales speed by 1.1; stated by `EngineEmphasisFromEmpty` and `ReducedEmphasisDiffers` |
| SsmlRules.HandlerProsody | app/core/ssml_handler.py:62-71 | the handler's prosody branch: a named rate, else the parsed number, else the speed is kept; stated by `BadRateDiffers` and `NamedRateAgrees` |
| SsmlRules.HandlerEmphasis | app/core/ssml_handler.py:73-78 | the handler's emphasis branch: only strong/moderate act; stated by `ReducedEmphasisDiffers` and `ChildOverlayKeys` |
| SsmlWalk.Walk | app/core/ssml_handler.py:36-91 | the segments `process_element` appends for an element, or the first break error; its meaning is stated by `WalkTexts`, `WalkPauses`, `WalkFails` and `WalkWellFormed` |
| SsmlWalk.ProcessElement | app/core/ssml_handler.py:36-89 | the recursive appender yields the segments the walk defines, appended to what was there, or the first break error |
| SsmlWalk.ProcessChild | app/core/engine.py:111-127 | one child adds its pause, then its subtree under its own overlay, then its tail under the parent's overlay |
| SsmlWalk.ChildPauseFirstTailLast | app/core/engine.py:113-127 | a `break` child's segments open with its pause, and a tail that speaks is the child's last segment, stripped and under the parent's overlay rather than the child's |
| SsmlWalk.WalkTexts | app/core/ssml_handler.py:36-89 | the texts of the segments are the stripped non-blank text nodes, in document order |
| SsmlWalk.WalkPauses | app/core/ssml_handler.py:49-60 | the pauses are, one for one and in order, the durations of the `break` elements below the root |
| SsmlWalk.WalkFails | app/core/engine.py:113-118 | the walk fails exactly when some `break` below the root fails |
| SsmlWalk.WalkWellFormed | app/core/ssml_handler.py:36-89 | every text segment is non-empty and stripped, and its overlay keeps every parameter of the starting overlay except speed and penalty |
| SsmlWalk.ErrorSticks | app/core/engine.py:111-127 | once a child's break raises, the later children change nothing: the walk's error is the first one |
| SsmlWalk.HandlerWalkOk | app/core/ssml_handler.py:50-59 | the handler's walk never fails |
| SsmlWalk.DialectKeepsOthers | app/core/engine.py:119-124 | both walkers' rules keep every parameter other than speed and penalty |
| SsmlWalk.EmptyWalkIsBlank | app/core/ssml_handler.py:94-96 | an empty walk means no text node speaks |
| SsmlHandler.IsSsml | app/core/ssml_handler.py:16-17 | `is_ssml`: `<speak>` occurs in the text; stated by `IsSsmlOfTagged` and `IsSsmlNeedsAngle` |
| SsmlHandler.IsSsmlOfTagged | app/core/ssml_handler.py:16-17 | any text with `<speak>` inside is SSML |
| SsmlHandler.IsSsmlNeedsAngle | app/core/ssml_handler.py:16-17 | a text without `<` is not SSML |
| SsmlHandler.Wrapped | app/core/ssml_handler.py:27-30 | the parsed document, stripped, starts with `<root>`; it is the text or the text wrapped in `<root>…</root>` |
| SsmlHandler.WrappedIsTrimmed | app/core/ssml_handler.py:27-28 | a wrapped text needs no further stripping to start with `<root>` |
| SsmlHandler.WrappedIdempotent | app/core/ssml_handler.py:27-30 | wrapping a wrapped document changes nothing |
| SsmlHandler.Parsed | app/core/ssml_handler.py:20-104 | `parse` never returns an empty list; by default it runs the break rule as written, and `corrected` swaps in the intended one |
| SsmlHandler.Parse | app/core/ssml_handler.py:20-104 | the method computes `Parsed` under the same break rule: escape, wrap, parse, walk from the default overlay, then the two fallbacks |
| SsmlHandler.ParsedOfTree | app/core/ssml_handler.py:33-98 | for a parsed tree: the joined inner text under the defaults when nothing speaks and there is no break; otherwise the spoken text nodes in order, one pause per break with the duration of the break rule in use (as written by default), and overlays that keep the defaults' other keys |
| SsmlHandler.ParsedMillisAsWritten | app/core/ssml_handler.py:49-60 | in a text that parses, a `break` of `Nms` pauses 0.5 s, as the handler runs |
| SsmlHandler.ParsedMillisCorrected | app/core/ssml_handler.py:53-55 | with the corrected rule the same `break` pauses N/1000 s |
| SsmlHandler.ParsedOfUnparsable | app/core/ssml_handler.py:100-104 | an unparsable text gives one segment of the escaped text with its tags stripped, under the defaults, and that text is tag-free |
| EngineSsml.NormalizeText | app/core/engine.py:81-84 | the cleaned text is clean, has no typographic quote, and is empty exactly when the input was blank |
| EngineSsml.NormalizeTextIdempotent | app/core/engine.py:81-84 | cleaning twice equals cleaning once |
| EngineSsml.NormalizeTextIsNormalizerCleanup | app/core/engine.py:81-84 | the engine's cleanup is the normalizer's for every language but `tr`; the Turkish rules are what it leaves out |
| EngineSsml.IsSsmlText | app/core/engine.py:142 | the engine's SSML test: `<speak>`, `<break` or `<prosody` occurs; stated by `PlainWithoutAngle` and `BreakMakesSsml` |
| EngineSsml.PlainWithoutAngle | app/core/engine.py:142 | a text without `<` is never treated as SSML |
| EngineSsml.BreakMakesSsml | app/core/engine.py:142 | any text containing `<break` is treated as SSML, even without `<speak>` |
| EngineSsml.ParsedSsml | app/core/engine.py:100-136 | `_parse_ssml` either raises a break error or returns a non-empty list |
| EngineSsml.ParseSsml | app/core/engine.py:100-136 | the method computes `ParsedSsml` |
| EngineSsml.ParsedSsmlOfTree | app/core/engine.py:105-133 | for a parsed tree: it fails exactly when some break fails; otherwise the inner text under `{}` when nothing speaks and there is no break, else the spoken texts in order, one engine-duration pause per break, and overlays holding at most speed and penalty |
| EngineSsml.EngineWalkViews | app/core/engine.py:108-129 | the engine's walk from `{}` is empty exactly when nothing speaks and there is no break, and its texts and pauses are the text nodes and breaks in order |
| EngineSsml.ParsedSsmlOfUnparsable | app/core/engine.py:134-136 | a parse error gives one tag-free segment of the escaped text with empty parameters |
| Audio.Filters | app/core/audio.py:32-41 | `loudnorm` is always present and last; `adelay` is present exactly when silence is asked for, and then first |
| Audio.Command | app/core/audio.py:29-55 | the ffmpeg argument list; its layout is stated by `CommandShape` |
| Audio.FormatArgs | app/core/audio.py:44-51 | container, codec and bit rate per format, WAV for anything but mp3, opus and pcm; used by `CommandShape` |
| Audio.BuildCommand | app/core/audio.py:29-55 | the command list built step by step is `Command` |
| Audio.FilterChainText | app/core/audio.py:41 | the chain is `adelay=250\|250,loudnorm=I=-16:TP=-1.5:LRA=11` with silence, the loudness filter alone without |
| Audio.CommandShape | app/core/audio.py:29-55 | the command reads WAV from stdin, puts the filter chain right after, writes the format's container, resamples to a rate that reads back as the requested one, and writes to stdout last |
| Audio.Processed | app/core/audio.py:58-73 | an ffmpeg run that exits with 0 gives its stdout; a non-zero exit or an exception gives the input bytes |
| Audio.ProcessAudio | app/core/audio.py:26-73 | the method computes `Processed`; without the `addSilence` argument no delay is added, as the `add_silence=False` default |
| Engine.GenerateCacheKey | app/core/engine.py:283-290 | there is no key exactly when clone references are given; a key holds the raw text and the format (default `wav`) |
| Engine.CacheKeyDeterminedBy | app/core/engine.py:285-289 | two requests share a key exactly when they agree on text, language, speaker, temperature, speed, format and rate after defaults; top_k, top_p and penalty never matter |
| Engine.CacheKeyUsesRawText | app/core/engine.py:283-290 | texts that clean to the same text but differ raw get different keys |
| Engine.CacheRoundTrip | app/core/engine.py:292-306 | a saved payload is read back under its key, other keys are untouched, and no key means no write |
| Engine.Stem | app/core/engine.py:241 | the stem with `.wav` appended is the file name |
| Engine.WavFiles | app/core/engine.py:238 | exactly the listed names that `*.wav` matches, never more than the listing |
| Engine.SpeakerNamesOfFiles | app/core/engine.py:245-248 | one speaker name per `.wav` file, in order, each the stem of its file |
| Engine.SpeakerNamesExact | app/core/engine.py:245-248 | every speaker name has its `.wav` file and every `.wav` file gives a name |
| Engine.LatentOrder | app/core/engine.py:250-265 | clone references always extract afresh and store nothing; a readable stored latent is returned with no extraction; no speaker id raises |
| Engine.LatentFallback | app/core/engine.py:268-279 | with no stored latent and no `<id>.wav`: an error when the directory has no `.wav`, else extraction from the first one, stored under the requested id |
| Engine.LatentsMemoised | app/core/engine.py:257-279 | after an extraction from a speaker file, the next lookup for that id finds the stored latents |
| Engine.LatentSourceOf | app/core/engine.py:250-279 | where the latents come from: clone references, no id, the stored file, `<id>.wav`, the first `.wav`, or none; stated by `LatentOrder` and `LatentFallback` |
| Engine.TruncToInt | app/core/engine.py:173 | `int()` truncates toward zero |
| Engine.Render | app/core/engine.py:157-174 | the SSML waveform: each segment's inference or zeros, concatenated in order; stated by `RenderAppend`, `RenderFails` and `PauseIsSilence` |
| Engine.RenderAppend | app/core/engine.py:159-174 | rendering a concatenation is the concatenation of the renderings; the first failure wins |
| Engine.RenderFails | app/core/engine.py:172-173 | rendering fails exactly when some pause has a negative sample count |
| Engine.PauseIsSilence | app/core/engine.py:172-173 | a pause of d ≥ 0 s renders as int(24000·d) zeros |
| Engine.RenderSegments | app/core/engine.py:157-174 | the loop over segments computes `Render` |
| Engine.EngineProcessed | app/core/engine.py:308-340 | an ffmpeg run that exits with 0 gives its stdout; a non-zero exit or an exception gives the input bytes |
| Engine.EngineProcessAudio | app/core/engine.py:308-340 | the method computes `EngineProcessed` |
| Engine.EngineProcessedAddsSilence | app/core/engine.py:315-328 | the engine's command and output are the audio processor's with silence asked for |
| Engine.SynthesisKey | app/core/engine.py:142-145 | the key `synthesize` looks up and stores under: plain text without clone references only; stated by `SsmlNeverCached` |
| Engine.Synthesized | app/core/engine.py:157-194 | the output once latents are known: rendered SSML or one inference, WAV encoding, then `_process_audio`; `Produce` computes it |
| Engine.SsmlNeverCached | app/core/engine.py:143-196 | SSML or clone output is never looked up and never stored |
| Engine.TTSEngine.constructor | app/core/engine.py:31-42 | the engine starts from the given stores and back end |
| Engine.TTSEngine.GetSpeakers | app/core/engine.py:245-248 | returns the speaker names of the directory |
| Engine.TTSEngine.RefreshSpeakers | app/core/engine.py:235-243 | the report lists every speaker name, no failure, and counts the scanned `.wav` files |
| Engine.TTSEngine.GetLatents | app/core/engine.py:250-281 | returns the latents of the resolution order and updates only the latent store, as `LatentStoreAfter` says |
| Engine.TTSEngine.CheckCache | app/core/engine.py:292-299 | returns the stored payload under the key, if any |
| Engine.TTSEngine.SaveCache | app/core/engine.py:301-306 | writes the payload under the key, touching nothing else |
| Engine.TTSEngine.Synthesize | app/core/engine.py:138-197 | blank text gives empty bytes; a non-empty cache hit is returned with no other effect; otherwise latents are resolved, the output is synthesized and processed, and a successful result is stored under the key when there is one |
| Engine.TTSEngine.Produce | app/core/engine.py:157-194 | computes `Synthesized`: the rendered SSML or one inference, then WAV encoding and the ffmpeg pass |
| Schemas.TextErrors | app/api/schemas.py:33-38 | the text has no error exactly when it is present with 2 to 5000 characters |
| Schemas.Errors | app/api/schemas.py:33-52 | a body has no error exactly when the text length, the language (default `tr`) and the format (default `wav`) are all acceptable |
| Schemas.Validate | app/api/schemas.py:32-53 | accepted exactly when there is no error; an accepted request has a text of 2 to 5000 characters, a listed language and format, and the body's text; a refusal lists every error |
| Schemas.ValidateKeepsGivenFields | app/api/schemas.py:33-53 | every one of the eleven fields keeps the body's value when given and gets its declared default (tr, Ana Florence, 0.75, 1.0, 50, 0.85, 2.0, false, wav, true) when missing |
| Schemas.TextOnlyDefaults | app/api/schemas.py:39-53 | a body with only a valid text gets every default: tr, Ana Florence, 0.75, 1.0, 50, 0.85, 2.0, false, wav, true |
| Schemas.TextBounds | app/api/schemas.py:35-36 | texts of 1 and 5001 characters are refused |
| Schemas.AutoLanguageRejected | app/api/schemas.py:39 | `auto` is not an accepted language |
| Schemas.ExeFormatRejected | app/api/schemas.py:52 | `exe` is not an accepted format |
| Schemas.AllErrorsReported | app/api/schemas.py:33-52 | a short text, a bad language and a bad format give three errors, in field order |
| StreamClient.JsTrim | static/js/main.js:185 | `String.prototype.trim` over the ECMAScript white-space set; stated by `JsTrimSpec` |
| StreamClient.JsTrimSpec | static/js/main.js:185 | `trim()` leaves nothing exactly when every character is white space, and otherwise no white space at either end |
| StreamClient.PreRequest | static/js/main.js:176-192 | a request is sent only when not playing, with the trimmed non-empty text, and never with `<speak>` first in stream mode |
| StreamClient.PreRequestRejects | static/js/main.js:185-192 | all-white-space input is refused; stream-mode SSML is refused exactly when the trimmed text starts with `<speak>`; outside stream mode any non-blank text is sent trimmed |
| StreamClient.BreakWithoutSpeakIsSent | static/js/main.js:189 | a `<break>` without `<speak>` first passes the stream-mode check |
| StreamClient.Int16Of | static/js/main.js:286 | two little-endian bytes give a value in −32768..32767 |
| StreamClient.Int16RoundTrip | static/js/main.js:286 | every Int16 is decoded from its own two bytes |
| StreamClient.ToFloat | static/js/main.js:291 | every sample maps into [−1, 1], non-negative exactly when the sample is |
| StreamClient.ToFloatMonotone | static/js/main.js:291 | the conversion is strictly increasing |
| StreamClient.ToFloatExtremes | static/js/main.js:291 | only 32767 maps to 1 and only −32768 to −1 |
| StreamClient.Floats | static/js/main.js:285-292 | one float in [−1, 1] per whole pair of bytes |
| StreamClient.ToFloat32 | static/js/main.js:285-292 | the `for` loop fills the array with exactly `Floats` of the slice |
| StreamClient.Split | static/js/main.js:263-275 | the usable part and the carried part together are the carried bytes followed by the chunk, and the usable part is the longest even prefix |
| StreamClient.ReadStep | static/js/main.js:263-275 | after a read at most one byte is carried and the usable slice is even; a non-empty slice means two bytes have arrived in total, and an empty one means fewer have or two had arrived before this read |
| StreamClient.FramedStep | static/js/main.js:258-295 | one read keeps byte conservation, whole samples, and first-slice bookkeeping |
| StreamClient.Reframe | static/js/main.js:256-296 | after the last read, the loop's state satisfies `Framed` over the whole stream |
| StreamClient.FramedAll | static/js/main.js:256-296 | the slices followed by the carried byte are every byte read, in order; each slice is non-empty, even, and played as its floats; latency is taken at the first read after which two bytes had arrived |
| StreamClient.ReframeDropsOnlyOddByte | static/js/main.js:263-275 | everything but a final odd byte is played |
| StreamClient.SplitSampleExample | static/js/main.js:263-282 | a sample split over two chunks is decoded whole, at the second read |
| StreamClient.FlattenLength | static/js/main.js:277-294 | n non-empty even slices hold at least 2n bytes |
| AudioCore.PrimedIsOneSecond | static/js/audio-core.js:111-113 | the priming test holds exactly when at least one second of samples is buffered |
| AudioCore.JoinedLength | static/js/audio-core.js:91 | the `reduce` over lengths is the length of the concatenation |
| AudioCore.Concatenate | static/js/audio-core.js:91-97 | the offset loop builds exactly the in-order concatenation of the chunks, of their total length |
| AudioCore.CopyAt | static/js/audio-core.js:95 | `set(chunk, offset)` writes the chunk at the offset and leaves every other sample |
| AudioCore.RemoveFirst | static/js/audio-core.js:76-77 | an absent id leaves the list unchanged, a present one shortens it by one, and no new id appears; `RemoveFirstMultiset` states that nothing else changes |
| AudioCore.RemoveFirstMultiset | static/js/audio-core.js:76-77 | the multiset of ids loses one occurrence of the ended id, if present, and nothing else |
| AudioCore.RemoveFirstDistinct | static/js/audio-core.js:76-77 | in a list without repeats the ended id is gone, every other id stays, and there are still no repeats |
| AudioCore.InitialConsistent | static/js/audio-core.js:7-16 | the page-load state satisfies the player's invariant |
| AudioCore.HoldConsistent | static/js/audio-core.js:109-110 | holding a chunk keeps the invariant |
| AudioCore.FlushConsistent | static/js/audio-core.js:83-103 | flushing the held chunks as one scheduled buffer keeps the invariant, whether or not playback is marked started |
| AudioCore.DirectConsistent | static/js/audio-core.js:117-119 | scheduling a chunk directly after start keeps the invariant |
| AudioCore.StepConsistent | static/js/audio-core.js:40-138 | every event (chunk, download end, source end, stop, timer) keeps the invariant |
| AudioCore.PlayChunkStep | static/js/audio-core.js:105-120 | `playChunk` on the player state; stated by `PlayChunkConsistent`, `HeldUntilPrimed`, `BackToBack` and `StoppedDropsChunks` |
| AudioCore.CheckFinishedStep | static/js/audio-core.js:45-57 | `checkIfPlaybackFinished` on the player state; stated by `CheckFinishedConsistent` and `FinishedSchedulesAll` |
| AudioCore.ResetStep | static/js/audio-core.js:122-134 | `resetAudioState` on the player state; stated by `ResetConsistent` and `StoppedDropsChunks` |
| AudioCore.PlayChunkConsistent | static/js/audio-core.js:105-120 | `playChunk` keeps the player's invariant, and the samples taken since the last reset grow by exactly the chunk unless a stop is pending |
| AudioCore.CheckFinishedConsistent | static/js/audio-core.js:45-57 | the end-of-playback check keeps the invariant |
| AudioCore.EndedConsistent | static/js/audio-core.js:75-80 | an ended source leaves the active list and the invariant holds |
| AudioCore.ResetConsistent | static/js/audio-core.js:122-138 | a reset re-establishes the invariant |
| AudioCore.RunConsistent | static/js/audio-core.js:40-138 | after any sequence of events the active ids are distinct sources started since the last stop, the next start time is the requested end of the last source started since the last stop, and every sample taken since the last stop is scheduled or held, in order, none lost or repeated |
| AudioCore.RunDownloadFinished | static/js/audio-core.js:40-43 | the download flag is set exactly when the download was reported finished after the last stop (`resetAudioState` clears it) |
| AudioCore.RunInFlow | static/js/audio-core.js:59-120 | when no chunk arrives between a finished download and the next stop, as main.js drives the player, every source since the last stop is requested to start exactly where the one before it is requested to end |
| AudioCore.ChunkAfterFinishRestarts | static/js/audio-core.js:45-49 | outside that flow the end-of-download flush leaves playback unstarted, so a later chunk is flushed 100 ms after the clock: two sources requested at 0.1 s and 5.1 s, not back to back |
| AudioCore.FinishedSchedulesAll | static/js/audio-core.js:40-49 | once the download finishes nothing is held back: all samples since the last stop are scheduled in arrival order |
| AudioCore.HeldUntilPrimed | static/js/audio-core.js:109-116 | before playback starts, chunks under one second are only held, in order, and nothing is scheduled |
| AudioCore.BackToBack | static/js/audio-core.js:59-120 | after playback starts each chunk is requested to start at the previous requested end, and the next start moves by its duration |
| AudioCore.StoppedDropsChunks | static/js/audio-core.js:105-133 | after a stop every active source is stopped and chunks are dropped until the timer fires |
| AudioCore.JitterBuffer.constructor | static/js/audio-core.js:7-16 | the page-load state: nothing scheduled, held or active |
| AudioCore.JitterBuffer.SchedulePlayback | static/js/audio-core.js:59-73 | with a context, one source starts at `nextStartTime`, joins the active ones and moves the next start by its duration; without one nothing happens |
| AudioCore.JitterBuffer.StartPlaybackFromPrimingBuffer | static/js/audio-core.js:83-103 | with held chunks and a context, exactly one buffer, their concatenation, is scheduled 100 ms after now and the priming buffer is emptied; otherwise nothing happens |
| AudioCore.JitterBuffer.PlayChunk | static/js/audio-core.js:105-120 | the new state is `PlayChunkStep`: nothing while a stop is pending; direct scheduling after start; otherwise held, and flushed once one second is buffered |
| AudioCore.JitterBuffer.CheckIfPlaybackFinished | static/js/audio-core.js:45-57 | an unstarted finished download flushes what is held at 24000 Hz; completion is reported only when the download is over and no source is active |
| AudioCore.JitterBuffer.NotifyDownloadFinished | static/js/audio-core.js:40-43 | marks the download finished, then runs the check |
| AudioCore.JitterBuffer.SourceEnded | static/js/audio-core.js:75-80 | the ended source leaves the active list, then the check runs |
| AudioCore.JitterBuffer.ResetAudioState | static/js/audio-core.js:122-134 | requests a stop, stops every active source, and clears the download flag, the active list, the next start, the priming buffer and the started flag |
| AudioCore.JitterBuffer.StopTimerElapsed | static/js/audio-core.js:137 | the timer lifts the stop request and nothing else |

## Left out

- Neural inference, `get_conditioning_latents`, `torchaudio.save` and the ffmpeg process are uninterpreted functions of `Engine.Backend` (foreign code). The model states only what the surrounding code does with their results.
- `synthesize_stream` (app/core/engine.py:199-233) is not modelled. It is language detection with langid, streamed inference and a float clip and Int16 cast on device tensors, all foreign numerics. The client side of the stream is modelled in `StreamClient`.
- The MD5 of the JSON-serialised key is not modelled. The key is the record of its seven fields, so hash collisions are not considered.
- The thread lock, `_cleanup_memory`, the CUDA transfers, the singleton behaviour of `__new__` and its directory creation are left out: they are concurrency and device management. The model runs one call at a time.
- Reading or writing a cache or latent file that raises is not modelled separately: a cache read that raises is the same as no file, and a failed latent write is ignored. `LatentFile.Unreadable` models a stored latent that fails to load.
- Existence of the speakers directory (app/core/engine.py:237, 246) is not modelled. The directory is a listing that may be empty, which gives the same results.
- Floating point: sample values, durations, rates and times are `real`. Float32/float64 rounding and `nextStartTime`'s float arithmetic are left out. `int()` truncation is written out.
- TextOps.ParseFloat: models `float()` on finite decimal literals over ASCII digits only. Python's `float()` also accepts `_` between digits (PEP 515), `inf`, `infinity`, `nan` and non-ASCII decimal digits; the model rejects them. Where this shows: `<break time="1_000ms"/>` pauses 1.0 s at app/core/engine.py:116, while `SsmlRules.EngineBreak` returns `Err` and synthesis fails; `<prosody rate="1_0">` gives speed 10.0 at app/core/engine.py:89, while `SsmlRules.EngineRateToSpeed` gives 1.0; the hardened handler keeps its previous speed or the 0.5 s default where Python would use the parsed value. `ParseFloatRejects` is stated over the model's alphabet for the same reason. The millisecond finding is unaffected, since `m` is outside Python's alphabet too.
- TextOps.AsciiLower: lower-cases ASCII letters only; Unicode case mapping is left out, as break times and tags are ASCII in practice.
- Normalizer.DropOrdinalDots: `\d` matches ASCII digits only, while Python's `\d` also matches other Unicode decimal digits. Whitespace follows `str.isspace()`.
- Schemas.Validate: pydantic's type coercion of numbers and booleans is left out; it belongs to the web framework's parsing, not this code.
- The HTTP, gRPC, middleware and application modules, the UI code, the visualiser, the analyser and microphone recording are not part of this model.
- The browser's `AudioContext` creation, `resume`, `suspend` and a closed context, the analyser connection and `createBuffer` errors are left out. The model keeps only whether a context exists.
- RunConsistent: states the start times the player requests with `source.start(nextStartTime)`, not when a source is heard. It does not say that sources are back to back: that holds only in the request flow (`RunInFlow`), and `ChunkAfterFinishRestarts` shows a run where it fails. Web Audio starts a source whose requested time has already passed at once, so after an underrun (a chunk arriving after `nextStartTime`) sources can overlap; the context's effective start `max(nextStartTime, currentTime)` is not modelled.
- BackToBack: the same holds; it is about requested start times.
- RunInFlow: the same holds; it is about requested start times.
- StreamClient.Int16Of: `Int16Array` reads samples in the platform's byte order; the model fixes little-endian, the byte order of the x86 and ARM machines the server and the browsers run on.
- `window.onAudioPlaybackComplete` is counted in `completions`; what it does is outside this model. Console logging is left out.
- The latency value and the status text are not modelled. Only the read at which they are set is recorded (`StreamResult.firstAt`).

Where the behaviour differs from a natural reading of the service, the model follows the code:

- The cache key holds the raw request text, not the normalised text. So two requests that differ only in whitespace or quote style miss each other's cache entry (`Engine.CacheKeyUsesRawText`).
- The Turkish normalizer is not idempotent (`Normalizer.TurkishNotIdempotent`). Idempotence holds only for the other languages.
- An empty cached payload counts as a miss, because `if cached_audio` treats empty bytes as false.
- `_process_audio` in the engine always adds the 250 ms delay. It is the audio processor's command with `add_silence` set (`Engine.EngineProcessedAddsSilence`).

## Findings

| source | as written | input that shows it | evidently intended | confidence | as-written member | corrected member |
|---|---|---|---|---|---|---|
| app/core/ssml_handler.py:52-55 | every `s` is deleted before `ms` is, so a `ms` time keeps an `m`; `float()` then raises, the bare `except` swallows it, and the pause is the 0.5 s default | `<break time="200ms"/>` pauses 0.5 s | `Nms` pauses N/1000 s, as the comment on line 53 says: `ms` removed before `s` (`200ms` → 0.2 s) | high, not executed | SsmlHandler.ParsedMillisAsWritten | SsmlHandler.ParsedMillisCorrected |
