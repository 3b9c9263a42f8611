/** `TTSEngine` (app/core/engine.py): the content cache and its key, the
    resolution of a speaker's conditioning latents, the assembly of an SSML
    waveform from its segments, and `synthesize`, which ties them together.

    The stores the engine keeps on disk are fields of the class: the latent
    files under `LATENTS_DIR` (by speaker id), the cached outputs under
    `CACHE_DIR` (by key) and the file names in `SPEAKERS_DIR`. The neural
    model, the WAV encoder and the ffmpeg run are the functions of a
    `Backend`. */
module Engine {
  import opened Wrappers
  import opened TextOps
  import opened XmlTree
  import opened SsmlRules
  import opened EngineSsml
  import opened Audio

  // ------------------------------------------------------------ the request

  /** The request dictionary `synthesize` reads. The fields the cache key
      reads with `params[...]` are always present in what the endpoints pass;
      `output_format`, `sample_rate` and `speaker_wavs` may be missing. */
  datatype Params = Params(
    text: string,
    language: string,
    speakerIdx: Option<string>,
    temperature: real,
    speed: real,
    topK: int,
    topP: real,
    repetitionPenalty: real,
    outputFormat: Option<string>,
    sampleRate: Option<int>,
    speakerWavs: seq<string>)

  /** The output rate when the request names none. */
  const DefaultSampleRate: int := 24000

  // ------------------------------------------------------------ the cache key

  /** The fields `_generate_cache_key` serialises (sorted, then hashed): the
      key is modelled as this canonical record itself. */
  datatype CacheKey = CacheKey(
    text: string, lang: string, spk: Option<string>,
    temp: real, speed: real, fmt: string, sr: int)

  /** `_generate_cache_key`: no key when the request carries clone
      references; otherwise the raw text, language, speaker, temperature,
      speed, format (default "wav") and rate (default 24000). */
  function GenerateCacheKey(p: Params): (k: Option<CacheKey>)
    ensures k.None? <==> p.speakerWavs != []
    ensures k.Some? ==> k.value.text == p.text && k.value.fmt == p.outputFormat.GetOr("wav")
  {
    if p.speakerWavs != [] then None
    else Some(CacheKey(p.text, p.language, p.speakerIdx, p.temperature, p.speed,
                       p.outputFormat.GetOr("wav"), p.sampleRate.GetOr(DefaultSampleRate)))
  }

  /** Two requests without clone references share a key exactly when they
      agree on the seven keyed fields (formats and rates after defaults);
      top_k, top_p and the repetition penalty never matter. */
  lemma CacheKeyDeterminedBy(p: Params, q: Params)
    requires p.speakerWavs == [] && q.speakerWavs == []
    ensures GenerateCacheKey(p) == GenerateCacheKey(q) <==>
      && p.text == q.text && p.language == q.language && p.speakerIdx == q.speakerIdx
      && p.temperature == q.temperature && p.speed == q.speed
      && p.outputFormat.GetOr("wav") == q.outputFormat.GetOr("wav")
      && p.sampleRate.GetOr(DefaultSampleRate) == q.sampleRate.GetOr(DefaultSampleRate)
  {
  }

  /** The key is taken from the raw text, before normalisation: whenever
      normalising changes a text, the text and its normal form, which are
      synthesised alike, get different keys. */
  lemma CacheKeyUsesRawText(p: Params)
    requires p.speakerWavs == [] && NormalizeText(p.text) != p.text
    ensures var q := p.(text := NormalizeText(p.text));
      GenerateCacheKey(p) != GenerateCacheKey(q) && NormalizeText(q.text) == NormalizeText(p.text)
  {
    NormalizeTextIdempotent(p.text);
  }

  /** What `_check_cache` reads: the stored bytes under the key, nothing
      when there is no key or no file. */
  function Cached(store: map<CacheKey, Bytes>, key: Option<CacheKey>): Option<Bytes> {
    if key.Some? && key.value in store then Some(store[key.value]) else None
  }

  /** The store after `_save_cache`: the bytes are written under the key;
      no key, no write. */
  function Saved(store: map<CacheKey, Bytes>, key: Option<CacheKey>, data: Bytes): map<CacheKey, Bytes> {
    if key.Some? then store[key.value := data] else store
  }

  /** A save is read back by a check with the same key, and leaves every
      other key as it was. */
  lemma CacheRoundTrip(store: map<CacheKey, Bytes>, key: Option<CacheKey>, data: Bytes, other: Option<CacheKey>)
    requires other != key
    ensures key.Some? ==> Cached(Saved(store, key, data), key) == Some(data)
    ensures Cached(Saved(store, key, data), other) == Cached(store, other)
    ensures key.None? ==> Saved(store, key, data) == store
  {
  }

  // ----------------------------------------------------- speakers and latents

  /** What the directory listing `glob("*.wav")` matches: a name ending in
      `.wav` that does not start with a dot. */
  predicate IsWavFile(f: string) {
    EndsWith(f, ".wav") && f[0] != '.'
  }

  /** `os.path.splitext(f)[0]` for a `.wav` file name. */
  function Stem(f: string): (stem: string)
    requires EndsWith(f, ".wav")
    ensures stem + ".wav" == f
  {
    f[..|f| - 4]
  }

  /** The `.wav` files of a directory listing, in listing order. */
  function WavFiles(dir: seq<string>): (ws: seq<string>)
    ensures forall f :: f in ws <==> f in dir && IsWavFile(f)
    ensures |ws| <= |dir|
  {
    if dir == [] then []
    else WavFiles(dir[..|dir| - 1]) + (if IsWavFile(dir[|dir| - 1]) then [dir[|dir| - 1]] else [])
  }

  /** The speaker names: the stems of the `.wav` files, in listing order. */
  function SpeakerNames(dir: seq<string>): seq<string> {
    if dir == [] then []
    else SpeakerNames(dir[..|dir| - 1]) + (if IsWavFile(dir[|dir| - 1]) then [Stem(dir[|dir| - 1])] else [])
  }

  /** One name per `.wav` file, and `<name>.wav` is that file. */
  lemma {:induction false} SpeakerNamesOfFiles(dir: seq<string>)
    ensures |SpeakerNames(dir)| == |WavFiles(dir)|
    ensures forall i :: 0 <= i < |WavFiles(dir)| ==> SpeakerNames(dir)[i] + ".wav" == WavFiles(dir)[i]
    decreases |dir|
  {
    if dir != [] {
      SpeakerNamesOfFiles(dir[..|dir| - 1]);
    }
  }

  /** Every name found has its `.wav` file in the directory, and every
      listed `.wav` file gives a name. */
  lemma SpeakerNamesExact(dir: seq<string>)
    ensures forall n :: n in SpeakerNames(dir) ==> n + ".wav" in dir
    ensures forall f :: f in dir && IsWavFile(f) ==> Stem(f) in SpeakerNames(dir)
  {
    SpeakerNamesOfFiles(dir);
    forall n | n in SpeakerNames(dir) ensures n + ".wav" in dir {
      var i :| 0 <= i < |SpeakerNames(dir)| && SpeakerNames(dir)[i] == n;
      assert WavFiles(dir)[i] in WavFiles(dir);
    }
    forall f | f in dir && IsWavFile(f) ensures Stem(f) in SpeakerNames(dir) {
      var i :| 0 <= i < |WavFiles(dir)| && WavFiles(dir)[i] == f;
      assert SpeakerNames(dir)[i] + ".wav" == f;
      assert SpeakerNames(dir)[i] == Stem(f);
    }
  }

  /** The report `refresh_speakers` returns. */
  datatype ScanReport = ScanReport(success: seq<string>, failed: map<string, string>, totalScanned: nat)

  /** A speaker's conditioning latents: the GPT conditioning latent and the
      speaker embedding. */
  datatype Latents = Latents(gptCondLatent: seq<real>, speakerEmbedding: seq<real>)

  /** A file under `LATENTS_DIR`: latents that load, or a file whose loading
      raises (bad JSON, missing fields). */
  datatype LatentFile = Readable(latents: Latents) | Unreadable

  /** Where `_get_latents` takes the latents from, in the order it tries. */
  datatype LatentSource =
    | CloneReferences(wavs: seq<string>)   // extracted from the uploaded references
    | NoSpeakerId                          // "Speaker ID required"
    | StoredLatents(latents: Latents)      // the speaker's stored latents
    | SpeakerFile(file: string)            // extracted from a `.wav` file, then stored
    | NoSpeakerFile                        // "No speakers found."

  function LatentSourceOf(store: map<string, LatentFile>, dir: seq<string>,
                          speakerIdx: Option<string>, speakerWavs: seq<string>): LatentSource
  {
    if speakerWavs != [] then CloneReferences(speakerWavs)
    else if speakerIdx.None? || speakerIdx.value == [] then NoSpeakerId
    else if speakerIdx.value in store && store[speakerIdx.value].Readable? then StoredLatents(store[speakerIdx.value].latents)
    else if speakerIdx.value + ".wav" in dir then SpeakerFile(speakerIdx.value + ".wav")
    else if WavFiles(dir) != [] then SpeakerFile(WavFiles(dir)[0])
    else NoSpeakerFile
  }

  /** The path of a file in `SPEAKERS_DIR`. */
  function SpeakerPath(file: string): string {
    "/app/speakers/" + file
  }

  /** The failures of `synthesize`: the two `ValueError`s of `_get_latents`,
      the `ValueError` of an unparsable break time, and the error
      `torch.zeros` raises for a negative length. */
  datatype EngineError = SpeakerRequired | NoSpeakers | BadBreak(time: string) | NegativeLength(samples: int)

  /** The parameters of one call to `model.inference`. */
  datatype InferenceParams = InferenceParams(
    language: string, temperature: real, repetitionPenalty: real, topK: int, topP: real, speed: real)

  /** The opaque parts: the neural model, the latent extractor, the WAV
      encoder (`torchaudio.save` at 24000 Hz) and running ffmpeg. */
  datatype Backend = Backend(
    inference: (string, InferenceParams, Latents) -> seq<real>,
    conditioning: seq<string> -> Latents,
    encodeWav: seq<real> -> Bytes,
    run: (seq<string>, Bytes) -> RunResult)

  /** The latents `_get_latents` returns, or its error. */
  function LatentResult(src: LatentSource, b: Backend): (r: Result<Latents, EngineError>)
  {
    match src
    case CloneReferences(wavs) => Ok(b.conditioning(wavs))
    case NoSpeakerId => Err(SpeakerRequired)
    case StoredLatents(l) => Ok(l)
    case SpeakerFile(f) => Ok(b.conditioning([SpeakerPath(f)]))
    case NoSpeakerFile => Err(NoSpeakers)
  }

  /** The latent store after `_get_latents`: only an extraction from a
      speaker file writes, and it writes under the requested id, also when
      the file was the fallback. */
  function LatentStoreAfter(store: map<string, LatentFile>, src: LatentSource, speakerIdx: Option<string>,
                            b: Backend): map<string, LatentFile>
  {
    if src.SpeakerFile? && speakerIdx.Some? then store[speakerIdx.value := Readable(LatentResult(src, b).value)]
    else store
  }

  /** Clone references always win and never touch the store; a readable
      stored latent is used without extraction. */
  lemma LatentOrder(store: map<string, LatentFile>, dir: seq<string>, idx: Option<string>, wavs: seq<string>, b: Backend)
    ensures wavs != [] ==>
      var src := LatentSourceOf(store, dir, idx, wavs);
      LatentResult(src, b) == Ok(b.conditioning(wavs)) && LatentStoreAfter(store, src, idx, b) == store
    ensures wavs == [] && idx.Some? && idx.value != [] && idx.value in store && store[idx.value].Readable? ==>
      var src := LatentSourceOf(store, dir, idx, wavs);
      LatentResult(src, b) == Ok(store[idx.value].latents) && LatentStoreAfter(store, src, idx, b) == store
    ensures wavs == [] && (idx.None? || idx.value == []) ==>
      LatentResult(LatentSourceOf(store, dir, idx, wavs), b) == Err(SpeakerRequired)
  {
  }

  /** A speaker with no stored latents and no file of its own gets the first
      `.wav` of the directory, stored under its own id; with no `.wav` at all
      the lookup fails. */
  lemma LatentFallback(store: map<string, LatentFile>, dir: seq<string>, idx: string, b: Backend)
    requires idx != [] && !(idx in store && store[idx].Readable?) && idx + ".wav" !in dir
    ensures var src := LatentSourceOf(store, dir, Some(idx), []);
      if WavFiles(dir) == [] then LatentResult(src, b) == Err(NoSpeakers) && LatentStoreAfter(store, src, Some(idx), b) == store
      else
        && LatentResult(src, b) == Ok(b.conditioning([SpeakerPath(WavFiles(dir)[0])]))
        && LatentStoreAfter(store, src, Some(idx), b) == store[idx := Readable(LatentResult(src, b).value)]
  {
  }

  /** Extraction is done once per speaker: after a store, the next lookup
      of the same id finds the stored latents and extracts nothing. */
  lemma LatentsMemoised(store: map<string, LatentFile>, dir: seq<string>, idx: string, b: Backend)
    requires idx != []
    requires LatentSourceOf(store, dir, Some(idx), []).SpeakerFile?
    ensures var src := LatentSourceOf(store, dir, Some(idx), []);
      var after := LatentStoreAfter(store, src, Some(idx), b);
      LatentSourceOf(after, dir, Some(idx), []) == StoredLatents(LatentResult(src, b).value)
  {
  }

  // -------------------------------------------------------- the waveform

  /** Python's `int(x)`: truncation toward zero. */
  function TruncToInt(x: real): (r: int)
    ensures x >= 0.0 ==> 0 <= r && r as real <= x < r as real + 1.0
    ensures x < 0.0 ==> r <= 0 && r as real - 1.0 < x <= r as real
  {
    if x >= 0.0 then x.Floor else -((-x).Floor)
  }

  /** The number of zero samples a break adds: `int(24000 * duration)`. */
  function BreakLength(duration: real): int {
    TruncToInt(24000.0 * duration)
  }

  /** The parameters `inference` gets for a segment: the request's, with the
      segment's speed and repetition penalty in place of the request's when
      the segment has them. */
  function InferenceParamsOf(p: Params, o: Overlay): InferenceParams {
    InferenceParams(p.language, p.temperature, Lookup(o, PenaltyKey, p.repetitionPenalty),
                    p.topK, p.topP, Lookup(o, SpeedKey, p.speed))
  }

  /** The audio of one segment: inference for text, `int(24000 * d)` zeros
      for a pause, an error when that length is negative. */
  function Piece(s: Segment, p: Params, l: Latents, b: Backend): Result<seq<real>, EngineError> {
    match s
    case TextSeg(content, o) => Ok(b.inference(content, InferenceParamsOf(p, o), l))
    case BreakSeg(d) =>
      var n := BreakLength(d);
      if n < 0 then Err(NegativeLength(n)) else Ok(seq(n, _ => 0.0))
  }

  /** The SSML waveform: the pieces of the segments concatenated in order;
      the first negative pause raises. */
  function Render(segs: seq<Segment>, p: Params, l: Latents, b: Backend): Result<seq<real>, EngineError>
    decreases |segs|
  {
    if segs == [] then Ok([])
    else
      match Render(segs[..|segs| - 1], p, l, b)
      case Err(e) => Err(e)
      case Ok(w) =>
        match Piece(segs[|segs| - 1], p, l, b)
        case Err(e) => Err(e)
        case Ok(x) => Ok(w + x)
  }

  /** Rendering distributes over concatenation: the waveform of `a + c` is
      the waveform of `a` followed by that of `c`, and the first error wins. */
  lemma {:induction false} RenderAppend(a: seq<Segment>, c: seq<Segment>, p: Params, l: Latents, b: Backend)
    ensures Render(a, p, l, b).Err? ==> Render(a + c, p, l, b) == Render(a, p, l, b)
    ensures Render(a, p, l, b).Ok? && Render(c, p, l, b).Err? ==> Render(a + c, p, l, b) == Render(c, p, l, b)
    ensures Render(a, p, l, b).Ok? && Render(c, p, l, b).Ok? ==>
      Render(a + c, p, l, b) == Ok(Render(a, p, l, b).value + Render(c, p, l, b).value)
    decreases |c|
  {
    if c == [] {
      assert a + c == a;
      if Render(a, p, l, b).Ok? {
        assert Render(a, p, l, b).value + [] == Render(a, p, l, b).value;
      }
    } else {
      var c0 := c[..|c| - 1];
      assert (a + c)[..|a + c| - 1] == a + c0;
      assert (a + c)[|a + c| - 1] == c[|c| - 1];
      RenderAppend(a, c0, p, l, b);
      assert c[..|c| - 1] == c0;
      var ra, rc0, last := Render(a, p, l, b), Render(c0, p, l, b), Piece(c[|c| - 1], p, l, b);
      if ra.Ok? && rc0.Ok? && last.Ok? {
        assert ra.value + rc0.value + last.value == ra.value + (rc0.value + last.value);
      }
    }
  }

  /** The waveform fails exactly when some pause has a negative length. */
  lemma {:induction false} RenderFails(segs: seq<Segment>, p: Params, l: Latents, b: Backend)
    ensures Render(segs, p, l, b).Err? <==>
      exists i :: 0 <= i < |segs| && segs[i].BreakSeg? && BreakLength(segs[i].duration) < 0
    decreases |segs|
  {
    if segs != [] {
      var init := segs[..|segs| - 1];
      RenderFails(init, p, l, b);
      if exists i :: 0 <= i < |init| && init[i].BreakSeg? && BreakLength(init[i].duration) < 0 {
        var i :| 0 <= i < |init| && init[i].BreakSeg? && BreakLength(init[i].duration) < 0;
        assert segs[i] == init[i];
      }
      if exists i :: 0 <= i < |segs| && segs[i].BreakSeg? && BreakLength(segs[i].duration) < 0 {
        var i :| 0 <= i < |segs| && segs[i].BreakSeg? && BreakLength(segs[i].duration) < 0;
        if i < |init| {
          assert init[i] == segs[i];
        }
      }
    }
  }

  /** A pause of `d >= 0` seconds is `int(24000 * d)` zeros. */
  lemma PauseIsSilence(d: real, p: Params, l: Latents, b: Backend)
    requires d >= 0.0
    ensures Render([BreakSeg(d)], p, l, b) == Ok(seq(BreakLength(d), _ => 0.0))
    ensures BreakLength(d) as real <= 24000.0 * d < BreakLength(d) as real + 1.0
  {
    assert [BreakSeg(d)][..0] == [];
    var zeros: seq<real> := seq(BreakLength(d), _ => 0.0);
    assert [] + zeros == zeros;
  }

  /** The loop over the segments in `synthesize`: each piece is appended to
      the list of chunks, and the chunks are concatenated. */
  method RenderSegments(segs: seq<Segment>, p: Params, l: Latents, b: Backend)
    returns (res: Result<seq<real>, EngineError>)
    ensures res == Render(segs, p, l, b)
  {
    var wav: seq<real> := [];
    var i := 0;
    while i < |segs|
      invariant 0 <= i <= |segs|
      invariant Render(segs[..i], p, l, b) == Ok(wav)
    {
      assert segs[..i + 1][..i] == segs[..i];
      var s := segs[i];
      if s.TextSeg? {
        wav := wav + b.inference(s.content, InferenceParamsOf(p, s.params), l);
      } else {
        var n := BreakLength(s.duration);
        if n < 0 {
          RenderAppend(segs[..i + 1], segs[i + 1..], p, l, b);
          assert segs[..i + 1] + segs[i + 1..] == segs;
          return Err(NegativeLength(n));
        }
        wav := wav + seq(n, _ => 0.0);
      }
      i := i + 1;
    }
    assert segs[..i] == segs;
    res := Ok(wav);
  }

  // ------------------------------------------------------ engine's ffmpeg

  /** The engine's own filter chain: always the 250 ms delay, then loudness
      normalisation. */
  const EngineFilterChain: string := "adelay=250|250,loudnorm=I=-16:TP=-1.5:LRA=11"

  /** The command `_process_audio` runs. */
  function EngineCommand(format: string, sampleRate: int): seq<string> {
    ["ffmpeg", "-y", "-f", "wav", "-i", "pipe:0"] + ["-af", EngineFilterChain] + FormatArgs(format)
      + ["-ar", IntToString(sampleRate), "pipe:1"]
  }

  /** `_process_audio`: ffmpeg's stdout on exit status 0, the input bytes
      otherwise. */
  function EngineProcessed(wav: Bytes, format: string, sampleRate: int, run: (seq<string>, Bytes) -> RunResult): (out: Bytes)
    ensures out == wav || run(EngineCommand(format, sampleRate), wav) == Exited(0, out)
    ensures run(EngineCommand(format, sampleRate), wav).Exited? && run(EngineCommand(format, sampleRate), wav).code == 0 ==> out == run(EngineCommand(format, sampleRate), wav).stdout
    ensures run(EngineCommand(format, sampleRate), wav).Raised? || run(EngineCommand(format, sampleRate), wav).code != 0 ==> out == wav
  {
    match run(EngineCommand(format, sampleRate), wav)
    case Exited(code, stdout) => if code != 0 then wav else stdout
    case Raised => wav
  }

  /** `_process_audio` as the source runs it. */
  method EngineProcessAudio(wav: Bytes, format: string, sampleRate: int, run: (seq<string>, Bytes) -> RunResult)
    returns (out: Bytes)
    ensures out == EngineProcessed(wav, format, sampleRate, run)
  {
    var cmd := ["ffmpeg", "-y", "-f", "wav", "-i", "pipe:0"];
    cmd := cmd + ["-af", EngineFilterChain];
    if format == "mp3" {
      cmd := cmd + ["-f", "mp3", "-acodec", "libmp3lame", "-b:a", "192k"];
    } else if format == "opus" {
      cmd := cmd + ["-f", "ogg", "-acodec", "libopus", "-b:a", "64k", "-vbr", "on"];
    } else if format == "pcm" {
      cmd := cmd + ["-f", "s16le", "-acodec", "pcm_s16le"];
    } else {
      cmd := cmd + ["-f", "wav", "-acodec", "pcm_s16le"];
    }
    cmd := cmd + ["-ar", IntToString(sampleRate)];
    cmd := cmd + ["pipe:1"];
    assert cmd == EngineCommand(format, sampleRate);
    var result := run(cmd, wav);
    if result.Raised? || result.code != 0 {
      return wav;
    }
    out := result.stdout;
  }

  /** The engine's conversion is the audio processor's with the leading
      silence asked for: the same command line, hence the same output. */
  lemma EngineProcessedAddsSilence(wav: Bytes, format: string, sampleRate: int, run: (seq<string>, Bytes) -> RunResult)
    ensures EngineCommand(format, sampleRate) == Command(format, sampleRate, true)
    ensures EngineProcessed(wav, format, sampleRate, run) == Processed(wav, format, sampleRate, run, true)
  {
    EngineChainIsSilenceChain();
  }

  /** The engine's filter chain is the audio processor's chain with silence. */
  lemma EngineChainIsSilenceChain()
    ensures Join(Filters(true), ",") == EngineFilterChain
  {
    FilterChainText(true);
    assert DelayFilter + "," + LoudnormFilter == EngineFilterChain;
  }

  // ------------------------------------------------------- synthesis

  /** The output of `synthesize` once the latents are known: for SSML the
      rendered segments (a bad break time or a negative pause raises), for
      plain text one inference with the request's parameters; then WAV
      encoding and the ffmpeg pass with the requested format and rate. */
  function Synthesized(text: string, p: Params, l: Latents, b: Backend,
                       parseXml: string -> Option<Element>): Result<Bytes, EngineError>
  {
    var wave :=
      if IsSsmlText(text) then
        match ParsedSsml(text, parseXml)
        case Err(e) => Err(BadBreak(e.time))
        case Ok(segs) => Render(segs, p, l, b)
      else Ok(b.inference(text, InferenceParamsOf(p, map[]), l));
    match wave
    case Err(e) => Err(e)
    case Ok(w) => Ok(EngineProcessed(b.encodeWav(w), p.outputFormat.GetOr("wav"), p.sampleRate.GetOr(DefaultSampleRate), b.run))
  }

  /** The cache key `synthesize` uses: only plain text without clone
      references is looked up and stored. */
  function SynthesisKey(text: string, p: Params, speakerWavs: seq<string>): Option<CacheKey> {
    if !IsSsmlText(text) && speakerWavs == [] then GenerateCacheKey(p) else None
  }

  /** SSML output and clone output never touch the cache. */
  lemma SsmlNeverCached(text: string, p: Params, speakerWavs: seq<string>, store: map<CacheKey, Bytes>, data: Bytes)
    requires IsSsmlText(text) || speakerWavs != []
    ensures Cached(store, SynthesisKey(text, p, speakerWavs)) == None
    ensures Saved(store, SynthesisKey(text, p, speakerWavs), data) == store
  {
  }

  class TTSEngine {
    /** The files under `LATENTS_DIR`, by speaker id. */
    var latentStore: map<string, LatentFile>
    /** The files under `CACHE_DIR`, by key. */
    var cacheStore: map<CacheKey, Bytes>
    /** The file names in `SPEAKERS_DIR`, in listing order. */
    const speakerDir: seq<string>
    const backend: Backend
    const parseXml: string -> Option<Element>

    constructor(backend: Backend, parseXml: string -> Option<Element>, speakerDir: seq<string>,
                latentStore: map<string, LatentFile>, cacheStore: map<CacheKey, Bytes>)
      ensures this.backend == backend && this.parseXml == parseXml && this.speakerDir == speakerDir
      ensures this.latentStore == latentStore && this.cacheStore == cacheStore
    {
      this.backend := backend;
      this.parseXml := parseXml;
      this.speakerDir := speakerDir;
      this.latentStore := latentStore;
      this.cacheStore := cacheStore;
    }

    /** `get_speakers`: the stems of the `.wav` files, in listing order. */
    method GetSpeakers() returns (names: seq<string>)
      ensures names == SpeakerNames(speakerDir)
    {
      names := [];
      var i := 0;
      while i < |speakerDir|
        invariant 0 <= i <= |speakerDir|
        invariant names == SpeakerNames(speakerDir[..i])
      {
        assert speakerDir[..i + 1][..i] == speakerDir[..i];
        var f := speakerDir[i];
        if IsWavFile(f) {
          names := names + [Stem(f)];
        }
        i := i + 1;
      }
      assert speakerDir[..i] == speakerDir;
    }

    /** `refresh_speakers`: every `.wav` file scanned is a success, none
      fails, and the scan count is the number of files. */
    method RefreshSpeakers() returns (report: ScanReport)
      ensures report.success == SpeakerNames(speakerDir) && report.failed == map[]
      ensures report.totalScanned == |WavFiles(speakerDir)| == |report.success|
    {
      var files := WavFiles(speakerDir);
      report := ScanReport([], map[], |files|);
      var i := 0;
      SpeakerNamesOfFiles(speakerDir);
      while i < |files|
        invariant 0 <= i <= |files|
        invariant report == ScanReport(SpeakerNames(speakerDir)[..i], map[], |files|)
      {
        report := report.(success := report.success + [Stem(files[i])]);
        assert SpeakerNames(speakerDir)[..i + 1] == SpeakerNames(speakerDir)[..i] + [SpeakerNames(speakerDir)[i]];
        i := i + 1;
      }
      assert SpeakerNames(speakerDir)[..i] == SpeakerNames(speakerDir);
    }

    /** `_get_latents`: clone references, else the stored latents of the
      speaker, else extraction from `<speaker>.wav` or the first `.wav`,
      whose result is stored under the speaker id. */
    method GetLatents(speakerIdx: Option<string>, speakerWavs: seq<string>) returns (res: Result<Latents, EngineError>)
      modifies this
      ensures var src := LatentSourceOf(old(latentStore), speakerDir, speakerIdx, speakerWavs);
        res == LatentResult(src, backend) && latentStore == LatentStoreAfter(old(latentStore), src, speakerIdx, backend)
      ensures cacheStore == old(cacheStore)
    {
      if speakerWavs != [] {
        return Ok(backend.conditioning(speakerWavs));
      }
      if speakerIdx.None? || speakerIdx.value == [] {
        return Err(SpeakerRequired);
      }
      var idx := speakerIdx.value;
      if idx in latentStore {
        var file := latentStore[idx];
        if file.Readable? {
          return Ok(file.latents);
        }
      }
      var wavFile := idx + ".wav";
      if wavFile !in speakerDir {
        var files := WavFiles(speakerDir);
        if files == [] {
          return Err(NoSpeakers);
        }
        wavFile := files[0];
      }
      var latents := backend.conditioning([SpeakerPath(wavFile)]);
      latentStore := latentStore[idx := Readable(latents)];
      res := Ok(latents);
    }

    /** `_check_cache`. */
    method CheckCache(key: Option<CacheKey>) returns (data: Option<Bytes>)
      ensures data == Cached(cacheStore, key)
    {
      if key.None? {
        return None;
      }
      if key.value in cacheStore {
        return Some(cacheStore[key.value]);
      }
      return None;
    }

    /** `_save_cache`. */
    method SaveCache(key: Option<CacheKey>, data: Bytes)
      modifies this
      ensures cacheStore == Saved(old(cacheStore), key, data) && latentStore == old(latentStore)
    {
      if key.None? {
        return;
      }
      cacheStore := cacheStore[key.value := data];
    }

    /** `synthesize(params, speaker_wavs)`: nothing for a blank text; the
      cached bytes, without inference, for plain text whose key has a
      non-empty entry; otherwise the latents are resolved, the audio is
      produced, and for plain text without clone references it is stored
      under its key. */
    method Synthesize(p: Params, speakerWavs: seq<string>) returns (res: Result<Bytes, EngineError>)
      modifies this
      ensures var text := NormalizeText(p.text);
        var key := SynthesisKey(text, p, speakerWavs);
        var hit := Cached(old(cacheStore), key);
        if text == [] || (hit.Some? && hit.value != []) then
          && res == (if text == [] then Ok([]) else Ok(hit.value))
          && latentStore == old(latentStore) && cacheStore == old(cacheStore)
        else
          var src := LatentSourceOf(old(latentStore), speakerDir, p.speakerIdx, speakerWavs);
          && latentStore == LatentStoreAfter(old(latentStore), src, p.speakerIdx, backend)
          && res == (match LatentResult(src, backend)
                     case Err(e) => Err(e)
                     case Ok(l) => Synthesized(text, p, l, backend, parseXml))
          && cacheStore == (if res.Ok? then Saved(old(cacheStore), key, res.value) else old(cacheStore))
    {
      var text := NormalizeText(p.text);
      if text == [] {
        return Ok([]);
      }
      var isSsml := IsSsmlText(text);
      var key: Option<CacheKey> := None;
      if !isSsml && speakerWavs == [] {
        key := GenerateCacheKey(p);
        var cached := CheckCache(key);
        if cached.Some? && cached.value != [] {
          return Ok(cached.value);
        }
      }
      var latents := GetLatents(p.speakerIdx, speakerWavs);
      if latents.Err? {
        return Err(latents.error);
      }
      var produced := Produce(text, p, latents.value);
      if produced.Err? {
        return produced;
      }
      if !isSsml && key.Some? {
        SaveCache(key, produced.value);
      }
      res := produced;
    }

    /** The locked part of `synthesize` once the latents are known, and the
      encoding and ffmpeg pass after it. */
    method Produce(text: string, p: Params, l: Latents) returns (res: Result<Bytes, EngineError>)
      ensures res == Synthesized(text, p, l, backend, parseXml)
    {
      var wav: seq<real>;
      if IsSsmlText(text) {
        var segs := ParseSsml(text, parseXml);
        if segs.Err? {
          return Err(BadBreak(segs.error.time));
        }
        var rendered := RenderSegments(segs.value, p, l, backend);
        if rendered.Err? {
          return Err(rendered.error);
        }
        wav := rendered.value;
      } else {
        wav := backend.inference(text, InferenceParamsOf(p, map[]), l);
      }
      var wavData := backend.encodeWav(wav);
      var out := EngineProcessAudio(wavData, p.outputFormat.GetOr("wav"), p.sampleRate.GetOr(DefaultSampleRate), backend.run);
      res := Ok(out);
    }
  }
}
