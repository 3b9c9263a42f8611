/** `AudioProcessor.process_audio` (app/core/audio.py): the ffmpeg command
    line it builds (input from stdin as WAV, an audio filter chain, the
    output container and codec of the requested format, the output sample
    rate, output to stdout) and the rule that any failure returns the input
    unchanged. Running ffmpeg is the parameter `run`. */
module Audio {
  import opened Wrappers
  import opened TextOps

  type Bytes = seq<bv8>

  /** How the subprocess ended: its exit status and standard output, or an
      exception raised while starting or feeding it. */
  datatype RunResult = Exited(code: int, stdout: Bytes) | Raised

  /** The fixed head of every command: overwrite, read WAV from stdin. */
  const InputArgs: seq<string> := ["ffmpeg", "-y", "-f", "wav", "-i", "pipe:0"]

  /** 250 ms of leading silence on both channels. */
  const DelayFilter: string := "adelay=250|250"

  /** EBU R128 loudness normalisation. */
  const LoudnormFilter: string := "loudnorm=I=-16:TP=-1.5:LRA=11"

  /** The filters in the order they are applied: the delay only when silence
      is asked for, then loudness normalisation, always last. */
  function Filters(addSilence: bool): (fs: seq<string>)
    ensures fs != [] && fs[|fs| - 1] == LoudnormFilter
    ensures DelayFilter in fs <==> addSilence
    ensures addSilence ==> fs[0] == DelayFilter
  {
    (if addSilence then [DelayFilter] else []) + [LoudnormFilter]
  }

  /** Output container, codec and bit rate of each format; any format other
      than mp3, opus and pcm gets WAV. */
  function FormatArgs(format: string): seq<string> {
    if format == "mp3" then ["-f", "mp3", "-acodec", "libmp3lame", "-b:a", "192k"]
    else if format == "opus" then ["-f", "ogg", "-acodec", "libopus", "-b:a", "64k", "-vbr", "on"]
    else if format == "pcm" then ["-f", "s16le", "-acodec", "pcm_s16le"]
    else ["-f", "wav", "-acodec", "pcm_s16le"]
  }

  /** The container ffmpeg writes for a format. */
  function Container(format: string): string {
    if format == "mp3" then "mp3" else if format == "opus" then "ogg" else if format == "pcm" then "s16le" else "wav"
  }

  /** The command `process_audio` runs. */
  function Command(format: string, sampleRate: int, addSilence: bool := false): seq<string> {
    InputArgs + ["-af", Join(Filters(addSilence), ",")] + FormatArgs(format) + ["-ar", IntToString(sampleRate), "pipe:1"]
  }

  /** The command list, built step by step as the source builds it. */
  method BuildCommand(format: string, sampleRate: int, addSilence: bool := false) returns (cmd: seq<string>)
    ensures cmd == Command(format, sampleRate, addSilence)
  {
    cmd := ["ffmpeg", "-y", "-f", "wav", "-i", "pipe:0"];
    var filters: seq<string> := [];
    if addSilence {
      filters := filters + [DelayFilter];
    }
    filters := filters + [LoudnormFilter];
    cmd := cmd + ["-af", Join(filters, ",")];
    if format == "mp3" {
      cmd := cmd + ["-f", "mp3", "-acodec", "libmp3lame", "-b:a", "192k"];
    } else if format == "opus" {
      cmd := cmd + ["-f", "ogg", "-acodec", "libopus", "-b:a", "64k", "-vbr", "on"];
    } else if format == "pcm" {
      cmd := cmd + ["-f", "s16le", "-acodec", "pcm_s16le"];
    } else {
      cmd := cmd + ["-f", "wav", "-acodec", "pcm_s16le"];
    }
    cmd := cmd + ["-ar", IntToString(sampleRate)];
    cmd := cmd + ["pipe:1"];
  }

  /** The filter chain: `adelay=250|250,loudnorm=…` with silence, the
      loudness filter alone without. */
  lemma FilterChainText(addSilence: bool)
    ensures Join(Filters(addSilence), ",") ==
      if addSilence then DelayFilter + "," + LoudnormFilter else LoudnormFilter
  {
  }

  /** Every command reads WAV from stdin first, passes the filter chain
      right after, writes the container of the format, resamples to a rate
      that reads back as `sampleRate`, and writes to stdout last. */
  lemma CommandShape(format: string, sampleRate: int, addSilence: bool)
    ensures var cmd := Command(format, sampleRate, addSilence);
      && |cmd| >= 13
      && cmd[..6] == InputArgs
      && cmd[6] == "-af" && cmd[7] == Join(Filters(addSilence), ",")
      && cmd[8] == "-f" && cmd[9] == Container(format)
      && cmd[|cmd| - 3] == "-ar" && ParseInt(cmd[|cmd| - 2]) == Some(sampleRate)
      && cmd[|cmd| - 1] == "pipe:1"
  {
    var cmd := Command(format, sampleRate, addSilence);
    IntToStringRoundTrip(sampleRate);
    assert cmd[|cmd| - 2] == IntToString(sampleRate);
  }

  /** `process_audio`: ffmpeg's stdout when it exits with status 0, the
      input bytes unchanged when it exits otherwise or raises. */
  function Processed(wav: Bytes, format: string, sampleRate: int,
                     run: (seq<string>, Bytes) -> RunResult, addSilence: bool := false): (out: Bytes)
    ensures out == wav || run(Command(format, sampleRate, addSilence), wav) == Exited(0, out)
    ensures run(Command(format, sampleRate, addSilence), wav).Exited? && run(Command(format, sampleRate, addSilence), wav).code == 0 ==> out == run(Command(format, sampleRate, addSilence), wav).stdout
    ensures run(Command(format, sampleRate, addSilence), wav).Raised? || run(Command(format, sampleRate, addSilence), wav).code != 0 ==> out == wav
  {
    match run(Command(format, sampleRate, addSilence), wav)
    case Exited(code, stdout) => if code != 0 then wav else stdout
    case Raised => wav
  }

  /** `process_audio` as the source runs it. */
  method ProcessAudio(wav: Bytes, format: string, sampleRate: int,
                      run: (seq<string>, Bytes) -> RunResult, addSilence: bool := false)
    returns (out: Bytes)
    ensures out == Processed(wav, format, sampleRate, run, addSilence)
  {
    var cmd := BuildCommand(format, sampleRate, addSilence);
    var result := run(cmd, wav);
    if result.Raised? {
      return wav;
    }
    if result.code != 0 {
      return wav;
    }
    out := result.stdout;
  }
}
