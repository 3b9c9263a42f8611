/** The client side of a streamed request (static/js/main.js,
    `handleGenerate`): the checks made before a request is sent, the loop
    that re-frames the byte chunks of the response into whole 16-bit
    samples, carrying an odd byte over to the next chunk, and the
    conversion of each usable slice from little-endian Int16 to floats in
    [-1, 1]. The chunks `reader.read()` yields are the parameter `chunks`;
    each call of `playChunk` is one entry of the returned `played`. */
module StreamClient {
  import opened Wrappers
  import opened TextOps

  /** A byte of a `Uint8Array`. */
  type Byte = b: int | 0 <= b < 256

  type Bytes = seq<Byte>

  // ------------------------------------------------- checks before sending

  /** The characters `String.prototype.trim` removes: the ECMAScript white
      space and line terminators. */
  predicate IsJsSpace(c: char) {
    || ('\t' <= c <= '\r') || c == ' ' || c == '\U{A0}' || c == '\U{1680}'
    || ('\U{2000}' <= c <= '\U{200A}')
    || c == '\U{2028}' || c == '\U{2029}' || c == '\U{202F}' || c == '\U{205F}'
    || c == '\U{3000}' || c == '\U{FEFF}'
  }

  /** `String.prototype.trim`. */
  function JsTrim(s: string): string
    decreases |s|
  {
    if s != [] && IsJsSpace(s[0]) then JsTrim(s[1..])
    else if s != [] && IsJsSpace(s[|s| - 1]) then JsTrim(s[..|s| - 1])
    else s
  }

  /** Trimming leaves nothing exactly when every character is white space,
      and otherwise leaves no white space at either end. */
  lemma {:induction false} JsTrimSpec(s: string)
    ensures JsTrim(s) == [] <==> forall i :: 0 <= i < |s| ==> IsJsSpace(s[i])
    ensures JsTrim(s) != [] ==> !IsJsSpace(JsTrim(s)[0]) && !IsJsSpace(JsTrim(s)[|JsTrim(s)| - 1])
    decreases |s|
  {
    if s != [] && IsJsSpace(s[0]) {
      JsTrimSpec(s[1..]);
      assert forall i :: 1 <= i < |s| ==> s[i] == s[1..][i - 1];
    } else if s != [] && IsJsSpace(s[|s| - 1]) {
      JsTrimSpec(s[..|s| - 1]);
      assert forall i :: 0 <= i < |s| - 1 ==> s[i] == s[..|s| - 1][i];
    }
  }

  const SpeakTag: string := "<speak>"

  /** What `handleGenerate` does when the button is pressed. */
  datatype Action =
    | StopPlayback                  // already playing: the press stops it
    | RejectEmpty                   // "Please enter text to synthesize."
    | RejectSsmlStream              // "SSML is not supported in Streaming mode."
    | Send(text: string)            // the request goes out with the trimmed text

  /** The checks before any request: a press while playing stops playback;
      then a text that trims to nothing is refused; then a trimmed text that
      starts with `<speak>` is refused in stream mode. */
  function PreRequest(isPlaying: bool, input: string, isStream: bool): (a: Action)
    ensures a.Send? ==> !isPlaying && a.text == JsTrim(input) && a.text != []
    ensures a.Send? ==> !(isStream && StartsWith(a.text, SpeakTag))
  {
    if isPlaying then StopPlayback
    else
      var text := JsTrim(input);
      if text == [] then RejectEmpty
      else if StartsWith(text, SpeakTag) && isStream then RejectSsmlStream
      else Send(text)
  }

  /** When not playing: a text that is all white space is refused, and SSML
      is refused in stream mode only when the trimmed text starts with
      `<speak>`. */
  lemma PreRequestRejects(input: string, isStream: bool)
    ensures PreRequest(false, input, isStream) == RejectEmpty <==> forall i :: 0 <= i < |input| ==> IsJsSpace(input[i])
    ensures PreRequest(false, input, isStream) == RejectSsmlStream <==>
      JsTrim(input) != [] && StartsWith(JsTrim(input), SpeakTag) && isStream
    ensures !isStream && JsTrim(input) != [] ==> PreRequest(false, input, isStream) == Send(JsTrim(input))
  {
    JsTrimSpec(input);
  }

  /** A break tag without `<speak>` first is not caught: it is sent in
      stream mode. */
  lemma BreakWithoutSpeakIsSent()
    ensures PreRequest(false, "<break time=\"1s\"/>", true) == Send("<break time=\"1s\"/>")
  {
    var t := "<break time=\"1s\"/>";
    assert !IsJsSpace(t[0]) && !IsJsSpace(t[|t| - 1]);
    assert t[..7] != SpeakTag by { assert t[1] != SpeakTag[1]; }
  }

  // --------------------------------------------------- Int16 to float

  /** The Int16 made of two bytes. `Int16Array` reads in the platform's byte
      order, taken here to be little-endian. */
  function Int16Of(lo: Byte, hi: Byte): (v: int)
    ensures -32768 <= v <= 32767
  {
    var u := lo + 256 * hi;
    if u >= 32768 then u - 65536 else u
  }

  /** The two little-endian bytes of an Int16. */
  function BytesOf(v: int): (bs: (Byte, Byte))
    requires -32768 <= v <= 32767
  {
    var u := if v < 0 then v + 65536 else v;
    (u % 256, u / 256)
  }

  /** Every sample is decoded from the bytes that encode it. */
  lemma Int16RoundTrip(v: int)
    requires -32768 <= v <= 32767
    ensures Int16Of(BytesOf(v).0, BytesOf(v).1) == v
  {
  }

  /** The `i`-th sample of a byte slice. */
  function SampleAt(s: Bytes, i: nat): int
    requires 2 * i + 1 < |s|
  {
    Int16Of(s[2 * i], s[2 * i + 1])
  }

  /** A sample as a float: non-negative values divided by 32767, negative
      ones by 32768. */
  function ToFloat(v: int): (f: real)
    requires -32768 <= v <= 32767
    ensures -1.0 <= f <= 1.0
    ensures f >= 0.0 <==> v >= 0
  {
    if v >= 0 then v as real / 32767.0 else v as real / 32768.0
  }

  /** The conversion is strictly increasing, so distinct samples give
      distinct floats, and only the extremes reach -1 and 1. */
  lemma ToFloatMonotone(v: int, w: int)
    requires -32768 <= v < w <= 32767
    ensures ToFloat(v) < ToFloat(w)
  {
  }

  lemma ToFloatExtremes(v: int)
    requires -32768 <= v <= 32767
    ensures ToFloat(v) == 1.0 <==> v == 32767
    ensures ToFloat(v) == -1.0 <==> v == -32768
  {
  }

  /** The floats of a slice: one per whole pair of bytes. */
  function Floats(s: Bytes): (fs: seq<real>)
    ensures |fs| == |s| / 2
    ensures forall i :: 0 <= i < |fs| ==> -1.0 <= fs[i] <= 1.0
  {
    seq(|s| / 2, i requires 0 <= i < |s| / 2 => ToFloat(SampleAt(s, i)))
  }

  /** The `for` loop that fills `float32Data` from the Int16 view of a slice. */
  method ToFloat32(usable: Bytes) returns (out: array<real>)
    ensures out[..] == Floats(usable)
  {
    out := new real[|usable| / 2];
    var i := 0;
    while i < out.Length
      invariant 0 <= i <= out.Length
      invariant forall k :: 0 <= k < i ==> out[k] == ToFloat(SampleAt(usable, k))
    {
      var v := SampleAt(usable, i);
      out[i] := if v >= 0 then v as real / 32767.0 else v as real / 32768.0;
      i := i + 1;
    }
  }

  // ------------------------------------------------------ re-framing

  /** All the bytes of a list of chunks, in order. */
  function Flatten(chunks: seq<Bytes>): Bytes {
    if chunks == [] then [] else Flatten(chunks[..|chunks| - 1]) + chunks[|chunks| - 1]
  }

  lemma FlattenSnoc(chunks: seq<Bytes>, c: Bytes)
    ensures Flatten(chunks + [c]) == Flatten(chunks) + c
  {
    assert (chunks + [c])[..|chunks|] == chunks;
  }

  /** The result of the read loop: the usable slices handed on, the floats
      each `playChunk` call received, the byte still carried over when the
      stream ended, and the read at which the latency was taken and the
      status set to "STREAMING". */
  datatype StreamResult = StreamResult(slices: seq<Bytes>, played: seq<seq<real>>, leftover: Bytes, firstAt: Option<nat>)

  /** One read: the carried bytes and the new chunk are split into the
      longest even prefix and at most one byte to carry. */
  lemma ReadStep(before: Bytes, leftover: Bytes, value: Bytes, usable: Bytes, next: Bytes)
    requires |leftover| == |before| % 2
    requires usable + next == leftover + value
    requires |usable| == |leftover + value| - |leftover + value| % 2
    ensures |next| == |before + value| % 2 <= 1
    ensures |usable| % 2 == 0
    ensures |usable| > 0 ==> |before + value| >= 2
    ensures |usable| == 0 ==> |before + value| < 2 || |before| >= 2
  {
  }

  /** Splitting the carried bytes and the chunk anew keeps every byte, in
      order. */
  lemma ConserveStep(played: Bytes, leftover: Bytes, value: Bytes, usable: Bytes, next: Bytes)
    requires usable + next == leftover + value
    ensures (played + usable) + next == (played + leftover) + value
  {
    calc {
      (played + usable) + next;
      played + (usable + next);
      played + (leftover + value);
      (played + leftover) + value;
    }
  }

  /** Steps 1 to 4 of a read: the carried bytes and the new chunk joined,
      then cut into the longest even prefix and the byte to carry. */
  method Split(leftover: Bytes, value: Bytes) returns (usable: Bytes, next: Bytes)
    ensures usable + next == leftover + value
    ensures |usable| == |leftover + value| - |leftover + value| % 2
  {
    var combined := leftover + value;
    var remainder := |combined| % 2;
    var usableLength := |combined| - remainder;
    usable := combined[..usableLength];
    next := combined[usableLength..];
    assert usable + next == combined;
  }

  /** After the first `i` reads every byte read is in a slice handed on or
      in the carried bytes, in order, and at most one byte is carried. */
  predicate Conserved(chunks: seq<Bytes>, i: nat, r: StreamResult)
    requires i <= |chunks|
  {
    && Flatten(r.slices) + r.leftover == Flatten(chunks[..i])
    && |r.leftover| == |Flatten(chunks[..i])| % 2
  }

  /** Every slice is a non-empty run of whole samples, played as its
      floats. */
  predicate WholeSamples(r: StreamResult) {
    && (forall k :: 0 <= k < |r.slices| ==> |r.slices[k]| > 0 && |r.slices[k]| % 2 == 0)
    && |r.played| == |r.slices| && (forall k :: 0 <= k < |r.slices| ==> r.played[k] == Floats(r.slices[k]))
  }

  /** The latency was taken at the first read after which two bytes had
      arrived, if any. */
  predicate FirstRead(chunks: seq<Bytes>, i: nat, r: StreamResult)
    requires i <= |chunks|
  {
    && (r.firstAt.Some? <==> r.slices != [])
    && (r.firstAt.None? ==> |Flatten(chunks[..i])| < 2)
    && (r.firstAt.Some? ==>
          r.firstAt.value < i && |Flatten(chunks[..r.firstAt.value])| < 2 <= |Flatten(chunks[..r.firstAt.value + 1])|)
  }

  /** What holds after the first `i` reads. */
  predicate Framed(chunks: seq<Bytes>, i: nat, r: StreamResult)
    requires i <= |chunks|
  {
    Conserved(chunks, i, r) && WholeSamples(r) && FirstRead(chunks, i, r)
  }

  /** The state after one more read that yields `usable` and carries `next`. */
  function AfterRead(r: StreamResult, i: nat, usable: Bytes, next: Bytes): StreamResult {
    if |usable| > 0 then
      StreamResult(r.slices + [usable], r.played + [Floats(usable)], next, if r.firstAt.None? then Some(i) else r.firstAt)
    else r.(leftover := next)
  }

  lemma ConservedStep(chunks: seq<Bytes>, i: nat, r: StreamResult, usable: Bytes, next: Bytes)
    requires i < |chunks| && Conserved(chunks, i, r)
    requires usable + next == r.leftover + chunks[i]
    requires |usable| == |r.leftover + chunks[i]| - |r.leftover + chunks[i]| % 2
    ensures Conserved(chunks, i + 1, AfterRead(r, i, usable, next))
  {
    var value := chunks[i];
    assert chunks[..i + 1] == chunks[..i] + [value];
    FlattenSnoc(chunks[..i], value);
    ReadStep(Flatten(chunks[..i]), r.leftover, value, usable, next);
    ConserveStep(Flatten(r.slices), r.leftover, value, usable, next);
    if |usable| > 0 {
      FlattenSnoc(r.slices, usable);
    } else {
      assert Flatten(r.slices) + usable == Flatten(r.slices);
    }
  }

  lemma WholeSamplesStep(r: StreamResult, i: nat, usable: Bytes, next: Bytes)
    requires WholeSamples(r) && |usable| % 2 == 0
    ensures WholeSamples(AfterRead(r, i, usable, next))
  {
  }

  lemma FirstReadStep(chunks: seq<Bytes>, i: nat, r: StreamResult, usable: Bytes, next: Bytes)
    requires i < |chunks| && FirstRead(chunks, i, r) && Conserved(chunks, i, r)
    requires usable + next == r.leftover + chunks[i]
    requires |usable| == |r.leftover + chunks[i]| - |r.leftover + chunks[i]| % 2
    ensures FirstRead(chunks, i + 1, AfterRead(r, i, usable, next))
  {
    var value := chunks[i];
    assert chunks[..i + 1] == chunks[..i] + [value];
    FlattenSnoc(chunks[..i], value);
    ReadStep(Flatten(chunks[..i]), r.leftover, value, usable, next);
  }

  /** One read keeps `Framed`. */
  lemma FramedStep(chunks: seq<Bytes>, i: nat, r: StreamResult, usable: Bytes, next: Bytes)
    requires i < |chunks| && Framed(chunks, i, r)
    requires usable + next == r.leftover + chunks[i]
    requires |usable| == |r.leftover + chunks[i]| - |r.leftover + chunks[i]| % 2
    ensures Framed(chunks, i + 1, AfterRead(r, i, usable, next))
  {
    ConservedStep(chunks, i, r, usable, next);
    ReadStep(Flatten(chunks[..i]), r.leftover, chunks[i], usable, next);
    WholeSamplesStep(r, i, usable, next);
    FirstReadStep(chunks, i, r, usable, next);
  }

  /** `Framed` after the last read, stated over the whole stream. */
  lemma FramedAll(chunks: seq<Bytes>, r: StreamResult)
    requires Framed(chunks, |chunks|, r)
    ensures Flatten(r.slices) + r.leftover == Flatten(chunks)
    ensures |r.leftover| == |Flatten(chunks)| % 2
    ensures forall k :: 0 <= k < |r.slices| ==> |r.slices[k]| > 0 && |r.slices[k]| % 2 == 0
    ensures |r.played| == |r.slices| && forall k :: 0 <= k < |r.slices| ==> r.played[k] == Floats(r.slices[k])
    ensures r.firstAt.Some? <==> r.slices != []
    ensures r.firstAt.Some? ==>
      (r.firstAt.value < |chunks| && |Flatten(chunks[..r.firstAt.value])| < 2 <= |Flatten(chunks[..r.firstAt.value + 1])|)
  {
    assert chunks[..|chunks|] == chunks;
  }

  /** The read loop of a streamed response: when the stream is done, every
      read has been re-framed as `Framed` says (`FramedAll` spells it out
      for the whole stream). */
  method Reframe(chunks: seq<Bytes>) returns (r: StreamResult)
    ensures Framed(chunks, |chunks|, r)
  {
    r := StreamResult([], [], [], None);
    var i := 0;
    while i < |chunks|
      invariant 0 <= i <= |chunks|
      invariant Framed(chunks, i, r)
    {
      var usable, next := Split(r.leftover, chunks[i]);
      FramedStep(chunks, i, r, usable, next);
      if |usable| > 0 {
        var floats := ToFloat32(usable);
        r := StreamResult(r.slices + [usable], r.played + [floats[..]], next, if r.firstAt.None? then Some(i) else r.firstAt);
      } else {
        r := r.(leftover := next);
      }
      i := i + 1;
    }
  }

  /** Everything but a final odd byte is played: the slices hold the whole
      stream's even-length prefix. */
  lemma ReframeDropsOnlyOddByte(chunks: seq<Bytes>, r: StreamResult)
    requires Flatten(r.slices) + r.leftover == Flatten(chunks)
    requires |r.leftover| == |Flatten(chunks)| % 2
    ensures Flatten(r.slices) == Flatten(chunks)[..|Flatten(chunks)| - |Flatten(chunks)| % 2]
    ensures |r.leftover| <= 1
  {
    assert Flatten(chunks)[..|Flatten(r.slices)|] == Flatten(r.slices);
  }

  /** A sample split across two chunks is decoded whole: one byte per chunk
      gives one sample, handed on once the second byte arrives, at the
      second read. */
  lemma SplitSampleExample(lo: Byte, hi: Byte, r: StreamResult)
    requires Framed([[lo], [hi]], 2, r)
    ensures r.slices == [[lo, hi]] && r.leftover == [] && r.firstAt == Some(1)
  {
    var chunks: seq<Bytes> := [[lo], [hi]];
    FramedAll(chunks, r);
    assert chunks[..1] == [[lo]] && chunks[..2] == chunks;
    assert [[lo]][..0] == [];
    assert Flatten([[lo]]) == [lo];
    assert Flatten(chunks) == [lo, hi];
    FlattenLength(r.slices);
    assert |r.slices| == 1;
    assert r.slices[..0] == [];
    assert Flatten(r.slices) == r.slices[0];
    assert |r.leftover| == 0;
    assert r.slices[0] == [lo, hi];
    assert r.slices == [r.slices[0]];
    assert chunks[..0] == [];
    assert |Flatten(chunks[..1])| == 1;
  }

  /** With every slice non-empty and even, n slices hold at least 2n bytes. */
  lemma {:induction false} FlattenLength(slices: seq<Bytes>)
    requires forall k :: 0 <= k < |slices| ==> |slices[k]| > 0 && |slices[k]| % 2 == 0
    ensures |Flatten(slices)| >= 2 * |slices|
    decreases |slices|
  {
    if slices != [] {
      FlattenLength(slices[..|slices| - 1]);
    }
  }
}
