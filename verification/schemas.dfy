/** The request model `TTSRequest` (app/api/schemas.py): the constraints
    on the fields of a `/generate` body and the defaults of the fields a
    body leaves out. Validation reports every failing field at once, in
    the order the fields are declared. */
module Schemas {
  import opened Wrappers

  /** The sixteen language codes the `language` pattern admits. */
  const Languages: seq<string> :=
    ["en", "es", "fr", "de", "it", "pt", "pl", "tr", "ru", "nl", "cs", "ar", "zh", "ja", "hu", "ko"]

  /** The four output formats the `output_format` pattern admits. */
  const Formats: seq<string> := ["wav", "mp3", "opus", "pcm"]

  const MinTextLength: nat := 2
  const MaxTextLength: nat := 5000

  /** A request body as sent: any field may be missing. `speakerIdx` is
      `Some(None)` for an explicit null. */
  datatype RequestBody = RequestBody(
    text: Option<string>,
    language: Option<string>,
    speakerIdx: Option<Option<string>>,
    temperature: Option<real>,
    speed: Option<real>,
    topK: Option<int>,
    topP: Option<real>,
    repetitionPenalty: Option<real>,
    stream: Option<bool>,
    outputFormat: Option<string>,
    splitSentences: Option<bool>)

  /** A validated request, every field present. There is no sample-rate
      field. */
  datatype TTSRequest = TTSRequest(
    text: string,
    language: string,
    speakerIdx: Option<string>,
    temperature: real,
    speed: real,
    topK: int,
    topP: real,
    repetitionPenalty: real,
    stream: bool,
    outputFormat: string,
    splitSentences: bool)

  datatype FieldError = MissingText | TextTooShort(length: nat) | TextTooLong(length: nat) | BadLanguage(value: string) | BadFormat(value: string)

  /** The problems of the text field, if any. */
  function TextErrors(text: Option<string>): (es: seq<FieldError>)
    ensures es == [] <==> text.Some? && MinTextLength <= |text.value| <= MaxTextLength
    ensures |es| <= 1
  {
    match text
    case None => [MissingText]
    case Some(t) =>
      if |t| < MinTextLength then [TextTooShort(|t|)]
      else if |t| > MaxTextLength then [TextTooLong(|t|)]
      else []
  }

  /** Every problem of a body, in field order: text, language, format. */
  function Errors(b: RequestBody): (es: seq<FieldError>)
    ensures es == [] <==>
      && b.text.Some? && MinTextLength <= |b.text.value| <= MaxTextLength
      && b.language.GetOr("tr") in Languages
      && b.outputFormat.GetOr("wav") in Formats
  {
    TextErrors(b.text)
      + (if b.language.Some? && b.language.value !in Languages then [BadLanguage(b.language.value)] else [])
      + (if b.outputFormat.Some? && b.outputFormat.value !in Formats then [BadFormat(b.outputFormat.value)] else [])
  }

  /** The body with every missing field given its default: language "tr",
      speaker "Ana Florence", temperature 0.75, speed 1.0, top_k 50,
      top_p 0.85, repetition penalty 2.0, no streaming, format "wav",
      sentence splitting on. */
  function WithDefaults(b: RequestBody, text: string): TTSRequest {
    TTSRequest(
      text,
      b.language.GetOr("tr"),
      b.speakerIdx.GetOr(Some("Ana Florence")),
      b.temperature.GetOr(0.75),
      b.speed.GetOr(1.0),
      b.topK.GetOr(50),
      b.topP.GetOr(0.85),
      b.repetitionPenalty.GetOr(2.0),
      b.stream.GetOr(false),
      b.outputFormat.GetOr("wav"),
      b.splitSentences.GetOr(true))
  }

  /** Building a `TTSRequest`: the request with defaults when nothing is
      wrong, otherwise every problem found. An accepted request always has
      a text of 2 to 5000 characters, a listed language and a listed
      format, and keeps every field the body gave. */
  function Validate(b: RequestBody): (r: Result<TTSRequest, seq<FieldError>>)
    ensures r.Ok? <==> Errors(b) == []
    ensures r.Ok? ==>
      && MinTextLength <= |r.value.text| <= MaxTextLength
      && r.value.language in Languages && r.value.outputFormat in Formats
      && Some(r.value.text) == b.text
    ensures r.Err? ==> r.error == Errors(b) && r.error != []
  {
    if Errors(b) == [] then Ok(WithDefaults(b, b.text.value)) else Err(Errors(b))
  }

  /** A body that gives a field gets that value; one that leaves it out
      gets the default. */
  lemma ValidateKeepsGivenFields(b: RequestBody)
    requires Validate(b).Ok?
    ensures var r := Validate(b).value;
      && Some(r.text) == b.text
      && (b.language.Some? ==> r.language == b.language.value)
      && (b.language.None? ==> r.language == "tr")
      && (b.speakerIdx.Some? ==> r.speakerIdx == b.speakerIdx.value)
      && (b.speakerIdx.None? ==> r.speakerIdx == Some("Ana Florence"))
      && (b.temperature.Some? ==> r.temperature == b.temperature.value)
      && (b.temperature.None? ==> r.temperature == 0.75)
      && (b.speed.Some? ==> r.speed == b.speed.value)
      && (b.speed.None? ==> r.speed == 1.0)
      && (b.topK.Some? ==> r.topK == b.topK.value)
      && (b.topK.None? ==> r.topK == 50)
      && (b.topP.Some? ==> r.topP == b.topP.value)
      && (b.topP.None? ==> r.topP == 0.85)
      && (b.repetitionPenalty.Some? ==> r.repetitionPenalty == b.repetitionPenalty.value)
      && (b.repetitionPenalty.None? ==> r.repetitionPenalty == 2.0)
      && (b.stream.Some? ==> r.stream == b.stream.value)
      && (b.stream.None? ==> !r.stream)
      && (b.outputFormat.Some? ==> r.outputFormat == b.outputFormat.value)
      && (b.outputFormat.None? ==> r.outputFormat == "wav")
      && (b.splitSentences.Some? ==> r.splitSentences == b.splitSentences.value)
      && (b.splitSentences.None? ==> r.splitSentences)
  {
  }

  /** A body with only a text of acceptable length is accepted with every
      default. */
  lemma TextOnlyDefaults(text: string)
    requires MinTextLength <= |text| <= MaxTextLength
    ensures Validate(RequestBody(Some(text), None, None, None, None, None, None, None, None, None, None))
      == Ok(TTSRequest(text, "tr", Some("Ana Florence"), 0.75, 1.0, 50, 0.85, 2.0, false, "wav", true))
  {
  }

  /** A one-character text and a 5001-character text are both refused. */
  lemma TextBounds(t: string)
    requires |t| == 1 || |t| == 5001
    ensures Validate(RequestBody(Some(t), None, None, None, None, None, None, None, None, None, None)).Err?
    ensures TextErrors(Some(t)) == if |t| == 1 then [TextTooShort(1)] else [TextTooLong(5001)]
  {
  }

  /** Automatic language detection is not a language: "auto" is refused. */
  lemma AutoLanguageRejected(b: RequestBody)
    requires b.language == Some("auto")
    ensures Validate(b).Err? && BadLanguage("auto") in Validate(b).error
  {
    assert "auto" !in Languages;
  }

  /** An executable is not an output format: "exe" is refused. */
  lemma ExeFormatRejected(b: RequestBody)
    requires b.outputFormat == Some("exe")
    ensures Validate(b).Err? && BadFormat("exe") in Validate(b).error
  {
    assert "exe" !in Formats;
  }

  /** Every problem is reported, not only the first: a short text, an
      unknown language and an unknown format give three errors. */
  lemma AllErrorsReported(b: RequestBody)
    requires b.text == Some("a") && b.language == Some("auto") && b.outputFormat == Some("exe")
    ensures Validate(b) == Err([TextTooShort(1), BadLanguage("auto"), BadFormat("exe")])
  {
    assert "auto" !in Languages;
    assert "exe" !in Formats;
    assert TextErrors(b.text) == [TextTooShort(1)];
    assert Errors(b) == [TextTooShort(1)] + [BadLanguage("auto")] + [BadFormat("exe")];
    assert [TextTooShort(1)] + [BadLanguage("auto")] + [BadFormat("exe")]
      == [TextTooShort(1), BadLanguage("auto"), BadFormat("exe")];
  }
}
