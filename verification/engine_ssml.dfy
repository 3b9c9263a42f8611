/** The text layer of `TTSEngine` (app/core/engine.py): `_normalize_text`,
    the test `synthesize` uses to decide that a text is SSML, and
    `_parse_ssml`, the engine's own SSML walker. The XML parser
    (`xml.etree.ElementTree.fromstring`) is the parameter `parseXml`; `None`
    stands for the `ParseError` it raises. */
module EngineSsml {
  import opened Wrappers
  import opened TextOps
  import opened Normalizer
  import opened XmlTree
  import opened SsmlRules
  import opened SsmlWalk

  /** `_normalize_text`: whitespace runs become one space, the ends are
      stripped and typographic quotes become ASCII quotes. The result is
      clean, has no typographic quote, and is empty exactly when the text
      was blank. */
  function NormalizeText(text: string): (r: string)
    ensures Clean(r) && !HasCurlyQuote(r)
    ensures r == [] <==> IsBlank(text)
  {
    var t := Strip(Collapse(text));
    CollapseStripClean(text);
    CanonicalQuotesKeepClean(t);
    CanonicalQuotesRemoveCurly(t);
    CanonicalQuotesPointwise(t);
    StripSpec(Collapse(text));
    CollapseBlank(text);
    CanonicalQuotes(t)
  }

  /** Normalizing twice is normalizing once. */
  lemma NormalizeTextIdempotent(text: string)
    ensures NormalizeText(NormalizeText(text)) == NormalizeText(text)
  {
    var once := NormalizeText(text);
    CollapseStripOfClean(once);
    CanonicalQuotesIdle(once);
  }

  /** The engine's cleanup is the normalizer's for every language but
      Turkish, and the Turkish rules are what it leaves out. */
  lemma NormalizeTextIsNormalizerCleanup(text: string, lang: string)
    ensures lang != "tr" ==> NormalizeText(text) == Normalize(text, lang)
    ensures text != [] ==> Normalize(text, "tr") == DropOrdinalDots(ExpandUnits(NormalizeText(text)))
  {
  }

  /** The SSML test in `synthesize`: `<speak>`, `<break` or `<prosody`
      occurs somewhere in the text. */
  predicate IsSsmlText(text: string) {
    Contains(text, "<speak>") || Contains(text, "<break") || Contains(text, "<prosody")
  }

  /** A text with no `<` at all is plain text. */
  lemma PlainWithoutAngle(text: string)
    requires '<' !in text
    ensures !IsSsmlText(text)
  {
    MissingCharNotContained(text, "<speak>", '<');
    MissingCharNotContained(text, "<break", '<');
    MissingCharNotContained(text, "<prosody", '<');
  }

  /** A self-closing break anywhere makes a text SSML, even without `<speak>`. */
  lemma BreakMakesSsml(a: string, b: string)
    ensures IsSsmlText(a + "<break" + b)
  {
    var s := a + "<break" + b;
    assert s[|a|..][..6] == "<break";
    ContainsStartsAt(s, "<break", |a|);
  }

  /** The engine wraps every text in a root element, whatever it starts with. */
  function EngineWrapped(escaped: string): string {
    "<root>" + escaped + "</root>"
  }

  /** The engine's rules. */
  function EngineRules(): Rules {
    RulesOf(EngineDialect)
  }

  /** `_parse_ssml(ssml_text)`: the segments of the escaped, wrapped text
      walked from an empty overlay; one segment of the joined inner text when
      the walk yields nothing; one segment of the escaped text with its tags
      removed when the text does not parse. A `break` whose number does not
      parse raises, and that error is not caught. When it does not raise,
      the list is never empty. */
  function ParsedSsml(ssmlText: string, parseXml: string -> Option<Element>): (r: Result<seq<Segment>, SsmlError>)
    ensures r.Ok? ==> r.value != []
  {
    var escaped := EscapeAmp(ssmlText);
    match parseXml(EngineWrapped(escaped))
    case None => Ok([TextSeg(StripTags(escaped), map[])])
    case Some(root) =>
      match Walk(EngineRules(), root, map[])
      case Err(x) => Err(x)
      case Ok(walked) => if walked == [] then Ok([TextSeg(InnerText(root), map[])]) else Ok(walked)
  }

  /** `_parse_ssml` as the source runs it: the recursive `process_element`
      fills the segment list, and the two fallbacks follow. */
  method ParseSsml(ssmlText: string, parseXml: string -> Option<Element>)
    returns (r: Result<seq<Segment>, SsmlError>)
    ensures r == ParsedSsml(ssmlText, parseXml)
  {
    var escaped := EscapeAmp(ssmlText);
    var tree := parseXml("<root>" + escaped + "</root>");
    if tree.None? {
      return Ok([TextSeg(StripTags(escaped), map[])]);
    }
    var root := tree.value;
    var walked := ProcessElement(EngineRules(), root, map[], []);
    assert walked.Ok? ==> walked.value == Walk(EngineRules(), root, map[]).value;
    if walked.Err? {
      return walked;
    }
    if walked.value == [] {
      return Ok([TextSeg(InnerText(root), map[])]);
    }
    r := walked;
  }

  /** When the text parses, `_parse_ssml` raises exactly when some `break`
      of the tree has a number that does not parse. Otherwise, when some text
      node or `break` is found, the segments are the stripped non-blank text
      nodes in document order, one pause per `break` with the engine's
      duration, and each text segment's parameters hold at most a speed and
      a repetition penalty; when there is neither, the one segment holds the
      joined inner text with no parameters. */
  lemma ParsedSsmlOfTree(ssmlText: string, parseXml: string -> Option<Element>, root: Element)
    requires parseXml(EngineWrapped(EscapeAmp(ssmlText))) == Some(root)
    ensures ParsedSsml(ssmlText, parseXml).Err? <==> AnyFails(EngineRules(), Breaks(root))
    ensures var r := ParsedSsml(ssmlText, parseXml);
      r.Ok? ==>
      if Spoken(TextNodes(root)) == [] && Breaks(root) == [] then
        r.value == [TextSeg(InnerText(root), map[])]
      else
        && Texts(r.value) == Spoken(TextNodes(root))
        && |Pauses(r.value)| == |Breaks(root)|
        && (forall i :: 0 <= i < |Breaks(root)| ==> EngineBreak(Breaks(root)[i].Attr("time")) == Ok(Pauses(r.value)[i]))
        && (forall i :: 0 <= i < |r.value| && r.value[i].TextSeg? ==> r.value[i].params.Keys <= {SpeedKey, PenaltyKey})
  {
    WalkFails(EngineRules(), root, map[]);
    if Walk(EngineRules(), root, map[]).Ok? {
      EngineWalkViews(root, Walk(EngineRules(), root, map[]).value);
    }
  }

  /** What the views of a successful engine walk from `{}` say. */
  lemma EngineWalkViews(root: Element, w: seq<Segment>)
    requires Walk(EngineRules(), root, map[]) == Ok(w)
    ensures w == [] <==> Spoken(TextNodes(root)) == [] && Breaks(root) == []
    ensures Texts(w) == Spoken(TextNodes(root))
    ensures |Pauses(w)| == |Breaks(root)|
    ensures forall i :: 0 <= i < |Breaks(root)| ==> EngineBreak(Breaks(root)[i].Attr("time")) == Ok(Pauses(w)[i])
    ensures forall i :: 0 <= i < |w| && w[i].TextSeg? ==> w[i].params.Keys <= {SpeedKey, PenaltyKey}
  {
    var rules := EngineRules();
    WalkTexts(rules, root, map[]);
    WalkPauses(rules, root, map[]);
    DialectKeepsOthers(EngineDialect);
    WalkWellFormed(rules, root, map[]);
    if w != [] {
      assert Texts(w) != [] || Pauses(w) != [];
    }
    forall i | 0 <= i < |Breaks(root)|
      ensures EngineBreak(Breaks(root)[i].Attr("time")) == Ok(Pauses(w)[i])
    {
      assert rules.pause(Breaks(root)[i]) == Ok(Pauses(w)[i]);
    }
  }

  /** When the text does not parse, the one segment is the escaped text with
      every tag removed and no parameters. */
  lemma ParsedSsmlOfUnparsable(ssmlText: string, parseXml: string -> Option<Element>)
    requires parseXml(EngineWrapped(EscapeAmp(ssmlText))).None?
    ensures ParsedSsml(ssmlText, parseXml) == Ok([TextSeg(StripTags(EscapeAmp(ssmlText)), map[])])
    ensures TagFree(ParsedSsml(ssmlText, parseXml).value[0].content)
  {
    StripTagsLeavesNoTag(EscapeAmp(ssmlText));
  }
}
