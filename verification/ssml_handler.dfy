/** The hardened SSML parser `SSMLHandler` (app/core/ssml_handler.py): the
    `<speak>` test and `parse`, which escapes `&`, wraps the text in a root
    element, walks the tree with the handler's rules and falls back to plain
    text when the walk yields nothing or the text does not parse. The XML
    parser itself (defusedxml's `fromstring`) is the parameter `parseXml`:
    `None` stands for every exception it raises. */
module SsmlHandler {
  import opened Wrappers
  import opened TextOps
  import opened XmlTree
  import opened SsmlRules
  import opened SsmlWalk

  const SpeakTag: string := "<speak>"
  const RootOpen: string := "<root>"
  const RootClose: string := "</root>"

  /** `SSMLHandler.is_ssml`: the text holds the substring `<speak>`. */
  predicate IsSsml(text: string) {
    Contains(text, SpeakTag)
  }

  /** Any text with `<speak>` somewhere in it counts as SSML. */
  lemma IsSsmlOfTagged(a: string, b: string)
    ensures IsSsml(a + SpeakTag + b)
  {
    var s := a + SpeakTag + b;
    assert s[|a|..][..|SpeakTag|] == SpeakTag;
    ContainsStartsAt(s, SpeakTag, |a|);
  }

  /** Text without a `<` never counts as SSML, whatever other tags it has. */
  lemma IsSsmlNeedsAngle(text: string)
    requires '<' !in text
    ensures !IsSsml(text)
  {
    assert SpeakTag[0] == '<';
    MissingCharNotContained(text, SpeakTag, '<');
  }

  /** The document handed to the XML parser: the text itself when, stripped,
      it already starts with `<root>`, otherwise the text inside
      `<root>…</root>`. */
  function Wrapped(escaped: string): (doc: string)
    ensures StartsWith(Strip(doc), RootOpen)
    ensures doc == escaped || doc == RootOpen + escaped + RootClose
  {
    if StartsWith(Strip(escaped), RootOpen) then escaped
    else
      var doc := RootOpen + escaped + RootClose;
      WrappedIsTrimmed(escaped, doc);
      doc
  }

  /** The wrapped document has no whitespace to strip. */
  lemma WrappedIsTrimmed(escaped: string, doc: string)
    requires doc == RootOpen + escaped + RootClose
    ensures Strip(doc) == doc && StartsWith(doc, RootOpen)
  {
    assert doc[0] == '<' && doc[|doc| - 1] == '>';
    StripTrimmed(doc);
    assert doc[..|RootOpen|] == RootOpen;
  }

  /** Wrapping is done at most once: a wrapped document is left as it is. */
  lemma WrappedIdempotent(s: string)
    ensures Wrapped(Wrapped(s)) == Wrapped(s)
  {
  }

  /** The handler's rules, with its break rule as written unless
      `corrected` is asked for. */
  function HandlerRules(corrected: bool): Rules {
    RulesOf(HandlerDialect(corrected))
  }

  /** `SSMLHandler.parse(ssml_text, default_params)`: the segments of the
      escaped, wrapped text walked from `defaults`; one segment of the
      joined inner text when the walk yields nothing; one segment of the
      escaped text with its tags removed when the text does not parse.
      Never raises and never returns an empty list. By default the break
      rule is the one the handler runs; `corrected` swaps in the intended
      one. */
  function Parsed(ssmlText: string, defaults: Overlay, parseXml: string -> Option<Element>, corrected: bool := false): (segs: seq<Segment>)
    ensures segs != []
  {
    var escaped := EscapeAmp(ssmlText);
    match parseXml(Wrapped(escaped))
    case None => [TextSeg(StripTags(escaped), defaults)]
    case Some(root) =>
      HandlerWalkOk(corrected, root, defaults);
      var walked := Walk(HandlerRules(corrected), root, defaults).value;
      if walked == [] then [TextSeg(InnerText(root), defaults)] else walked
  }

  /** `parse` as the source runs it: the recursive `process_element` fills
      the segment list, and the two fallbacks follow. */
  method Parse(ssmlText: string, defaults: Overlay, parseXml: string -> Option<Element>, corrected: bool := false)
    returns (segs: seq<Segment>)
    ensures segs == Parsed(ssmlText, defaults, parseXml, corrected)
  {
    var escaped := EscapeAmp(ssmlText);
    var rootText: string;
    if StartsWith(Strip(escaped), RootOpen) {
      rootText := escaped;
    } else {
      rootText := RootOpen + escaped + RootClose;
    }
    var tree := parseXml(rootText);
    if tree.None? {
      return [TextSeg(StripTags(escaped), defaults)];
    }
    var root := tree.value;
    HandlerWalkOk(corrected, root, defaults);
    var walked := ProcessElement(HandlerRules(corrected), root, defaults, []);
    assert walked.value == Walk(HandlerRules(corrected), root, defaults).value;
    if walked.value == [] {
      return [TextSeg(InnerText(root), defaults)];
    }
    segs := walked.value;
  }

  /** When the text parses and some text node or `break` is found, the
      segments are the walk's: the stripped non-blank text nodes in document
      order, one pause per `break` with the duration of the break rule in
      use, and every
      text segment carries `defaults` with at most speed and repetition
      penalty changed. Otherwise the tree has neither, and the one segment
      holds its joined inner text under `defaults`. */
  lemma ParsedOfTree(ssmlText: string, defaults: Overlay, parseXml: string -> Option<Element>, root: Element, corrected: bool)
    requires parseXml(Wrapped(EscapeAmp(ssmlText))) == Some(root)
    ensures var segs := Parsed(ssmlText, defaults, parseXml, corrected);
      if Spoken(TextNodes(root)) == [] && Breaks(root) == [] then
        segs == [TextSeg(InnerText(root), defaults)]
      else
        && Texts(segs) == Spoken(TextNodes(root))
        && |Pauses(segs)| == |Breaks(root)|
        && (forall i :: 0 <= i < |Breaks(root)| ==> Pauses(segs)[i] == HandlerPause(corrected, Breaks(root)[i].Attr("time")))
        && WellFormed(segs, defaults)
  {
    var r := HandlerRules(corrected);
    HandlerWalkOk(corrected, root, defaults);
    var w := Walk(r, root, defaults).value;
    WalkTexts(r, root, defaults);
    WalkPauses(r, root, defaults);
    DialectKeepsOthers(HandlerDialect(corrected));
    WalkWellFormed(r, root, defaults);
    if w == [] {
      assert Texts(w) == [] && Pauses(w) == [];
    } else {
      assert Texts(w) != [] || Pauses(w) != [];
      forall i | 0 <= i < |Breaks(root)|
        ensures Pauses(w)[i] == HandlerPause(corrected, Breaks(root)[i].Attr("time"))
      {
        assert r.pause(Breaks(root)[i]) == Ok(Pauses(w)[i]);
      }
    }
  }

  /** When the text does not parse, the one segment is the escaped text
      with every tag removed, under `defaults`. */
  lemma ParsedOfUnparsable(ssmlText: string, defaults: Overlay, parseXml: string -> Option<Element>)
    requires parseXml(Wrapped(EscapeAmp(ssmlText))).None?
    ensures Parsed(ssmlText, defaults, parseXml) == [TextSeg(StripTags(EscapeAmp(ssmlText)), defaults)]
    ensures TagFree(Parsed(ssmlText, defaults, parseXml)[0].content)
  {
    StripTagsLeavesNoTag(EscapeAmp(ssmlText));
  }

  /** As written, a `break` of `Nms` inside a text that parses pauses the
      0.5 s fallback, not N thousandths of a second. */
  lemma ParsedMillisAsWritten(ssmlText: string, defaults: Overlay, parseXml: string -> Option<Element>, root: Element, i: nat, d: string)
    requires parseXml(Wrapped(EscapeAmp(ssmlText))) == Some(root)
    requires i < |Breaks(root)| && Breaks(root)[i].Attr("time") == Some(d + "ms")
    ensures i < |Pauses(Parsed(ssmlText, defaults, parseXml))|
    ensures Pauses(Parsed(ssmlText, defaults, parseXml))[i] == 0.5
  {
    ParsedOfTree(ssmlText, defaults, parseXml, root, false);
    MillisContained(d);
    HandlerBreakAsWrittenIgnoresMillis(d + "ms");
  }

  /** Corrected, the same `break` of `Nms` pauses N thousandths of a second. */
  lemma ParsedMillisCorrected(ssmlText: string, defaults: Overlay, parseXml: string -> Option<Element>, root: Element, i: nat, d: string)
    requires parseXml(Wrapped(EscapeAmp(ssmlText))) == Some(root)
    requires i < |Breaks(root)| && Breaks(root)[i].Attr("time") == Some(d + "ms")
    requires d != [] && AllDigits(d)
    ensures i < |Pauses(Parsed(ssmlText, defaults, parseXml, true))|
    ensures Pauses(Parsed(ssmlText, defaults, parseXml, true))[i] == DigitsValue(d) as real / 1000.0
  {
    ParsedOfTree(ssmlText, defaults, parseXml, root, true);
    HandlerBreakMillis(d);
  }

  lemma MillisContained(d: string)
    ensures Contains(d + "ms", "ms")
  {
    assert StartsWith((d + "ms")[|d|..], "ms");
    ContainsStartsAt(d + "ms", "ms", |d|);
  }
}
