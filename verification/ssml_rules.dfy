/** The per-tag rules of the two SSML walkers: the engine's
    (`TTSEngine._map_ssml_rate_to_speed`, `_apply_emphasis` and the break
    branch of `_parse_ssml`, app/core/engine.py) and the hardened handler's
    (`SSMLHandler.parse`, app/core/ssml_handler.py). Both read a parameter
    overlay, a dictionary from parameter name to number, and produce the
    overlay a child element works with. */
module SsmlRules {
  import opened Wrappers
  import opened TextOps
  import opened XmlTree

  /** The parameter overlay a segment carries (`current_params`). */
  type Overlay = map<string, real>

  const SpeedKey: string := "speed"
  const PenaltyKey: string := "repetition_penalty"

  /** A segment: text to synthesize under an overlay, or a pause in seconds. */
  datatype Segment = TextSeg(content: string, params: Overlay) | BreakSeg(duration: real)

  /** The two walkers. The handler's break rule comes in two readings:
      `corrected == false` is line 52 of the handler as written,
      `corrected == true` the order its comment describes. */
  datatype Dialect = EngineDialect | HandlerDialect(corrected: bool)

  /** The `ValueError` the engine's break branch lets escape when the number
      in front of `ms`/`s` does not parse. */
  datatype SsmlError = BadBreakTime(time: string)

  /** `dict.get(key, default)` on an overlay. */
  function Lookup(o: Overlay, key: string, default: real): real {
    if key in o then o[key] else default
  }

  /** The named prosody rates both walkers share. */
  function NamedRate(rate: string): Option<real> {
    if rate == "x-slow" then Some(0.7)
    else if rate == "slow" then Some(0.85)
    else if rate == "medium" then Some(1.0)
    else if rate == "fast" then Some(1.2)
    else if rate == "x-fast" then Some(1.4)
    else None
  }

  // ------------------------------------------------------------ the engine

  /** `_map_ssml_rate_to_speed`: a named rate, else the number, else 1.0. */
  function EngineRateToSpeed(rate: string): (speed: real)
    ensures NamedRate(rate).Some? ==> speed == NamedRate(rate).value
    ensures NamedRate(rate).None? && ParseFloat(rate).Some? ==> speed == ParseFloat(rate).value
    ensures NamedRate(rate).None? && ParseFloat(rate).None? ==> speed == 1.0
  {
    match NamedRate(rate)
    case Some(v) => v
    case None => ParseFloat(rate).GetOr(1.0)
  }

  /** The engine's prosody branch: `if rate:` (present and non-empty) sets
      the speed, otherwise the overlay is left as it is. */
  function EngineProsody(cur: Overlay, rate: Option<string>): Overlay {
    if rate.Some? && rate.value != [] then cur[SpeedKey := EngineRateToSpeed(rate.value)] else cur
  }

  /** `_apply_emphasis`: strong and moderate slow down by 10% and raise the
      repetition penalty by 20%; reduced speeds up by 10%; anything else
      leaves the overlay alone. Missing values start from 1.0 and 2.0. */
  function EngineEmphasis(cur: Overlay, level: string): Overlay {
    if level == "strong" || level == "moderate" then
      cur[SpeedKey := Lookup(cur, SpeedKey, 1.0) * 0.9][PenaltyKey := Lookup(cur, PenaltyKey, 2.0) * 1.2]
    else if level == "reduced" then cur[SpeedKey := Lookup(cur, SpeedKey, 1.0) * 1.1]
    else cur
  }

  /** The engine's break duration: the `time` attribute (default "0.5s"),
      lower-cased; `Nms` is N/1000 s, `Ns` is N s, anything else 0.5 s. A
      number that does not parse before a valid suffix raises. */
  function EngineBreak(time: Option<string>): (r: Result<real, SsmlError>)
    ensures r.Err? ==> r.error == BadBreakTime(time.GetOr("0.5s"))
  {
    EngineBreakOfLowered(AsciiLower(time.GetOr("0.5s")), time.GetOr("0.5s"))
  }

  /** The branch on the lower-cased value `t` of the raw attribute `raw`. */
  function EngineBreakOfLowered(t: string, raw: string): (r: Result<real, SsmlError>)
    ensures r.Err? ==> r.error == BadBreakTime(raw)
  {
    if EndsWith(t, "ms") then
      match ParseFloat(t[..|t| - 2])
      case Some(v) => Ok(v / 1000.0)
      case None => Err(BadBreakTime(raw))
    else if EndsWith(t, "s") then
      match ParseFloat(t[..|t| - 1])
      case Some(v) => Ok(v)
      case None => Err(BadBreakTime(raw))
    else Ok(0.5)
  }

  // ----------------------------------------------------------- the handler

  /** The handler's prosody branch: a named rate, else the number; a rate
      that is missing or does not parse leaves the speed unchanged. */
  function HandlerProsody(cur: Overlay, rate: Option<string>): Overlay {
    match rate
    case None => cur
    case Some(r) =>
      match NamedRate(r)
      case Some(v) => cur[SpeedKey := v]
      case None =>
        match ParseFloat(r)
        case Some(v) => cur[SpeedKey := v]
        case None => cur
  }

  /** The handler's emphasis branch: only strong and moderate (the default
      level) act; `reduced` and any other level change nothing. */
  function HandlerEmphasis(cur: Overlay, level: string): Overlay {
    if level == "strong" || level == "moderate" then
      cur[SpeedKey := Lookup(cur, SpeedKey, 1.0) * 0.9][PenaltyKey := Lookup(cur, PenaltyKey, 2.0) * 1.2]
    else cur
  }

  /** The handler's break duration AS WRITTEN: every `s` is deleted from the
      lower-cased value before `ms` is, and the `/1000` branch is chosen on the
      raw attribute (default ""). A value that does not parse gives 0.5. */
  function HandlerBreakAsWritten(time: Option<string>): real {
    var v := ReplaceAll(ReplaceAll(AsciiLower(time.GetOr("0.5s")), "s", ""), "ms", "");
    match ParseFloat(v)
    case None => 0.5
    case Some(x) => if Contains(time.GetOr(""), "ms") then x / 1000.0 else x
  }

  /** The handler's break duration as its comment describes it ("ms means
      /1000, s means the number itself"): `ms` is removed before `s`, and the
      `/1000` branch is chosen on the lower-cased value. A value that does
      not parse still gives 0.5. */
  function HandlerBreak(time: Option<string>): real {
    var t := AsciiLower(time.GetOr("0.5s"));
    var v := ReplaceAll(ReplaceAll(t, "ms", ""), "s", "");
    match ParseFloat(v)
    case None => 0.5
    case Some(x) => if Contains(t, "ms") then x / 1000.0 else x
  }

  // ------------------------------------------------------ shared dispatch

  /** The overlay a child element is walked with: a copy of the parent's,
      changed by `prosody` and `emphasis` (level default "moderate"). */
  function ChildOverlay(d: Dialect, c: Element, cur: Overlay): Overlay {
    if c.tag == "prosody" then
      (if d.EngineDialect? then EngineProsody(cur, c.Attr("rate")) else HandlerProsody(cur, c.Attr("rate")))
    else if c.tag == "emphasis" then
      (if d.EngineDialect? then EngineEmphasis(cur, c.AttrOr("level", "moderate"))
       else HandlerEmphasis(cur, c.AttrOr("level", "moderate")))
    else cur
  }

  /** The handler's pause under either reading of its break rule. */
  function HandlerPause(corrected: bool, time: Option<string>): real {
    if corrected then HandlerBreak(time) else HandlerBreakAsWritten(time)
  }

  /** The pause a `break` element yields; only the engine can fail. */
  function BreakDuration(d: Dialect, c: Element): (r: Result<real, SsmlError>)
    ensures d.HandlerDialect? ==> r.Ok?
    ensures r.Err? ==> d.EngineDialect? && r.error == BadBreakTime(c.Attr("time").GetOr("0.5s"))
  {
    if d.EngineDialect? then EngineBreak(c.Attr("time")) else Ok(HandlerPause(d.corrected, c.Attr("time")))
  }

  /** The per-tag rules a walk applies: the overlay a child is walked with,
      and the pause a `break` child yields. */
  datatype Rules = Rules(overlay: (Element, Overlay) -> Overlay, pause: Element -> Result<real, SsmlError>)

  /** The rules of one walker: plumbing that bundles `ChildOverlay` and
      `BreakDuration` of the dialect into a `Rules` record for the walk. */
  function RulesOf(d: Dialect): (r: Rules)
    ensures forall c, cur :: r.overlay(c, cur) == ChildOverlay(d, c, cur)
    ensures forall c :: r.pause(c) == BreakDuration(d, c)
  {
    Rules((c, cur) => ChildOverlay(d, c, cur), c => BreakDuration(d, c))
  }

  // --------------------------------------------------------------- lemmas

  /** Both walkers change at most the speed and the repetition penalty. */
  lemma ChildOverlayKeys(d: Dialect, c: Element, cur: Overlay)
    ensures ChildOverlay(d, c, cur).Keys <= cur.Keys + {SpeedKey, PenaltyKey}
    ensures forall k :: k in cur && k != SpeedKey && k != PenaltyKey ==>
      k in ChildOverlay(d, c, cur) && ChildOverlay(d, c, cur)[k] == cur[k]
  {
  }

  /** The engine's emphasis on a fresh overlay: speed 0.9 and penalty 2.4
      whatever the request asked for, because the walk starts from `{}`. */
  lemma EngineEmphasisFromEmpty(level: string)
    requires level == "strong" || level == "moderate"
    ensures EngineEmphasis(map[], level) == map[SpeedKey := 0.9, PenaltyKey := 2.4]
  {
  }

  /** The walkers differ on `reduced`: the engine speeds up by 10%, the
      handler ignores it. */
  lemma ReducedEmphasisDiffers(cur: Overlay)
    ensures EngineEmphasis(cur, "reduced")[SpeedKey] == Lookup(cur, SpeedKey, 1.0) * 1.1
    ensures HandlerEmphasis(cur, "reduced") == cur
  {
  }

  /** The walkers differ on an unparsable rate: the engine resets the speed
      to 1.0, the handler keeps the parent's speed. */
  lemma BadRateDiffers(cur: Overlay, rate: string)
    requires rate != [] && NamedRate(rate).None? && ParseFloat(rate).None?
    ensures EngineProsody(cur, Some(rate)) == cur[SpeedKey := 1.0]
    ensures HandlerProsody(cur, Some(rate)) == cur
  {
  }

  /** A named rate sets the same speed in both walkers. */
  lemma NamedRateAgrees(cur: Overlay, rate: string)
    requires NamedRate(rate).Some?
    ensures EngineProsody(cur, Some(rate)) == HandlerProsody(cur, Some(rate)) == cur[SpeedKey := NamedRate(rate).value]
  {
  }

  /** Lower-casing leaves digits alone. */
  lemma AsciiLowerDigits(d: string)
    requires AllDigits(d)
    ensures AsciiLower(d) == d
  {
  }

  /** Lower-casing distributes over concatenation. */
  lemma AsciiLowerAppend(a: string, b: string)
    ensures AsciiLower(a + b) == AsciiLower(a) + AsciiLower(b)
  {
    var l := AsciiLower(a + b);
    var r := AsciiLower(a) + AsciiLower(b);
    forall i | 0 <= i < |l|
      ensures l[i] == r[i]
    {
      if i < |a| {
        assert (a + b)[i] == a[i] && r[i] == AsciiLower(a)[i];
      } else {
        assert (a + b)[i] == b[i - |a|] && r[i] == AsciiLower(b)[i - |a|];
      }
    }
  }

  /** `Nms` is N thousandths of a second in the engine. */
  lemma EngineBreakMillis(d: string)
    requires d != [] && AllDigits(d)
    ensures EngineBreak(Some(d + "ms")) == Ok(DigitsValue(d) as real / 1000.0)
  {
    EngineBreakOfDigits(d, "ms");
    MillisOfDigits(d);
  }

  lemma MillisOfDigits(d: string)
    requires d != [] && AllDigits(d)
    ensures EngineBreakOfLowered(d + "ms", d + "ms") == Ok(DigitsValue(d) as real / 1000.0)
  {
    SuffixParts(d, "ms");
    ParseFloatOfDigits(d);
    MillisBranch(d + "ms", d + "ms", DigitsValue(d) as real);
  }

  /** Digits followed by a lower-case unit are their own lower-cased form. */
  lemma EngineBreakOfDigits(d: string, p: string)
    requires AllDigits(d) && (p == "ms" || p == "s")
    ensures EngineBreak(Some(d + p)) == EngineBreakOfLowered(d + p, d + p)
  {
    LowerDigitsSuffix(d, p);
  }

  lemma MillisBranch(t: string, raw: string, v: real)
    requires EndsWith(t, "ms") && ParseFloat(t[..|t| - 2]) == Some(v)
    ensures EngineBreakOfLowered(t, raw) == Ok(v / 1000.0)
  {
  }

  lemma SuffixParts(d: string, p: string)
    ensures EndsWith(d + p, p) && (d + p)[..|d + p| - |p|] == d
  {
    assert (d + p)[|d + p| - |p|..] == p;
  }

  /** `Ns` is N seconds in the engine. */
  lemma EngineBreakSeconds(d: string)
    requires d != [] && AllDigits(d)
    ensures EngineBreak(Some(d + "s")) == Ok(DigitsValue(d) as real)
  {
    var t := d + "s";
    EngineBreakOfDigits(d, "s");
    assert !EndsWith(t, "ms") by { assert t[|t| - 2] == d[|d| - 1]; }
    SuffixParts(d, "s");
    ParseFloatOfDigits(d);
  }

  /** Without an `s` suffix the engine pauses half a second. */
  lemma EngineBreakNoSuffix(time: string)
    requires AsciiLower(time) == [] || AsciiLower(time)[|AsciiLower(time)| - 1] != 's'
    ensures EngineBreak(Some(time)) == Ok(0.5)
  {
  }

  /** A time that is not a number in front of `s` makes the engine raise:
      `t` is the lower-cased time and `c` a character of the number part that
      `float()` never accepts. */
  lemma EngineBreakRaises(time: string, t: string, c: char)
    requires t == AsciiLower(time)
    requires EndsWith(t, "s") && !EndsWith(t, "ms")
    requires c in t[..|t| - 1] && !FloatChar(c)
    ensures EngineBreak(Some(time)) == Err(BadBreakTime(time))
  {
    ParseFloatRejects(t[..|t| - 1], c);
    SecondsBranchRaises(t, time);
  }

  lemma SecondsBranchRaises(t: string, raw: string)
    requires EndsWith(t, "s") && !EndsWith(t, "ms") && ParseFloat(t[..|t| - 1]).None?
    ensures EngineBreakOfLowered(t, raw) == Err(BadBreakTime(raw))
  {
  }

  /** As written, the handler never divides by 1000: a time containing `ms`
      keeps an `m` after every `s` is deleted, `float()` rejects it and the
      pause is always the 0.5 s fallback. */
  lemma HandlerBreakAsWrittenIgnoresMillis(time: string)
    requires Contains(time, "ms")
    ensures HandlerBreakAsWritten(Some(time)) == 0.5
  {
    var v1 := ReplaceAll(AsciiLower(time), "s", "");
    MillisLeavesM(time);
    MissingCharNotContained(v1, "ms", 's');
    ReplaceAllAbsent(v1, "ms", "");
    ParseFloatRejects(v1, 'm');
  }

  /** Deleting the `s` of a lower-cased time that contains `ms` leaves an
      `m` and no `s`. */
  lemma MillisLeavesM(time: string)
    requires Contains(time, "ms")
    ensures 'm' in ReplaceAll(AsciiLower(time), "s", "")
    ensures 's' !in ReplaceAll(AsciiLower(time), "s", "")
  {
    ContainsWitness(time, "ms");
    var j :| 0 <= j <= |time| && StartsWith(time[j..], "ms");
    assert time[j..][..2] == "ms";
    assert time[j] == time[j..][0] == 'm';
    var l := AsciiLower(time);
    assert l[j] == 'm';
    DeleteChar(l, 's');
  }

  /** Concrete instance: "200ms" pauses 0.5 s as written, 0.2 s corrected. */
  lemma HandlerBreakAsWrittenCounterexample()
    ensures HandlerBreakAsWritten(Some("200ms")) == 0.5
    ensures HandlerBreak(Some("200ms")) == 0.2
  {
    assert "200ms" == "200" + "ms";
    DigitsOf200();
    Has200ms();
    HandlerBreakAsWrittenIgnoresMillis("200ms");
    HandlerBreakMillis("200");
  }

  lemma DigitsOf200()
    ensures AllDigits("200") && DigitsValue("200") == 200
  {
    assert "200"[..2] == "20" && "20"[..1] == "2" && "2"[..0] == [];
  }

  lemma Has200ms()
    ensures Contains("200ms", "ms")
  {
    assert StartsWith("200ms"[3..], "ms");
    ContainsStartsAt("200ms", "ms", 3);
  }

  /** Lower-casing digits followed by a lower-case suffix changes nothing. */
  lemma LowerDigitsSuffix(d: string, p: string)
    requires AllDigits(d) && (p == "ms" || p == "s")
    ensures AsciiLower(d + p) == d + p
  {
    AsciiLowerAppend(d, p);
    AsciiLowerDigits(d);
  }

  /** Removing `ms`, then `s`, from digits followed by `ms` leaves the digits,
      and the lowered value contains `ms`. */
  lemma MillisValue(d: string)
    requires AllDigits(d)
    ensures ReplaceAll(ReplaceAll(d + "ms", "ms", ""), "s", "") == d
    ensures Contains(d + "ms", "ms")
  {
    ReplaceAllDigitsThenPattern(d, "ms");
    MissingCharNotContained(d, "s", 's');
    ReplaceAllAbsent(d, "s", "");
    assert StartsWith((d + "ms")[|d|..], "ms");
    ContainsStartsAt(d + "ms", "ms", |d|);
  }

  /** Removing `ms`, then `s`, from digits followed by `s` leaves the digits,
      and the lowered value does not contain `ms`. */
  lemma SecondsValue(d: string)
    requires AllDigits(d)
    ensures ReplaceAll(ReplaceAll(d + "s", "ms", ""), "s", "") == d
    ensures !Contains(d + "s", "ms")
  {
    MissingCharNotContained(d + "s", "ms", 'm');
    ReplaceAllAbsent(d + "s", "ms", "");
    ReplaceAllDigitsThenPattern(d, "s");
  }

  /** Corrected: `Nms` is N thousandths of a second in the handler. */
  lemma HandlerBreakMillis(d: string)
    requires d != [] && AllDigits(d)
    ensures HandlerBreak(Some(d + "ms")) == DigitsValue(d) as real / 1000.0
  {
    LowerDigitsSuffix(d, "ms");
    MillisValue(d);
    ParseFloatOfDigits(d);
  }

  /** `Ns` is N seconds in the handler, as written and corrected alike. */
  lemma HandlerBreakSeconds(d: string)
    requires d != [] && AllDigits(d)
    ensures HandlerBreakAsWritten(Some(d + "s")) == DigitsValue(d) as real
    ensures HandlerBreak(Some(d + "s")) == DigitsValue(d) as real
  {
    LowerDigitsSuffix(d, "s");
    SecondsValue(d);
    ParseFloatOfDigits(d);
    ReplaceAllDigitsThenPattern(d, "s");
    MissingCharNotContained(d, "ms", 'm');
    ReplaceAllAbsent(d, "ms", "");
  }

  /** Replacing a letter pattern in digits followed by that pattern removes
      exactly the suffix. */
  lemma {:induction false} ReplaceAllDigitsThenPattern(d: string, p: string)
    requires AllDigits(d) && p != [] && !IsDigit(p[0])
    ensures ReplaceAll(d + p, p, "") == d
    decreases |d|
  {
    if d == [] {
      assert (d + p)[..|p|] == p;
      assert (d + p)[|p|..] == [];
    } else {
      var s := d + p;
      assert s[..|p|] != p by { assert s[0] == d[0]; }
      assert s[1..] == d[1..] + p;
      ReplaceAllDigitsThenPattern(d[1..], p);
    }
  }
}
