/** The recursive `process_element` walk both SSML walkers share (the engine's
    `_parse_ssml`, app/core/engine.py, and `SSMLHandler.parse`,
    app/core/ssml_handler.py): an element's own stripped text, then for each
    child a pause if it is a `break`, the child walked under its own overlay,
    and the child's stripped tail under the parent's overlay.

    `Walk` is the specification; `ProcessElement` is the walk as the source
    runs it, appending to a growing list of segments, and is proved to build
    exactly what `Walk` describes. */
module SsmlWalk {
  import opened Wrappers
  import opened TextOps
  import opened XmlTree
  import opened SsmlRules

  // ------------------------------------------------------- specification

  /** A text node yields a segment when it is present and not blank, and the
      segment holds the stripped text. */
  predicate Speaks(t: Option<string>) {
    t.Some? && Strip(t.value) != []
  }

  /** The segments a text node yields under overlay `o`. */
  function TextSegs(t: Option<string>, o: Overlay): seq<Segment> {
    if Speaks(t) then [TextSeg(Strip(t.value), o)] else []
  }

  /** The segments of `e` walked under `cur`, or the error a `break` raised. */
  function Walk(r: Rules, e: Element, cur: Overlay): Result<seq<Segment>, SsmlError>
    decreases e, 1, 0
  {
    match WalkChildren(r, e, cur, |e.children|)
    case Err(x) => Err(x)
    case Ok(s) => Ok(TextSegs(e.text, cur) + s)
  }

  /** The segments of the first `n` children of `e`. */
  function WalkChildren(r: Rules, e: Element, cur: Overlay, n: nat): Result<seq<Segment>, SsmlError>
    requires n <= |e.children|
    decreases e, 0, n
  {
    if n == 0 then Ok([])
    else
      match WalkChildren(r, e, cur, n - 1)
      case Err(x) => Err(x)
      case Ok(p) =>
        match ChildSegments(r, e.children[n - 1], cur)
        case Err(x) => Err(x)
        case Ok(q) => Ok(p + q)
  }

  /** The segments one child `c` of an element walked under `cur` adds. */
  function ChildSegments(r: Rules, c: Element, cur: Overlay): Result<seq<Segment>, SsmlError>
    decreases c, 2, 0
  {
    match PauseSegs(r, c)
    case Err(x) => Err(x)
    case Ok(b) =>
      match Walk(r, c, r.overlay(c, cur))
      case Err(x) => Err(x)
      case Ok(s) => Ok(b + s + TextSegs(c.tail, cur))
  }

  /** The pause a `break` child adds in front of its own segments. */
  function PauseSegs(r: Rules, c: Element): Result<seq<Segment>, SsmlError> {
    if c.tag == "break" then
      match r.pause(c)
      case Err(x) => Err(x)
      case Ok(p) => Ok([BreakSeg(p)])
    else Ok([])
  }

  /** A child's segments exist when its pause and its walk do, and are the
      pause, then the walk, then the tail. */
  lemma ChildSegmentsShape(r: Rules, c: Element, cur: Overlay)
    ensures ChildSegments(r, c, cur).Ok? <==> PauseSegs(r, c).Ok? && Walk(r, c, r.overlay(c, cur)).Ok?
    ensures ChildSegments(r, c, cur).Ok? ==>
      ChildSegments(r, c, cur).value == PauseSegs(r, c).value + Walk(r, c, r.overlay(c, cur)).value + TextSegs(c.tail, cur)
  {
  }

  /** A child's segments open with its pause when it is a `break`, and end
      with its tail when the tail speaks; the tail is spoken under the
      parent's overlay `cur`, not under the child's own. */
  lemma ChildPauseFirstTailLast(r: Rules, c: Element, cur: Overlay)
    requires ChildSegments(r, c, cur).Ok?
    ensures var q := ChildSegments(r, c, cur).value;
      && (c.tag == "break" ==> r.pause(c).Ok? && |q| > 0 && q[0] == BreakSeg(r.pause(c).value))
      && (Speaks(c.tail) ==> |q| > 0 && q[|q| - 1] == TextSeg(Strip(c.tail.value), cur))
  {
  }

  /** `c` itself when it is a `break`. */
  function SelfBreak(c: Element): seq<Element> {
    if c.tag == "break" then [c] else []
  }

  // ---------------------------------------------------------- the method

  /** `process_element(element, current_params)`: appends the segments of
      `e` to `acc` child by child, stopping at the first break that raises. */
  method ProcessElement(r: Rules, e: Element, cur: Overlay, acc: seq<Segment>)
    returns (res: Result<seq<Segment>, SsmlError>)
    ensures res == AppendedTo(acc, Walk(r, e, cur))
    decreases e, 1
  {
    var segs := acc + TextSegs(e.text, cur);
    ghost var head := segs;
    ghost var done: seq<Segment> := [];
    var i := 0;
    while i < |e.children|
      invariant 0 <= i <= |e.children|
      invariant WalkChildren(r, e, cur, i) == Ok(done)
      invariant segs == head + done
    {
      var c := e.children[i];
      ChildrenStep(r, e, cur, i);
      var step := ProcessChild(r, c, cur, segs);
      if step.Err? {
        ChildErrorIsWalkError(r, e, cur, i);
        return step;
      }
      segs := step.value;
      done := done + ChildSegments(r, c, cur).value;
      i := i + 1;
    }
    assert head + done == acc + (TextSegs(e.text, cur) + done);
    return Ok(segs);
  }

  /** One turn of the loop over the children: the pause of a `break`, the
      child under its own overlay, then its tail under the parent's. */
  method ProcessChild(r: Rules, c: Element, cur: Overlay, acc: seq<Segment>)
    returns (res: Result<seq<Segment>, SsmlError>)
    ensures res == AppendedTo(acc, ChildSegments(r, c, cur))
    decreases c, 2
  {
    var childParams := r.overlay(c, cur);
    ChildSegmentsShape(r, c, cur);
    var pause: seq<Segment> := [];
    if c.tag == "break" {
      match r.pause(c)
      case Err(x) =>
        return Err(x);
      case Ok(p) =>
        pause := [BreakSeg(p)];
    }
    assert PauseSegs(r, c) == Ok(pause);
    var inner := ProcessElement(r, c, childParams, acc + pause);
    if inner.Err? {
      return inner;
    }
    res := Ok(inner.value + TextSegs(c.tail, cur));
    assert res.value == acc + (pause + Walk(r, c, childParams).value + TextSegs(c.tail, cur));
  }

  /** `acc` followed by the segments of `w`, or the error of `w`. */
  function AppendedTo(acc: seq<Segment>, w: Result<seq<Segment>, SsmlError>): Result<seq<Segment>, SsmlError> {
    match w
    case Ok(s) => Ok(acc + s)
    case Err(x) => Err(x)
  }

  /** One more child: its segments are appended, or its error is the walk's. */
  lemma ChildrenStep(r: Rules, e: Element, cur: Overlay, i: nat)
    requires i < |e.children| && WalkChildren(r, e, cur, i).Ok?
    ensures ChildSegments(r, e.children[i], cur).Ok? ==>
      WalkChildren(r, e, cur, i + 1) == Ok(WalkChildren(r, e, cur, i).value + ChildSegments(r, e.children[i], cur).value)
    ensures ChildSegments(r, e.children[i], cur).Err? ==>
      WalkChildren(r, e, cur, i + 1) == ChildSegments(r, e.children[i], cur)
  {
  }

  /** The walk of the first `n` children is the walk of the first `n - 1`
      followed by child `n - 1`, and so are their `break` elements. */
  lemma ChildrenUnfold(r: Rules, e: Element, cur: Overlay, n: nat)
    requires 0 < n <= |e.children|
    ensures var c := e.children[n - 1];
      && (WalkChildren(r, e, cur, n).Err? <==> WalkChildren(r, e, cur, n - 1).Err? || ChildSegments(r, c, cur).Err?)
      && (WalkChildren(r, e, cur, n).Ok? ==>
            WalkChildren(r, e, cur, n).value == WalkChildren(r, e, cur, n - 1).value + ChildSegments(r, c, cur).value)
      && ChildrenBreaks(e, n) == ChildrenBreaks(e, n - 1) + (SelfBreak(c) + Breaks(c))
  {
  }

  /** A child that raises makes the whole walk raise its error. */
  lemma ChildErrorIsWalkError(r: Rules, e: Element, cur: Overlay, i: nat)
    requires i < |e.children| && WalkChildren(r, e, cur, i).Ok?
    requires ChildSegments(r, e.children[i], cur).Err?
    ensures Walk(r, e, cur) == ChildSegments(r, e.children[i], cur)
  {
    ChildrenStep(r, e, cur, i);
    ErrorSticks(r, e, cur, i + 1, |e.children|);
  }

  /** Once a child raises, the walk of the remaining children raises the
      same error. */
  lemma {:induction false} ErrorSticks(r: Rules, e: Element, cur: Overlay, i: nat, n: nat)
    requires i <= n <= |e.children| && WalkChildren(r, e, cur, i).Err?
    ensures WalkChildren(r, e, cur, n) == WalkChildren(r, e, cur, i)
    decreases n
  {
    if n > i {
      ErrorSticks(r, e, cur, i, n - 1);
    }
  }

  // ----------------------------------------------------- views of a result

  /** The texts of the text segments, in order. */
  function Texts(segs: seq<Segment>): seq<string> {
    if segs == [] then []
    else Texts(segs[..|segs| - 1]) + (if segs[|segs| - 1].TextSeg? then [segs[|segs| - 1].content] else [])
  }

  /** The durations of the pauses, in order. */
  function Pauses(segs: seq<Segment>): seq<real> {
    if segs == [] then []
    else Pauses(segs[..|segs| - 1]) + (if segs[|segs| - 1].BreakSeg? then [segs[|segs| - 1].duration] else [])
  }

  /** The stripped non-blank text nodes, in order. */
  function Spoken(ts: seq<Option<string>>): seq<string> {
    if ts == [] then []
    else Spoken(ts[..|ts| - 1]) + (if Speaks(ts[|ts| - 1]) then [Strip(ts[|ts| - 1].value)] else [])
  }

  /** The `break` elements below `e` in document order (`e` itself excluded). */
  function Breaks(e: Element): seq<Element>
    decreases e, 1, 0
  {
    ChildrenBreaks(e, |e.children|)
  }

  function ChildrenBreaks(e: Element, n: nat): seq<Element>
    requires n <= |e.children|
    decreases e, 0, n
  {
    if n == 0 then []
    else
      var c := e.children[n - 1];
      ChildrenBreaks(e, n - 1) + SelfBreak(c) + Breaks(c)
  }

  /** `o` is `cur` with at most the speed and the repetition penalty changed. */
  predicate Inherits(o: Overlay, cur: Overlay) {
    && o.Keys <= cur.Keys + {SpeedKey, PenaltyKey}
    && forall k :: k in cur && k != SpeedKey && k != PenaltyKey ==> k in o && o[k] == cur[k]
  }

  /** The rules change at most the speed and the repetition penalty. */
  ghost predicate KeepsOthers(r: Rules) {
    forall c, cur :: Inherits(r.overlay(c, cur), cur)
  }

  /** Both walkers' rules keep every other parameter. */
  lemma DialectKeepsOthers(d: Dialect)
    ensures KeepsOthers(RulesOf(d))
  {
    forall c, cur
      ensures Inherits(RulesOf(d).overlay(c, cur), cur)
    {
      ChildOverlayKeys(d, c, cur);
    }
  }

  /** Every text segment holds non-empty stripped text and an overlay that
      inherits from `cur`. */
  predicate WellFormed(segs: seq<Segment>, cur: Overlay) {
    forall i :: 0 <= i < |segs| && segs[i].TextSeg? ==>
      segs[i].content != [] && Trimmed(segs[i].content) && Inherits(segs[i].params, cur)
  }

  /** Pause `i` is the duration break `i` yields. */
  predicate PausesOf(r: Rules, ps: seq<real>, bs: seq<Element>) {
    |ps| == |bs| && forall i :: 0 <= i < |bs| ==> r.pause(bs[i]) == Ok(ps[i])
  }

  // ------------------------------------------------------ algebra of views

  lemma {:induction false} TextsAppend(a: seq<Segment>, b: seq<Segment>)
    ensures Texts(a + b) == Texts(a) + Texts(b)
    decreases |b|
  {
    if b == [] {
      assert a + b == a;
    } else {
      assert (a + b)[..|a + b| - 1] == a + b[..|b| - 1];
      TextsAppend(a, b[..|b| - 1]);
    }
  }

  lemma {:induction false} PausesAppend(a: seq<Segment>, b: seq<Segment>)
    ensures Pauses(a + b) == Pauses(a) + Pauses(b)
    decreases |b|
  {
    if b == [] {
      assert a + b == a;
    } else {
      assert (a + b)[..|a + b| - 1] == a + b[..|b| - 1];
      PausesAppend(a, b[..|b| - 1]);
    }
  }

  lemma {:induction false} SpokenAppend(a: seq<Option<string>>, b: seq<Option<string>>)
    ensures Spoken(a + b) == Spoken(a) + Spoken(b)
    decreases |b|
  {
    if b == [] {
      assert a + b == a;
    } else {
      assert (a + b)[..|a + b| - 1] == a + b[..|b| - 1];
      SpokenAppend(a, b[..|b| - 1]);
    }
  }

  lemma TextSegsViews(t: Option<string>, o: Overlay)
    ensures Texts(TextSegs(t, o)) == Spoken([t])
    ensures Pauses(TextSegs(t, o)) == []
  {
    assert [t][..0] == [];
    if Speaks(t) {
      assert TextSegs(t, o)[..0] == [];
    }
  }

  lemma BreakSegViews(p: real)
    ensures Texts([BreakSeg(p)]) == [] && Pauses([BreakSeg(p)]) == [p]
  {
    assert [BreakSeg(p)][..0] == [];
  }

  lemma PausesOfAppend(r: Rules, ps: seq<real>, bs: seq<Element>, qs: seq<real>, cs: seq<Element>)
    requires PausesOf(r, ps, bs) && PausesOf(r, qs, cs)
    ensures PausesOf(r, ps + qs, bs + cs)
  {
    forall i | 0 <= i < |bs + cs|
      ensures r.pause((bs + cs)[i]) == Ok((ps + qs)[i])
    {
      if i >= |bs| {
        assert (bs + cs)[i] == cs[i - |bs|];
        assert (ps + qs)[i] == qs[i - |bs|];
      }
    }
  }

  lemma WellFormedAppend(a: seq<Segment>, b: seq<Segment>, cur: Overlay)
    requires WellFormed(a, cur) && WellFormed(b, cur)
    ensures WellFormed(a + b, cur)
  {
    forall i | 0 <= i < |a + b| && (a + b)[i].TextSeg?
      ensures (a + b)[i].content != [] && Trimmed((a + b)[i].content) && Inherits((a + b)[i].params, cur)
    {
      if i >= |a| {
        assert (a + b)[i] == b[i - |a|];
      }
    }
  }

  /** The pauses of two runs of segments, each matching its `break`
      elements, match the elements of both. */
  lemma PausesOfConcat(r: Rules, p: seq<Segment>, q: seq<Segment>, bs: seq<Element>, cs: seq<Element>)
    requires PausesOf(r, Pauses(p), bs) && PausesOf(r, Pauses(q), cs)
    ensures PausesOf(r, Pauses(p + q), bs + cs)
  {
    PausesAppend(p, q);
    PausesOfAppend(r, Pauses(p), bs, Pauses(q), cs);
  }

  /** Inheriting is transitive. */
  lemma InheritsTrans(a: Overlay, b: Overlay, c: Overlay)
    requires Inherits(a, b) && Inherits(b, c)
    ensures Inherits(a, c)
  {
  }

  lemma WellFormedWeaken(segs: seq<Segment>, o: Overlay, cur: Overlay)
    requires WellFormed(segs, o) && Inherits(o, cur)
    ensures WellFormed(segs, cur)
  {
    forall i | 0 <= i < |segs| && segs[i].TextSeg?
      ensures Inherits(segs[i].params, cur)
    {
      InheritsTrans(segs[i].params, o, cur);
    }
  }

  lemma TextSegsWellFormed(t: Option<string>, cur: Overlay)
    ensures WellFormed(TextSegs(t, cur), cur)
  {
    if t.Some? {
      StripSpec(t.value);
    }
  }

  // ----------------------------------------------------------- the texts

  /** The text segments of a walk are the stripped non-blank text nodes of
      the tree, in document order: nothing is dropped, duplicated or
      reordered. */
  lemma {:induction false} WalkTexts(r: Rules, e: Element, cur: Overlay)
    requires Walk(r, e, cur).Ok?
    ensures Texts(Walk(r, e, cur).value) == Spoken(TextNodes(e))
    decreases e, 1, 0
  {
    var s := WalkChildren(r, e, cur, |e.children|).value;
    ChildrenTexts(r, e, cur, |e.children|);
    TextsAppend(TextSegs(e.text, cur), s);
    TextSegsViews(e.text, cur);
    SpokenAppend([e.text], ChildrenTextNodes(e, |e.children|));
  }

  lemma {:induction false} ChildrenTexts(r: Rules, e: Element, cur: Overlay, n: nat)
    requires n <= |e.children| && WalkChildren(r, e, cur, n).Ok?
    ensures Texts(WalkChildren(r, e, cur, n).value) == Spoken(ChildrenTextNodes(e, n))
    decreases e, 0, n
  {
    if n > 0 {
      var c := e.children[n - 1];
      ChildrenTexts(r, e, cur, n - 1);
      ChildTexts(r, c, cur);
      TextsAppend(WalkChildren(r, e, cur, n - 1).value, ChildSegments(r, c, cur).value);
      SpokenAppend(ChildrenTextNodes(e, n - 1), TextNodes(c) + [c.tail]);
      assert ChildrenTextNodes(e, n) == ChildrenTextNodes(e, n - 1) + (TextNodes(c) + [c.tail]);
    }
  }

  lemma {:induction false} ChildTexts(r: Rules, c: Element, cur: Overlay)
    requires ChildSegments(r, c, cur).Ok?
    ensures Texts(ChildSegments(r, c, cur).value) == Spoken(TextNodes(c) + [c.tail])
    decreases c, 2, 0
  {
    var o := r.overlay(c, cur);
    var b := PauseSegs(r, c).value;
    var s := Walk(r, c, o).value;
    var t := TextSegs(c.tail, cur);
    ChildSegmentsShape(r, c, cur);
    WalkTexts(r, c, o);
    TextSegsViews(c.tail, cur);
    PauseSegsViews(r, c);
    TextsAppend(b, s);
    TextsAppend(b + s, t);
    SpokenAppend(TextNodes(c), [c.tail]);
  }

  /** A pause contributes no text and the pause of its own `break`. */
  lemma PauseSegsViews(r: Rules, c: Element)
    requires PauseSegs(r, c).Ok?
    ensures Texts(PauseSegs(r, c).value) == []
    ensures PausesOf(r, Pauses(PauseSegs(r, c).value), SelfBreak(c))
    ensures WellFormed(PauseSegs(r, c).value, map[])
  {
    if c.tag == "break" {
      BreakSegViews(r.pause(c).value);
    }
  }

  // ---------------------------------------------------------- the pauses

  /** The pauses of a walk are the durations of the `break` elements of the
      tree, one per element, in document order. */
  lemma {:induction false} WalkPauses(r: Rules, e: Element, cur: Overlay)
    requires Walk(r, e, cur).Ok?
    ensures PausesOf(r, Pauses(Walk(r, e, cur).value), Breaks(e))
    decreases e, 1, 0
  {
    var s := WalkChildren(r, e, cur, |e.children|).value;
    ChildrenPauses(r, e, cur, |e.children|);
    PausesAppend(TextSegs(e.text, cur), s);
    TextSegsViews(e.text, cur);
  }

  lemma {:induction false} ChildrenPauses(r: Rules, e: Element, cur: Overlay, n: nat)
    requires n <= |e.children| && WalkChildren(r, e, cur, n).Ok?
    ensures PausesOf(r, Pauses(WalkChildren(r, e, cur, n).value), ChildrenBreaks(e, n))
    decreases e, 0, n
  {
    if n > 0 {
      var c := e.children[n - 1];
      var p := WalkChildren(r, e, cur, n - 1).value;
      var q := ChildSegments(r, c, cur).value;
      var bs := ChildrenBreaks(e, n - 1);
      var cs := SelfBreak(c) + Breaks(c);
      ChildrenUnfold(r, e, cur, n);
      ChildrenPauses(r, e, cur, n - 1);
      ChildPauses(r, c, cur);
      PausesOfConcat(r, p, q, bs, cs);
    }
  }

  lemma {:induction false} ChildPauses(r: Rules, c: Element, cur: Overlay)
    requires ChildSegments(r, c, cur).Ok?
    ensures PausesOf(r, Pauses(ChildSegments(r, c, cur).value), SelfBreak(c) + Breaks(c))
    decreases c, 2, 0
  {
    var o := r.overlay(c, cur);
    var b := PauseSegs(r, c).value;
    var s := Walk(r, c, o).value;
    var t := TextSegs(c.tail, cur);
    ChildSegmentsShape(r, c, cur);
    WalkPauses(r, c, o);
    TextSegsViews(c.tail, cur);
    PauseSegsViews(r, c);
    PausesAppend(b, s);
    PausesAppend(b + s, t);
    PausesOfAppend(r, Pauses(b), SelfBreak(c), Pauses(s), Breaks(c));
    assert Pauses(b + s) + Pauses(t) == Pauses(b) + Pauses(s);
  }

  // ---------------------------------------------------------- the errors

  /** A walk fails exactly when one of the `break` elements of the tree has a
      duration that raises. */
  lemma {:induction false} WalkFails(r: Rules, e: Element, cur: Overlay)
    ensures Walk(r, e, cur).Err? <==> AnyFails(r, Breaks(e))
    decreases e, 1, 0
  {
    ChildrenFail(r, e, cur, |e.children|);
  }

  lemma {:induction false} ChildrenFail(r: Rules, e: Element, cur: Overlay, n: nat)
    requires n <= |e.children|
    ensures WalkChildren(r, e, cur, n).Err? <==> AnyFails(r, ChildrenBreaks(e, n))
    decreases e, 0, n
  {
    if n > 0 {
      var c := e.children[n - 1];
      ChildrenUnfold(r, e, cur, n);
      ChildrenFail(r, e, cur, n - 1);
      ChildFails(r, c, cur);
      FailsAppend(r, ChildrenBreaks(e, n - 1), SelfBreak(c) + Breaks(c));
    }
  }

  lemma {:induction false} ChildFails(r: Rules, c: Element, cur: Overlay)
    ensures ChildSegments(r, c, cur).Err? <==> AnyFails(r, SelfBreak(c) + Breaks(c))
    decreases c, 2, 0
  {
    ChildSegmentsShape(r, c, cur);
    WalkFails(r, c, r.overlay(c, cur));
    PauseSegsFails(r, c);
    FailsAppend(r, SelfBreak(c), Breaks(c));
  }

  lemma PauseSegsFails(r: Rules, c: Element)
    ensures PauseSegs(r, c).Err? <==> AnyFails(r, SelfBreak(c))
  {
    if c.tag == "break" && r.pause(c).Err? {
      assert SelfBreak(c)[0] == c;
    }
  }

  /** Some break of `bs` raises. */
  predicate AnyFails(r: Rules, bs: seq<Element>) {
    exists i :: 0 <= i < |bs| && r.pause(bs[i]).Err?
  }

  lemma FailsAppend(r: Rules, a: seq<Element>, b: seq<Element>)
    ensures AnyFails(r, a + b) <==> AnyFails(r, a) || AnyFails(r, b)
  {
    if AnyFails(r, a + b) {
      var i :| 0 <= i < |a + b| && r.pause((a + b)[i]).Err?;
      if i >= |a| {
        assert (a + b)[i] == b[i - |a|];
      }
    }
    if AnyFails(r, b) {
      var i :| 0 <= i < |b| && r.pause(b[i]).Err?;
      assert (a + b)[|a| + i] == b[i];
      assert 0 <= |a| + i < |a + b| && r.pause((a + b)[|a| + i]).Err?;
    }
    if AnyFails(r, a) {
      var i :| 0 <= i < |a| && r.pause(a[i]).Err?;
      assert (a + b)[i] == a[i];
      assert 0 <= i < |a + b| && r.pause((a + b)[i]).Err?;
    }
  }

  /** The handler's walk never fails: its break rule swallows every error. */
  lemma HandlerWalkOk(corrected: bool, e: Element, cur: Overlay)
    ensures Walk(RulesOf(HandlerDialect(corrected)), e, cur).Ok?
  {
    WalkFails(RulesOf(HandlerDialect(corrected)), e, cur);
  }

  // -------------------------------------------------------- the segments

  /** Every text segment of a walk holds non-empty stripped text, and its
      overlay is the starting overlay with at most the speed and the
      repetition penalty changed. */
  lemma {:induction false} WalkWellFormed(r: Rules, e: Element, cur: Overlay)
    requires KeepsOthers(r) && Walk(r, e, cur).Ok?
    ensures WellFormed(Walk(r, e, cur).value, cur)
    decreases e, 1, 0
  {
    ChildrenWellFormed(r, e, cur, |e.children|);
    TextSegsWellFormed(e.text, cur);
    WellFormedAppend(TextSegs(e.text, cur), WalkChildren(r, e, cur, |e.children|).value, cur);
  }

  lemma {:induction false} ChildrenWellFormed(r: Rules, e: Element, cur: Overlay, n: nat)
    requires KeepsOthers(r) && n <= |e.children| && WalkChildren(r, e, cur, n).Ok?
    ensures WellFormed(WalkChildren(r, e, cur, n).value, cur)
    decreases e, 0, n
  {
    if n > 0 {
      var c := e.children[n - 1];
      ChildrenWellFormed(r, e, cur, n - 1);
      ChildWellFormed(r, c, cur);
      WellFormedAppend(WalkChildren(r, e, cur, n - 1).value, ChildSegments(r, c, cur).value, cur);
    }
  }

  lemma {:induction false} ChildWellFormed(r: Rules, c: Element, cur: Overlay)
    requires KeepsOthers(r) && ChildSegments(r, c, cur).Ok?
    ensures WellFormed(ChildSegments(r, c, cur).value, cur)
    decreases c, 2, 0
  {
    var o := r.overlay(c, cur);
    var b := PauseSegs(r, c).value;
    var s := Walk(r, c, o).value;
    var t := TextSegs(c.tail, cur);
    ChildSegmentsShape(r, c, cur);
    WalkWellFormed(r, c, o);
    WellFormedWeaken(s, o, cur);
    PauseSegsViews(r, c);
    WellFormedAppend(b, s, cur);
    TextSegsWellFormed(c.tail, cur);
    WellFormedAppend(b + s, t, cur);
  }

  /** An empty walk means every text node of the tree is blank. */
  lemma EmptyWalkIsBlank(r: Rules, e: Element, cur: Overlay)
    requires Walk(r, e, cur) == Ok([])
    ensures Spoken(TextNodes(e)) == []
  {
    WalkTexts(r, e, cur);
  }
}
