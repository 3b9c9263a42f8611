/** The parsed XML tree the two SSML walkers read, the text ElementTree's
    `itertext()` yields, and the two textual fallbacks used when parsing fails
    or yields nothing: `&` escaping and `re.sub(r'<[^>]+>', '', s)`. */
module XmlTree {
  import opened Wrappers
  import opened TextOps

  /** An ElementTree element: tag, attributes, the text before the first
      child, the children in document order and the text after the closing
      tag (its tail). Absent text is `None`, as in ElementTree. */
  datatype Element = Element(
    tag: string,
    attrs: map<string, string>,
    text: Option<string>,
    children: seq<Element>,
    tail: Option<string>)
  {
    /** `element.get(name)` */
    function Attr(name: string): Option<string> {
      if name in attrs then Some(attrs[name]) else None
    }

    /** `element.get(name, default)` */
    function AttrOr(name: string, default: string): string {
      if name in attrs then attrs[name] else default
    }
  }

  /** The text nodes of `e` in document order: its own text, then for each
      child the child's text nodes followed by the child's tail. The tail of
      `e` itself is not part of `e`. */
  function TextNodes(e: Element): seq<Option<string>>
    decreases e, 1, 0
  {
    [e.text] + ChildrenTextNodes(e, |e.children|)
  }

  /** The text nodes contributed by the first `n` children of `e`. */
  function ChildrenTextNodes(e: Element, n: nat): seq<Option<string>>
    requires n <= |e.children|
    decreases e, 0, n
  {
    if n == 0 then []
    else ChildrenTextNodes(e, n - 1) + TextNodes(e.children[n - 1]) + [e.children[n - 1].tail]
  }

  /** The string an absent text node contributes: nothing. */
  function OrEmpty(t: Option<string>): string {
    t.GetOr([])
  }

  /** Concatenation of text nodes, absent ones contributing nothing. */
  function Concat(ts: seq<Option<string>>): string {
    if ts == [] then [] else Concat(ts[..|ts| - 1]) + OrEmpty(ts[|ts| - 1])
  }

  /** `"".join(e.itertext())`: own text, then each child's inner text and tail. */
  function InnerText(e: Element): string
    decreases e, 1, 0
  {
    OrEmpty(e.text) + ChildrenInnerText(e, |e.children|)
  }

  function ChildrenInnerText(e: Element, n: nat): string
    requires n <= |e.children|
    decreases e, 0, n
  {
    if n == 0 then []
    else ChildrenInnerText(e, n - 1) + InnerText(e.children[n - 1]) + OrEmpty(e.children[n - 1].tail)
  }

  /** `itertext()` yields exactly the text nodes, in document order. */
  lemma {:induction false} InnerTextIsTextNodes(e: Element)
    ensures InnerText(e) == Concat(TextNodes(e))
    decreases e, 1, 0
  {
    ChildrenInnerTextIsTextNodes(e, |e.children|);
    ConcatAppend([e.text], ChildrenTextNodes(e, |e.children|));
    assert Concat([e.text]) == OrEmpty(e.text) by {
      assert [e.text][..0] == [];
    }
  }

  lemma {:induction false} ChildrenInnerTextIsTextNodes(e: Element, n: nat)
    requires n <= |e.children|
    ensures ChildrenInnerText(e, n) == Concat(ChildrenTextNodes(e, n))
    decreases e, 0, n
  {
    if n > 0 {
      var c := e.children[n - 1];
      ChildrenInnerTextIsTextNodes(e, n - 1);
      InnerTextIsTextNodes(c);
      ConcatAppend(ChildrenTextNodes(e, n - 1), TextNodes(c));
      ConcatAppend(ChildrenTextNodes(e, n - 1) + TextNodes(c), [c.tail]);
      assert Concat([c.tail]) == OrEmpty(c.tail) by {
        assert [c.tail][..0] == [];
      }
    }
  }

  /** Concatenation distributes over sequence append. */
  lemma {:induction false} ConcatAppend(a: seq<Option<string>>, b: seq<Option<string>>)
    ensures Concat(a + b) == Concat(a) + Concat(b)
    decreases |b|
  {
    if b == [] {
      assert a + b == a;
    } else {
      assert (a + b)[..|a + b| - 1] == a + b[..|b| - 1];
      ConcatAppend(a, b[..|b| - 1]);
    }
  }

  // ------------------------------------------------------- textual fallbacks

  /** `s.replace("&", "&amp;")`, the escape both walkers apply before parsing. */
  function EscapeAmp(s: string): string {
    ReplaceAll(s, "&", "&amp;")
  }

  /** `re.sub(r'<[^>]+>', '', s)`: from left to right, a `<` followed by at
      least one character other than `>` and then a `>` is removed together
      with everything up to and including that `>`. A `<` that starts no such
      match is kept. */
  function StripTags(s: string): string
    decreases |s|
  {
    if s == [] then []
    else if s[0] == '<' then
      var k := IndexOf(s[1..], '>');
      if 0 < k < |s| - 1 then StripTags(s[k + 2..]) else [s[0]] + StripTags(s[1..])
    else [s[0]] + StripTags(s[1..])
  }

  /** No match of `<[^>]+>` is left: every `<` is either followed directly by
      `>` or has no `>` anywhere after it. */
  predicate TagFree(s: string) {
    forall i :: 0 <= i < |s| && s[i] == '<' ==> (i + 1 < |s| && s[i + 1] == '>') || '>' !in s[i + 1..]
  }

  /** Tag removal only deletes characters. */
  lemma {:induction false} StripTagsKeepsOut(s: string, c: char)
    requires c !in s
    ensures c !in StripTags(s)
    decreases |s|
  {
    if s != [] {
      StripTagsKeepsOut(s[1..], c);
      if s[0] == '<' {
        var k := IndexOf(s[1..], '>');
        if 0 < k < |s| - 1 {
          StripTagsKeepsOut(s[k + 2..], c);
        }
      }
    }
  }

  /** Adding a character other than `<` in front keeps a string tag-free. */
  lemma ConsTagFree(c: char, r: string)
    requires c != '<' && TagFree(r)
    ensures TagFree([c] + r)
  {
    var s := [c] + r;
    forall i | 0 <= i < |s| && s[i] == '<'
      ensures (i + 1 < |s| && s[i + 1] == '>') || '>' !in s[i + 1..]
    {
      assert i >= 1 && r[i - 1] == '<';
      assert s[i + 1..] == r[i..];
    }
  }

  /** After tag removal no tag is left, so removing tags twice is removing
      them once (see `StripTagsIdempotent`). */
  lemma {:induction false} StripTagsLeavesNoTag(s: string)
    ensures TagFree(StripTags(s))
    decreases |s|
  {
    if s != [] {
      StripTagsLeavesNoTag(s[1..]);
      var r := StripTags(s[1..]);
      if s[0] == '<' {
        var k := IndexOf(s[1..], '>');
        if 0 < k < |s| - 1 {
          StripTagsLeavesNoTag(s[k + 2..]);
        } else if k == 0 && |s| >= 2 {
          // `<>`: the `<` is kept and the `>` right after it is kept too
          assert s[1] == '>';
          assert r == [s[1]] + StripTags(s[2..]);
          LeadingGtTagFree(r);
        } else {
          assert '>' !in s[1..];
          StripTagsKeepsOut(s[1..], '>');
          NoGtTagFree(r);
        }
      } else {
        ConsTagFree(s[0], r);
      }
    }
  }

  /** `<` followed by a tag-free string that starts with `>` is tag-free. */
  lemma LeadingGtTagFree(r: string)
    requires r != [] && r[0] == '>' && TagFree(r)
    ensures TagFree(['<'] + r)
  {
    var s := ['<'] + r;
    forall i | 0 <= i < |s| && s[i] == '<'
      ensures (i + 1 < |s| && s[i + 1] == '>') || '>' !in s[i + 1..]
    {
      if i > 0 {
        assert r[i - 1] == '<';
        assert s[i + 1..] == r[i..];
      }
    }
  }

  /** `<` followed by a string without `>` is tag-free. */
  lemma NoGtTagFree(r: string)
    requires '>' !in r && TagFree(r)
    ensures TagFree(['<'] + r)
  {
    var s := ['<'] + r;
    forall i | 0 <= i < |s| && s[i] == '<'
      ensures (i + 1 < |s| && s[i + 1] == '>') || '>' !in s[i + 1..]
    {
      assert s[i + 1..] == r[i..];
    }
  }

  /** A tag-free string is left unchanged by tag removal. */
  lemma {:induction false} StripTagsOfTagFree(s: string)
    requires TagFree(s)
    ensures StripTags(s) == s
    decreases |s|
  {
    if s != [] {
      assert TagFree(s[1..]) by {
        forall i | 0 <= i < |s[1..]| && s[1..][i] == '<'
          ensures (i + 1 < |s[1..]| && s[1..][i + 1] == '>') || '>' !in s[1..][i + 1..]
        {
          assert s[1..][i + 1..] == s[i + 2..];
        }
      }
      StripTagsOfTagFree(s[1..]);
      if s[0] == '<' {
        var k := IndexOf(s[1..], '>');
        if k < |s| - 1 {
          assert s[1..][k] == '>';
          assert s[1] == '>';
        }
      }
    }
  }

  /** Removing tags twice is removing them once. */
  lemma StripTagsIdempotent(s: string)
    ensures StripTags(StripTags(s)) == StripTags(s)
  {
    StripTagsLeavesNoTag(s);
    StripTagsOfTagFree(StripTags(s));
  }

  /** Tag removal never lengthens the text. */
  lemma {:induction false} StripTagsShortens(s: string)
    ensures |StripTags(s)| <= |s|
    decreases |s|
  {
    if s != [] {
      StripTagsShortens(s[1..]);
      if s[0] == '<' {
        var k := IndexOf(s[1..], '>');
        if 0 < k < |s| - 1 {
          StripTagsShortens(s[k + 2..]);
        }
      }
    }
  }
}
