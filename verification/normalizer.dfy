/** `TextNormalizer.normalize` (app/core/normalizer.py): whitespace collapse,
    quote canonicalisation and, for Turkish, unit spell-out and removal of the
    dot after a number that ends a clause. */
module Normalizer {
  import opened TextOps

  /** The typographic quotes the normalizer rewrites: ’ “ ” */
  const RightSingleQuote: char := '\U{2019}'
  const LeftDoubleQuote: char := '\U{201C}'
  const RightDoubleQuote: char := '\U{201D}'

  predicate HasCurlyQuote(s: string) {
    RightSingleQuote in s || LeftDoubleQuote in s || RightDoubleQuote in s
  }

  /** `.replace("’", "'").replace("“", '"').replace("”", '"')` */
  function CanonicalQuotes(s: string): string {
    ReplaceAll(ReplaceAll(ReplaceAll(s, [RightSingleQuote], "'"), [LeftDoubleQuote], "\""),
               [RightDoubleQuote], "\"")
  }

  /** The four unit abbreviations, in the order they are replaced, and their spoken forms. */
  const KmPerHour: string := "km/h"
  const Kg: string := "kg"
  const Cm: string := "cm"
  const Mm: string := "mm"
  const KmPerHourWord: string := " kilometre b\U{F6}l\U{FC} saat "
  const KgWord: string := " kilogram "
  const CmWord: string := " santimetre "
  const MmWord: string := " milimetre "

  /** The Turkish unit rewrites, applied in source order on plain substrings. */
  function ExpandUnits(s: string): string {
    ReplaceAll(ReplaceAll(ReplaceAll(ReplaceAll(s, KmPerHour, KmPerHourWord), Kg, KgWord), Cm, CmWord),
               Mm, MmWord)
  }

  /** Length of the run of ASCII digits at the front of `s`. */
  function DigitRun(s: string): (n: nat)
    ensures n <= |s|
    ensures forall i :: 0 <= i < n ==> IsDigit(s[i])
    ensures n < |s| ==> !IsDigit(s[n])
  {
    if s != [] && IsDigit(s[0]) then 1 + DigitRun(s[1..]) else 0
  }

  /** `re.sub(r'(\d+)\.\s', r'\1 ', s)`: a run of digits followed by a dot and
      one whitespace character keeps its digits, loses the dot and gets a
      single space. Scanning resumes after the whitespace character. */
  function DropOrdinalDots(s: string): string
    decreases |s|
  {
    if s == [] then []
    else if IsDigit(s[0]) then
      var n := DigitRun(s);
      var rest := s[n..];
      if |rest| >= 2 && rest[0] == '.' && IsSpace(rest[1]) then s[..n] + " " + DropOrdinalDots(rest[2..])
      else s[..n] + DropOrdinalDots(rest)
    else [s[0]] + DropOrdinalDots(s[1..])
  }

  /** `TextNormalizer.normalize(text, lang)`. */
  function Normalize(text: string, lang: string := "tr"): string {
    if text == [] then []
    else
      var t := CanonicalQuotes(Strip(Collapse(text)));
      if lang == "tr" then DropOrdinalDots(ExpandUnits(t)) else t
  }

  // ------------------------------------------------------------ quote lemmas

  /** Quote canonicalisation is a pointwise character substitution. */
  lemma CanonicalQuotesPointwise(s: string)
    ensures |CanonicalQuotes(s)| == |s|
    ensures forall i :: 0 <= i < |s| ==>
      CanonicalQuotes(s)[i] ==
        if s[i] == RightSingleQuote then '\''
        else if s[i] == LeftDoubleQuote || s[i] == RightDoubleQuote then '"'
        else s[i]
  {
    var a := ReplaceAll(s, [RightSingleQuote], "'");
    ReplaceCharPointwise(s, RightSingleQuote, '\'');
    var b := ReplaceAll(a, [LeftDoubleQuote], "\"");
    ReplaceCharPointwise(a, LeftDoubleQuote, '"');
    ReplaceCharPointwise(b, RightDoubleQuote, '"');
  }

  /** After canonicalisation no typographic quote is left. */
  lemma CanonicalQuotesRemoveCurly(s: string)
    ensures !HasCurlyQuote(CanonicalQuotes(s))
  {
    CanonicalQuotesPointwise(s);
    var r := CanonicalQuotes(s);
    forall i | 0 <= i < |r| ensures r[i] != RightSingleQuote && r[i] != LeftDoubleQuote && r[i] != RightDoubleQuote {
    }
  }

  /** Canonicalising quotes in a clean string keeps it clean (quotes are not whitespace). */
  lemma CanonicalQuotesKeepClean(s: string)
    requires Clean(s)
    ensures Clean(CanonicalQuotes(s))
  {
    CanonicalQuotesPointwise(s);
  }

  /** Canonicalising quotes in a string without typographic quotes changes nothing. */
  lemma CanonicalQuotesIdle(s: string)
    requires !HasCurlyQuote(s)
    ensures CanonicalQuotes(s) == s
  {
    CanonicalQuotesPointwise(s);
  }

  // ------------------------------------------------- substring-absence tools

  /** A pattern that starts with a character absent from `a` can only occur in
      `a + b` inside `b`. */
  lemma {:induction false} ContainsSkipPrefix(a: string, b: string, p: string)
    requires p != [] && p[0] !in a
    requires Contains(a + b, p)
    ensures Contains(b, p)
    decreases |a|
  {
    if a != [] {
      assert (a + b)[0] == a[0];
      assert !StartsWith(a + b, p);
      assert (a + b)[1..] == a[1..] + b;
      ContainsSkipPrefix(a[1..], b, p);
    } else {
      assert a + b == b;
    }
  }

  /** A space-free pattern cannot straddle a space: if `a` ends with a space and
      does not contain `p`, an occurrence of `p` in `a + b` lies in `b`. */
  lemma {:induction false} ContainsSkipPadded(a: string, b: string, p: string)
    requires p != [] && ' ' !in p
    requires a != [] && a[|a| - 1] == ' '
    requires !Contains(a, p)
    requires Contains(a + b, p)
    ensures Contains(b, p)
    decreases |a|
  {
    if |p| <= |a| {
      assert (a + b)[..|p|] == a[..|p|];
    } else {
      assert (a + b)[|a| - 1] == ' ';
    }
    assert (a + b)[1..] == a[1..] + b;
    if |a| == 1 {
      assert a[1..] + b == b;
    } else {
      assert !Contains(a[1..], p);
      ContainsSkipPadded(a[1..], b, p);
    }
  }

  /** A replacement that begins with a space hides no space-free prefix: if the
      output of `str.replace` begins with `p`, so did the input. */
  lemma {:induction false} ReplaceAllPrefix(t: string, pat: string, rep: string, p: string)
    requires pat != [] && rep != [] && rep[0] == ' ' && ' ' !in p
    requires StartsWith(ReplaceAll(t, pat, rep), p)
    ensures StartsWith(t, p)
    decreases |t|
  {
    if p != [] && |t| >= |pat| {
      var out := ReplaceAll(t, pat, rep);
      if t[..|pat|] == pat {
        ReplaceAllHead(t, pat, rep);
        assert false;
      } else {
        assert out == [t[0]] + ReplaceAll(t[1..], pat, rep);
        assert p[0] == t[0];
        assert StartsWith(ReplaceAll(t[1..], pat, rep), p[1..]) by {
          assert ReplaceAll(t[1..], pat, rep)[..|p| - 1] == out[1..|p|];
        }
        assert ' ' !in p[1..];
        ReplaceAllPrefix(t[1..], pat, rep, p[1..]);
        assert t[..|p|] == [t[0]] + t[1..][..|p| - 1];
      }
    }
  }

  /** Where the pattern matches at the front, the output begins with the replacement. */
  lemma ReplaceAllHead(t: string, pat: string, rep: string)
    requires pat != [] && rep != [] && |t| >= |pat| && t[..|pat|] == pat
    ensures ReplaceAll(t, pat, rep) != [] && ReplaceAll(t, pat, rep)[0] == rep[0]
  {
  }

  /** An occurrence needs room. */
  lemma {:induction false} ContainsLength(s: string, p: string)
    requires Contains(s, p)
    ensures |p| <= |s|
    decreases |s|
  {
    if !StartsWith(s, p) { ContainsLength(s[1..], p); }
  }

  /** `str.replace` with a space-padded replacement creates no new occurrence
      of a space-free pattern the replacement does not contain. */
  lemma {:induction false} ReplaceAllNoNewOccurrence(s: string, pat: string, rep: string, p: string)
    requires pat != [] && p != [] && ' ' !in p
    requires |rep| >= 2 && rep[0] == ' ' && rep[|rep| - 1] == ' ' && !Contains(rep, p)
    requires Contains(ReplaceAll(s, pat, rep), p)
    ensures Contains(s, p) || p == pat
    decreases |s|
  {
    var out := ReplaceAll(s, pat, rep);
    if |s| < |pat| {
    } else if s[..|pat|] == pat {
      ContainsSkipPadded(rep, ReplaceAll(s[|pat|..], pat, rep), p);
      ReplaceAllNoNewOccurrence(s[|pat|..], pat, rep, p);
      if Contains(s[|pat|..], p) {
        ContainsShift(s, p, |pat|);
      }
    } else {
      if StartsWith(out, p) {
        ReplaceAllPrefix(s, pat, rep, p);
      } else {
        assert out[1..] == ReplaceAll(s[1..], pat, rep);
        ReplaceAllNoNewOccurrence(s[1..], pat, rep, p);
      }
    }
  }

  lemma ContainsShift(s: string, p: string, k: nat)
    requires k <= |s| && Contains(s[k..], p)
    ensures Contains(s, p)
  {
    var j :| 0 <= j <= |s[k..]| && StartsWith(s[k..][j..], p) by { ContainsWitness(s[k..], p); }
    assert s[k..][j..] == s[k + j..];
    ContainsStartsAt(s, p, k + j);
  }

  /** After replacing `pat` by a space-padded word that does not contain it,
      no occurrence of a space-free `pat` is left. */
  lemma {:induction false} ReplaceAllRemovesAll(s: string, pat: string, rep: string)
    requires pat != [] && ' ' !in pat
    requires |rep| >= 2 && rep[0] == ' ' && rep[|rep| - 1] == ' ' && !Contains(rep, pat)
    ensures !Contains(ReplaceAll(s, pat, rep), pat)
    decreases |s|
  {
    var out := ReplaceAll(s, pat, rep);
    if |s| < |pat| {
      if Contains(s, pat) { ContainsLength(s, pat); }
    } else if s[..|pat|] == pat {
      ReplaceAllRemovesAll(s[|pat|..], pat, rep);
      if Contains(out, pat) {
        ContainsSkipPadded(rep, ReplaceAll(s[|pat|..], pat, rep), pat);
      }
    } else {
      ReplaceAllRemovesAll(s[1..], pat, rep);
      if StartsWith(out, pat) {
        ReplaceAllPrefix(s, pat, rep, pat);
      }
      assert out[1..] == ReplaceAll(s[1..], pat, rep);
    }
  }

  /** Removing ordinal dots creates no occurrence of a pattern that starts
      with neither digits nor whitespace. */
  lemma {:induction false} DropOrdinalDotsNoNewOccurrence(s: string, p: string)
    requires p != [] && forall i :: 0 <= i < |p| ==> !IsDigit(p[i]) && !IsSpace(p[i])
    requires Contains(DropOrdinalDots(s), p)
    ensures Contains(s, p)
    decreases |s|
  {
    var out := DropOrdinalDots(s);
    if s == [] {
    } else if IsDigit(s[0]) {
      var n := DigitRun(s);
      var rest := s[n..];
      if |rest| >= 2 && rest[0] == '.' && IsSpace(rest[1]) {
        assert out == (s[..n] + " ") + DropOrdinalDots(rest[2..]);
        assert p[0] !in s[..n] + " " by {
          assert forall i :: 0 <= i < n + 1 ==> (s[..n] + " ")[i] == ' ' || IsDigit((s[..n] + " ")[i]);
        }
        ContainsSkipPrefix(s[..n] + " ", DropOrdinalDots(rest[2..]), p);
        DropOrdinalDotsNoNewOccurrence(rest[2..], p);
        assert s[n + 2..] == rest[2..];
        ContainsShift(s, p, n + 2);
      } else {
        assert p[0] !in s[..n];
        ContainsSkipPrefix(s[..n], DropOrdinalDots(rest), p);
        DropOrdinalDotsNoNewOccurrence(rest, p);
        ContainsShift(s, p, n);
      }
    } else {
      if StartsWith(out, p) {
        DropOrdinalDotsPrefix(s, p);
      } else {
        DropOrdinalDotsNoNewOccurrence(s[1..], p);
      }
    }
  }

  /** A text starts with `p` when its first character is `p`'s and the
      rest starts with the rest of `p`. */
  lemma StartsWithCons(c: char, t: string, p: string)
    requires p != []
    ensures StartsWith([c] + t, p) <==> c == p[0] && StartsWith(t, p[1..])
  {
    if |p| <= |[c] + t| {
      assert ([c] + t)[..|p|] == [c] + t[..|p| - 1];
      assert p == [p[0]] + p[1..];
    }
  }

  /** If the output of `DropOrdinalDots` starts with a pattern made of neither
      digits nor whitespace, so did its input. */
  lemma {:induction false} DropOrdinalDotsPrefix(s: string, p: string)
    requires forall i :: 0 <= i < |p| ==> !IsDigit(p[i]) && !IsSpace(p[i])
    requires StartsWith(DropOrdinalDots(s), p)
    ensures StartsWith(s, p)
    decreases |s|
  {
    if p != [] && s != [] {
      var out := DropOrdinalDots(s);
      if IsDigit(s[0]) {
        DropOrdinalDotsHead(s);
        assert false;
      } else {
        assert out == [s[0]] + DropOrdinalDots(s[1..]);
        StartsWithCons(s[0], DropOrdinalDots(s[1..]), p);
        assert forall i :: 0 <= i < |p[1..]| ==> p[1..][i] == p[i + 1];
        DropOrdinalDotsPrefix(s[1..], p[1..]);
        StartsWithCons(s[0], s[1..], p);
        assert [s[0]] + s[1..] == s;
      }
    }
  }

  // ------------------------------------------------- facts about the constants

  /** A two-character pattern whose characters never stand side by side in
      `s` does not occur in `s`. */
  lemma {:induction false} PairFreeNotContained(s: string, p: string)
    requires |p| == 2
    requires forall i :: 0 <= i < |s| - 1 ==> !(s[i] == p[0] && s[i + 1] == p[1])
    ensures !Contains(s, p)
    decreases |s|
  {
    if s != [] {
      var t := s[1..];
      forall i | 0 <= i < |t| - 1
        ensures !(t[i] == p[0] && t[i + 1] == p[1])
      {
        assert t[i] == s[i + 1] && t[i + 1] == s[i + 2];
      }
      PairFreeNotContained(t, p);
      if |s| >= 2 {
        assert s[..2][0] == s[0] && s[..2][1] == s[1];
        assert p == [p[0], p[1]];
      }
    }
  }

  /** `kg` does not occur in " kilogram ": its only `k` is followed by `i`. */
  lemma KgWordFreeOfKg()
    ensures !Contains(KgWord, Kg)
  {
    PairFreeNotContained(KgWord, Kg);
  }

  /** `mm` does not occur in " milimetre ": each `m` is followed by a vowel. */
  lemma MmWordFreeOfMm()
    ensures !Contains(MmWord, Mm)
  {
    PairFreeNotContained(MmWord, Mm);
  }

  /** No spoken unit word contains `/`, so none contains `km/h`. */
  lemma WordFreeOfKmPerHour(w: string)
    requires w == KmPerHourWord || w == KgWord || w == CmWord || w == MmWord
    ensures !Contains(w, KmPerHour)
  {
    assert KmPerHour[2] == '/';
    MissingCharNotContained(w, KmPerHour, '/');
  }

  /** The words written after `kg` is expanded have no `g`. */
  lemma WordFreeOfKg(w: string)
    requires w == CmWord || w == MmWord
    ensures !Contains(w, Kg)
  {
    assert Kg[1] == 'g';
    MissingCharNotContained(w, Kg, 'g');
  }

  /** None of the words has a `c`. */
  lemma WordFreeOfCm(w: string)
    requires w == CmWord || w == MmWord
    ensures !Contains(w, Cm)
  {
    assert Cm[0] == 'c';
    MissingCharNotContained(w, Cm, 'c');
  }

  /** The spoken unit words contain no typographic quote. */
  lemma WordsFreeOfCurlyQuotes()
    ensures !HasCurlyQuote(KmPerHourWord) && !HasCurlyQuote(KgWord)
    ensures !HasCurlyQuote(CmWord) && !HasCurlyQuote(MmWord)
  {
    BelowQuotesFree(KmPerHourWord);
    BelowQuotesFree(KgWord);
    BelowQuotesFree(CmWord);
    BelowQuotesFree(MmWord);
  }

  /** A text whose characters all come before U+2000 has no typographic quote. */
  lemma BelowQuotesFree(s: string)
    requires forall i :: 0 <= i < |s| ==> s[i] < '\U{2000}'
    ensures !HasCurlyQuote(s)
  {
  }

  /** A leading digit is kept. */
  lemma DropOrdinalDotsHead(s: string)
    requires s != [] && IsDigit(s[0])
    ensures DropOrdinalDots(s) != [] && DropOrdinalDots(s)[0] == s[0]
  {
  }

  // ------------------------------------------------- the ordinal-dot rule

  /** Position `i` of `s` holds an ordinal dot: a dot right after a digit
      and right before a whitespace character. */
  predicate OrdinalDotAt(s: string, i: int) {
    0 < i && i + 1 < |s| && IsDigit(s[i - 1]) && s[i] == '.' && IsSpace(s[i + 1])
  }

  /** What position `i` of `s` becomes under the ordinal-dot rule, read
      locally: an ordinal dot is deleted, the whitespace character after it
      becomes one space, and every other character is kept. */
  function Piece(s: string, i: nat): string
    requires i < |s|
  {
    if OrdinalDotAt(s, i) then []
    else if OrdinalDotAt(s, i - 1) then " "
    else [s[i]]
  }

  /** The pieces of positions `i` onwards, in order. */
  function Pieces(s: string, i: nat): string
    requires i <= |s|
    decreases |s| - i
  {
    if i == |s| then [] else Piece(s, i) + Pieces(s, i + 1)
  }

  /** Position `j` is a place where the scan of `DropOrdinalDots` can
      resume: read from `j` on, the rule sees what it sees in all of `s`. */
  predicate ScanStart(s: string, j: nat) {
    j == 0 ||
    (j <= |s| && !OrdinalDotAt(s, j) && !OrdinalDotAt(s, j - 1) && (j < |s| ==> !(IsDigit(s[j - 1]) && IsDigit(s[j]))))
  }

  /** A digit that does not follow an ordinal dot is kept, and is no
      ordinal dot itself. */
  lemma PiecesDigitStep(s: string, j: nat)
    requires j < |s| && IsDigit(s[j]) && !OrdinalDotAt(s, j - 1)
    ensures Pieces(s, j) == [s[j]] + Pieces(s, j + 1)
    ensures !OrdinalDotAt(s, j)
  {
    assert !OrdinalDotAt(s, j) by { assert s[j] != '.'; }
    assert Piece(s, j) == [s[j]];
  }

  /** A run of digits is kept as it is. */
  lemma {:induction false} PiecesDigits(s: string, j: nat, n: nat)
    requires j + n <= |s| && !OrdinalDotAt(s, j - 1)
    requires forall i :: j <= i < j + n ==> IsDigit(s[i])
    ensures Pieces(s, j) == s[j..j + n] + Pieces(s, j + n)
    decreases n
  {
    if n == 0 {
      assert s[j..j + n] == [];
    } else {
      PiecesDigitStep(s, j);
      PiecesDigits(s, j + 1, n - 1);
      ConsSlice(s, j, n, Pieces(s, j), Pieces(s, j + 1), Pieces(s, j + n));
    }
  }

  /** Putting `s[j]` in front of the slice after it. */
  lemma ConsSlice(s: string, j: nat, n: nat, a: string, b: string, c: string)
    requires 0 < n && j + n <= |s|
    requires a == [s[j]] + b && b == s[j + 1..j + n] + c
    ensures a == s[j..j + n] + c
  {
    assert s[j..j + n] == [s[j]] + s[j + 1..j + n];
  }

  /** An ordinal dot and the whitespace after it become one space, and the
      scan resumes after them. */
  lemma PiecesAtOrdinalDot(s: string, k: nat)
    requires OrdinalDotAt(s, k)
    ensures Pieces(s, k) == " " + Pieces(s, k + 2)
    ensures ScanStart(s, k + 2)
  {
    assert Piece(s, k) == [];
    assert !OrdinalDotAt(s, k + 1) by { assert !IsDigit(s[k]); }
    assert Piece(s, k + 1) == " ";
    assert !OrdinalDotAt(s, k + 2) by { assert !IsDigit(s[k + 1]); }
  }

  /** The scan resumes after a run of digits not followed by an ordinal dot. */
  lemma ScanStartAfterRun(s: string, k: nat)
    requires 0 < k <= |s| && IsDigit(s[k - 1]) && (k < |s| ==> !IsDigit(s[k])) && !OrdinalDotAt(s, k)
    ensures ScanStart(s, k)
  {
    assert !OrdinalDotAt(s, k - 1) by { assert s[k - 1] != '.'; }
  }

  /** A character other than a digit, where the scan resumes, is kept, and
      the scan resumes after it. */
  lemma PiecesNonDigit(s: string, j: nat)
    requires j < |s| && ScanStart(s, j) && !IsDigit(s[j])
    ensures Pieces(s, j) == [s[j]] + Pieces(s, j + 1)
    ensures ScanStart(s, j + 1)
  {
    assert !OrdinalDotAt(s, j) && !OrdinalDotAt(s, j - 1);
    assert Piece(s, j) == [s[j]];
    assert !OrdinalDotAt(s, j + 1) by { assert !IsDigit(s[j]); }
  }

  /** `DropOrdinalDots` on a string that starts with digits, with the
      ordinal-dot test phrased on positions. */
  lemma DropOrdinalDotsDigits(t: string)
    requires t != [] && IsDigit(t[0])
    ensures var n := DigitRun(t);
      DropOrdinalDots(t) ==
        if OrdinalDotAt(t, n) then t[..n] + " " + DropOrdinalDots(t[n + 2..]) else t[..n] + DropOrdinalDots(t[n..])
  {
    var n := DigitRun(t);
    var rest := t[n..];
    if |rest| >= 2 && rest[0] == '.' && IsSpace(rest[1]) {
      assert OrdinalDotAt(t, n);
      assert rest[2..] == t[n + 2..];
    } else {
      assert !OrdinalDotAt(t, n);
    }
  }

  /** Ordinal dots past the first position are the same in a suffix. */
  lemma OrdinalDotShift(s: string, j: nat, i: nat)
    requires j <= |s| && 0 < i
    ensures OrdinalDotAt(s[j..], i) == OrdinalDotAt(s, j + i)
  {
    if i + 1 < |s| - j {
      assert s[j..][i - 1] == s[j + i - 1] && s[j..][i] == s[j + i] && s[j..][i + 1] == s[j + i + 1];
    }
  }

  /** The step of `DropOrdinalDotsFrom` at a character other than a digit. */
  lemma FromNonDigit(s: string, j: nat)
    requires j < |s| && ScanStart(s, j) && !IsDigit(s[j])
    requires DropOrdinalDots(s[j + 1..]) == Pieces(s, j + 1)
    ensures DropOrdinalDots(s[j..]) == Pieces(s, j)
  {
    PiecesNonDigit(s, j);
    assert s[j..][1..] == s[j + 1..];
  }

  /** `DropOrdinalDots` at a run of `n` digits followed by an ordinal dot. */
  lemma DropAtRunDot(s: string, j: nat, n: nat)
    requires j < |s| && IsDigit(s[j]) && n == DigitRun(s[j..]) && OrdinalDotAt(s, j + n)
    ensures j + n + 2 <= |s|
    ensures DropOrdinalDots(s[j..]) == s[j..j + n] + " " + DropOrdinalDots(s[j + n + 2..])
  {
    var t := s[j..];
    assert t[..n] == s[j..j + n] && t[n + 2..] == s[j + n + 2..];
    OrdinalDotShift(s, j, n);
    DropOrdinalDotsDigits(t);
  }

  /** The run of digits at position `j` of `s`. */
  lemma DigitRunAt(s: string, j: nat)
    requires j <= |s|
    ensures j + DigitRun(s[j..]) <= |s|
    ensures forall i :: j <= i < j + DigitRun(s[j..]) ==> IsDigit(s[i])
    ensures j + DigitRun(s[j..]) < |s| ==> !IsDigit(s[j + DigitRun(s[j..])])
  {
    var n := DigitRun(s[j..]);
    forall i | j <= i < j + n ensures IsDigit(s[i]) {
      assert s[j..][i - j] == s[i];
    }
    if j + n < |s| {
      assert s[j..][n] == s[j + n];
    }
  }

  /** The pieces at a run of `n` digits followed by an ordinal dot. */
  lemma PiecesAtRunDot(s: string, j: nat, n: nat)
    requires j < |s| && !OrdinalDotAt(s, j - 1) && n == DigitRun(s[j..]) && OrdinalDotAt(s, j + n)
    ensures j + n + 2 <= |s|
    ensures Pieces(s, j) == s[j..j + n] + " " + Pieces(s, j + n + 2)
  {
    DigitRunAt(s, j);
    calc {
      Pieces(s, j);
    == { PiecesDigits(s, j, n); }
      s[j..j + n] + Pieces(s, j + n);
    == { PiecesAtOrdinalDot(s, j + n); }
      s[j..j + n] + (" " + Pieces(s, j + n + 2));
    }
  }

  /** The step of `DropOrdinalDotsFrom` at a run of `n` digits followed by
      an ordinal dot. */
  lemma FromOrdinalDot(s: string, j: nat, n: nat)
    requires j < |s| && ScanStart(s, j) && IsDigit(s[j]) && n == DigitRun(s[j..])
    requires OrdinalDotAt(s, j + n)
    requires DropOrdinalDots(s[j + n + 2..]) == Pieces(s, j + n + 2)
    ensures DropOrdinalDots(s[j..]) == Pieces(s, j)
  {
    DropAtRunDot(s, j, n);
    assert !OrdinalDotAt(s, j - 1);
    PiecesAtRunDot(s, j, n);
  }

  /** The step of `DropOrdinalDotsFrom` at a run of `n` digits not followed
      by an ordinal dot. */
  lemma FromPlainRun(s: string, j: nat, n: nat)
    requires j < |s| && ScanStart(s, j) && IsDigit(s[j]) && n == DigitRun(s[j..])
    requires !OrdinalDotAt(s, j + n)
    requires DropOrdinalDots(s[j + n..]) == Pieces(s, j + n)
    ensures DropOrdinalDots(s[j..]) == Pieces(s, j)
  {
    var t := s[j..];
    assert t[..n] == s[j..j + n];
    DropOrdinalDotsDigits(t);
    OrdinalDotShift(s, j, n);
    assert !OrdinalDotAt(s, j - 1);
    PiecesDigits(s, j, n);
    assert t[n..] == s[j + n..];
  }

  /** Where the scan resumes after position `j`: past a character other
      than a digit, past a run of digits and the ordinal dot and whitespace
      after it, or past a run of digits. */
  function NextScan(s: string, j: nat): nat
    requires j < |s|
  {
    if !IsDigit(s[j]) then j + 1
    else if OrdinalDotAt(s, j + DigitRun(s[j..])) then j + DigitRun(s[j..]) + 2
    else j + DigitRun(s[j..])
  }

  /** The scan moves forward to a place where it can resume. */
  lemma NextScanStart(s: string, j: nat)
    requires j < |s| && ScanStart(s, j)
    ensures j < NextScan(s, j) <= |s| && ScanStart(s, NextScan(s, j))
  {
    if !IsDigit(s[j]) {
      PiecesNonDigit(s, j);
    } else {
      var n := DigitRun(s[j..]);
      DigitRunAt(s, j);
      if OrdinalDotAt(s, j + n) {
        PiecesAtOrdinalDot(s, j + n);
      } else {
        ScanStartAfterRun(s, j + n);
      }
    }
  }

  /** One step of the scan builds the pieces of the positions it passes. */
  lemma FromStep(s: string, j: nat)
    requires j < |s| && ScanStart(s, j)
    requires NextScan(s, j) <= |s| && DropOrdinalDots(s[NextScan(s, j)..]) == Pieces(s, NextScan(s, j))
    ensures DropOrdinalDots(s[j..]) == Pieces(s, j)
  {
    if !IsDigit(s[j]) {
      FromNonDigit(s, j);
    } else if OrdinalDotAt(s, j + DigitRun(s[j..])) {
      FromOrdinalDot(s, j, DigitRun(s[j..]));
    } else {
      FromPlainRun(s, j, DigitRun(s[j..]));
    }
  }

  /** From a place where the scan can resume, `DropOrdinalDots` builds the
      pieces of the rest of the string. */
  lemma {:induction false} DropOrdinalDotsFrom(s: string, j: nat)
    requires j <= |s| && ScanStart(s, j)
    ensures DropOrdinalDots(s[j..]) == Pieces(s, j)
    decreases |s| - j
  {
    if j == |s| {
      assert s[j..] == [];
    } else {
      NextScanStart(s, j);
      DropOrdinalDotsFrom(s, NextScan(s, j));
      FromStep(s, j);
    }
  }

  /** The ordinal-dot rule for every input: the result is the input with
      each dot that ends a run of digits and precedes a whitespace
      character deleted, that whitespace character turned into one space,
      and every other character kept, in order. */
  lemma DropOrdinalDotsRule(s: string)
    ensures DropOrdinalDots(s) == Pieces(s, 0)
  {
    DropOrdinalDotsFrom(s, 0);
  }

  /** The first character of a non-empty string is kept. */
  lemma DropOrdinalDotsFirst(s: string)
    requires s != []
    ensures DropOrdinalDots(s) != [] && DropOrdinalDots(s)[0] == s[0]
  {
  }

  /** A string holds no ordinal dot. */
  predicate NoOrdinalDot(s: string) {
    forall i :: 0 <= i < |s| ==> !OrdinalDotAt(s, i)
  }

  /** Digits, one space, then a string without ordinal dots: none is made. */
  lemma NoOrdinalDotAfterSpace(a: string, d: string)
    requires forall k :: 0 <= k < |a| ==> IsDigit(a[k])
    requires NoOrdinalDot(d)
    ensures NoOrdinalDot(a + " " + d)
  {
    var out := a + " " + d;
    forall i ensures !OrdinalDotAt(out, i) {
      if OrdinalDotAt(out, i) {
        if i > |a| + 1 {
          assert out[i - 1] == d[i - |a| - 2] && out[i] == d[i - |a| - 1] && out[i + 1] == d[i - |a|];
          assert OrdinalDotAt(d, i - |a| - 1);
        }
      }
    }
  }

  /** Digits, then a string without ordinal dots that does not start with a
      digit, nor with a dot and a whitespace character: none is made. */
  lemma NoOrdinalDotAfterRun(a: string, d: string)
    requires forall k :: 0 <= k < |a| ==> IsDigit(a[k])
    requires NoOrdinalDot(d)
    requires d != [] ==> !IsDigit(d[0])
    requires |d| >= 2 ==> !(d[0] == '.' && IsSpace(d[1]))
    ensures NoOrdinalDot(a + d)
  {
    var out := a + d;
    forall i ensures !OrdinalDotAt(out, i) {
      if OrdinalDotAt(out, i) {
        if i > |a| {
          assert out[i - 1] == d[i - |a| - 1] && out[i] == d[i - |a|] && out[i + 1] == d[i - |a| + 1];
          assert OrdinalDotAt(d, i - |a|);
        }
      }
    }
  }

  /** A character other than a digit, then a string without ordinal dots:
      none is made. */
  lemma NoOrdinalDotAfterChar(c: char, d: string)
    requires !IsDigit(c) && NoOrdinalDot(d)
    ensures NoOrdinalDot([c] + d)
  {
    var out := [c] + d;
    forall i ensures !OrdinalDotAt(out, i) {
      if OrdinalDotAt(out, i) {
        if i > 1 {
          assert out[i - 1] == d[i - 2] && out[i] == d[i - 1] && out[i + 1] == d[i];
          assert OrdinalDotAt(d, i - 1);
        }
      }
    }
  }

  /** No ordinal dot is left: in the result no digit is followed by a dot
      and a whitespace character. */
  lemma {:induction false} DropOrdinalDotsLeavesNone(s: string)
    ensures NoOrdinalDot(DropOrdinalDots(s))
    decreases |s|
  {
    if s == [] {
    } else if IsDigit(s[0]) {
      var n := DigitRun(s);
      var rest := s[n..];
      if |rest| >= 2 && rest[0] == '.' && IsSpace(rest[1]) {
        DropOrdinalDotsLeavesNone(rest[2..]);
        NoOrdinalDotAfterSpace(s[..n], DropOrdinalDots(rest[2..]));
      } else {
        var d := DropOrdinalDots(rest);
        DropOrdinalDotsLeavesNone(rest);
        if rest != [] {
          DropOrdinalDotsFirst(rest);
        }
        if |rest| >= 2 {
          DropOrdinalDotsFirst(rest[1..]);
          assert d == [rest[0]] + DropOrdinalDots(rest[1..]);
        }
        NoOrdinalDotAfterRun(s[..n], d);
      }
    } else {
      DropOrdinalDotsLeavesNone(s[1..]);
      NoOrdinalDotAfterChar(s[0], DropOrdinalDots(s[1..]));
    }
  }

  /** Without ordinal dots every piece is its own character. */
  lemma {:induction false} PiecesIdle(s: string, j: nat)
    requires j <= |s| && NoOrdinalDot(s)
    ensures Pieces(s, j) == s[j..]
    decreases |s| - j
  {
    if j < |s| {
      assert Piece(s, j) == [s[j]];
      PiecesIdle(s, j + 1);
      assert s[j..] == [s[j]] + s[j + 1..];
    }
  }

  /** Dropping ordinal dots a second time changes nothing. */
  lemma DropOrdinalDotsIdempotent(s: string)
    ensures DropOrdinalDots(DropOrdinalDots(s)) == DropOrdinalDots(s)
  {
    var t := DropOrdinalDots(s);
    DropOrdinalDotsLeavesNone(s);
    DropOrdinalDotsRule(t);
    PiecesIdle(t, 0);
  }

  // ------------------------------------------------------- headline lemmas

  /** For every language, the output holds no typographic quote: they become
      ASCII quotes and no later rule brings them back. */
  lemma NormalizeHasNoCurlyQuotes(text: string, lang: string)
    ensures !HasCurlyQuote(Normalize(text, lang))
  {
    if text != [] {
      var t := CanonicalQuotes(Strip(Collapse(text)));
      CanonicalQuotesRemoveCurly(Strip(Collapse(text)));
      if lang == "tr" {
        WordsFreeOfCurlyQuotes();
        TurkishRulesKeepOut(t, RightSingleQuote);
        TurkishRulesKeepOut(t, LeftDoubleQuote);
        TurkishRulesKeepOut(t, RightDoubleQuote);
      }
    }
  }

  /** The Turkish rules add only spaces and the letters of the unit words. */
  lemma TurkishRulesKeepOut(t: string, c: char)
    requires c !in t && c != ' '
    requires c !in KmPerHourWord && c !in KgWord && c !in CmWord && c !in MmWord
    ensures c !in DropOrdinalDots(ExpandUnits(t))
  {
    ExpandUnitsKeepsOut(t, c);
    DropOrdinalDotsKeepsOut(ExpandUnits(t), c);
  }

  /** Unit spell-out adds only the characters of the four words. */
  lemma ExpandUnitsKeepsOut(s: string, c: char)
    requires c !in s
    requires c !in KmPerHourWord && c !in KgWord && c !in CmWord && c !in MmWord
    ensures c !in ExpandUnits(s)
  {
    var u1 := ReplaceAll(s, KmPerHour, KmPerHourWord);
    ReplaceAllKeepsOut(s, KmPerHour, KmPerHourWord, c);
    var u2 := ReplaceAll(u1, Kg, KgWord);
    ReplaceAllKeepsOut(u1, Kg, KgWord, c);
    var u3 := ReplaceAll(u2, Cm, CmWord);
    ReplaceAllKeepsOut(u2, Cm, CmWord, c);
    ReplaceAllKeepsOut(u3, Mm, MmWord, c);
  }

  /** Removing ordinal dots adds only spaces. */
  lemma {:induction false} DropOrdinalDotsKeepsOut(s: string, c: char)
    requires c !in s && c != ' '
    ensures c !in DropOrdinalDots(s)
    decreases |s|
  {
    if s != [] {
      if IsDigit(s[0]) {
        var n := DigitRun(s);
        var rest := s[n..];
        assert forall i :: 0 <= i < |rest| ==> rest[i] == s[n + i];
        if |rest| >= 2 && rest[0] == '.' && IsSpace(rest[1]) {
          DropOrdinalDotsKeepsOut(rest[2..], c);
        } else {
          DropOrdinalDotsKeepsOut(rest, c);
        }
      } else {
        DropOrdinalDotsKeepsOut(s[1..], c);
      }
    }
  }

  /** For every language other than Turkish the output is clean: no whitespace
      at either end, every whitespace a single plain space. */
  lemma NormalizeCleanUnlessTurkish(text: string, lang: string)
    requires lang != "tr"
    ensures Clean(Normalize(text, lang))
  {
    if text != [] {
      CollapseStripClean(text);
      CanonicalQuotesKeepClean(Strip(Collapse(text)));
    }
  }

  /** For every language other than Turkish, normalizing twice is normalizing once. */
  lemma NormalizeIdempotentUnlessTurkish(text: string, lang: string)
    requires lang != "tr"
    ensures Normalize(Normalize(text, lang), lang) == Normalize(text, lang)
  {
    var once := Normalize(text, lang);
    if once != [] {
      NormalizeCleanUnlessTurkish(text, lang);
      NormalizeHasNoCurlyQuotes(text, lang);
      CollapseStripOfClean(once);
      CanonicalQuotesIdle(once);
    }
  }

  /** Replacing with a non-empty text never empties a non-empty string. */
  lemma ReplaceAllNonEmpty(s: string, pat: string, rep: string)
    requires pat != [] && rep != [] && s != []
    ensures ReplaceAll(s, pat, rep) != []
  {
  }

  /** Dropping ordinal dots never empties a non-empty string. */
  lemma DropOrdinalDotsNonEmpty(s: string)
    requires s != []
    ensures DropOrdinalDots(s) != []
  {
  }

  /** The output is empty exactly when the input is empty or only
      whitespace, whatever the language. */
  lemma NormalizeEmptyIffBlank(text: string, lang: string)
    ensures Normalize(text, lang) == [] <==> IsBlank(text)
  {
    if text != [] {
      var c := Strip(Collapse(text));
      StripSpec(Collapse(text));
      CollapseBlank(text);
      CanonicalQuotesPointwise(c);
      if lang == "tr" && c != [] {
        var u0 := CanonicalQuotes(c);
        var u1 := ReplaceAll(u0, KmPerHour, KmPerHourWord);
        var u2 := ReplaceAll(u1, Kg, KgWord);
        var u3 := ReplaceAll(u2, Cm, CmWord);
        ReplaceAllNonEmpty(u0, KmPerHour, KmPerHourWord);
        ReplaceAllNonEmpty(u1, Kg, KgWord);
        ReplaceAllNonEmpty(u2, Cm, CmWord);
        ReplaceAllNonEmpty(u3, Mm, MmWord);
        DropOrdinalDotsNonEmpty(ExpandUnits(u0));
      }
    }
  }

  /** The first two unit rewrites leave neither `km/h` nor `kg`. */
  lemma FirstRewritesRemoveAll(t: string)
    ensures !Contains(ReplaceAll(ReplaceAll(t, KmPerHour, KmPerHourWord), Kg, KgWord), KmPerHour)
    ensures !Contains(ReplaceAll(ReplaceAll(t, KmPerHour, KmPerHourWord), Kg, KgWord), Kg)
  {
    var u1 := ReplaceAll(t, KmPerHour, KmPerHourWord);
    KmPerHourRewriteRemoves(t);
    KgRewriteRemoves(u1);
  }

  lemma KmPerHourRewriteRemoves(t: string)
    ensures !Contains(ReplaceAll(t, KmPerHour, KmPerHourWord), KmPerHour)
  {
    WordFreeOfKmPerHour(KmPerHourWord);
    ReplaceAllRemovesAll(t, KmPerHour, KmPerHourWord);
  }

  lemma KgRewriteRemoves(u: string)
    requires !Contains(u, KmPerHour)
    ensures !Contains(ReplaceAll(u, Kg, KgWord), KmPerHour)
    ensures !Contains(ReplaceAll(u, Kg, KgWord), Kg)
  {
    KgWordFreeOfKg();
    ReplaceAllRemovesAll(u, Kg, KgWord);
    KgRewriteKeepsOut(u);
  }

  lemma KgRewriteKeepsOut(u: string)
    requires !Contains(u, KmPerHour)
    ensures !Contains(ReplaceAll(u, Kg, KgWord), KmPerHour)
  {
    WordFreeOfKmPerHour(KgWord);
    NoOccurrenceKept(u, Kg, KgWord, KmPerHour);
  }

  /** Spelling out `cm` leaves no `cm`. */
  lemma CmRewriteRemovesCm(u: string)
    ensures !Contains(ReplaceAll(u, Cm, CmWord), Cm)
  {
    WordFreeOfCm(CmWord);
    ReplaceAllRemovesAll(u, Cm, CmWord);
  }

  /** Spelling out `cm` brings back no `km/h`. */
  lemma CmRewriteKeepsOutKmPerHour(u: string)
    requires !Contains(u, KmPerHour)
    ensures !Contains(ReplaceAll(u, Cm, CmWord), KmPerHour)
  {
    WordFreeOfKmPerHour(CmWord);
    NoOccurrenceKept(u, Cm, CmWord, KmPerHour);
  }

  /** Spelling out `cm` brings back no `kg`. */
  lemma CmRewriteKeepsOutKg(u: string)
    requires !Contains(u, Kg)
    ensures !Contains(ReplaceAll(u, Cm, CmWord), Kg)
  {
    WordFreeOfKg(CmWord);
    NoOccurrenceKept(u, Cm, CmWord, Kg);
  }

  /** Spelling out `mm` leaves no `mm`. */
  lemma MmRewriteRemovesMm(u: string)
    ensures !Contains(ReplaceAll(u, Mm, MmWord), Mm)
  {
    MmWordFreeOfMm();
    ReplaceAllRemovesAll(u, Mm, MmWord);
  }

  /** Spelling out `mm` brings back no `km/h`. */
  lemma MmRewriteKeepsOutKmPerHour(u: string)
    requires !Contains(u, KmPerHour)
    ensures !Contains(ReplaceAll(u, Mm, MmWord), KmPerHour)
  {
    WordFreeOfKmPerHour(MmWord);
    NoOccurrenceKept(u, Mm, MmWord, KmPerHour);
  }

  /** Spelling out `mm` brings back no `kg`. */
  lemma MmRewriteKeepsOutKg(u: string)
    requires !Contains(u, Kg)
    ensures !Contains(ReplaceAll(u, Mm, MmWord), Kg)
  {
    WordFreeOfKg(MmWord);
    NoOccurrenceKept(u, Mm, MmWord, Kg);
  }

  /** Spelling out `mm` brings back no `cm`. */
  lemma MmRewriteKeepsOutCm(u: string)
    requires !Contains(u, Cm)
    ensures !Contains(ReplaceAll(u, Mm, MmWord), Cm)
  {
    WordFreeOfCm(MmWord);
    NoOccurrenceKept(u, Mm, MmWord, Cm);
  }

  /** After the four unit rewrites no abbreviation is left, even inside a word:
      each rewrite removes its own pattern and writes none of the earlier ones. */
  lemma ExpandUnitsRemovesAll(t: string)
    ensures !Contains(ExpandUnits(t), KmPerHour) && !Contains(ExpandUnits(t), Kg)
    ensures !Contains(ExpandUnits(t), Cm) && !Contains(ExpandUnits(t), Mm)
  {
    var u2 := ReplaceAll(ReplaceAll(t, KmPerHour, KmPerHourWord), Kg, KgWord);
    var u3 := ReplaceAll(u2, Cm, CmWord);
    FirstRewritesRemoveAll(t);
    CmRewriteKeepsOutKmPerHour(u2);
    CmRewriteKeepsOutKg(u2);
    CmRewriteRemovesCm(u2);
    MmRewriteKeepsOutKmPerHour(u3);
    MmRewriteKeepsOutKg(u3);
    MmRewriteKeepsOutCm(u3);
    MmRewriteRemovesMm(u3);
  }

  /** Removing ordinal dots never brings back a unit abbreviation. */
  lemma DropOrdinalDotsKeepsUnitsOut(s: string, p: string)
    requires p == KmPerHour || p == Kg || p == Cm || p == Mm
    requires !Contains(s, p)
    ensures !Contains(DropOrdinalDots(s), p)
  {
    assert forall i :: 0 <= i < |p| ==> !IsDigit(p[i]) && !IsSpace(p[i]);
    if Contains(DropOrdinalDots(s), p) {
      DropOrdinalDotsNoNewOccurrence(s, p);
    }
  }

  /** For Turkish, no unit abbreviation survives: every occurrence of `km/h`,
      `kg`, `cm` and `mm`, even inside a word, has been spelled out. */
  lemma NormalizeSpellsOutAllUnits(text: string)
    ensures !Contains(Normalize(text, "tr"), KmPerHour)
    ensures !Contains(Normalize(text, "tr"), Kg)
    ensures !Contains(Normalize(text, "tr"), Cm)
    ensures !Contains(Normalize(text, "tr"), Mm)
  {
    if text != [] {
      var u := ExpandUnits(CanonicalQuotes(Strip(Collapse(text))));
      ExpandUnitsRemovesAll(CanonicalQuotes(Strip(Collapse(text))));
      DropOrdinalDotsKeepsUnitsOut(u, KmPerHour);
      DropOrdinalDotsKeepsUnitsOut(u, Kg);
      DropOrdinalDotsKeepsUnitsOut(u, Cm);
      DropOrdinalDotsKeepsUnitsOut(u, Mm);
    }
  }

  lemma NoOccurrenceKept(s: string, pat: string, rep: string, p: string)
    requires pat != [] && p != [] && p != pat && ' ' !in p
    requires |rep| >= 2 && rep[0] == ' ' && rep[|rep| - 1] == ' ' && !Contains(rep, p)
    requires !Contains(s, p)
    ensures !Contains(ReplaceAll(s, pat, rep), p)
  {
    if Contains(ReplaceAll(s, pat, rep), p) {
      ReplaceAllNoNewOccurrence(s, pat, rep, p);
    }
  }

  // ------------------------------------------ Turkish output is not a fixpoint

  /** Text without digits has no ordinal dot to drop. */
  lemma {:induction false} DropOrdinalDotsNoDigits(s: string)
    requires forall i :: 0 <= i < |s| ==> !IsDigit(s[i])
    ensures DropOrdinalDots(s) == s
    decreases |s|
  {
    if s != [] {
      DropOrdinalDotsNoDigits(s[1..]);
    }
  }

  lemma KgWordFreeOfMm()
    ensures !Contains(KgWord, Mm)
  {
    PairFreeNotContained(KgWord, Mm);
  }

  /** The rewrites that follow `kg` leave " kilogram " alone. */
  lemma KgWordSurvivesLaterRules()
    ensures ReplaceAll(ReplaceAll(KgWord, Cm, CmWord), Mm, MmWord) == KgWord
    ensures DropOrdinalDots(KgWord) == KgWord
  {
    KgWordKeepsCmRule(KgWord);
    KgWordKeepsMmRule(KgWord);
    KgWordKeepsDots(KgWord);
  }

  lemma KgWordKeepsDots(w: string)
    requires w == KgWord
    ensures DropOrdinalDots(w) == w
  {
    assert forall i :: 0 <= i < |w| ==> !IsDigit(w[i]);
    DropOrdinalDotsNoDigits(w);
  }

  lemma KgWordKeepsCmRule(w: string)
    requires w == KgWord
    ensures ReplaceAll(w, Cm, CmWord) == w
  {
    assert Cm[0] == 'c';
    MissingCharNotContained(w, Cm, 'c');
    ReplaceAllAbsent(w, Cm, CmWord);
  }

  lemma KgWordKeepsMmRule(w: string)
    requires w == KgWord
    ensures ReplaceAll(w, Mm, MmWord) == w
  {
    KgWordFreeOfMm();
    ReplaceAllAbsent(w, Mm, MmWord);
  }

  lemma ExpandUnitsOfKg()
    ensures ExpandUnits("kg") == KgWord
  {
    assert KmPerHour[2] == '/';
    MissingCharNotContained("kg", KmPerHour, '/');
    ReplaceAllAbsent("kg", KmPerHour, KmPerHourWord);
    assert "kg"[2..] == [];
    assert ReplaceAll("kg", Kg, KgWord) == KgWord;
    KgWordSurvivesLaterRules();
  }

  /** When the Turkish rules have nothing to rewrite in the cleaned text,
      the cleaned text is the result. */
  lemma NormalizeTurkishFixed(text: string, t: string)
    requires text != [] && CanonicalQuotes(Strip(Collapse(text))) == t
    requires ExpandUnits(t) == t && DropOrdinalDots(t) == t
    ensures Normalize(text, "tr") == t
  {
  }

  lemma StripKgWord(w: string)
    requires w == KgWord
    ensures Strip(Collapse(w)) == "kilogram"
  {
    CollapseSingleSpaced(w);
    KgWordPadded(w, "kilogram");
  }

  lemma KgWordPadded(w: string, k: string)
    requires w == KgWord && k == "kilogram"
    ensures Strip(w) == k
  {
    assert w == [' '] + k + [' '];
    StripPadded(k);
  }

  /** The Turkish pipeline on a clean text without typographic quotes. */
  lemma NormalizeTurkishClean(text: string)
    requires text != [] && Clean(text) && !HasCurlyQuote(text)
    ensures Normalize(text, "tr") == DropOrdinalDots(ExpandUnits(text))
  {
    CollapseStripOfClean(text);
    CanonicalQuotesIdle(text);
  }

  /** Turkish "kg" becomes " kilogram ", spaces included. */
  lemma NormalizeKg()
    ensures Normalize("kg") == KgWord
  {
    NormalizeTurkishClean("kg");
    ExpandUnitsOfKg();
    KgWordSurvivesLaterRules();
  }

  lemma KilogramFreeOfSlashAndC()
    ensures !Contains("kilogram", KmPerHour) && !Contains("kilogram", Cm)
  {
    assert KmPerHour[2] == '/';
    MissingCharNotContained("kilogram", KmPerHour, '/');
    PairFreeNotContained("kilogram", Cm);
  }

  lemma KilogramFreeOfKgAndMm()
    ensures !Contains("kilogram", Kg) && !Contains("kilogram", Mm)
  {
    PairFreeNotContained("kilogram", Kg);
    PairFreeNotContained("kilogram", Mm);
  }

  lemma ExpandUnitsOfKilogram(t: string)
    requires t == "kilogram"
    ensures ExpandUnits(t) == t
  {
    KilogramFreeOfSlashAndC();
    KilogramFreeOfKgAndMm();
    ReplaceAllAbsent("kilogram", KmPerHour, KmPerHourWord);
    ReplaceAllAbsent("kilogram", Kg, KgWord);
    ReplaceAllAbsent("kilogram", Cm, CmWord);
    ReplaceAllAbsent("kilogram", Mm, MmWord);
  }

  lemma KilogramHasNoQuotesOrDigits(t: string)
    requires t == "kilogram"
    ensures CanonicalQuotes(t) == t && DropOrdinalDots(t) == t
  {
    CanonicalQuotesIdle(t);
    DropOrdinalDotsNoDigits(t);
  }

  /** Re-normalizing " kilogram " strips the spaces the unit rule added. */
  lemma NormalizeKgWord(w: string)
    requires w == KgWord
    ensures Normalize(w, "tr") == "kilogram"
  {
    StripKgWord(w);
    var t := Strip(Collapse(w));
    KilogramHasNoQuotesOrDigits(t);
    ExpandUnitsOfKilogram(t);
    NormalizeTurkishFixed(w, t);
  }

  /** For Turkish, normalizing twice can differ from normalizing once: the
      unit rule pads its words with spaces that a second pass strips. */
  lemma TurkishNotIdempotent()
    ensures Normalize(Normalize("kg", "tr"), "tr") != Normalize("kg", "tr")
  {
    NormalizeKg();
    NormalizeKgWord(Normalize("kg", "tr"));
  }

  /** The dot after a clause-ending number goes; the number stays. */
  lemma OrdinalDotExample()
    ensures Normalize("1. kat", "tr") == "1 kat"
  {
    NormalizeTurkishClean("1. kat");
    ExpandUnitsOfOrdinalExample();
    DropOrdinalDotExample();
  }

  lemma DropOrdinalDotExample()
    ensures DropOrdinalDots("1. kat") == "1 kat"
  {
    var s := "1. kat";
    assert DigitRun(s) == 1;
    var rest := s[1..];
    assert rest[2..] == "kat";
    DropOrdinalDotsNoDigits("kat");
    assert s[..1] + " " + "kat" == "1 kat";
  }

  lemma ExpandUnitsOfOrdinalExample()
    ensures ExpandUnits("1. kat") == "1. kat"
  {
    assert KmPerHour[2] == '/';
    MissingCharNotContained("1. kat", KmPerHour, '/');
    PairFreeNotContained("1. kat", Kg);
    PairFreeNotContained("1. kat", Cm);
    PairFreeNotContained("1. kat", Mm);
    ReplaceAllAbsent("1. kat", KmPerHour, KmPerHourWord);
    ReplaceAllAbsent("1. kat", Kg, KgWord);
    ReplaceAllAbsent("1. kat", Cm, CmWord);
    ReplaceAllAbsent("1. kat", Mm, MmWord);
  }
}
