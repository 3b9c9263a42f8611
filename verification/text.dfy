/** String primitives shared by the server-side text layer: Python's notion of
    whitespace, `str.strip`, `re.sub(r'\s+', ' ', s)`, `str.replace`, substring
    tests, ASCII lower-casing, `float(s)` and `str(n)`. */
module TextOps {
  import opened Wrappers

  /** Python's `str.isspace()`: the characters `\s` matches in a str pattern
      and the characters `str.strip()` removes. */
  predicate IsSpace(c: char) {
    || c == ' '
    || ('\t' <= c <= '\r')
    || ('\U{1C}' <= c <= '\U{1F}')
    || c == '\U{85}' || c == '\U{A0}' || c == '\U{1680}'
    || ('\U{2000}' <= c <= '\U{200A}')
    || c == '\U{2028}' || c == '\U{2029}' || c == '\U{202F}' || c == '\U{205F}'
    || c == '\U{3000}'
  }

  /** True when every character is whitespace (the empty string included):
      Python's `not s.strip()`. */
  predicate IsBlank(s: string) {
    forall i :: 0 <= i < |s| ==> IsSpace(s[i])
  }

  /** Every whitespace character is a plain space and no two are adjacent. */
  predicate SingleSpaced(s: string) {
    && (forall i :: 0 <= i < |s| && IsSpace(s[i]) ==> s[i] == ' ')
    && (forall i :: 0 <= i < |s| - 1 ==> !(IsSpace(s[i]) && IsSpace(s[i + 1])))
  }

  /** No whitespace at either end. */
  predicate Trimmed(s: string) {
    s != [] ==> !IsSpace(s[0]) && !IsSpace(s[|s| - 1])
  }

  /** The shape `re.sub(r'\s+', ' ', s).strip()` leaves behind. */
  predicate Clean(s: string) {
    SingleSpaced(s) && Trimmed(s)
  }

  function LeadingSpaces(s: string): (n: nat)
    ensures n <= |s|
    ensures forall i :: 0 <= i < n ==> IsSpace(s[i])
    ensures n < |s| ==> !IsSpace(s[n])
  {
    if s != [] && IsSpace(s[0]) then 1 + LeadingSpaces(s[1..]) else 0
  }

  function TrailingSpaces(s: string): (n: nat)
    ensures n <= |s|
    ensures forall i :: |s| - n <= i < |s| ==> IsSpace(s[i])
    ensures n < |s| ==> !IsSpace(s[|s| - n - 1])
  {
    if s != [] && IsSpace(s[|s| - 1]) then 1 + TrailingSpaces(s[..|s| - 1]) else 0
  }

  /** Python's `s.strip()`: whitespace is dropped at both ends (what the
      result is, is stated by `StripSpec`). */
  function Strip(s: string): string
    decreases |s|
  {
    if s != [] && IsSpace(s[0]) then Strip(s[1..])
    else if s != [] && IsSpace(s[|s| - 1]) then Strip(s[..|s| - 1])
    else s
  }

  /** `Strip(s)` is the slice of `s` that starts at its first non-space
      character and ends at its last one: it is trimmed, everything outside
      it is whitespace, and it is empty exactly when `s` is blank. */
  lemma StripSpec(s: string)
    ensures Trimmed(Strip(s))
    ensures LeadingSpaces(s) + |Strip(s)| <= |s|
    ensures Strip(s) == s[LeadingSpaces(s)..LeadingSpaces(s) + |Strip(s)|]
    ensures forall i :: 0 <= i < |s| && !(LeadingSpaces(s) <= i < LeadingSpaces(s) + |Strip(s)|) ==> IsSpace(s[i])
    ensures Strip(s) == [] <==> IsBlank(s)
  {
    StripSlice(s);
    StripOutside(s);
  }

  lemma {:induction false} StripSlice(s: string)
    ensures Trimmed(Strip(s))
    ensures LeadingSpaces(s) + |Strip(s)| <= |s|
    ensures Strip(s) == s[LeadingSpaces(s)..LeadingSpaces(s) + |Strip(s)|]
    decreases |s|
  {
    if s != [] && IsSpace(s[0]) {
      StripSlice(s[1..]);
      SliceOfTail(s, LeadingSpaces(s[1..]), LeadingSpaces(s[1..]) + |Strip(s[1..])|);
    } else if s != [] && IsSpace(s[|s| - 1]) {
      StripSlice(s[..|s| - 1]);
      assert LeadingSpaces(s[..|s| - 1]) == 0 by { assert s[..|s| - 1][0] == s[0]; }
      SliceOfFront(s, |Strip(s[..|s| - 1])|);
    }
  }

  lemma SliceOfTail(s: string, a: nat, b: nat)
    requires s != [] && a <= b <= |s| - 1
    ensures s[1..][a..b] == s[a + 1..b + 1]
  {
  }

  lemma SliceOfFront(s: string, b: nat)
    requires b <= |s| - 1
    ensures s[..|s| - 1][0..b] == s[0..b]
  {
  }

  lemma {:induction false} StripOutside(s: string)
    ensures forall i :: 0 <= i < |s| && !(LeadingSpaces(s) <= i < LeadingSpaces(s) + |Strip(s)|) ==> IsSpace(s[i])
    ensures Strip(s) == [] <==> IsBlank(s)
    decreases |s|
  {
    if s != [] && IsSpace(s[0]) {
      StripOutside(s[1..]);
      assert forall i :: 1 <= i < |s| ==> s[i] == s[1..][i - 1];
    } else if s != [] && IsSpace(s[|s| - 1]) {
      StripOutside(s[..|s| - 1]);
      assert LeadingSpaces(s[..|s| - 1]) == 0 by { assert s[..|s| - 1][0] == s[0]; }
    }
  }

  /** `re.sub(r'\s+', ' ', s)`: every maximal run of whitespace becomes one space. */
  function Collapse(s: string): (r: string)
    ensures SingleSpaced(r)
    ensures |r| <= |s|
    ensures s == [] <==> r == []
    ensures s != [] ==> (IsSpace(s[0]) <==> IsSpace(r[0]))
    ensures s != [] ==> (IsSpace(s[|s| - 1]) <==> IsSpace(r[|r| - 1]))
    decreases |s|
  {
    if s == [] then []
    else if IsSpace(s[0]) then
      var n := LeadingSpaces(s);
      var rest := Collapse(s[n..]);
      assert n < |s| ==> !IsSpace(s[n..][0]);
      " " + rest
    else
      var rest := Collapse(s[1..]);
      [s[0]] + rest
  }

  /** Does `s` begin with `p`? */
  predicate StartsWith(s: string, p: string) {
    |p| <= |s| && s[..|p|] == p
  }

  /** Does `s` end with `p`? */
  predicate EndsWith(s: string, p: string) {
    |p| <= |s| && s[|s| - |p|..] == p
  }

  /** Python's `sub in s`. */
  predicate Contains(s: string, sub: string)
    decreases |s|
  {
    StartsWith(s, sub) || (s != [] && Contains(s[1..], sub))
  }

  /** Python's `s.replace(pat, rep)`: leftmost, non-overlapping occurrences. */
  function ReplaceAll(s: string, pat: string, rep: string): string
    requires pat != []
    decreases |s|
  {
    if |s| < |pat| then s
    else if s[..|pat|] == pat then rep + ReplaceAll(s[|pat|..], pat, rep)
    else [s[0]] + ReplaceAll(s[1..], pat, rep)
  }

  /** `s.lower()` restricted to ASCII letters. */
  function AsciiLower(s: string): (r: string)
    ensures |r| == |s|
    ensures forall i :: 0 <= i < |s| ==>
      r[i] == if 'A' <= s[i] <= 'Z' then (s[i] as int + 32) as char else s[i]
  {
    if s == [] then []
    else [if 'A' <= s[0] <= 'Z' then (s[0] as int + 32) as char else s[0]] + AsciiLower(s[1..])
  }

  predicate IsDigit(c: char) {
    '0' <= c <= '9'
  }

  predicate AllDigits(s: string) {
    forall i :: 0 <= i < |s| ==> IsDigit(s[i])
  }

  /** The number a string of decimal digits denotes. */
  function DigitsValue(d: string): nat
    requires AllDigits(d)
  {
    if d == [] then 0
    else 10 * DigitsValue(d[..|d| - 1]) + (d[|d| - 1] as int - '0' as int)
  }

  function Pow10(n: nat): (r: nat)
    ensures r >= 1
  {
    if n == 0 then 1 else 10 * Pow10(n - 1)
  }

  /** Index of the first `c` in `s`, or `|s|` when there is none. */
  function IndexOf(s: string, c: char): (k: nat)
    ensures k <= |s|
    ensures forall i :: 0 <= i < k ==> s[i] != c
    ensures k < |s| ==> s[k] == c
  {
    if s == [] then 0 else if s[0] == c then 0 else 1 + IndexOf(s[1..], c)
  }

  /** Index of the first exponent marker `e`/`E`, or `|s|`. */
  function IndexOfExponent(s: string): (k: nat)
    ensures k <= |s|
    ensures forall i :: 0 <= i < k ==> s[i] != 'e' && s[i] != 'E'
    ensures k < |s| ==> s[k] == 'e' || s[k] == 'E'
  {
    if s == [] then 0 else if s[0] == 'e' || s[0] == 'E' then 0 else 1 + IndexOfExponent(s[1..])
  }

  /** A decimal mantissa: digits, optionally one `.` and more digits, at least one digit in all. */
  function ParseMantissa(m: string): Option<real> {
    var dot := IndexOf(m, '.');
    var whole := m[..dot];
    var frac := if dot < |m| then m[dot + 1..] else [];
    if AllDigits(whole) && AllDigits(frac) && |whole| + |frac| > 0 then
      Some(DigitsValue(whole) as real + DigitsValue(frac) as real / Pow10(|frac|) as real)
    else None
  }

  /** An exponent: an optional sign and at least one digit. */
  function ParseExponent(x: string): Option<int> {
    if x != [] && (x[0] == '+' || x[0] == '-') then
      var d := x[1..];
      if d != [] && AllDigits(d) then Some(if x[0] == '-' then -(DigitsValue(d) as int) else DigitsValue(d)) else None
    else if x != [] && AllDigits(x) then Some(DigitsValue(x))
    else None
  }

  function ParseUnsigned(t: string): Option<real> {
    var e := IndexOfExponent(t);
    match ParseMantissa(t[..e])
    case None => None
    case Some(m) =>
      if e == |t| then Some(m)
      else
        match ParseExponent(t[e + 1..])
        case None => None
        case Some(x) => Some(if x >= 0 then m * Pow10(x) as real else m / Pow10(-x) as real)
  }

  /** Python's `float(s)` on finite decimal literals: surrounding whitespace,
      an optional sign, a mantissa and an optional exponent. `None` stands for
      the `ValueError` Python raises. */
  function ParseFloat(s: string): Option<real> {
    var t := Strip(s);
    if t != [] && (t[0] == '+' || t[0] == '-') then
      match ParseUnsigned(t[1..])
      case Some(v) => Some(if t[0] == '-' then -v else v)
      case None => None
    else ParseUnsigned(t)
  }

  function DigitChar(d: nat): char
    requires d < 10
  {
    ('0' as int + d) as char
  }

  /** Python's `str(n)` for a natural number. */
  function NatToString(n: nat): (r: string)
    ensures r != [] && AllDigits(r)
    decreases n
  {
    if n < 10 then [DigitChar(n)] else NatToString(n / 10) + [DigitChar(n % 10)]
  }

  /** Python's `str(i)` for an integer. */
  function IntToString(i: int): string {
    if i < 0 then "-" + NatToString(-i) else NatToString(i)
  }

  /** Python's `int(s)` on what `str(i)` prints: an optional minus sign
      and decimal digits. */
  function ParseInt(s: string): Option<int> {
    if s != [] && s[0] == '-' && s[1..] != [] && AllDigits(s[1..]) then Some(-(DigitsValue(s[1..]) as int))
    else if s != [] && AllDigits(s) then Some(DigitsValue(s) as int)
    else None
  }

  /** Python's `sep.join(parts)`. */
  function Join(parts: seq<string>, sep: string): string {
    if parts == [] then []
    else if |parts| == 1 then parts[0]
    else parts[0] + sep + Join(parts[1..], sep)
  }

  // ---------------------------------------------------------------- lemmas

  /** `str(n)` reads back as `n`: decimal printing and parsing are inverse. */
  lemma {:induction false} NatToStringRoundTrip(n: nat)
    ensures DigitsValue(NatToString(n)) == n
    decreases n
  {
    var r := NatToString(n);
    if n >= 10 {
      NatToStringRoundTrip(n / 10);
      assert r[..|r| - 1] == NatToString(n / 10);
    }
  }

  /** `str(i)` reads back as `i`. */
  lemma IntToStringRoundTrip(i: int)
    ensures ParseInt(IntToString(i)) == Some(i)
  {
    if i < 0 {
      var d := NatToString(-i);
      NatToStringRoundTrip(-i);
      var s := "-" + d;
      assert s[0] == '-' && s[1..] == d;
      assert ParseInt(s) == Some(-(DigitsValue(d) as int));
    } else {
      var d := NatToString(i);
      NatToStringRoundTrip(i);
      assert d[0] != '-';
      assert ParseInt(d) == Some(DigitsValue(d) as int);
    }
  }

  /** A string of digits parses, as a float, to the number it denotes. */
  lemma ParseFloatOfDigits(d: string)
    requires d != [] && AllDigits(d)
    ensures ParseFloat(d) == Some(DigitsValue(d) as real)
  {
    StripTrimmed(d);
    assert !(d[0] == '+' || d[0] == '-');
    ParseUnsignedOfDigits(d);
  }

  lemma ParseUnsignedOfDigits(d: string)
    requires d != [] && AllDigits(d)
    ensures ParseUnsigned(d) == Some(DigitsValue(d) as real)
  {
    IndexOfExponentAbsent(d);
    assert d[..|d|] == d;
    ParseMantissaOfDigits(d);
  }

  lemma ParseMantissaOfDigits(d: string)
    requires d != [] && AllDigits(d)
    ensures ParseMantissa(d) == Some(DigitsValue(d) as real)
  {
    IndexOfAbsent(d, '.');
    assert d[..|d|] == d;
    assert DigitsValue([]) == 0;
  }

  /** A digit string followed by a letter other than an exponent marker is
      not a float: `float("500m")` raises. */
  lemma ParseFloatRejectsLetterSuffix(d: string, c: char)
    requires AllDigits(d)
    requires 'a' <= c <= 'z' && c != 'e'
    ensures ParseFloat(d + [c]) == None
  {
    var s := d + [c];
    assert s[|s| - 1] == c;
    assert LeadingSpaces(s) == 0 by {
      if d != [] { assert s[0] == d[0]; } else { assert s[0] == c; }
    }
    assert TrailingSpaces(s) == 0;
    assert Strip(s) == s;
    assert IndexOfExponent(s) == |s| by {
      forall i | 0 <= i < |s| ensures s[i] != 'e' && s[i] != 'E' {
        if i < |d| { assert s[i] == d[i]; }
      }
      IndexOfExponentAbsent(s);
    }
    assert s[..|s|] == s;
    var dot := IndexOf(s, '.');
    assert dot == |s| by {
      forall i | 0 <= i < |s| ensures s[i] != '.' {
        if i < |d| { assert s[i] == d[i]; }
      }
      IndexOfAbsent(s, '.');
    }
    assert !AllDigits(s[..dot]) by { assert s[..dot][|s| - 1] == c; }
  }

  /** The characters a finite decimal literal may use. */
  predicate FloatChar(c: char) {
    IsDigit(c) || c == '.' || c == 'e' || c == 'E' || c == '+' || c == '-' || IsSpace(c)
  }

  /** The model's `float(s)` accepts only strings written with digits, `.`,
      an exponent marker, signs and whitespace: any other character makes
      it raise. Python's `float()` also accepts `_` between digits and the
      words `inf`, `infinity` and `nan`, which this alphabet leaves out. */
  lemma ParseFloatAlphabet(s: string)
    requires ParseFloat(s).Some?
    ensures forall i :: 0 <= i < |s| ==> FloatChar(s[i])
  {
    StrippedAlphabet(Strip(s));
    StripAlphabet(s);
  }

  /** A character outside the model's float alphabet makes `float()` raise. */
  lemma ParseFloatRejects(s: string, c: char)
    requires c in s && !FloatChar(c)
    ensures ParseFloat(s).None?
  {
    if ParseFloat(s).Some? {
      ParseFloatAlphabet(s);
    }
  }

  /** Whitespace is a float character, so `s` uses only float characters when
      its stripped form does. */
  lemma StripAlphabet(s: string)
    requires forall i :: 0 <= i < |Strip(s)| ==> FloatChar(Strip(s)[i])
    ensures forall i :: 0 <= i < |s| ==> FloatChar(s[i])
  {
    var a := LeadingSpaces(s);
    var t := Strip(s);
    StripSpec(s);
    forall i | 0 <= i < |s| ensures FloatChar(s[i]) {
      if a <= i < a + |t| {
        assert s[i] == t[i - a];
      } else {
        assert IsSpace(s[i]);
      }
    }
  }

  lemma StrippedAlphabet(t: string)
    requires t != [] && (t[0] == '+' || t[0] == '-') ==> ParseUnsigned(t[1..]).Some?
    requires !(t != [] && (t[0] == '+' || t[0] == '-')) ==> ParseUnsigned(t).Some?
    ensures forall i :: 0 <= i < |t| ==> FloatChar(t[i])
  {
    if t != [] && (t[0] == '+' || t[0] == '-') {
      ParseUnsignedAlphabet(t[1..]);
      forall i | 1 <= i < |t| ensures FloatChar(t[i]) {
        assert t[i] == t[1..][i - 1];
      }
    } else {
      ParseUnsignedAlphabet(t);
    }
  }

  /** An accepted unsigned literal has an accepted mantissa before the
      exponent marker and an accepted exponent after it, if any. */
  lemma ParseUnsignedParts(t: string)
    requires ParseUnsigned(t).Some?
    ensures var e := IndexOfExponent(t);
      ParseMantissa(t[..e]).Some? && (e < |t| ==> ParseExponent(t[e + 1..]).Some?)
  {
  }

  lemma ParseUnsignedAlphabet(t: string)
    requires ParseUnsigned(t).Some?
    ensures forall i :: 0 <= i < |t| ==> FloatChar(t[i])
  {
    var e := IndexOfExponent(t);
    ParseUnsignedParts(t);
    ParseMantissaAlphabet(t[..e]);
    if e < |t| {
      ParseExponentAlphabet(t[e + 1..]);
    }
    forall i | 0 <= i < |t| ensures FloatChar(t[i]) {
      if i < e {
        assert t[i] == t[..e][i];
      } else if i > e {
        assert t[i] == t[e + 1..][i - e - 1];
      }
    }
  }

  lemma ParseMantissaAlphabet(m: string)
    requires ParseMantissa(m).Some?
    ensures forall i :: 0 <= i < |m| ==> IsDigit(m[i]) || m[i] == '.'
  {
    var dot := IndexOf(m, '.');
    forall i | 0 <= i < |m| ensures IsDigit(m[i]) || m[i] == '.' {
      if i < dot { assert m[i] == m[..dot][i]; }
      else if i > dot { assert m[i] == m[dot + 1..][i - dot - 1]; }
    }
  }

  lemma ParseExponentAlphabet(x: string)
    requires ParseExponent(x).Some?
    ensures forall i :: 0 <= i < |x| ==> IsDigit(x[i]) || x[i] == '+' || x[i] == '-'
  {
    if x[0] == '+' || x[0] == '-' {
      forall i | 1 <= i < |x| ensures IsDigit(x[i]) {
        assert x[i] == x[1..][i - 1];
      }
    }
  }

  lemma {:induction false} IndexOfAbsent(s: string, c: char)
    requires forall i :: 0 <= i < |s| ==> s[i] != c
    ensures IndexOf(s, c) == |s|
  {
    if s != [] { IndexOfAbsent(s[1..], c); }
  }

  lemma {:induction false} IndexOfExponentAbsent(s: string)
    requires forall i :: 0 <= i < |s| ==> s[i] != 'e' && s[i] != 'E'
    ensures IndexOfExponent(s) == |s|
  {
    if s != [] { IndexOfExponentAbsent(s[1..]); }
  }

  /** A single-spaced string's tail is single-spaced, and a leading
      whitespace character is one space followed by a non-space. */
  lemma SingleSpacedTail(s: string)
    requires SingleSpaced(s) && s != []
    ensures SingleSpaced(s[1..])
    ensures IsSpace(s[0]) ==> s[0] == ' ' && (|s| > 1 ==> !IsSpace(s[1..][0]))
  {
    var t := s[1..];
    assert forall i :: 0 <= i < |t| ==> t[i] == s[i + 1];
  }

  /** Without a run of whitespace at the front, collapsing proceeds one
      character at a time. */
  lemma CollapseCons(s: string)
    requires s != [] && (IsSpace(s[0]) ==> s[0] == ' ' && (|s| > 1 ==> !IsSpace(s[1..][0])))
    ensures Collapse(s) == [s[0]] + Collapse(s[1..])
  {
    if IsSpace(s[0]) {
      assert LeadingSpaces(s[1..]) == 0;
      assert LeadingSpaces(s) == 1;
    }
  }

  /** Collapsing whitespace changes nothing in a string that is already single-spaced. */
  lemma {:induction false} CollapseSingleSpaced(s: string)
    requires SingleSpaced(s)
    ensures Collapse(s) == s
    decreases |s|
  {
    if s != [] {
      SingleSpacedTail(s);
      CollapseCons(s);
      CollapseSingleSpaced(s[1..]);
      assert s == [s[0]] + s[1..];
    }
  }

  /** Collapsing whitespace keeps a text blank exactly when it was blank. */
  lemma {:induction false} CollapseBlank(s: string)
    ensures IsBlank(Collapse(s)) <==> IsBlank(s)
    decreases |s|
  {
    if s != [] {
      if IsSpace(s[0]) {
        var n := LeadingSpaces(s);
        CollapseBlank(s[n..]);
        var r := Collapse(s[n..]);
        assert Collapse(s) == " " + r;
        BlankAfterSpace(r);
        BlankAfterSpaces(s, n);
      } else {
        assert !IsSpace(Collapse(s)[0]);
      }
    }
  }

  /** The per-character reading of whitespace collapsing: a character that
      is not whitespace is kept, a whitespace character that opens a run
      becomes one space, and one that continues a run is dropped.
      `afterSpace` says whether the character before `t` was whitespace. */
  function Squeeze(t: string, afterSpace: bool): string
    decreases |t|
  {
    if t == [] then []
    else (if !IsSpace(t[0]) then [t[0]] else if afterSpace then [] else " ") + Squeeze(t[1..], IsSpace(t[0]))
  }

  /** Inside a run of whitespace nothing is emitted. */
  lemma {:induction false} SqueezeRun(u: string, k: nat)
    requires k <= |u| && forall j :: 0 <= j < k ==> IsSpace(u[j])
    ensures Squeeze(u, true) == Squeeze(u[k..], true)
    decreases k
  {
    if k > 0 {
      assert forall j :: 0 <= j < k - 1 ==> u[1..][j] == u[j + 1];
      SqueezeRun(u[1..], k - 1);
      assert u[1..][k - 1..] == u[k..];
    }
  }

  /** Once the run is over, having been in it makes no difference. */
  lemma SqueezeAfterRun(u: string)
    requires u == [] || !IsSpace(u[0])
    ensures Squeeze(u, true) == Squeeze(u, false)
  {
  }

  /** `Collapse` is the per-character rule of `Squeeze`: every character
      that is not whitespace survives in order, and each maximal run of
      whitespace leaves exactly one space. */
  lemma {:induction false} CollapseRule(s: string)
    ensures Collapse(s) == Squeeze(s, false)
    decreases |s|
  {
    if s != [] {
      if !IsSpace(s[0]) {
        CollapseRule(s[1..]);
      } else {
        var n := LeadingSpaces(s);
        CollapseRule(s[n..]);
        SqueezeRun(s[1..], n - 1);
        assert s[1..][n - 1..] == s[n..];
        SqueezeAfterRun(s[n..]);
      }
    }
  }

  /** A space in front does not change blankness. */
  lemma BlankAfterSpace(r: string)
    ensures IsBlank(" " + r) <==> IsBlank(r)
  {
    assert forall i :: 0 <= i < |r| ==> (" " + r)[i + 1] == r[i];
  }

  /** Nor does a run of whitespace in front. */
  lemma BlankAfterSpaces(s: string, n: nat)
    requires n <= |s| && forall i :: 0 <= i < n ==> IsSpace(s[i])
    ensures IsBlank(s) <==> IsBlank(s[n..])
  {
    assert forall i :: 0 <= i < |s[n..]| ==> s[n..][i] == s[n + i];
  }

  /** Stripping a string with no whitespace at either end changes nothing. */
  lemma StripTrimmed(s: string)
    requires Trimmed(s)
    ensures Strip(s) == s
  {
    assert LeadingSpaces(s) == 0;
    assert TrailingSpaces(s) == 0;
  }

  /** A slice of a single-spaced string is single-spaced. */
  lemma SingleSpacedSlice(s: string, i: nat, j: nat)
    requires i <= j <= |s|
    requires SingleSpaced(s)
    ensures SingleSpaced(s[i..j])
  {
    var t := s[i..j];
    forall k | 0 <= k < |t| - 1 ensures !(IsSpace(t[k]) && IsSpace(t[k + 1])) {
      assert t[k] == s[i + k] && t[k + 1] == s[i + k + 1];
    }
  }

  /** `re.sub(r'\s+', ' ', s).strip()` always yields a clean string. */
  lemma CollapseStripClean(s: string)
    ensures Clean(Strip(Collapse(s)))
  {
    var c := Collapse(s);
    StripSpec(c);
    SingleSpacedSlice(c, LeadingSpaces(c), LeadingSpaces(c) + |Strip(c)|);
  }

  /** ... and leaves a clean string unchanged. */
  lemma CollapseStripOfClean(s: string)
    requires Clean(s)
    ensures Strip(Collapse(s)) == s
  {
    CollapseSingleSpaced(s);
    StripTrimmed(s);
  }

  /** Replacing a single character by another is a pointwise substitution. */
  lemma {:induction false} ReplaceCharPointwise(s: string, a: char, b: char)
    ensures |ReplaceAll(s, [a], [b])| == |s|
    ensures forall i :: 0 <= i < |s| ==>
      ReplaceAll(s, [a], [b])[i] == if s[i] == a then b else s[i]
    decreases |s|
  {
    if |s| >= 1 {
      ReplaceCharPointwise(s[1..], a, b);
      assert s[..1] == [s[0]];
    }
  }

  /** `str.replace` never produces a character that is in neither the input
      nor the replacement. */
  lemma {:induction false} ReplaceAllKeepsOut(s: string, pat: string, rep: string, c: char)
    requires pat != []
    requires c !in s && c !in rep
    ensures c !in ReplaceAll(s, pat, rep)
    decreases |s|
  {
    if |s| >= |pat| {
      if s[..|pat|] == pat {
        ReplaceAllKeepsOut(s[|pat|..], pat, rep, c);
      } else {
        ReplaceAllKeepsOut(s[1..], pat, rep, c);
      }
    }
  }

  /** A pattern with a character that `s` lacks does not occur in `s`. */
  lemma {:induction false} MissingCharNotContained(s: string, p: string, c: char)
    requires c in p && c !in s
    ensures !Contains(s, p)
    decreases |s|
  {
    if s != [] {
      MissingCharNotContained(s[1..], p, c);
    }
  }

  /** Stripping a trimmed text padded with one space on each side gives the text back. */
  lemma StripPadded(w: string)
    requires w != [] && Trimmed(w)
    ensures Strip([' '] + w + [' ']) == w
  {
    var s := [' '] + w + [' '];
    var u := w + [' '];
    assert s[1..] == u;
    assert u[0] == w[0] && u[..|u| - 1] == w;
    assert Strip(u) == Strip(w);
    assert Strip(w) == w;
  }

  /** An occurrence at a known position is an occurrence. */
  lemma {:induction false} ContainsStartsAt(s: string, p: string, k: nat)
    requires k <= |s| && StartsWith(s[k..], p)
    ensures Contains(s, p)
    decreases k
  {
    if k > 0 {
      assert s[1..][k - 1..] == s[k..];
      ContainsStartsAt(s[1..], p, k - 1);
    } else {
      assert s[0..] == s;
    }
  }
  /** An occurrence has a position. */
  lemma {:induction false} ContainsWitness(s: string, p: string)
    requires Contains(s, p)
    ensures exists j :: 0 <= j <= |s| && StartsWith(s[j..], p)
    decreases |s|
  {
    if StartsWith(s, p) {
      assert s[0..] == s;
    } else {
      ContainsWitness(s[1..], p);
      var j :| 0 <= j <= |s[1..]| && StartsWith(s[1..][j..], p);
      assert s[1..][j..] == s[j + 1..];
    }
  }
  /** Deleting every `x` (`s.replace(x, "")`) leaves no `x` and keeps every
      other character that was there. */
  lemma {:induction false} DeleteChar(s: string, x: char)
    ensures x !in ReplaceAll(s, [x], [])
    ensures forall c :: c != x && c in s ==> c in ReplaceAll(s, [x], [])
    decreases |s|
  {
    if s != [] {
      DeleteChar(s[1..], x);
      assert s == [s[0]] + s[1..];
    }
  }

  /** `str.replace` of a pattern that does not occur changes nothing. */
  lemma {:induction false} ReplaceAllAbsent(s: string, pat: string, rep: string)
    requires pat != []
    requires !Contains(s, pat)
    ensures ReplaceAll(s, pat, rep) == s
    decreases |s|
  {
    if |s| >= |pat| {
      assert s[..|pat|] != pat;
      ReplaceAllAbsent(s[1..], pat, rep);
    }
  }

  /** A single character occurs as a substring exactly when it is an element. */
  lemma {:induction false} ContainsChar(s: string, c: char)
    ensures Contains(s, [c]) <==> c in s
    decreases |s|
  {
    if s != [] {
      ContainsChar(s[1..], c);
      assert s == [s[0]] + s[1..];
    }
  }
}
