/**
 Python's `float(text)` on strings, as `atof` in src/chart.py uses it.

 The accepted syntax is: surrounding white space, an optional sign, then a
 decimal literal `digitpart ["." [digitpart]] | "." digitpart` with an
 optional exponent `("e" | "E") [sign] digitpart`, where a digitpart is a
 digit run in which single underscores may separate digits. The words `inf`,
 `infinity` and `nan` (any letter case, optional sign) are accepted too; they
 have no exact value and are recognised separately by `SpecialFloatWord`.
 */
module FloatSyntax {
  import opened Wrappers

  predicate IsDigit(c: char) {
    '0' <= c <= '9'
  }

  predicate IsSign(c: char) {
    c == '+' || c == '-'
  }

  predicate NoDigit(s: string) {
    forall i :: 0 <= i < |s| ==> !IsDigit(s[i])
  }

  /**
   The characters `float` ignores at both ends of its argument: the ASCII
   space and `\t` to `\r`, and the white space characters above U+007F (which
   `float` turns into spaces first). The ASCII separators U+001C to U+001F,
   white space to `str.isspace`, are kept, so `float` rejects them.
   */
  predicate IsSpace(c: char) {
    || c == ' ' || '\t' <= c <= '\r'
    || c == '\U{85}' || c == '\U{A0}' || c == '\U{1680}'
    || '\U{2000}' <= c <= '\U{200A}' || c == '\U{2028}' || c == '\U{2029}'
    || c == '\U{202F}' || c == '\U{205F}' || c == '\U{3000}'
  }

  function LeadingSpaces(s: string): (n: nat)
    ensures n <= |s|
    ensures forall i :: 0 <= i < n ==> IsSpace(s[i])
    ensures n == |s| || !IsSpace(s[n])
  {
    if |s| > 0 && IsSpace(s[0]) then 1 + LeadingSpaces(s[1..]) else 0
  }

  function TrailingSpaces(s: string): (n: nat)
    ensures n <= |s|
    ensures forall i :: |s| - n <= i < |s| ==> IsSpace(s[i])
    ensures n == |s| || !IsSpace(s[|s| - n - 1])
  {
    if |s| > 0 && IsSpace(s[|s| - 1]) then 1 + TrailingSpaces(s[..|s| - 1]) else 0
  }

  /** `s.strip()`: the text between the leading and the trailing white space. */
  function Strip(s: string): (t: string)
    ensures LeadingSpaces(s) + |t| <= |s| && t == s[LeadingSpaces(s)..LeadingSpaces(s) + |t|]
    ensures forall i :: 0 <= i < LeadingSpaces(s) ==> IsSpace(s[i])
    ensures forall i :: LeadingSpaces(s) + |t| <= i < |s| ==> IsSpace(s[i])
    ensures |t| > 0 ==> !IsSpace(t[0]) && !IsSpace(t[|t| - 1])
    ensures |s| > 0 && !IsSpace(s[0]) && !IsSpace(s[|s| - 1]) ==> t == s
  {
    var l := LeadingSpaces(s);
    var rest := s[l..];
    var t := rest[..|rest| - TrailingSpaces(rest)];
    assert t == s[l..l + |t|];
    t
  }

  function DigitValue(c: char): nat
    requires IsDigit(c)
  {
    c as int - '0' as int
  }

  /** The value of the digits of `s` read as a decimal integer; `_` separators are skipped. */
  function IntValue(s: string): nat
  {
    if |s| == 0 then 0
    else if IsDigit(s[|s| - 1]) then IntValue(s[..|s| - 1]) * 10 + DigitValue(s[|s| - 1])
    else IntValue(s[..|s| - 1])
  }

  /** The value of the digits of `s` read as the fraction after a decimal point. */
  function FracValue(s: string): (v: real)
    ensures 0.0 <= v
  {
    if |s| == 0 then 0.0
    else if IsDigit(s[0]) then (DigitValue(s[0]) as real + FracValue(s[1..])) / 10.0
    else FracValue(s[1..])
  }

  function Pow10(n: nat): (p: real)
    ensures p >= 1.0
  {
    if n == 0 then 1.0 else 10.0 * Pow10(n - 1)
  }

  /** 10 raised to a possibly negative exponent. */
  function Scale(e: int): real
  {
    if e >= 0 then Pow10(e) else 1.0 / Pow10(-e)
  }

  /** The end of the digitpart continuing at `i`: further digits, or an `_` followed by a digit. */
  function DigitPartEnd(s: string, i: nat): (j: nat)
    requires i <= |s|
    ensures i <= j <= |s|
    decreases |s| - i
  {
    if i < |s| && IsDigit(s[i]) then DigitPartEnd(s, i + 1)
    else if i + 1 < |s| && s[i] == '_' && IsDigit(s[i + 1]) then DigitPartEnd(s, i + 2)
    else i
  }

  /** The end of the digitpart starting at `i`, or `i` when no digit starts there. */
  function DigitPart(s: string, i: nat): (j: nat)
    requires i <= |s|
    ensures i <= j <= |s|
    ensures j > i <==> i < |s| && IsDigit(s[i])
  {
    if i < |s| && IsDigit(s[i]) then DigitPartEnd(s, i + 1) else i
  }

  /** An unsigned decimal literal with optional exponent, occupying all of `b`. */
  function ParseUnsigned(b: string): Option<real>
  {
    var a := DigitPart(b, 0);
    var hasDot := a < |b| && b[a] == '.';
    var f := if hasDot then DigitPart(b, a + 1) else a;
    var hasMantissa := if hasDot then a > 0 || f > a + 1 else a > 0;
    if !hasMantissa then None
    else
      var mantissa := IntValue(b[..a]) as real + (if hasDot then FracValue(b[a + 1..f]) else 0.0);
      if f == |b| then Some(mantissa)
      else if b[f] == 'e' || b[f] == 'E' then
        var k := if f + 1 < |b| && IsSign(b[f + 1]) then f + 2 else f + 1;
        var e := DigitPart(b, k);
        if e > k && e == |b| then
          var magnitude := IntValue(b[k..e]);
          var exponent: int := if f + 1 < |b| && b[f + 1] == '-' then -(magnitude as int) else magnitude;
          Some(mantissa * Scale(exponent))
        else None
      else None
  }

  /**
   `float(s)` for every `s` that is not a special word and satisfies
   `DigitsAscii`: the exact value, or None where Python raises ValueError.
   */
  function ParseFloat(s: string): Option<real>
  {
    var t := Strip(s);
    if |t| > 0 && IsSign(t[0]) then
      match ParseUnsigned(t[1..])
      case None => None
      case Some(v) => Some(if t[0] == '-' then -v else v)
    else ParseUnsigned(t)
  }

  function LowerAscii(s: string): (r: string)
    ensures |r| == |s|
  {
    seq(|s|, i requires 0 <= i < |s| => if 'A' <= s[i] <= 'Z' then (s[i] as int + 32) as char else s[i])
  }

  /** The infinities and not-a-number words `float` accepts, which have no exact value. */
  predicate SpecialFloatWord(s: string) {
    var t := Strip(s);
    var u := if |t| > 0 && IsSign(t[0]) then t[1..] else t;
    LowerAscii(u) in {"inf", "infinity", "nan"}
  }

  /**
   A character above U+007F that is not white space. `float` reads it as a
   digit when Unicode classes it as a decimal digit (U+0661, ARABIC-INDIC
   DIGIT ONE, reads as 1) and rejects the text otherwise. The model has no
   digit table: its `float` rejects every such character.
   */
  predicate IsWide(c: char) {
    c > '\U{7F}' && !IsSpace(c)
  }

  /** The characters of a decimal numeral: digits, signs, the point, the underscore and the exponent marks. */
  predicate NumeralChar(c: char) {
    IsDigit(c) || IsSign(c) || c == '.' || c == '_' || c == 'e' || c == 'E'
  }

  /** An ASCII character that no accepted numeral holds. */
  predicate OutsideNumerals(c: char) {
    c <= '\U{7F}' && !IsSpace(c) && !NumeralChar(c)
  }

  /**
   Text that Python's `float` reads as `ParseFloat` does. Either it holds no
   wide character, so the two agree character for character, or it holds a
   character no numeral holds, so `float` rejects it whatever its wide
   characters read as.
   */
  predicate DigitsAscii(s: string) {
    || (forall i :: 0 <= i < |s| ==> !IsWide(s[i]))
    || (exists i :: 0 <= i < |s| && OutsideNumerals(s[i]))
  }

  /** Text made of ASCII characters satisfies `DigitsAscii`. */
  lemma AsciiDigitsAscii(s: string)
    requires forall i :: 0 <= i < |s| ==> s[i] <= '\U{7F}'
    ensures DigitsAscii(s)
  {
  }

  /** Text without surrounding space that starts with neither a sign nor a letter of "inf" or "nan" is no special word. */
  lemma NotSpecialByHead(x: string)
    requires |x| > 0 && !IsSpace(x[0]) && !IsSpace(x[|x| - 1])
    requires !IsSign(x[0]) && x[0] != 'i' && x[0] != 'I' && x[0] != 'n' && x[0] != 'N'
    ensures !SpecialFloatWord(x)
  {
    assert Strip(x) == x;
    var l := LowerAscii(x);
    assert l[0] == if 'A' <= x[0] <= 'Z' then (x[0] as int + 32) as char else x[0];
    assert l != "inf" && l != "infinity" && l != "nan" by {
      assert "inf"[0] == 'i' && "infinity"[0] == 'i' && "nan"[0] == 'n';
    }
  }

  /** Every accepted literal contains a digit, so text without ASCII digits is never a number. */
  lemma NoDigitIsNotNumber(s: string)
    requires NoDigit(s)
    ensures ParseFloat(s) == None
  {
    var t := Strip(s);
    assert NoDigit(t);
    if |t| > 0 && IsSign(t[0]) {
      UnsignedNeedsDigit(t[1..]);
    } else {
      UnsignedNeedsDigit(t);
    }
  }

  /** A bare digitpart is read as an integer. */
  lemma UnsignedInteger(b: string)
    requires |b| > 0 && DigitPart(b, 0) == |b|
    ensures ParseUnsigned(b) == Some(IntValue(b) as real)
  {
    assert b[..|b|] == b;
  }

  /** A digitpart, a point and a digitpart (one of them non-empty) are read as integer plus fraction. */
  lemma UnsignedDotted(b: string, a: nat)
    requires DigitPart(b, 0) == a < |b| && b[a] == '.'
    requires DigitPart(b, a + 1) == |b|
    requires a > 0 || a + 1 < |b|
    ensures ParseUnsigned(b) == Some(IntValue(b[..a]) as real + FracValue(b[a + 1..]))
  {
    assert b[a + 1..|b|] == b[a + 1..];
  }

  lemma UnsignedNeedsDigit(b: string)
    requires NoDigit(b)
    ensures ParseUnsigned(b) == None
  {
  }

  /**
   `float` accepts only white space around numeral characters. So it rejects
   text holding a wide character or any other ASCII character.
   */
  lemma AcceptedCharacters(s: string)
    ensures ParseFloat(s).Some? ==> forall i :: 0 <= i < |s| ==> IsSpace(s[i]) || NumeralChar(s[i])
  {
    if ParseFloat(s).Some? {
      var t := Strip(s);
      SignedCharacters(t);
      AroundStripped(s, t);
    }
  }

  /** An optional sign before an accepted unsigned literal: numeral characters only. */
  lemma SignedCharacters(t: string)
    requires (if |t| > 0 && IsSign(t[0]) then ParseUnsigned(t[1..]) else ParseUnsigned(t)).Some?
    ensures forall k :: 0 <= k < |t| ==> NumeralChar(t[k])
  {
    if |t| > 0 && IsSign(t[0]) {
      var b := t[1..];
      UnsignedCharacters(b);
      assert forall k :: 1 <= k < |t| ==> t[k] == b[k - 1];
    } else {
      UnsignedCharacters(t);
    }
  }

  /** When the stripped text has only numeral characters, the text has only those and white space. */
  lemma AroundStripped(s: string, t: string)
    requires t == Strip(s)
    requires forall k :: 0 <= k < |t| ==> NumeralChar(t[k])
    ensures forall i :: 0 <= i < |s| ==> IsSpace(s[i]) || NumeralChar(s[i])
  {
    var n := LeadingSpaces(s);
    forall i | 0 <= i < |s|
      ensures IsSpace(s[i]) || NumeralChar(s[i])
    {
      if n <= i < n + |t| {
        assert s[i] == t[i - n];
      }
    }
  }

  /** Every character of an accepted unsigned literal is a numeral character. */
  lemma UnsignedCharacters(b: string)
    requires ParseUnsigned(b).Some?
    ensures forall k :: 0 <= k < |b| ==> NumeralChar(b[k])
  {
    var a := DigitPart(b, 0);
    DigitPartCharacters(b, 0);
    var hasDot := a < |b| && b[a] == '.';
    var f := if hasDot then DigitPart(b, a + 1) else a;
    if hasDot {
      DigitPartCharacters(b, a + 1);
    }
    if f < |b| {
      var k := if f + 1 < |b| && IsSign(b[f + 1]) then f + 2 else f + 1;
      DigitPartCharacters(b, k);
    }
  }

  /** A digitpart holds only digits and underscores. */
  lemma {:induction false} DigitPartCharacters(s: string, i: nat)
    requires i <= |s|
    ensures forall k :: i <= k < DigitPart(s, i) ==> IsDigit(s[k]) || s[k] == '_'
  {
    if i < |s| && IsDigit(s[i]) {
      DigitPartEndCharacters(s, i + 1);
    }
  }

  lemma {:induction false} DigitPartEndCharacters(s: string, i: nat)
    requires i <= |s|
    ensures forall k :: i <= k < DigitPartEnd(s, i) ==> IsDigit(s[k]) || s[k] == '_'
    decreases |s| - i
  {
    if i < |s| && IsDigit(s[i]) {
      DigitPartEndCharacters(s, i + 1);
    } else if i + 1 < |s| && s[i] == '_' && IsDigit(s[i + 1]) {
      DigitPartEndCharacters(s, i + 2);
    }
  }
}
