/**
 * Python's `float(token)` on text, for the decimal literals that status
 * values carry: surrounding whitespace is ignored, then an optional sign,
 * digits with an optional decimal point, and an optional exponent.
 * A token that is not such a literal has no value (`float` raises).
 * Numbers are exact reals; binary floating point is not modelled.
 */
module Numbers {
  import opened Strings

  datatype Option<+T> = None | Some(value: T)

  predicate IsDigit(c: char) {
    '0' <= c <= '9'
  }

  predicate AllDigits(s: string) {
    forall k :: 0 <= k < |s| ==> IsDigit(s[k])
  }

  function Pow10(e: nat): (p: nat)
    ensures p >= 1
  {
    if e == 0 then 1 else 10 * Pow10(e - 1)
  }

  /** The value of a run of decimal digits, most significant first. */
  function DigitsValue(s: string): (n: nat)
    requires AllDigits(s)
    ensures n < Pow10(|s|)
    decreases |s|
  {
    if s == [] then 0
    else 10 * DigitsValue(s[..|s| - 1]) + (s[|s| - 1] as int - '0' as int)
  }

  /** Index of the first occurrence of `c` in `s`, or `|s|` when there is none. */
  function IndexOf(s: string, c: char): (i: nat)
    ensures i <= |s| && c !in s[..i]
    ensures i < |s| ==> s[i] == c
  {
    if s == [] then 0
    else if s[0] == c then 0
    else
      assert s[1..][..IndexOf(s[1..], c)] == s[1..1 + IndexOf(s[1..], c)];
      1 + IndexOf(s[1..], c)
  }

  predicate IsExponentMark(c: char) {
    c == 'e' || c == 'E'
  }

  /** Index of the first `e` or `E` in `s`, or `|s|` when there is none. */
  function ExponentMark(s: string): (i: nat)
    ensures i <= |s|
    ensures forall k :: 0 <= k < i ==> !IsExponentMark(s[k])
    ensures i < |s| ==> IsExponentMark(s[i])
  {
    if s == [] then 0
    else if IsExponentMark(s[0]) then 0
    else 1 + ExponentMark(s[1..])
  }

  /** `[digits] "." digits | digits ["."]`: an unsigned decimal without exponent. */
  function ParseDecimal(s: string): Option<real>
  {
    var d := IndexOf(s, '.');
    var whole := s[..d];
    var frac := if d < |s| then s[d + 1..] else "";
    if AllDigits(whole) && AllDigits(frac) && (whole != [] || frac != []) then
      Some(DigitsValue(whole) as real + DigitsValue(frac) as real / Pow10(|frac|) as real)
    else None
  }

  /** `[sign] digits`: the exponent after `e` or `E`. */
  function ParseExponent(s: string): Option<int>
  {
    var negative := s != [] && s[0] == '-';
    var digits := if s != [] && (s[0] == '+' || s[0] == '-') then s[1..] else s;
    if digits != [] && AllDigits(digits) then
      Some(if negative then -(DigitsValue(digits) as int) else DigitsValue(digits))
    else None
  }

  /** `m` times ten to the power `e`. */
  function Scale(m: real, e: int): real {
    if e >= 0 then m * Pow10(e) as real else m / Pow10(-e) as real
  }

  /** An unsigned literal: a decimal, optionally followed by an exponent. */
  function ParseUnsigned(s: string): Option<real>
  {
    var e := ExponentMark(s);
    if e == |s| then ParseDecimal(s)
    else
      match (ParseDecimal(s[..e]), ParseExponent(s[e + 1..]))
      case (Some(m), Some(x)) => Some(Scale(m, x))
      case _ => None
  }

  /** `float(token)`: `None` where Python raises `ValueError`. The token is
      stripped of the blanks `float` skips, which are not all of `isspace`. */
  function ParseFloat(token: string): Option<real>
  {
    ParseSigned(Strip(token, FloatBlanks))
  }

  /** `[sign] literal`, on a token already stripped of whitespace. */
  function ParseSigned(t: string): Option<real>
  {
    if t != [] && (t[0] == '+' || t[0] == '-') then
      match ParseUnsigned(t[1..])
      case None => None
      case Some(x) => Some(if t[0] == '-' then -x else x)
    else ParseUnsigned(t)
  }

  /** The characters a literal accepted by `ParseFloat` may contain. */
  predicate IsNumeralChar(c: char) {
    IsDigit(c) || c == '.' || c == '+' || c == '-' || IsExponentMark(c)
  }

  /** The digits of `n` in base ten, as `str(n)` writes them. */
  function NatToString(n: nat): (s: string)
    ensures s != [] && AllDigits(s)
  {
    var last := ['0' + (n % 10) as char];
    if n < 10 then last else NatToString(n / 10) + last
  }

  lemma {:induction false} NatToStringValue(n: nat)
    ensures DigitsValue(NatToString(n)) == n
  {
    if n >= 10 {
      NatToStringValue(n / 10);
      var s := NatToString(n);
      assert s[..|s| - 1] == NatToString(n / 10);
    }
  }

  /** `float(str(n)) == n` for every natural number. */
  lemma ParseNatRoundTrip(n: nat)
    ensures ParseFloat(NatToString(n)) == Some(n as real)
  {
    var s := NatToString(n);
    DigitsParse(s);
    NatToStringValue(n);
  }

  /** A plain run of digits parses to its value. */
  lemma DigitsParse(s: string)
    requires s != [] && AllDigits(s)
    ensures ParseFloat(s) == Some(DigitsValue(s) as real)
  {
    StripNoPadding(s, FloatBlanks);
    DigitsParseSigned(s);
  }

  /** `DigitsParse` once the token is known to need no stripping. */
  lemma DigitsParseSigned(s: string)
    requires s != [] && AllDigits(s)
    ensures ParseSigned(s) == Some(DigitsValue(s) as real)
  {
    DigitsHaveNoMarks(s);
    assert s[..|s|] == s;
    assert ParseSigned(s) == ParseUnsigned(s) == ParseDecimal(s);
  }

  /** A run of digits has neither a point nor an exponent mark. */
  lemma DigitsHaveNoMarks(s: string)
    requires AllDigits(s)
    ensures ExponentMark(s) == |s| && IndexOf(s, '.') == |s|
  {
  }

  /** A fixed-point literal reads as its whole digits plus its fraction
      digits over a power of ten: `float("157.2") == 157 + 2/10`. */
  lemma ParseFixedPoint(s: string, n: nat)
    requires 0 < n < |s| && s[n] == '.'
    requires AllDigits(s[..n]) && AllDigits(s[n + 1..])
    ensures ParseFloat(s) ==
      Some(DigitsValue(s[..n]) as real + DigitsValue(s[n + 1..]) as real / Pow10(|s[n + 1..]|) as real)
  {
    FixedPointShape(s, n);
    StripNoPadding(s, FloatBlanks);
    DecimalAt(s, n);
  }

  /** A fixed-point literal has no sign, exponent or padding, and one point. */
  lemma FixedPointShape(s: string, n: nat)
    requires 0 < n < |s| && s[n] == '.'
    requires AllDigits(s[..n]) && AllDigits(s[n + 1..])
    ensures IndexOf(s, '.') == n && ExponentMark(s) == |s|
    ensures !IsBlank(s[0], FloatBlanks) && !IsBlank(s[|s| - 1], FloatBlanks) && s[0] != '+' && s[0] != '-'
  {
    assert s[0] == s[..n][0];
    if n + 1 < |s| {
      assert s[|s| - 1] == s[n + 1..][|s| - n - 2];
    }
    forall k | 0 <= k < |s|
      ensures s[k] == '.' || IsDigit(s[k])
    {
      if k < n {
        assert s[k] == s[..n][k];
      } else if k > n {
        assert s[k] == s[n + 1..][k - n - 1];
      }
    }
    assert '.' !in s[..n];
  }

  /** An unsigned literal without exponent whose point sits at `n` reads its
      two digit runs around the point. */
  lemma DecimalAt(s: string, n: nat)
    requires n < |s| && IndexOf(s, '.') == n && ExponentMark(s) == |s|
    requires s[0] != '+' && s[0] != '-'
    requires AllDigits(s[..n]) && AllDigits(s[n + 1..]) && n > 0
    ensures ParseSigned(s) ==
      Some(DigitsValue(s[..n]) as real + DigitsValue(s[n + 1..]) as real / Pow10(|s[n + 1..]|) as real)
  {
    assert ParseSigned(s) == ParseUnsigned(s) == ParseDecimal(s);
  }

  /** Blanks `float` skips around a token are ignored: `float(" 5 ") == float("5")`. */
  lemma ParseFloatPadded(l: string, t: string, r: string)
    requires AllBlank(l, FloatBlanks) && AllBlank(r, FloatBlanks)
    ensures ParseFloat(l + t + r) == ParseFloat(t)
  {
    StripPadded(l, t, r, FloatBlanks);
  }

  /** An accepted decimal holds only digits and points. */
  lemma DecimalAlphabet(s: string)
    requires ParseDecimal(s).Some?
    ensures forall k :: 0 <= k < |s| ==> IsDigit(s[k]) || s[k] == '.'
  {
    var d := IndexOf(s, '.');
    forall k | 0 <= k < |s|
      ensures IsDigit(s[k]) || s[k] == '.'
    {
      if k < d {
        assert s[k] == s[..d][k];
      } else if k > d {
        assert s[k] == s[d + 1..][k - d - 1];
      }
    }
  }

  /** An accepted unsigned literal holds only numeral characters. */
  lemma UnsignedAlphabet(s: string)
    requires ParseUnsigned(s).Some?
    ensures forall k :: 0 <= k < |s| ==> IsNumeralChar(s[k])
  {
    var e := ExponentMark(s);
    if e == |s| {
      DecimalAlphabet(s);
    } else {
      var m, x := s[..e], s[e + 1..];
      assert ParseDecimal(m).Some? && ParseExponent(x).Some?;
      DecimalAlphabet(m);
      ExponentAlphabet(x);
      forall k | 0 <= k < |s|
        ensures IsNumeralChar(s[k])
      {
        if k < e {
          assert s[k] == m[k];
        } else if k > e {
          assert s[k] == x[k - e - 1];
        }
      }
    }
  }

  /** An accepted exponent holds only digits and signs. */
  lemma ExponentAlphabet(x: string)
    requires ParseExponent(x).Some?
    ensures forall k :: 0 <= k < |x| ==> IsDigit(x[k]) || x[k] == '+' || x[k] == '-'
  {
    if x[0] == '+' || x[0] == '-' {
      assert forall k :: 1 <= k < |x| ==> x[k] == x[1..][k - 1];
    }
  }

  /** A token with any character outside digits, `.`, signs and `e`/`E`
      (once the surrounding whitespace is stripped) is not a number:
      unit words such as `Percent` make `float` raise. */
  lemma ParseFloatAlphabet(token: string)
    requires ParseFloat(token).Some?
    ensures forall k :: 0 <= k < |Strip(token, FloatBlanks)| ==> IsNumeralChar(Strip(token, FloatBlanks)[k])
  {
    var t := Strip(token, FloatBlanks);
    assert ParseSigned(t).Some?;
    if t != [] && (t[0] == '+' || t[0] == '-') {
      UnsignedAlphabet(t[1..]);
      forall k | 1 <= k < |t|
        ensures IsNumeralChar(t[k])
      {
        assert t[k] == t[1..][k - 1];
      }
    } else {
      UnsignedAlphabet(t);
    }
  }

  /** An empty or all-whitespace token is not a number: `float("")` raises,
      whichever `isspace` characters the token holds. */
  lemma ParseFloatBlank(token: string)
    requires AllBlank(token, StrBlanks)
    ensures ParseFloat(token) == None
  {
    var w := FloatBlanks;
    var t := Strip(token, w);
    var j := |token| - |TrimLeft(token, w)|;
    StripSpec(token, w);
    if t != [] {
      assert t[0] == token[j] && IsSpace(t[0]) && !IsNumeralChar(t[0]);
      if ParseFloat(token).Some? {
        ParseFloatAlphabet(token);
        assert false;
      }
    } else {
      assert ParseSigned(t) == None;
    }
  }

  /**
   * `float` does not skip the separator controls U+001C..U+001F, although
   * `str.strip()` does: a token holding one anywhere makes `float` raise,
   * so `float("5\x1c")` raises while `"5\x1c".strip()` is `"5"`.
   */
  lemma ParseFloatSeparator(token: string, i: nat)
    requires i < |token| && '\U{1c}' <= token[i] <= '\U{1f}'
    ensures ParseFloat(token) == None
  {
    var w := FloatBlanks;
    var t := Strip(token, w);
    var j := |token| - |TrimLeft(token, w)|;
    StripSpec(token, w);
    StrippedKeeps(token, j, t, w, i);
    assert !IsNumeralChar(t[i - j]);
    if ParseFloat(token).Some? {
      ParseFloatAlphabet(token);
      assert false;
    }
  }
}
