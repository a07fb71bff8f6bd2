/**
 * The two Python string operations the status parser and the normaliser
 * rely on: `str.split(sep)` with an explicit one-character separator, and
 * `str.strip()` with no argument (removal of leading and trailing
 * whitespace, where whitespace is what `str.isspace` accepts).
 */
module Strings {

  /** Python's `str.isspace` for one character: the ASCII whitespace and
      separator controls, NEL, NO-BREAK SPACE and the Unicode space separators. */
  predicate IsSpace(c: char) {
    || c == ' '
    || ('\t' <= c <= '\r')
    || ('\U{1c}' <= c <= '\U{1f}')
    || c == '\U{85}' || c == '\U{a0}' || c == '\U{1680}'
    || ('\U{2000}' <= c <= '\U{200a}')
    || c == '\U{2028}' || c == '\U{2029}' || c == '\U{202f}'
    || c == '\U{205f}' || c == '\U{3000}'
  }

  /**
   * Which characters a strip removes. `str.strip()` removes every character
   * `str.isspace` accepts. `float` first turns non-ASCII whitespace into a
   * space and then skips only the ASCII whitespace, so of the `isspace`
   * set it keeps the four separator controls U+001C..U+001F.
   */
  datatype Blanks = StrBlanks | FloatBlanks

  predicate IsBlank(c: char, w: Blanks) {
    IsSpace(c) && (w == StrBlanks || !('\U{1c}' <= c <= '\U{1f}'))
  }

  predicate AllBlank(s: string, w: Blanks) {
    forall k :: 0 <= k < |s| ==> IsBlank(s[k], w)
  }

  /** Number of occurrences of `c` in `s`. */
  function Count(s: string, c: char): (n: nat)
    ensures n <= |s|
  {
    if s == [] then 0 else (if s[0] == c then 1 else 0) + Count(s[1..], c)
  }

  /** No occurrence is counted exactly when there is none. */
  lemma {:induction false} CountZero(s: string, c: char)
    ensures Count(s, c) == 0 <==> c !in s
    decreases |s|
  {
    if s != [] {
      CountZero(s[1..], c);
      assert s == [s[0]] + s[1..];
    }
  }

  /**
   * `s.split(sep)`: the pieces of `s` between consecutive occurrences of
   * `sep`. Every occurrence splits, empty pieces are kept, and the empty
   * string gives one empty piece.
   */
  function Split(s: string, sep: char): (parts: seq<string>)
    ensures |parts| >= 1
    decreases |s|
  {
    if s == [] then [""]
    else
      var rest := Split(s[1..], sep);
      if s[0] == sep then [""] + rest
      else [[s[0]] + rest[0]] + rest[1..]
  }

  /** Every occurrence of the separator starts a new piece. */
  lemma {:induction false} SplitCount(s: string, sep: char)
    ensures |Split(s, sep)| == Count(s, sep) + 1
    decreases |s|
  {
    if s != [] {
      SplitCount(s[1..], sep);
    }
  }

  /** No piece holds the separator. */
  lemma {:induction false} SplitPiecesFree(s: string, sep: char)
    ensures forall i :: 0 <= i < |Split(s, sep)| ==> sep !in Split(s, sep)[i]
    decreases |s|
  {
    if s != [] {
      SplitPiecesFree(s[1..], sep);
      var rest := Split(s[1..], sep);
      if s[0] != sep {
        assert sep !in [s[0]] + rest[0];
        assert forall i :: 1 <= i < |Split(s, sep)| ==> Split(s, sep)[i] == rest[i];
      } else {
        assert forall i :: 1 <= i < |Split(s, sep)| ==> Split(s, sep)[i] == rest[i - 1];
      }
    }
  }

  /** `sep.join(parts)`, the inverse of `Split`. */
  function Join(parts: seq<string>, sep: char): string
    decreases |parts|
  {
    if |parts| == 0 then ""
    else if |parts| == 1 then parts[0]
    else parts[0] + [sep] + Join(parts[1..], sep)
  }

  /** Joining the pieces back with the separator gives the original text. */
  lemma {:induction false} JoinSplit(s: string, sep: char)
    ensures Join(Split(s, sep), sep) == s
    decreases |s|
  {
    if s != [] {
      JoinSplit(s[1..], sep);
      var rest := Split(s[1..], sep);
      if s[0] != sep {
        if |rest| == 1 {
          assert Join(rest, sep) == rest[0];
        } else {
          assert Join(rest, sep) == rest[0] + [sep] + Join(rest[1..], sep);
          assert Split(s, sep)[1..] == rest[1..];
        }
      } else {
        assert Split(s, sep) == [""] + rest;
      }
    }
  }

  /** A text without the separator is one piece. */
  lemma {:induction false} SplitNoSeparator(s: string, sep: char)
    requires sep !in s
    ensures Split(s, sep) == [s]
  {
    var parts := Split(s, sep);
    SplitCount(s, sep);
    CountZero(s, sep);
    assert |parts| == 1;
    JoinSplit(s, sep);
  }

  /** A separator-free prefix followed by the separator becomes the first piece. */
  lemma {:induction false} SplitAfterPrefix(p: string, sep: char, t: string)
    requires sep !in p
    ensures Split(p + [sep] + t, sep) == [p] + Split(t, sep)
    decreases |p|
  {
    if p == [] {
      assert p + [sep] + t == [sep] + t;
      SplitCons(sep, t, sep);
    } else {
      SplitAfterPrefix(p[1..], sep, t);
      SplitPrefixStep(p, sep, t);
    }
  }

  /** The inductive step of `SplitAfterPrefix`: one more leading character. */
  lemma SplitPrefixStep(p: string, sep: char, t: string)
    requires p != [] && sep !in p
    requires Split(p[1..] + [sep] + t, sep) == [p[1..]] + Split(t, sep)
    ensures Split(p + [sep] + t, sep) == [p] + Split(t, sep)
  {
    var r := p[1..] + [sep] + t;
    var rest := Split(r, sep);
    assert p + [sep] + t == [p[0]] + r;
    assert p[0] != sep;
    SplitCons(p[0], r, sep);
    assert rest[0] == p[1..] && rest[1..] == Split(t, sep);
    assert [p[0]] + p[1..] == p;
  }

  /** One step of `Split`: the first character either ends the first piece or joins it. */
  lemma SplitCons(c: char, r: string, sep: char)
    ensures Split([c] + r, sep) ==
      if c == sep then [""] + Split(r, sep) else [[c] + Split(r, sep)[0]] + Split(r, sep)[1..]
  {
    assert ([c] + r)[1..] == r;
  }

  /** Splitting the joined pieces gives the pieces back, when none holds the separator. */
  lemma {:induction false} SplitJoin(parts: seq<string>, sep: char)
    requires |parts| >= 1
    requires forall i :: 0 <= i < |parts| ==> sep !in parts[i]
    ensures Split(Join(parts, sep), sep) == parts
    decreases |parts|
  {
    if |parts| == 1 {
      SplitNoSeparator(parts[0], sep);
    } else {
      SplitJoin(parts[1..], sep);
      SplitAfterPrefix(parts[0], sep, Join(parts[1..], sep));
      assert [parts[0]] + parts[1..] == parts;
    }
  }

  /** Two separator-free words around one separator split into exactly those two words. */
  lemma SplitTwo(a: string, sep: char, b: string)
    requires sep !in a && sep !in b
    ensures Split(a + [sep] + b, sep) == [a, b]
  {
    SplitJoin([a, b], sep);
    assert Join([a, b], sep) == a + [sep] + Join([b], sep);
  }

  /** The first piece is the longest separator-free prefix: `s.split(sep)[0]`
      is the text before the first separator, or all of `s`. */
  lemma {:induction false} SplitFirst(s: string, sep: char)
    ensures var p := Split(s, sep)[0];
      && p <= s
      && (|p| == |s| || s[|p|] == sep)
    decreases |s|
  {
    if s != [] {
      SplitFirst(s[1..], sep);
      var rest := Split(s[1..], sep);
      if s[0] != sep {
        var p := [s[0]] + rest[0];
        assert Split(s, sep)[0] == p;
        assert s == [s[0]] + s[1..];
        if |p| < |s| {
          assert s[|p|] == s[1..][|rest[0]|];
        }
      }
    }
  }

  /** The prefix of `s` that reaches to the first `sep` (or to the end) is unique. */
  lemma FirstPieceUnique(s: string, sep: char, p: string)
    requires p <= s && sep !in p
    requires |p| == |s| || s[|p|] == sep
    ensures Split(s, sep)[0] == p
  {
    SplitFirst(s, sep);
    SplitPiecesFree(s, sep);
  }

  /** `t` is `s` with the blank run before index `i` and the one after `t` removed. */
  predicate StrippedAt(s: string, i: nat, t: string, w: Blanks) {
    && i + |t| <= |s|
    && t == s[i..i + |t|]
    && (forall k :: 0 <= k < i ==> IsBlank(s[k], w))
    && (forall k :: i + |t| <= k < |s| ==> IsBlank(s[k], w))
    && (t == [] || (!IsBlank(t[0], w) && !IsBlank(t[|t| - 1], w)))
  }

  /** `s.lstrip()` over the blanks `w`. */
  function TrimLeft(s: string, w: Blanks := StrBlanks): (r: string)
    ensures |r| <= |s|
  {
    if s != [] && IsBlank(s[0], w) then TrimLeft(s[1..], w) else s
  }

  /** `s.rstrip()` over the blanks `w`. */
  function TrimRight(s: string, w: Blanks := StrBlanks): (r: string)
    ensures |r| <= |s|
  {
    if s != [] && IsBlank(s[|s| - 1], w) then TrimRight(s[..|s| - 1], w) else s
  }

  /** `s.strip()`: the text between the leading and the trailing blanks. */
  function Strip(s: string, w: Blanks := StrBlanks): string
  {
    TrimRight(TrimLeft(s, w), w)
  }

  /** `lstrip` removes exactly the leading blank run. */
  lemma {:induction false} TrimLeftSpec(s: string, w: Blanks := StrBlanks)
    ensures TrimLeft(s, w) == s[|s| - |TrimLeft(s, w)|..]
    ensures forall k :: 0 <= k < |s| - |TrimLeft(s, w)| ==> IsBlank(s[k], w)
    ensures TrimLeft(s, w) == [] || !IsBlank(TrimLeft(s, w)[0], w)
    decreases |s|
  {
    if s != [] && IsBlank(s[0], w) {
      TrimLeftSpec(s[1..], w);
    }
  }

  /** `rstrip` removes exactly the trailing blank run. */
  lemma {:induction false} TrimRightSpec(s: string, w: Blanks := StrBlanks)
    ensures TrimRight(s, w) == s[..|TrimRight(s, w)|]
    ensures forall k :: |TrimRight(s, w)| <= k < |s| ==> IsBlank(s[k], w)
    ensures TrimRight(s, w) == [] || !IsBlank(TrimRight(s, w)[|TrimRight(s, w)| - 1], w)
    decreases |s|
  {
    if s != [] && IsBlank(s[|s| - 1], w) {
      TrimRightSpec(s[..|s| - 1], w);
    }
  }

  /** `strip` removes exactly the leading and the trailing blank runs. */
  lemma StripSpec(s: string, w: Blanks := StrBlanks)
    ensures StrippedAt(s, |s| - |TrimLeft(s, w)|, Strip(s, w), w)
  {
    TrimLeftSpec(s, w);
    TrimRightSpec(TrimLeft(s, w), w);
    TrimsStrippedAt(s, TrimLeft(s, w), Strip(s, w), w);
  }

  /** Removing a leading blank run and then a trailing one strips. */
  lemma TrimsStrippedAt(s: string, l: string, r: string, w: Blanks)
    requires |l| <= |s| && l == s[|s| - |l|..]
    requires forall k :: 0 <= k < |s| - |l| ==> IsBlank(s[k], w)
    requires l == [] || !IsBlank(l[0], w)
    requires |r| <= |l| && r == l[..|r|]
    requires forall k :: |r| <= k < |l| ==> IsBlank(l[k], w)
    requires r == [] || !IsBlank(r[|r| - 1], w)
    ensures StrippedAt(s, |s| - |l|, r, w)
  {
    var i := |s| - |l|;
    assert r == s[i..i + |r|];
    forall k | i + |r| <= k < |s|
      ensures IsBlank(s[k], w)
    {
      assert s[k] == l[k - i];
    }
    if r != [] {
      assert r[0] == l[0];
    }
  }

  /** A character that is not blank survives the strip, at its own place. */
  lemma StrippedKeeps(s: string, j: nat, t: string, w: Blanks, i: nat)
    requires StrippedAt(s, j, t, w) && i < |s| && !IsBlank(s[i], w)
    ensures j <= i < j + |t| && t[i - j] == s[i]
  {
  }

  /** Only one text can be the stripped form of `s`. */
  lemma StripUnique(s: string, i: nat, t: string, w: Blanks := StrBlanks)
    requires StrippedAt(s, i, t, w)
    ensures Strip(s, w) == t
  {
    var j := |s| - |TrimLeft(s, w)|;
    var u := Strip(s, w);
    StripSpec(s, w);
    if t != [] && u != [] {
      assert t[0] == s[i] && u[0] == s[j];
      assert i == j;
      assert t[|t| - 1] == s[i + |t| - 1] && u[|u| - 1] == s[j + |u| - 1];
      assert |t| == |u|;
    }
  }

  /** A text with no blank at either end is its own stripped form. */
  lemma StripNoPadding(s: string, w: Blanks := StrBlanks)
    requires s == [] || (!IsBlank(s[0], w) && !IsBlank(s[|s| - 1], w))
    ensures Strip(s, w) == s
  {
    assert StrippedAt(s, 0, s, w);
    StripUnique(s, 0, s, w);
  }

  /** Stripping is idempotent: stored keys and values are already stripped. */
  lemma StripIdempotent(s: string, w: Blanks := StrBlanks)
    ensures Strip(Strip(s, w), w) == Strip(s, w)
  {
    var t := Strip(s, w);
    StripSpec(s, w);
    assert StrippedAt(t, 0, t, w);
    StripUnique(t, 0, t, w);
  }

  /** Blanks around a text do not change its stripped form. */
  lemma StripPadded(l: string, s: string, r: string, w: Blanks := StrBlanks)
    requires AllBlank(l, w) && AllBlank(r, w)
    ensures Strip(l + s + r, w) == Strip(s, w)
  {
    var i := |s| - |TrimLeft(s, w)|;
    StripSpec(s, w);
    PaddedStrippedAt(l, s, r, i, Strip(s, w), w);
    StripUnique(l + s + r, |l| + i, Strip(s, w), w);
  }

  lemma PaddedStrippedAt(l: string, s: string, r: string, i: nat, t: string, w: Blanks)
    requires AllBlank(l, w) && AllBlank(r, w) && StrippedAt(s, i, t, w)
    ensures StrippedAt(l + s + r, |l| + i, t, w)
  {
    var x := l + s + r;
    var a, b := |l| + i, |l| + i + |t|;
    assert t == x[a..b] by {
      assert x[|l|..|l| + |s|] == s;
      assert x[a..b] == s[i..i + |t|];
    }
    forall k | 0 <= k < a
      ensures IsBlank(x[k], w)
    {
      if k < |l| {
        assert x[k] == l[k];
      } else {
        assert x[k] == s[k - |l|];
      }
    }
    forall k | b <= k < |x|
      ensures IsBlank(x[k], w)
    {
      if k < |l| + |s| {
        assert x[k] == s[k - |l|];
      } else {
        assert x[k] == r[k - |l| - |s|];
      }
    }
  }
}
