/**
 * The character-level helpers of Go's standard library that the sync pipeline
 * relies on: ASCII digits, `unicode.IsSpace`, `strings.TrimSpace` and the
 * lower-casing of `strings.ToLower`.
 */
module GoStrings {

  predicate IsDigit(c: char) {
    '0' <= c <= '9'
  }

  function DigitValue(c: char): (v: int)
    requires IsDigit(c)
    ensures 0 <= v <= 9
  {
    c as int - '0' as int
  }

  /** The character that stands for the decimal digit `n`. */
  function Digit(n: int): (c: char)
    requires 0 <= n <= 9
    ensures IsDigit(c) && DigitValue(c) == n
  {
    ('0' as int + n) as char
  }

  predicate AllDigits(s: string) {
    forall k :: 0 <= k < |s| ==> IsDigit(s[k])
  }

  /** The number a run of decimal digits denotes (leading zeros allowed). */
  function DigitsValue(s: string): (v: nat)
    requires AllDigits(s)
  {
    if s == [] then 0 else DigitsValue(s[..|s| - 1]) * 10 + DigitValue(s[|s| - 1])
  }

  /** Go's `unicode.IsSpace`: the Latin-1 white space and the Unicode White_Space property beyond it. */
  predicate IsSpace(c: char) {
    c == '\t' || c == '\n' || c == '\U{000B}' || c == '\U{000C}' || c == '\r' || c == ' '
    || c == '\U{0085}' || c == '\U{00A0}' || c == '\U{1680}'
    || ('\U{2000}' <= c <= '\U{200A}')
    || c == '\U{2028}' || c == '\U{2029}' || c == '\U{202F}' || c == '\U{205F}' || c == '\U{3000}'
  }

  predicate AllSpace(s: string) {
    forall k :: 0 <= k < |s| ==> IsSpace(s[k])
  }

  /** Drops the leading white space of `s`. */
  function TrimLeft(s: string): (t: string)
    ensures |t| <= |s| && t == s[|s| - |t|..]
    ensures AllSpace(s[..|s| - |t|])
    ensures t == [] || !IsSpace(t[0])
  {
    if s != [] && IsSpace(s[0]) then TrimLeft(s[1..]) else s
  }

  /** Drops the trailing white space of `s`. */
  function TrimRight(s: string): (t: string)
    ensures |t| <= |s| && t == s[..|t|]
    ensures AllSpace(s[|t|..])
    ensures t == [] || !IsSpace(t[|t| - 1])
  {
    if s != [] && IsSpace(s[|s| - 1]) then TrimRight(s[..|s| - 1]) else s
  }

  /**
   * Go's `strings.TrimSpace`: the slice of `s` left once all leading and
   * trailing white space is removed.
   */
  function TrimSpace(s: string): (t: string)
    ensures t == [] || (!IsSpace(t[0]) && !IsSpace(t[|t| - 1]))
  {
    TrimRight(TrimLeft(s))
  }

  /** TrimSpace removes exactly the white space at both ends of `s` and keeps what lies between. */
  lemma {:induction false} TrimSpaceSlice(s: string)
    ensures exists i, j ::
      0 <= i <= j <= |s| && TrimSpace(s) == s[i..j] && AllSpace(s[..i]) && AllSpace(s[j..])
  {
    var l := TrimLeft(s);
    var i := |s| - |l|;
    var t := TrimRight(l);
    assert TrimSpace(s) == t;
    assert l == s[i..];
    assert t == s[i..i + |t|];
    assert s[i + |t|..] == l[|t|..];
  }

  /** A string with no white space at either end is left alone by TrimSpace. */
  lemma TrimSpaceNoop(s: string)
    requires s == [] || (!IsSpace(s[0]) && !IsSpace(s[|s| - 1]))
    ensures TrimSpace(s) == s
  {
  }

  /** White space in front of text that starts with something else is exactly what TrimLeft drops. */
  lemma {:induction false} TrimLeftPadded(a: string, t: string)
    requires AllSpace(a) && (t == [] || !IsSpace(t[0]))
    ensures TrimLeft(a + t) == t
    decreases |a|
  {
    if a != [] {
      assert (a + t)[0] == a[0];
      assert (a + t)[1..] == a[1..] + t;
      TrimLeftPadded(a[1..], t);
    }
  }

  /** White space after text that ends with something else is exactly what TrimRight drops. */
  lemma {:induction false} TrimRightPadded(t: string, b: string)
    requires AllSpace(b) && (t == [] || !IsSpace(t[|t| - 1]))
    ensures TrimRight(t + b) == t
    decreases |b|
  {
    if b != [] {
      assert (t + b)[|t + b| - 1] == b[|b| - 1];
      assert (t + b)[..|t + b| - 1] == t + b[..|b| - 1];
      TrimRightPadded(t, b[..|b| - 1]);
    } else {
      assert t + b == t;
    }
  }

  /** A cell's text padded with white space on either side trims to the text itself. */
  lemma TrimSpacePadded(a: string, t: string, b: string)
    requires AllSpace(a) && AllSpace(b)
    requires t != [] && !IsSpace(t[0]) && !IsSpace(t[|t| - 1])
    ensures TrimSpace(a + t + b) == t
  {
    assert a + t + b == a + (t + b);
    assert (t + b)[0] == t[0];
    TrimLeftPadded(a, t + b);
    TrimRightPadded(t, b);
  }

  /** The ASCII case folding that Go applies to letters 'A'..'Z'. */
  function LowerChar(c: char): (d: char)
    ensures 'A' <= c <= 'Z' ==> 'a' <= d <= 'z'
    ensures !('A' <= c <= 'Z') ==> d == c
  {
    if 'A' <= c <= 'Z' then (c as int + 32) as char else c
  }

  /** `strings.ToLower`, one character at a time. */
  function ToLower(s: string): (t: string)
    ensures |t| == |s|
    ensures forall k :: 0 <= k < |s| ==> t[k] == LowerChar(s[k])
  {
    seq(|s|, k requires 0 <= k < |s| => LowerChar(s[k]))
  }

  /** The small letters, in the order of their capitals. */
  const SmallLetters: string := "abcdefghijklmnopqrstuvwxyz"

  /**
   * Lower-casing turns each capital into its own small letter, leaves every
   * other character alone, leaves no capital behind, and changes nothing
   * when applied again.
   */
  lemma ToLowerFolds(s: string)
    ensures forall k :: 0 <= k < |s| && 'A' <= s[k] <= 'Z' ==> ToLower(s)[k] == SmallLetters[s[k] as int - 'A' as int]
    ensures forall k :: 0 <= k < |s| && !('A' <= s[k] <= 'Z') ==> ToLower(s)[k] == s[k]
    ensures forall k :: 0 <= k < |s| ==> !('A' <= ToLower(s)[k] <= 'Z')
    ensures ToLower(ToLower(s)) == ToLower(s)
  {
    forall k | 0 <= k < |s| && 'A' <= s[k] <= 'Z'
      ensures ToLower(s)[k] == SmallLetters[s[k] as int - 'A' as int]
    {
      SmallLetterOf(s[k]);
    }
  }

  /** The small letter of a capital is the one at the capital's place in the alphabet. */
  lemma SmallLetterOf(c: char)
    requires 'A' <= c <= 'Z'
    ensures LowerChar(c) == SmallLetters[c as int - 'A' as int]
  {
    var i := c as int - 'A' as int;
    assert SmallLetters[i] as int == 'a' as int + i;
  }

  /** Lower-casing works character by character, so it distributes over concatenation. */
  lemma ToLowerConcat(a: string, b: string)
    ensures ToLower(a + b) == ToLower(a) + ToLower(b)
  {
  }
}
