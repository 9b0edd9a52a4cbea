/**
 * `extractZillowSavesCount`: the saves count of a report e-mail is the number
 * in the leftmost match of the RE2 pattern `(\d+)\s+saves?` in the
 * lower-cased body, converted by `strconv.Atoi`; a body without a match, or
 * whose matched number does not fit Go's `int`, counts 0. The pattern is
 * modelled directly as a scan over the characters of the body.
 */
module Extractor {
  import opened Wrappers
  import opened GoStrings
  import opened Calendar

  /** The largest value of Go's 64-bit `int`; `strconv.Atoi` rejects anything above it. */
  const MaxInt: int := 0x7fff_ffff_ffff_ffff

  /** RE2's `\s`: tab, newline, form feed, carriage return and space (vertical tab excluded). */
  predicate IsRegexSpace(c: char) {
    c == '\t' || c == '\n' || c == '\U{000C}' || c == '\r' || c == ' '
  }

  predicate AllRegexSpace(s: string) {
    forall k :: 0 <= k < |s| ==> IsRegexSpace(s[k])
  }

  /**
   * A match of `(\d+)\s+save` in `s` that starts at `i`: digits on `[i, j)`,
   * white space on `[j, k)`, then `save` at `k`. The optional final `s` of
   * the pattern never changes whether or where a match starts, nor what it
   * captures.
   */
  ghost predicate MatchesAt(s: string, i: int, j: int, k: int) {
    0 <= i < j < k && k + 4 <= |s|
    && AllDigits(s[i..j]) && AllRegexSpace(s[j..k]) && s[k..k + 4] == "save"
  }

  /** Where a match lies: its start, the end of its digits (the capture), and the end of its white space. */
  datatype Span = Span(start: nat, digitsEnd: nat, spaceEnd: nat)

  /** The end of the run of digits that starts at `i`. */
  function DigitEnd(s: string, i: nat): (j: nat)
    requires i <= |s|
    ensures i <= j <= |s| && AllDigits(s[i..j])
    ensures j == |s| || !IsDigit(s[j])
    decreases |s| - i
  {
    if i < |s| && IsDigit(s[i]) then DigitEnd(s, i + 1) else i
  }

  /** The end of the run of RE2 white space that starts at `j`. */
  function SpaceEnd(s: string, j: nat): (k: nat)
    requires j <= |s|
    ensures j <= k <= |s| && AllRegexSpace(s[j..k])
    ensures k == |s| || !IsRegexSpace(s[k])
    decreases |s| - j
  {
    if j < |s| && IsRegexSpace(s[j]) then SpaceEnd(s, j + 1) else j
  }

  /** A match starting at `i` has its digits end where the digit run ends, and its white space where that run ends. */
  lemma MatchIsMaximal(s: string, i: nat, j: int, k: int)
    requires i <= |s| && MatchesAt(s, i, j, k)
    ensures j == DigitEnd(s, i) && k == SpaceEnd(s, j)
  {
    var e := DigitEnd(s, i);
    var f := SpaceEnd(s, j);
    forall p | i <= p < j ensures IsDigit(s[p]) {
      assert s[i..j][p - i] == s[p];
    }
    forall p | i <= p < e ensures IsDigit(s[p]) {
      assert s[i..e][p - i] == s[p];
    }
    forall p | j <= p < k ensures IsRegexSpace(s[p]) {
      assert s[j..k][p - j] == s[p];
    }
    forall p | j <= p < f ensures IsRegexSpace(s[p]) {
      assert s[j..f][p - j] == s[p];
    }
    assert s[k..k + 4][0] == s[k];
  }

  /**
   * The match of the pattern anchored at `i`, if there is one: `\d+` and
   * `\s+` take their whole runs, since neither can stop early and still be
   * followed by what comes next.
   */
  function MatchAt(s: string, i: nat): (r: Option<Span>)
    requires i <= |s|
    ensures r.Some? ==> r.value.start == i && MatchesAt(s, i, r.value.digitsEnd, r.value.spaceEnd)
    ensures r.None? ==> forall j, k :: !MatchesAt(s, i, j, k)
  {
    var j := DigitEnd(s, i);
    var k := SpaceEnd(s, j);
    if j > i && k > j && k + 4 <= |s| && s[k..k + 4] == "save" then Some(Span(i, j, k))
    else
      assert forall j', k' :: MatchesAt(s, i, j', k') ==> j' == j && k' == k by {
        forall j', k' | MatchesAt(s, i, j', k') ensures j' == j && k' == k {
          MatchIsMaximal(s, i, j', k');
        }
      }
      None
  }

  /**
   * RE2's leftmost-first search from position `i`: the match with the
   * smallest start at or after `i`, or none when no position has one.
   */
  function FindFrom(s: string, i: nat): (r: Option<Span>)
    requires i <= |s|
    ensures r.Some? ==> i <= r.value.start && MatchesAt(s, r.value.start, r.value.digitsEnd, r.value.spaceEnd)
    ensures r.Some? ==> forall p, j, k :: i <= p < r.value.start ==> !MatchesAt(s, p, j, k)
    ensures r.None? ==> forall p, j, k :: i <= p ==> !MatchesAt(s, p, j, k)
    decreases |s| - i
  {
    if i == |s| then None
    else
      match MatchAt(s, i)
      case Some(m) => Some(m)
      case None => FindFrom(s, i + 1)
  }

  /** `strconv.Atoi` on a run of decimal digits: its value, unless that exceeds Go's `int`. */
  function Atoi(digits: string): (r: Option<int>)
    requires AllDigits(digits)
    ensures r.Some? <==> DigitsValue(digits) <= MaxInt
    ensures r.Some? ==> r.value == DigitsValue(digits)
  {
    var v := DigitsValue(digits);
    if v <= MaxInt then Some(v) else None
  }

  /** Atoi reads back the decimal digits of a number, unless the number is too large for an `int`. */
  lemma AtoiDecimal(n: nat)
    ensures Atoi(Decimal(n)) == if n <= MaxInt then Some(n) else None
  {
    DecimalValue(n);
  }

  /** The `(int, error)` outcome of an extraction: a count, or a failure that stops the batch. */
  datatype Extraction = Count(n: int) | Failed

  /**
   * `extractZillowSavesCount`: the first (and only active) pattern is
   * searched on the lower-cased body; a match whose number Atoi accepts
   * gives the count, and anything else falls through to `(0, nil)`. It never
   * fails, and the count is never negative.
   */
  function ExtractZillowSavesCount(content: string): (r: Extraction)
    ensures r.Count? && 0 <= r.n <= MaxInt
  {
    var lower := ToLower(content);
    match FindFrom(lower, 0)
    case None => Count(0)
    case Some(m) =>
      match Atoi(lower[m.start..m.digitsEnd])
      case Some(n) => Count(n)
      case None => Count(0)
  }

  /** The search from 0 finds exactly the leftmost match, with its unique capture. */
  lemma LeftmostIsFound(s: string, i: nat, j: int, k: int)
    requires MatchesAt(s, i, j, k)
    requires forall p, j', k' :: 0 <= p < i ==> !MatchesAt(s, p, j', k')
    ensures FindFrom(s, 0) == Some(Span(i, j, k))
  {
    var m := FindFrom(s, 0).value;
    MatchIsMaximal(s, i, j, k);
    MatchIsMaximal(s, m.start, m.digitsEnd, m.spaceEnd);
  }

  /**
   * The count is the number written by the leftmost digits that are followed
   * by white space and `save`, in any letter case, when it fits in an `int`.
   */
  lemma ExtractLeftmostMatch(content: string, i: nat, j: int, k: int)
    requires MatchesAt(ToLower(content), i, j, k)
    requires forall p, j', k' :: 0 <= p < i ==> !MatchesAt(ToLower(content), p, j', k')
    requires DigitsValue(ToLower(content)[i..j]) <= MaxInt
    ensures ExtractZillowSavesCount(content) == Count(DigitsValue(ToLower(content)[i..j]))
  {
    LeftmostIsFound(ToLower(content), i, j, k);
  }

  /** A leftmost match whose number is too large for an `int` counts 0: Atoi fails and no pattern is left to try. */
  lemma ExtractOverflow(content: string, i: nat, j: int, k: int)
    requires MatchesAt(ToLower(content), i, j, k)
    requires forall p, j', k' :: 0 <= p < i ==> !MatchesAt(ToLower(content), p, j', k')
    requires DigitsValue(ToLower(content)[i..j]) > MaxInt
    ensures ExtractZillowSavesCount(content) == Count(0)
  {
    LeftmostIsFound(ToLower(content), i, j, k);
  }

  /** A body with no match counts 0, without an error. */
  lemma ExtractNoMatch(content: string)
    requires forall p, j, k :: !MatchesAt(ToLower(content), p, j, k)
    ensures ExtractZillowSavesCount(content) == Count(0)
  {
  }

  /**
   * Whatever the count, it comes from the leftmost match or is 0: a nonzero
   * count always has a match behind it whose digits spell it.
   */
  lemma ExtractNonzeroHasMatch(content: string)
    requires ExtractZillowSavesCount(content).n != 0
    ensures exists i, j, k :: MatchesAt(ToLower(content), i, j, k)
                         && DigitsValue(ToLower(content)[i..j]) == ExtractZillowSavesCount(content).n
  {
    var m := FindFrom(ToLower(content), 0).value;
    assert MatchesAt(ToLower(content), m.start, m.digitsEnd, m.spaceEnd);
  }

  /** Text without upper-case letters is its own lower case. */
  lemma ToLowerKeeps(s: string)
    requires forall k :: 0 <= k < |s| ==> !('A' <= s[k] <= 'Z')
    ensures ToLower(s) == s
  {
  }

  /**
   * A body whose text before the number has no digits: the count is that
   * number, written in decimal and followed by white space and `save` in any
   * letter case (`saves`, `Saves`, `saved`, ...).
   */
  lemma ExtractFirstNumber(text: string, n: nat, ws: string, kw: string, rest: string)
    requires forall k :: 0 <= k < |text| ==> !IsDigit(text[k])
    requires n <= MaxInt
    requires ws != [] && AllRegexSpace(ws)
    requires ToLower(kw) == "save"
    ensures ExtractZillowSavesCount(text + Decimal(n) + ws + kw + rest) == Count(n)
  {
    var digits := Decimal(n);
    var content := text + digits + ws + kw + rest;
    ToLowerKeeps(digits);
    ToLowerKeeps(ws);
    ToLowerConcat(text + digits + ws + kw, rest);
    ToLowerConcat(text + digits + ws, kw);
    ToLowerConcat(text + digits, ws);
    ToLowerConcat(text, digits);
    var lt := ToLower(text);
    var lower := lt + digits + ws + "save" + ToLower(rest);
    assert ToLower(content) == lower;
    var i, j, k := |text|, |text| + |digits|, |text| + |digits| + |ws|;
    assert lower[i..j] == digits;
    assert lower[j..k] == ws;
    assert lower[k..k + 4] == "save";
    assert MatchesAt(lower, i, j, k);
    forall p, j', k' | 0 <= p < i ensures !MatchesAt(lower, p, j', k') {
      assert lower[p] == lt[p] == LowerChar(text[p]);
      assert p < j' <= |lower| ==> lower[p..j'][0] == lower[p];
    }
    DecimalValue(n);
    ExtractLeftmostMatch(content, i, j, k);
  }

  /** `Your listing had 5 saved homes`: there is no word boundary, so `saved` counts too. */
  lemma SavedExample(content: string)
    requires content == "Your listing had 5 saved homes"
    ensures ExtractZillowSavesCount(content) == Count(5)
  {
    assert Decimal(5) == "5";
    assert content == "Your listing had " + Decimal(5) + " " + "save" + "d homes";
    ExtractFirstNumber("Your listing had ", 5, " ", "save", "d homes");
  }

  /** `Total:\t42\nSAVES` : upper case and a tab and newline between number and word still match. */
  lemma UpperCaseExample(content: string)
    requires content == "Total:\t42\nSAVES"
    ensures ExtractZillowSavesCount(content) == Count(42)
  {
    assert Decimal(42) == Decimal(4) + [Digit(2)];
    assert Decimal(42) == "42";
    assert ToLower("SAVE") == "save";
    assert content == "Total:\t" + Decimal(42) + "\n" + "SAVE" + "S";
    ExtractFirstNumber("Total:\t", 42, "\n", "SAVE", "S");
  }
}
