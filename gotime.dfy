/**
 * Go's `time.Parse` restricted to the layout elements the watermark cascade
 * uses. A layout string such as `"Jan 2, 2006"` is given here as the chunk
 * sequence Go's layout lexer reads from it: literal text, `2006` (four-digit
 * year), `01`/`1` (month, exactly two or one-to-two digits), `Jan` (month
 * abbreviation), `02`/`2` (day, exactly two or one-to-two digits).
 */
module GoTime {
  import opened Wrappers
  import opened GoStrings
  import opened Calendar

  datatype Chunk = Lit(text: string) | LongYear | ZeroMonth | NumMonth | ShortMonthName | ZeroDay | NumDay

  type Layout = seq<Chunk>

  /** `"2006-01-02"` */
  const IsoLayout: Layout := [LongYear, Lit("-"), ZeroMonth, Lit("-"), ZeroDay]
  /** `"1/2/2006"` */
  const NumSlashLayout: Layout := [NumMonth, Lit("/"), NumDay, Lit("/"), LongYear]
  /** `"01/02/2006"` */
  const ZeroSlashLayout: Layout := [ZeroMonth, Lit("/"), ZeroDay, Lit("/"), LongYear]
  /** `"2006/01/02"` */
  const YearSlashLayout: Layout := [LongYear, Lit("/"), ZeroMonth, Lit("/"), ZeroDay]
  /** `"Jan 2, 2006"` */
  const MonthNameLayout: Layout := [ShortMonthName, Lit(" "), NumDay, Lit(", "), LongYear]

  const ShortMonthNames: seq<string> :=
    ["Jan", "Feb", "Mar", "Apr", "May", "Jun", "Jul", "Aug", "Sep", "Oct", "Nov", "Dec"]

  /** Go's `cutspace`: drops leading ASCII spaces only. */
  function CutSpace(s: string): (t: string)
    ensures |t| <= |s| && t == s[|s| - |t|..]
    ensures forall k :: 0 <= k < |s| - |t| ==> s[k] == ' '
    ensures t == [] || t[0] != ' '
  {
    if s != [] && s[0] == ' ' then CutSpace(s[1..]) else s
  }

  /**
   * Go's `skip`: consumes the literal `prefix` from `value`. A space in the
   * prefix matches any run of spaces in the value (none only at the end of
   * the value); every other character must match exactly.
   */
  function Skip(value: string, prefix: string): (r: Option<string>)
    ensures r.Some? ==> |r.value| <= |value| && r.value == value[|value| - |r.value|..]
    decreases |prefix|
  {
    if prefix == [] then Some(value)
    else if prefix[0] == ' ' then
      if value != [] && value[0] != ' ' then None
      else Skip(CutSpace(value), CutSpace(prefix))
    else if value == [] || value[0] != prefix[0] then None
    else Skip(value[1..], prefix[1..])
  }

  /**
   * Go's `getnum`: a leading one- or two-digit number, greedy; with `fixed`
   * exactly two digits are required.
   */
  function GetNum(value: string, fixed: bool): (r: Option<(int, string)>)
    ensures r.Some? ==> 0 <= r.value.0 <= 99 && |r.value.1| < |value| && r.value.1 == value[|value| - |r.value.1|..]
    ensures r.Some? && fixed ==> |value| >= 2 && r.value.1 == value[2..]
  {
    if value == [] || !IsDigit(value[0]) then None
    else if |value| == 1 || !IsDigit(value[1]) then
      if fixed then None else Some((DigitValue(value[0]), value[1..]))
    else Some((DigitValue(value[0]) * 10 + DigitValue(value[1]), value[2..]))
  }

  /** The `2006` element: exactly four digits, read as the year. */
  function GetYear(value: string): (r: Option<(int, string)>)
    ensures r.Some? ==> 0 <= r.value.0 <= 9999 && |value| >= 4 && r.value.1 == value[4..]
  {
    if |value| < 4 || !IsDigit(value[0]) || !IsDigit(value[1]) || !IsDigit(value[2]) || !IsDigit(value[3]) then None
    else Some((DigitValue(value[0]) * 1000 + DigitValue(value[1]) * 100 + DigitValue(value[2]) * 10
               + DigitValue(value[3]), value[4..]))
  }

  /** Go's `match`: equality of two strings of equal length up to ASCII case. */
  predicate FoldEqual(a: string, b: string)
    requires |a| == |b|
  {
    forall k :: 0 <= k < |a| ==> LowerChar(a[k]) == LowerChar(b[k])
  }

  /**
   * Go's `lookup(shortMonthNames, value)`, looking from the `i`-th name on:
   * the first abbreviation that the value starts with, ignoring ASCII case,
   * gives the month number.
   */
  function LookupMonth(value: string, i: nat): (r: Option<(int, string)>)
    ensures r.Some? ==> 1 <= r.value.0 <= 12 && |value| >= 3 && r.value.1 == value[3..]
    decreases 12 - i
  {
    if i >= 12 then None
    else if |value| >= 3 && FoldEqual(value[..3], ShortMonthNames[i]) then Some((i + 1, value[3..]))
    else LookupMonth(value, i + 1)
  }

  /** What has been read so far: Go starts from year 0 with month and day unset. */
  datatype Fields = Fields(year: int, month: Option<int>, day: Option<int>)

  ghost predicate FieldsInRange(f: Fields) {
    0 <= f.year <= 9999
    && (f.month.Some? ==> 1 <= f.month.value <= 12)
    && (f.day.Some? ==> 0 <= f.day.value <= 99)
  }

  function SetMonth(r: Option<(int, string)>, f: Fields): Option<(string, Fields)> {
    match r
    case None => None
    case Some((m, rest)) => if m <= 0 || 12 < m then None else Some((rest, f.(month := Some(m))))
  }

  function SetDay(r: Option<(int, string)>, f: Fields): Option<(string, Fields)> {
    match r
    case None => None
    case Some((d, rest)) => Some((rest, f.(day := Some(d))))
  }

  /** One layout element applied to the front of the value; a month outside 1..12 is rejected at once. */
  function Step(c: Chunk, value: string, f: Fields): (r: Option<(string, Fields)>)
    requires FieldsInRange(f)
    ensures r.Some? ==> FieldsInRange(r.value.1) && |r.value.0| <= |value|
  {
    match c
    case Lit(p) =>
      (match Skip(value, p)
       case None => None
       case Some(rest) => Some((rest, f)))
    case LongYear =>
      (match GetYear(value)
       case None => None
       case Some((y, rest)) => Some((rest, f.(year := y))))
    case ZeroMonth => SetMonth(GetNum(value, true), f)
    case NumMonth => SetMonth(GetNum(value, false), f)
    case ShortMonthName => SetMonth(LookupMonth(value, 0), f)
    case ZeroDay => SetDay(GetNum(value, true), f)
    case NumDay => SetDay(GetNum(value, false), f)
  }

  /** The layout's elements applied in order; the first failure fails the whole parse. */
  function Run(layout: Layout, value: string, f: Fields): (r: Option<(string, Fields)>)
    requires FieldsInRange(f)
    ensures r.Some? ==> FieldsInRange(r.value.1)
    decreases |layout|
  {
    if layout == [] then Some((value, f))
    else
      match Step(layout[0], value, f)
      case None => None
      case Some((rest, g)) => Run(layout[1..], rest, g)
  }

  /**
   * `time.Parse(layout, value)`: every element must match, no text may be
   * left over, and the day must exist in its month and year. Whatever it
   * returns is a real calendar date with a four-digit year, so a string
   * naming an impossible day (the 30th of February, the 31st of April)
   * parses under no layout.
   */
  function Parse(layout: Layout, value: string): (r: Option<Date>)
    ensures r.Some? ==> ValidDate(r.value) && 0 <= r.value.year <= 9999
  {
    match Run(layout, value, Fields(0, None, None))
    case None => None
    case Some((rest, f)) =>
      if rest != [] then None
      else
        var month := f.month.GetOr(1);
        var day := f.day.GetOr(1);
        if day < 1 || day > DaysIn(month, f.year) then None
        else Some(Date(f.year, month, day))
  }

  /** Run takes one element at a time. */
  lemma RunStep(layout: Layout, value: string, f: Fields, rest: string, g: Fields)
    requires FieldsInRange(f) && layout != []
    requires Step(layout[0], value, f) == Some((rest, g))
    ensures FieldsInRange(g)
    ensures Run(layout, value, f) == Run(layout[1..], rest, g)
  {
  }

  /** A one-character literal other than a space consumes exactly that character. */
  lemma SkipChar(c: char, rest: string)
    requires c != ' '
    ensures Skip([c] + rest, [c]) == Some(rest)
  {
    assert ([c] + rest)[1..] == rest;
    assert [c][1..] == [];
  }

  /** Two digits rendered by AppendInt are read back by the fixed-width `01`/`02` elements. */
  lemma GetNumTwoDigits(x: int, rest: string)
    requires 0 <= x < 100
    ensures GetNum(AppendInt(x, 2) + rest, true) == Some((x, rest))
  {
    var s := AppendInt(x, 2) + rest;
    AppendIntTwo(x);
    assert s[2..] == rest;
  }

  /** Four digits rendered by AppendInt are read back by the `2006` element. */
  lemma GetYearFourDigits(y: int, rest: string)
    requires 0 <= y <= 9999
    ensures GetYear(AppendInt(y, 4) + rest) == Some((y, rest))
  {
    var s := AppendInt(y, 4) + rest;
    AppendIntFour(y);
    assert s[4..] == rest;
  }

  /** A year-first layout, `"2006-01-02"` or `"2006/01/02"`: year, separator, month, separator, day. */
  function YearFirstLayout(sep: char): Layout {
    [LongYear, Lit([sep]), ZeroMonth, Lit([sep]), ZeroDay]
  }

  /** The text of a four-digit year and a two-digit month and day, joined by `sep`. */
  function YearFirstText(sep: char, y: int, m: int, d: int): string {
    AppendInt(y, 4) + [sep] + AppendInt(m, 2) + [sep] + AppendInt(d, 2)
  }

  /**
   * A string of the form `YYYY-MM-DD` (any four-digit year, any two-digit
   * month and day) parses under `"2006-01-02"` exactly when it names a real
   * date, and then to that date.
   */
  lemma IsoReads(y: int, m: int, d: int)
    requires 0 <= y <= 9999 && 0 <= m <= 99 && 0 <= d <= 99
    ensures Parse(IsoLayout, FormatISO(Date(y, m, d)))
         == if ValidDate(Date(y, m, d)) then Some(Date(y, m, d)) else None
  {
    assert IsoLayout == YearFirstLayout('-');
    assert FormatISO(Date(y, m, d)) == YearFirstText('-', y, m, d);
    YearFirstReads('-', y, m, d);
  }

  /**
   * A string of the form `YYYY/MM/DD` parses under `"2006/01/02"` exactly
   * when it names a real date, and then to that date.
   */
  lemma YearSlashReads(y: int, m: int, d: int)
    requires 0 <= y <= 9999 && 0 <= m <= 99 && 0 <= d <= 99
    ensures Parse(YearSlashLayout, YearFirstText('/', y, m, d))
         == if ValidDate(Date(y, m, d)) then Some(Date(y, m, d)) else None
  {
    assert YearSlashLayout == YearFirstLayout('/');
    YearFirstReads('/', y, m, d);
  }

  /** Either year-first layout reads its own text exactly when it names a real date. */
  lemma YearFirstReads(sep: char, y: int, m: int, d: int)
    requires sep != ' ' && 0 <= y <= 9999 && 0 <= m <= 99 && 0 <= d <= 99
    ensures Parse(YearFirstLayout(sep), YearFirstText(sep, y, m, d))
         == if ValidDate(Date(y, m, d)) then Some(Date(y, m, d)) else None
  {
    YearFirstRun(sep, y, m, d);
  }

  /** The element-by-element reading of a year-first string. */
  lemma YearFirstRun(sep: char, y: int, m: int, d: int)
    requires sep != ' ' && 0 <= y <= 9999 && 0 <= m <= 99 && 0 <= d <= 99
    ensures Run(YearFirstLayout(sep), YearFirstText(sep, y, m, d), Fields(0, None, None))
         == if 1 <= m <= 12 then Some(("", Fields(y, Some(m), Some(d)))) else None
  {
    var ys, ms, ds := AppendInt(y, 4), AppendInt(m, 2), AppendInt(d, 2);
    assert YearFirstText(sep, y, m, d) == ys + ([sep] + (ms + ([sep] + ds)));
    GetYearFourDigits(y, [sep] + (ms + ([sep] + ds)));
    GetNumTwoDigits(m, [sep] + ds);
    GetNumTwoDigits(d, "");
    assert ds + "" == ds;
    YearFirstRunOf(sep, ys, ms, ds, y, m, d);
  }

  /** The same reading over the three digit groups, whatever produced them. */
  lemma {:induction false} YearFirstRunOf(sep: char, ys: string, ms: string, ds: string, y: int, m: int, d: int)
    requires sep != ' ' && 0 <= y <= 9999 && 0 <= d <= 99
    requires GetYear(ys + ([sep] + (ms + ([sep] + ds)))) == Some((y, [sep] + (ms + ([sep] + ds))))
    requires GetNum(ms + ([sep] + ds), true) == Some((m, [sep] + ds))
    requires GetNum(ds, true) == Some((d, ""))
    ensures Run(YearFirstLayout(sep), ys + ([sep] + (ms + ([sep] + ds))), Fields(0, None, None))
         == if 1 <= m <= 12 then Some(("", Fields(y, Some(m), Some(d)))) else None
  {
    var r2 := ms + ([sep] + ds);
    var r1 := [sep] + r2;
    var f1 := Fields(y, None, None);
    var l := YearFirstLayout(sep);
    RunStep(l, ys + r1, Fields(0, None, None), r1, f1);
    SkipChar(sep, r2);
    RunStep(l[1..], r1, f1, r2, f1);
    assert l[1..][1..] == [ZeroMonth, Lit([sep]), ZeroDay];
    YearFirstTailOf(sep, ms, ds, y, m, d);
  }

  /** The month, separator and day of a year-first string, once the year and its separator are read. */
  lemma YearFirstTailOf(sep: char, ms: string, ds: string, y: int, m: int, d: int)
    requires sep != ' ' && 0 <= y <= 9999 && 0 <= d <= 99
    requires GetNum(ms + ([sep] + ds), true) == Some((m, [sep] + ds))
    requires GetNum(ds, true) == Some((d, ""))
    ensures Run([ZeroMonth, Lit([sep]), ZeroDay], ms + ([sep] + ds), Fields(y, None, None))
         == if 1 <= m <= 12 then Some(("", Fields(y, Some(m), Some(d)))) else None
  {
    if 1 <= m <= 12 {
      ZeroMonthStep(sep, ms, ds, y, m);
      SepDayStep(sep, ds, y, m, d);
    } else {
      ZeroMonthFails(sep, ms + ([sep] + ds), y, m, [sep] + ds);
    }
  }

  /** The `01` element reads an in-range month and leaves the separator and the day. */
  lemma ZeroMonthStep(sep: char, ms: string, ds: string, y: int, m: int)
    requires 0 <= y <= 9999 && 1 <= m <= 12
    requires GetNum(ms + ([sep] + ds), true) == Some((m, [sep] + ds))
    ensures Run([ZeroMonth, Lit([sep]), ZeroDay], ms + ([sep] + ds), Fields(y, None, None))
         == Run([Lit([sep]), ZeroDay], [sep] + ds, Fields(y, Some(m), None))
  {
    var l := [ZeroMonth, Lit([sep]), ZeroDay];
    assert l[0] == ZeroMonth && l[1..] == [Lit([sep]), ZeroDay];
    RunStep(l, ms + ([sep] + ds), Fields(y, None, None), [sep] + ds, Fields(y, Some(m), None));
  }

  /** The `01` element rejects a two-digit month outside 1..12. */
  lemma ZeroMonthFails(sep: char, value: string, y: int, m: int, rest: string)
    requires 0 <= y <= 9999 && !(1 <= m <= 12)
    requires GetNum(value, true) == Some((m, rest))
    ensures Run([ZeroMonth, Lit([sep]), ZeroDay], value, Fields(y, None, None)) == None
  {
    var l := [ZeroMonth, Lit([sep]), ZeroDay];
    assert l[0] == ZeroMonth;
    assert Step(ZeroMonth, value, Fields(y, None, None)) == None;
  }

  /** The separator and the `02` element read the two-digit day and leave nothing. */
  lemma SepDayStep(sep: char, ds: string, y: int, m: int, d: int)
    requires sep != ' ' && 0 <= y <= 9999 && 1 <= m <= 12 && 0 <= d <= 99
    requires GetNum(ds, true) == Some((d, ""))
    ensures Run([Lit([sep]), ZeroDay], [sep] + ds, Fields(y, Some(m), None)) == Some(("", Fields(y, Some(m), Some(d))))
  {
    var f := Fields(y, Some(m), None);
    SepStep(sep, ds, f);
    ZeroDayStep(ds, f, d);
  }

  /** The separator literal consumes the separator in front of the day. */
  lemma SepStep(sep: char, ds: string, f: Fields)
    requires sep != ' ' && FieldsInRange(f)
    ensures Run([Lit([sep]), ZeroDay], [sep] + ds, f) == Run([ZeroDay], ds, f)
  {
    var l := [Lit([sep]), ZeroDay];
    assert l[0] == Lit([sep]) && l[1..] == [ZeroDay];
    SkipChar(sep, ds);
    RunStep(l, [sep] + ds, f, ds, f);
  }

  /** The `02` element reads the whole two-digit day. */
  lemma ZeroDayStep(ds: string, f: Fields, d: int)
    requires FieldsInRange(f) && 0 <= d <= 99
    requires GetNum(ds, true) == Some((d, ""))
    ensures Run([ZeroDay], ds, f) == Some(("", f.(day := Some(d))))
  {
    var l := [ZeroDay];
    assert l[1..] == [];
    RunStep(l, ds, f, "", f.(day := Some(d)));
  }

  /**
   * Round trip of the sheet's date column: what `Format("2006-01-02")` writes
   * for a date with a four-digit year, `Parse("2006-01-02", ...)` reads back
   * as the same date.
   */
  lemma IsoRoundTrip(d: Date)
    requires ValidDate(d) && 0 <= d.year <= 9999
    ensures Parse(IsoLayout, FormatISO(d)) == Some(d)
  {
    IsoReads(d.year, d.month, d.day);
  }

  /** The one- or two-digit reading of `1`/`2` applied to Go's unpadded rendering of `n`. */
  lemma GetNumDecimal(n: int, rest: string)
    requires 0 <= n < 100 && (rest == [] || !IsDigit(rest[0]))
    ensures GetNum(Decimal(n) + rest, false) == Some((n, rest))
  {
    var s := Decimal(n) + rest;
    if n < 10 {
      assert s[1..] == rest;
    } else {
      assert Decimal(n) == Decimal(n / 10) + [Digit(n % 10)];
      assert Decimal(n / 10) == [Digit(n / 10)];
      assert s[2..] == rest;
      TwoDigits(n);
    }
  }

  /** The `M/D/YYYY` text of a month and day below 100 and a four-digit year. */
  function SlashText(y: int, m: nat, d: nat): string {
    Decimal(m) + "/" + Decimal(d) + "/" + AppendInt(y, 4)
  }

  /**
   * A string `M/D/YYYY` (month and day on one or two digits) parses under
   * `"1/2/2006"` exactly when it names a real date, and then to that date.
   */
  lemma NumSlashReads(y: int, m: nat, d: nat)
    requires 0 <= y <= 9999 && m < 100 && d < 100
    ensures Parse(NumSlashLayout, SlashText(y, m, d))
         == if ValidDate(Date(y, m, d)) then Some(Date(y, m, d)) else None
  {
    NumSlashRun(y, m, d);
  }

  /** The element-by-element reading of an `M/D/YYYY` string. */
  lemma NumSlashRun(y: int, m: nat, d: nat)
    requires 0 <= y <= 9999 && m < 100 && d < 100
    ensures Run(NumSlashLayout, SlashText(y, m, d), Fields(0, None, None))
         == if 1 <= m <= 12 then Some(("", Fields(y, Some(m), Some(d)))) else None
  {
    var ms, ds, ys := Decimal(m), Decimal(d), AppendInt(y, 4);
    assert SlashText(y, m, d) == ms + ("/" + (ds + ("/" + ys)));
    GetNumDecimal(m, "/" + (ds + ("/" + ys)));
    GetNumDecimal(d, "/" + ys);
    GetYearFourDigits(y, "");
    assert ys + "" == ys;
    NumSlashRunOf(ms, ds, ys, y, m, d);
  }

  /** The same reading over the three digit groups, whatever produced them. */
  lemma {:induction false} NumSlashRunOf(ms: string, ds: string, ys: string, y: int, m: int, d: int)
    requires 0 <= y <= 9999 && 0 <= d <= 99
    requires GetNum(ms + ("/" + (ds + ("/" + ys))), false) == Some((m, "/" + (ds + ("/" + ys))))
    requires GetNum(ds + ("/" + ys), false) == Some((d, "/" + ys))
    requires GetYear(ys) == Some((y, ""))
    ensures Run(NumSlashLayout, ms + ("/" + (ds + ("/" + ys))), Fields(0, None, None))
         == if 1 <= m <= 12 then Some(("", Fields(y, Some(m), Some(d)))) else None
  {
    var r3 := "/" + ys;
    var r2 := ds + r3;
    var r1 := "/" + r2;
    var f0 := Fields(0, None, None);
    var l := NumSlashLayout;
    if 1 <= m <= 12 {
      var f1 := f0.(month := Some(m));
      RunStep(l, ms + r1, f0, r1, f1);
      SkipChar('/', r2);
      RunStep(l[1..], r1, f1, r2, f1);
      var f2 := f1.(day := Some(d));
      RunStep(l[1..][1..], r2, f1, r3, f2);
      SkipChar('/', ys);
      RunStep(l[1..][1..][1..], r3, f2, ys, f2);
      var f3 := f2.(year := y);
      RunStep(l[1..][1..][1..][1..], ys, f2, "", f3);
      assert l[1..][1..][1..][1..][1..] == [];
    } else {
      assert Step(NumMonth, ms + r1, f0) == None;
    }
  }

  /** The three letters of an abbreviation, folded to lower case. */
  function Folded(s: string): (char, char, char)
    requires |s| >= 3
  {
    (LowerChar(s[0]), LowerChar(s[1]), LowerChar(s[2]))
  }

  /** The position in `ShortMonthNames` of a folded abbreviation (12 for none). */
  function MonthIndexOf(t: (char, char, char)): nat {
    if t == ('j', 'a', 'n') then 0 else if t == ('f', 'e', 'b') then 1
    else if t == ('m', 'a', 'r') then 2 else if t == ('a', 'p', 'r') then 3
    else if t == ('m', 'a', 'y') then 4 else if t == ('j', 'u', 'n') then 5
    else if t == ('j', 'u', 'l') then 6 else if t == ('a', 'u', 'g') then 7
    else if t == ('s', 'e', 'p') then 8 else if t == ('o', 'c', 't') then 9
    else if t == ('n', 'o', 'v') then 10 else if t == ('d', 'e', 'c') then 11
    else 12
  }

  /** No two month abbreviations are equal up to ASCII case: each folds to its own position. */
  lemma MonthNameIndex(i: nat)
    requires i < 12
    ensures |ShortMonthNames[i]| == 3 && MonthIndexOf(Folded(ShortMonthNames[i])) == i
  {
    if i == 0 { assert ShortMonthNames[i] == "Jan"; }
    else if i == 1 { assert ShortMonthNames[i] == "Feb"; }
    else if i == 2 { assert ShortMonthNames[i] == "Mar"; }
    else if i == 3 { assert ShortMonthNames[i] == "Apr"; }
    else if i == 4 { assert ShortMonthNames[i] == "May"; }
    else if i == 5 { assert ShortMonthNames[i] == "Jun"; }
    else if i == 6 { assert ShortMonthNames[i] == "Jul"; }
    else if i == 7 { assert ShortMonthNames[i] == "Aug"; }
    else if i == 8 { assert ShortMonthNames[i] == "Sep"; }
    else if i == 9 { assert ShortMonthNames[i] == "Oct"; }
    else if i == 10 { assert ShortMonthNames[i] == "Nov"; }
    else { assert ShortMonthNames[i] == "Dec"; }
  }

  /**
   * Go's month lookup, from position `i` on, finds month `m` in text that
   * starts with its abbreviation in any ASCII case: no earlier abbreviation
   * matches it.
   */
  lemma {:induction false} LookupMonthFinds(value: string, i: nat, m: int)
    requires 1 <= m <= 12 && i <= m - 1 && |value| >= 3
    requires FoldEqual(value[..3], ShortMonthNames[m - 1])
    ensures LookupMonth(value, i) == Some((m, value[3..]))
    decreases m - 1 - i
  {
    MonthNameIndex(m - 1);
    if i < m - 1 {
      MonthNameIndex(i);
      assert Folded(value[..3]) == Folded(ShortMonthNames[m - 1]);
      assert Folded(ShortMonthNames[i]) != Folded(value[..3]);
      assert !FoldEqual(value[..3], ShortMonthNames[i]);
      LookupMonthFinds(value, i + 1, m);
    }
  }

  /** A layout space consumes the one space in front of text that does not start with another. */
  lemma SkipSpace(rest: string)
    requires rest == [] || rest[0] != ' '
    ensures Skip([' '] + rest, " ") == Some(rest)
  {
    assert ([' '] + rest)[1..] == rest;
    assert CutSpace(" "[1..]) == [];
  }

  /** The literal `", "` consumes a comma and one space in front of text that does not start with a space. */
  lemma SkipCommaSpace(rest: string)
    requires rest == [] || rest[0] != ' '
    ensures Skip([','] + ([' '] + rest), ", ") == Some(rest)
  {
    assert ([','] + ([' '] + rest))[1..] == [' '] + rest;
    assert ", "[1..] == " ";
    SkipSpace(rest);
  }

  /** The `Jan 2, 2006` text of a date: a month abbreviation, the unpadded day and the four-digit year. */
  function MonthNameText(name: string, y: int, d: nat): string {
    name + " " + Decimal(d) + ", " + AppendInt(y, 4)
  }

  /**
   * A string `Mon D, YYYY` whose abbreviation is month `m`'s in any ASCII
   * case parses under `"Jan 2, 2006"` exactly when it names a real date, and
   * then to that date.
   */
  lemma MonthNameReads(name: string, y: int, m: int, d: nat)
    requires 0 <= y <= 9999 && 1 <= m <= 12 && d < 100
    requires |name| == 3 && FoldEqual(name, ShortMonthNames[m - 1])
    ensures Parse(MonthNameLayout, MonthNameText(name, y, d))
         == if ValidDate(Date(y, m, d)) then Some(Date(y, m, d)) else None
  {
    MonthNameRun(name, y, m, d);
  }

  /** The element-by-element reading of a `Mon D, YYYY` string. */
  lemma MonthNameRun(name: string, y: int, m: int, d: nat)
    requires 0 <= y <= 9999 && 1 <= m <= 12 && d < 100
    requires |name| == 3 && FoldEqual(name, ShortMonthNames[m - 1])
    ensures Run(MonthNameLayout, MonthNameText(name, y, d), Fields(0, None, None))
         == Some(("", Fields(y, Some(m), Some(d))))
  {
    var ds, ys := Decimal(d), AppendInt(y, 4);
    var r3 := [','] + ([' '] + ys);
    var r1 := [' '] + (ds + r3);
    MonthNameTextParts(name, y, d);
    assert (name + r1)[..3] == name && (name + r1)[3..] == r1;
    LookupMonthFinds(name + r1, 0, m);
    GetNumDecimal(d, r3);
    GetYearFourDigits(y, "");
    assert ys + "" == ys;
    AppendIntFour(y);
    MonthNameRunOf(name + r1, ds, ys, y, m, d);
  }

  /** The pieces of `Mon D, YYYY` text, one character per literal. */
  lemma MonthNameTextParts(name: string, y: int, d: nat)
    ensures MonthNameText(name, y, d)
         == name + ([' '] + (Decimal(d) + ([','] + ([' '] + AppendInt(y, 4)))))
  {
  }

  /** The same reading over the month text, the day digits and the year digits. */
  lemma MonthNameRunOf(value: string, ds: string, ys: string, y: int, m: int, d: int)
    requires 0 <= y <= 9999 && 1 <= m <= 12 && 0 <= d <= 99
    requires ds != [] && ds[0] != ' ' && ys != [] && ys[0] != ' '
    requires LookupMonth(value, 0) == Some((m, [' '] + (ds + ([','] + ([' '] + ys)))))
    requires GetNum(ds + ([','] + ([' '] + ys)), false) == Some((d, [','] + ([' '] + ys)))
    requires GetYear(ys) == Some((y, ""))
    ensures Run(MonthNameLayout, value, Fields(0, None, None)) == Some(("", Fields(y, Some(m), Some(d))))
  {
    var r3 := [','] + ([' '] + ys);
    var r2 := ds + r3;
    var f1 := Fields(0, Some(m), None);
    var f2 := f1.(day := Some(d));
    MonthNameStep(value, [' '] + r2, m);
    MonthSpaceStep(r2, f1);
    MonthDayStep(r2, r3, f1, d);
    MonthCommaStep(ys, f2);
    MonthYearStep(ys, f2, y);
  }

  /** `Jan` reads the month. */
  lemma MonthNameStep(value: string, rest: string, m: int)
    requires 1 <= m <= 12 && LookupMonth(value, 0) == Some((m, rest))
    ensures Run(MonthNameLayout, value, Fields(0, None, None))
         == Run([Lit(" "), NumDay, Lit(", "), LongYear], rest, Fields(0, Some(m), None))
  {
    var l := MonthNameLayout;
    assert l[1..] == [Lit(" "), NumDay, Lit(", "), LongYear];
    RunStep(l, value, Fields(0, None, None), rest, Fields(0, Some(m), None));
  }

  /** The space after the month name. */
  lemma MonthSpaceStep(rest: string, f: Fields)
    requires FieldsInRange(f) && (rest == [] || rest[0] != ' ')
    ensures Run([Lit(" "), NumDay, Lit(", "), LongYear], [' '] + rest, f)
         == Run([NumDay, Lit(", "), LongYear], rest, f)
  {
    var l := [Lit(" "), NumDay, Lit(", "), LongYear];
    assert l[0] == Lit(" ") && l[1..] == [NumDay, Lit(", "), LongYear];
    SkipSpace(rest);
    RunStep(l, [' '] + rest, f, rest, f);
  }

  /** `2` reads the day. */
  lemma MonthDayStep(value: string, rest: string, f: Fields, d: int)
    requires FieldsInRange(f) && 0 <= d <= 99 && GetNum(value, false) == Some((d, rest))
    ensures Run([NumDay, Lit(", "), LongYear], value, f) == Run([Lit(", "), LongYear], rest, f.(day := Some(d)))
  {
    var l := [NumDay, Lit(", "), LongYear];
    assert l[0] == NumDay && l[1..] == [Lit(", "), LongYear];
    RunStep(l, value, f, rest, f.(day := Some(d)));
  }

  /** The comma and space before the year. */
  lemma MonthCommaStep(rest: string, f: Fields)
    requires FieldsInRange(f) && (rest == [] || rest[0] != ' ')
    ensures Run([Lit(", "), LongYear], [','] + ([' '] + rest), f) == Run([LongYear], rest, f)
  {
    var l := [Lit(", "), LongYear];
    assert l[0] == Lit(", ") && l[1..] == [LongYear];
    SkipCommaSpace(rest);
    RunStep(l, [','] + ([' '] + rest), f, rest, f);
  }

  /** `2006` reads the year and leaves nothing. */
  lemma MonthYearStep(ys: string, f: Fields, y: int)
    requires FieldsInRange(f) && 0 <= y <= 9999 && GetYear(ys) == Some((y, ""))
    ensures Run([LongYear], ys, f) == Some(("", f.(year := y)))
  {
    var l := [LongYear];
    assert l[1..] == [];
    RunStep(l, ys, f, "", f.(year := y));
  }

  /**
   * The `01`/`02` elements accept a subset of what `1`/`2` accept, with the
   * same reading, because Go's `getnum` is greedy.
   */
  lemma FixedGetNumRefines(value: string)
    requires GetNum(value, true).Some?
    ensures GetNum(value, false) == GetNum(value, true)
  {
  }

  /** Layout `b` reads like `a`, except that it may have `1`/`2` where `a` has `01`/`02`. */
  ghost predicate LooserLayout(a: Layout, b: Layout) {
    |a| == |b|
    && forall k :: 0 <= k < |a| ==>
         a[k] == b[k] || (a[k] == ZeroMonth && b[k] == NumMonth) || (a[k] == ZeroDay && b[k] == NumDay)
  }

  lemma {:induction false} RunLooser(a: Layout, b: Layout, value: string, f: Fields)
    requires FieldsInRange(f) && LooserLayout(a, b)
    requires Run(a, value, f).Some?
    ensures Run(b, value, f) == Run(a, value, f)
    decreases |a|
  {
    if a != [] {
      if a[0] != b[0] {
        if a[0] == ZeroMonth {
          FixedGetNumRefines(value);
        } else {
          FixedGetNumRefines(value);
        }
      }
      assert Step(b[0], value, f) == Step(a[0], value, f);
      var rest, g := Step(a[0], value, f).value.0, Step(a[0], value, f).value.1;
      assert LooserLayout(a[1..], b[1..]) by {
        forall k | 0 <= k < |a[1..]|
          ensures a[1..][k] == b[1..][k] || (a[1..][k] == ZeroMonth && b[1..][k] == NumMonth)
                  || (a[1..][k] == ZeroDay && b[1..][k] == NumDay)
        {
          assert a[1..][k] == a[k + 1] && b[1..][k] == b[k + 1];
        }
      }
      RunLooser(a[1..], b[1..], rest, g);
    }
  }

  /**
   * The cascade's `"01/02/2006"` layout can never be the first to succeed:
   * whatever it parses, the `"1/2/2006"` layout tried before it parses to the
   * same date.
   */
  lemma ZeroSlashShadowed(value: string)
    requires Parse(ZeroSlashLayout, value).Some?
    ensures Parse(NumSlashLayout, value) == Parse(ZeroSlashLayout, value)
  {
    var f0 := Fields(0, None, None);
    assert LooserLayout(ZeroSlashLayout, NumSlashLayout) by {
      forall k | 0 <= k < 5
        ensures ZeroSlashLayout[k] == NumSlashLayout[k]
                || (ZeroSlashLayout[k] == ZeroMonth && NumSlashLayout[k] == NumMonth)
                || (ZeroSlashLayout[k] == ZeroDay && NumSlashLayout[k] == NumDay)
      {
        assert k == 0 || k == 1 || k == 2 || k == 3 || k == 4;
      }
    }
    assert Run(ZeroSlashLayout, value, f0).Some?;
    RunLooser(ZeroSlashLayout, NumSlashLayout, value, f0);
  }

  /** Run fails as soon as one element fails. */
  lemma RunStepFails(layout: Layout, value: string, f: Fields)
    requires FieldsInRange(f) && layout != []
    requires Step(layout[0], value, f).None?
    ensures Run(layout, value, f).None?
  {
  }

  /** A parse whose elements fail does not produce a date. */
  lemma ParseOfFailedRun(layout: Layout, value: string)
    requires Run(layout, value, Fields(0, None, None)).None?
    ensures Parse(layout, value).None?
  {
  }

  /** Every month abbreviation starts with a capital letter. */
  lemma MonthNamesStartWithLetter(i: nat)
    requires i < 12
    ensures |ShortMonthNames[i]| == 3 && 'A' <= ShortMonthNames[i][0] <= 'Z'
  {
  }

  /** No month abbreviation matches text that does not start with an ASCII letter. */
  lemma {:induction false} LookupMonthNeedsLetter(value: string, i: nat)
    requires value == [] || !('A' <= value[0] <= 'Z' || 'a' <= value[0] <= 'z')
    ensures LookupMonth(value, i).None?
    decreases 12 - i
  {
    if i < 12 {
      MonthNamesStartWithLetter(i);
      if |value| >= 3 {
        assert LowerChar(value[..3][0]) != LowerChar(ShortMonthNames[i][0]);
      }
      LookupMonthNeedsLetter(value, i + 1);
    }
  }

  /** The text `"Jan 2, 2006"` needs: none of the other layouts start with a month name. */
  lemma MonthNameNeedsLetter(value: string)
    requires value == [] || !('A' <= value[0] <= 'Z' || 'a' <= value[0] <= 'z')
    ensures Parse(MonthNameLayout, value).None?
  {
    var f0 := Fields(0, None, None);
    LookupMonthNeedsLetter(value, 0);
    RunStepFails(MonthNameLayout, value, f0);
  }

  /** `2006` is the first element of the two year-first layouts; it needs four leading digits. */
  lemma YearFirstNeedsFourDigits(value: string)
    requires |value| < 4 || !IsDigit(value[0]) || !IsDigit(value[1]) || !IsDigit(value[2]) || !IsDigit(value[3])
    ensures Parse(IsoLayout, value).None? && Parse(YearSlashLayout, value).None?
  {
    var f0 := Fields(0, None, None);
    RunStepFails(IsoLayout, value, f0);
    RunStepFails(YearSlashLayout, value, f0);
  }

  /** The shape of year-first text: digits everywhere but the separator `sep` at positions 4 and 7. */
  predicate YearFirstShaped(sep: char, s: string) {
    |s| == 10 && s[4] == sep && s[7] == sep
    && IsDigit(s[0]) && IsDigit(s[1]) && IsDigit(s[2]) && IsDigit(s[3])
    && IsDigit(s[5]) && IsDigit(s[6]) && IsDigit(s[8]) && IsDigit(s[9])
  }

  lemma FormatISOIsoShaped(y: int, m: int, d: int)
    requires 0 <= y <= 9999 && 0 <= m <= 99 && 0 <= d <= 99
    ensures YearFirstShaped('-', FormatISO(Date(y, m, d)))
  {
    AppendIntFour(y);
    AppendIntTwo(m);
    AppendIntTwo(d);
  }

  lemma YearFirstTextShaped(sep: char, y: int, m: int, d: int)
    requires 0 <= y <= 9999 && 0 <= m <= 99 && 0 <= d <= 99
    ensures YearFirstShaped(sep, YearFirstText(sep, y, m, d))
  {
    AppendIntFour(y);
    AppendIntTwo(m);
    AppendIntTwo(d);
  }

  /** A one-character literal other than a space fails on text that starts with another character. */
  lemma SkipCharFails(value: string, c: char)
    requires c != ' ' && value != [] && value[0] != c
    ensures Skip(value, [c]).None?
  {
  }

  /**
   * The month-first layouts reject text that starts with three digits: they
   * read two of them as the month and then find a digit instead of `/`.
   */
  lemma MonthFirstRejectsThreeDigits(s: string)
    requires |s| >= 3 && IsDigit(s[0]) && IsDigit(s[1]) && IsDigit(s[2])
    ensures Parse(NumSlashLayout, s).None? && Parse(ZeroSlashLayout, s).None?
  {
    var f0 := Fields(0, None, None);
    assert GetNum(s, false) == GetNum(s, true) == Some((DigitValue(s[0]) * 10 + DigitValue(s[1]), s[2..]));
    SkipCharFails(s[2..], '/');
    var m := DigitValue(s[0]) * 10 + DigitValue(s[1]);
    if 1 <= m <= 12 {
      var f1 := f0.(month := Some(m));
      RunStep(NumSlashLayout, s, f0, s[2..], f1);
      RunStepFails(NumSlashLayout[1..], s[2..], f1);
      RunStep(ZeroSlashLayout, s, f0, s[2..], f1);
      RunStepFails(ZeroSlashLayout[1..], s[2..], f1);
    } else {
      RunStepFails(NumSlashLayout, s, f0);
      RunStepFails(ZeroSlashLayout, s, f0);
    }
    ParseOfFailedRun(NumSlashLayout, s);
    ParseOfFailedRun(ZeroSlashLayout, s);
  }

  /** The month-first layouts reject text that does not start with a digit. */
  lemma MonthFirstNeedsDigit(s: string)
    requires s == [] || !IsDigit(s[0])
    ensures Parse(NumSlashLayout, s).None? && Parse(ZeroSlashLayout, s).None?
  {
    var f0 := Fields(0, None, None);
    RunStepFails(NumSlashLayout, s, f0);
    RunStepFails(ZeroSlashLayout, s, f0);
  }

  /** A year-first layout rejects year-first text written with another separator. */
  lemma YearFirstOtherSeparator(sep: char, other: char, s: string)
    requires other != sep && other != ' ' && YearFirstShaped(sep, s)
    ensures Parse(YearFirstLayout(other), s).None?
  {
    var f0 := Fields(0, None, None);
    var l := YearFirstLayout(other);
    var y := GetYear(s).value.0;
    SkipCharFails(s[4..], other);
    RunStep(l, s, f0, s[4..], f0.(year := y));
    RunStepFails(l[1..], s[4..], f0.(year := y));
    ParseOfFailedRun(l, s);
  }

  /**
   * Text of the `YYYY-MM-DD` shape is rejected by every alternate layout:
   * the slash layouts find a digit or a dash where they need a slash, and
   * the month name layout finds a digit where it needs a letter.
   */
  lemma IsoShapedOnlyIso(s: string)
    requires YearFirstShaped('-', s)
    ensures Parse(NumSlashLayout, s).None? && Parse(ZeroSlashLayout, s).None?
    ensures Parse(YearSlashLayout, s).None? && Parse(MonthNameLayout, s).None?
  {
    MonthNameNeedsLetter(s);
    MonthFirstRejectsThreeDigits(s);
    assert YearSlashLayout == YearFirstLayout('/');
    YearFirstOtherSeparator('-', '/', s);
  }

  /** Text of the `YYYY/MM/DD` shape is rejected by every layout but `"2006/01/02"`. */
  lemma YearSlashShapedOnlyYearSlash(s: string)
    requires YearFirstShaped('/', s)
    ensures Parse(IsoLayout, s).None? && Parse(NumSlashLayout, s).None?
    ensures Parse(ZeroSlashLayout, s).None? && Parse(MonthNameLayout, s).None?
  {
    MonthNameNeedsLetter(s);
    MonthFirstRejectsThreeDigits(s);
    assert IsoLayout == YearFirstLayout('-');
    YearFirstOtherSeparator('/', '-', s);
  }

  /** `Mon D, YYYY` text starts with a letter, so every numeric layout rejects it. */
  lemma MonthNameTextOnlyMonthName(name: string, y: int, m: int, d: nat)
    requires 1 <= m <= 12 && |name| == 3 && FoldEqual(name, ShortMonthNames[m - 1])
    ensures Parse(IsoLayout, MonthNameText(name, y, d)).None?
    ensures Parse(NumSlashLayout, MonthNameText(name, y, d)).None?
    ensures Parse(ZeroSlashLayout, MonthNameText(name, y, d)).None?
    ensures Parse(YearSlashLayout, MonthNameText(name, y, d)).None?
  {
    var s := MonthNameText(name, y, d);
    MonthNamesStartWithLetter(m - 1);
    assert LowerChar(name[0]) == LowerChar(ShortMonthNames[m - 1][0]);
    assert s[0] == name[0];
    YearFirstNeedsFourDigits(s);
    MonthFirstNeedsDigit(s);
  }

  /**
   * The shape of `M/D/YYYY` text as far as the other layouts care: a digit,
   * and a slash at the second or third position.
   */
  predicate SlashShaped(s: string) {
    |s| >= 3 && IsDigit(s[0]) && (s[1] == '/' || (IsDigit(s[1]) && s[2] == '/'))
  }

  lemma SlashTextShaped(y: int, m: nat, d: nat)
    requires 0 <= y <= 9999 && m < 100 && d < 100
    ensures SlashShaped(SlashText(y, m, d))
  {
    var s := SlashText(y, m, d);
    if m < 10 {
      assert s[1] == '/';
    } else {
      assert Decimal(m) == Decimal(m / 10) + [Digit(m % 10)];
      assert s[2] == '/';
    }
  }

  /** Text of the `M/D/YYYY` shape is rejected by the ISO, year-slash and month-name layouts. */
  lemma SlashShapedNotYearFirst(s: string)
    requires SlashShaped(s)
    ensures Parse(IsoLayout, s).None? && Parse(YearSlashLayout, s).None? && Parse(MonthNameLayout, s).None?
  {
    YearFirstNeedsFourDigits(s);
    MonthNameNeedsLetter(s);
  }
}
