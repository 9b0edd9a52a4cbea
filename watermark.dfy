/**
 * The watermark resolver of `doZillow`: from the sheet's last row it derives
 * the date from which new report e-mails are searched, the day after the last
 * recorded date, or a fixed date when the sheet gives none.
 */
module Watermark {
  import opened Wrappers
  import opened GoStrings
  import opened Calendar
  import opened GoTime

  /**
   * A cell as the Sheets read returns it: absent (Go's nil) or formatted text.
   * `%v` of a text cell is the text itself.
   */
  datatype Cell = Nil | Text(text: string)

  type SheetRow = seq<Cell>

  /** The filter date used when the sheet offers no usable last date. */
  const FallbackFilterDate: string := "2025-05-21"

  /** The layouts tried, in order, once `"2006-01-02"` has failed. */
  const AlternateLayouts: seq<Layout> := [NumSlashLayout, ZeroSlashLayout, YearSlashLayout, MonthNameLayout]

  /** The date read by the first layout of `layouts` that parses `s`, if any does. */
  function FirstParse(layouts: seq<Layout>, s: string): (r: Option<Date>)
    ensures r.Some? ==> ValidDate(r.value) && 0 <= r.value.year <= 9999
    decreases |layouts|
  {
    if layouts == [] then None
    else match Parse(layouts[0], s)
      case Some(d) => Some(d)
      case None => FirstParse(layouts[1..], s)
  }

  /** The trimmed text of the last row's first cell, when there is such a cell and it is not nil. */
  function LastDateText(rows: seq<SheetRow>): Option<string> {
    if |rows| == 0 then None
    else
      var lastRow := rows[|rows| - 1];
      if |lastRow| == 0 || lastRow[0].Nil? then None
      else Some(TrimSpace(lastRow[0].text))
  }

  /** Every layout the resolver tries, in the order it tries them. */
  const Layouts: seq<Layout> := [IsoLayout] + AlternateLayouts

  /** The last recorded date: the last row's trimmed first cell read by the first layout that accepts it. */
  function LastDate(rows: seq<SheetRow>): (r: Option<Date>)
    ensures r.Some? ==> ValidDate(r.value) && 0 <= r.value.year <= 9999
  {
    match LastDateText(rows)
    case None => None
    case Some(s) => FirstParse(Layouts, s)
  }

  /**
   * The watermark made from a last recorded date: the day after it, in
   * `"2006-01-02"` form, or the fallback date when there is none.
   */
  function FilterDateOf(last: Option<Date>): string
    requires last.Some? ==> ValidDate(last.value)
  {
    match last
    case Some(d) => FormatISO(NextDay(d))
    case None => FallbackFilterDate
  }

  /** The watermark of a sheet. */
  function FilterDate(rows: seq<SheetRow>): string {
    FilterDateOf(LastDate(rows))
  }

  /**
   * The resolution block of `doZillow` step by step: the primary layout
   * first, then the alternates in a loop that stops at the first success and
   * records it in `parsed`, then the fallback.
   */
  method ResolveFilterDate(rows: seq<SheetRow>) returns (filter: string)
    ensures filter == FilterDate(rows)
  {
    if |rows| > 0 {
      var lastRow := rows[|rows| - 1];
      if |lastRow| > 0 && !lastRow[0].Nil? {
        var dateStr := TrimSpace(lastRow[0].text);
        ghost var last := FirstParse(Layouts, dateStr);
        assert LastDate(rows) == last;
        LayoutsInOrder(dateStr);
        var primary := Parse(IsoLayout, dateStr);
        if primary.Some? {
          assert last == primary;
          filter := FormatISO(NextDay(primary.value));
        } else {
          assert last == FirstParse(AlternateLayouts, dateStr);
          var formats := AlternateLayouts;
          var parsed := false;
          var i := 0;
          while i < |formats|
            invariant 0 <= i <= |formats|
            invariant !parsed
            invariant last == FirstParse(formats[i..], dateStr)
          {
            var p := Parse(formats[i], dateStr);
            if p.Some? {
              assert last == p;
              filter := FormatISO(NextDay(p.value));
              parsed := true;
              break;
            }
            assert formats[i..][1..] == formats[i + 1..];
            i := i + 1;
          }
          if !parsed {
            assert last == None;
            filter := FallbackFilterDate;
          }
        }
      } else {
        filter := FallbackFilterDate;
      }
    } else {
      filter := FallbackFilterDate;
    }
  }

  /** The full layout list is the primary layout followed by the alternates. */
  lemma LayoutsInOrder(s: string)
    ensures FirstParse(Layouts, s)
         == if Parse(IsoLayout, s).Some? then Parse(IsoLayout, s) else FirstParse(AlternateLayouts, s)
  {
    assert Layouts[0] == IsoLayout && Layouts[1..] == AlternateLayouts;
  }

  /** FirstParse returns the reading of the first layout that succeeds. */
  lemma {:induction false} FirstParseFinds(layouts: seq<Layout>, s: string, i: nat)
    requires i < |layouts| && Parse(layouts[i], s).Some?
    requires forall j :: 0 <= j < i ==> Parse(layouts[j], s).None?
    ensures FirstParse(layouts, s) == Parse(layouts[i], s)
    decreases i
  {
    if i > 0 {
      assert Parse(layouts[0], s).None?;
      FirstParseFinds(layouts[1..], s, i - 1);
    }
  }

  /** FirstParse finds nothing exactly when every layout fails. */
  lemma {:induction false} FirstParseNone(layouts: seq<Layout>, s: string)
    ensures FirstParse(layouts, s).None? <==> forall i :: 0 <= i < |layouts| ==> Parse(layouts[i], s).None?
    decreases |layouts|
  {
    if layouts != [] {
      FirstParseNone(layouts[1..], s);
      assert forall i :: 1 <= i < |layouts| ==> layouts[i] == layouts[1..][i - 1];
    }
  }

  /** The last date of a sheet whose last row starts with already-trimmed text `s`. */
  lemma LastDateOfText(rows: seq<SheetRow>, s: string)
    requires |rows| > 0 && |rows[|rows| - 1]| > 0 && rows[|rows| - 1][0] == Text(s)
    requires TrimSpace(s) == s
    ensures LastDate(rows) == FirstParse(Layouts, s)
  {
  }

  /**
   * White space around the date text of the last row's first cell does not
   * change the last date: the cell is trimmed before it is parsed.
   */
  lemma LastDatePadded(rows: seq<SheetRow>, a: string, s: string, b: string)
    requires AllSpace(a) && AllSpace(b) && s != [] && !IsSpace(s[0]) && !IsSpace(s[|s| - 1])
    requires |rows| > 0 && |rows[|rows| - 1]| > 0 && rows[|rows| - 1][0] == Text(a + s + b)
    ensures LastDate(rows) == FirstParse(Layouts, s)
  {
    TrimSpacePadded(a, s, b);
  }

  /** A sheet whose last date is `d` has the day after `d` as its watermark. */
  lemma FilterDateOfLast(rows: seq<SheetRow>, d: Date)
    requires LastDate(rows) == Some(d)
    ensures FilterDate(rows) == FormatISO(NextDay(d))
  {
  }

  /**
   * When the last row's first cell, trimmed, reads under `"2006-01-02"` as
   * `d`, the watermark is the day after `d`.
   */
  lemma FilterDateFromIso(rows: seq<SheetRow>, text: string, d: Date)
    requires |rows| > 0 && |rows[|rows| - 1]| > 0 && rows[|rows| - 1][0] == Text(text)
    requires Parse(IsoLayout, TrimSpace(text)) == Some(d)
    ensures FilterDate(rows) == FormatISO(NextDay(d))
  {
    LayoutsInOrder(TrimSpace(text));
  }

  /**
   * When `"2006-01-02"` fails, the alternates are tried in their listed
   * order: if the `i`-th is the first that reads the trimmed cell, as `d`,
   * the watermark is the day after `d`.
   */
  lemma FilterDateFromAlternate(rows: seq<SheetRow>, text: string, i: nat, d: Date)
    requires |rows| > 0 && |rows[|rows| - 1]| > 0 && rows[|rows| - 1][0] == Text(text)
    requires Parse(IsoLayout, TrimSpace(text)).None?
    requires i < |AlternateLayouts| && Parse(AlternateLayouts[i], TrimSpace(text)) == Some(d)
    requires forall j :: 0 <= j < i ==> Parse(AlternateLayouts[j], TrimSpace(text)).None?
    ensures FilterDate(rows) == FormatISO(NextDay(d))
  {
    LayoutsInOrder(TrimSpace(text));
    FirstParseFinds(AlternateLayouts, TrimSpace(text), i);
  }

  /**
   * No rows, a last row without a first cell, a nil first cell, or text no
   * layout reads: the watermark is the fixed fallback date.
   */
  lemma FilterDateFallback(rows: seq<SheetRow>)
    requires LastDateText(rows).None?
          || forall l :: l in Layouts ==> Parse(l, LastDateText(rows).value).None?
    ensures FilterDate(rows) == FallbackFilterDate
  {
    if LastDateText(rows).Some? {
      FirstParseNone(Layouts, LastDateText(rows).value);
    }
  }

  /** The fallback date is itself text the primary layout reads, as 2025-05-21. */
  lemma FallbackDateParses(s: string)
    requires s == FallbackFilterDate
    ensures Parse(IsoLayout, s) == Some(Date(2025, 5, 21))
  {
    AppendIntFour(2025);
    AppendIntTwo(5);
    AppendIntTwo(21);
    assert FormatISO(Date(2025, 5, 21)) == s;
    IsoRoundTrip(Date(2025, 5, 21));
  }

  /** Distinct dates with four-digit years are written as distinct text. */
  lemma FormatISOInjective(a: Date, b: Date)
    requires ValidDate(a) && 0 <= a.year <= 9999
    requires ValidDate(b) && 0 <= b.year <= 9999
    requires FormatISO(a) == FormatISO(b)
    ensures a == b
  {
    IsoRoundTrip(a);
    IsoRoundTrip(b);
  }

  /**
   * The watermark is the fallback string exactly when there is no last date
   * or the last date is the day before the fallback date.
   */
  lemma FilterDateOfFallbackIff(last: Option<Date>)
    requires last.Some? ==> ValidDate(last.value) && 0 <= last.value.year <= 9999
    ensures FilterDateOf(last) == FallbackFilterDate <==> last.None? || last == Some(Date(2025, 5, 20))
  {
    match last
    case None =>
    case Some(d) =>
      var n := NextDay(d);
      var f := Date(2025, 5, 21);
      AppendIntFour(2025);
      AppendIntTwo(5);
      AppendIntTwo(21);
      assert FormatISO(f) == FallbackFilterDate;
      assert NextDay(Date(2025, 5, 20)) == f;
      if n.year <= 9999 {
        if FormatISO(n) == FallbackFilterDate {
          FormatISOInjective(n, f);
          PrevDayOfNextDay(d);
        }
      } else {
        assert d == Date(9999, 12, 31);
        NextDayPastYear9999();
      }
  }

  /** The sheet-level form: the fallback is used exactly when the last date is missing or is 2025-05-20. */
  lemma FilterDateFallbackIff(rows: seq<SheetRow>)
    ensures FilterDate(rows) == FallbackFilterDate
        <==> LastDate(rows).None? || LastDate(rows) == Some(Date(2025, 5, 20))
  {
    FilterDateOfFallbackIff(LastDate(rows));
  }

  /**
   * What the mail search reads when it parses the watermark with
   * `"2006-01-02"`: the day after the last date, or 2025-05-21 when there is
   * none. The one exception is a last date of 9999-12-31, after which Go
   * writes the five-digit year `10000-01-01`.
   */
  lemma FilterDateReadsBack(last: Option<Date>)
    requires last.Some? ==> ValidDate(last.value) && 0 <= last.value.year <= 9999
    ensures last.None? ==> Parse(IsoLayout, FilterDateOf(last)) == Some(Date(2025, 5, 21))
    ensures last.Some? && NextDay(last.value).year <= 9999 ==>
      Parse(IsoLayout, FilterDateOf(last)) == Some(NextDay(last.value))
    ensures last.Some? && NextDay(last.value).year > 9999 ==> FilterDateOf(last) == "10000-01-01"
  {
    match last
    case None =>
      FallbackDateParses(FilterDateOf(last));
    case Some(d) =>
      var n := NextDay(d);
      if n.year <= 9999 {
        IsoRoundTrip(n);
      } else {
        assert d == Date(9999, 12, 31);
        NextDayPastYear9999();
      }
  }

  /** A row as `appendToSheet` writes it: the ISO date, then the count. */
  function WrittenRow(d: Date, count: Cell): SheetRow {
    [Text(FormatISO(d)), count]
  }

  /**
   * Round trip across runs: once a row is appended for date `d`, the next
   * run's watermark is the day after `d`.
   */
  lemma AppendedRowRoundTrip(rows: seq<SheetRow>, d: Date, count: Cell)
    requires ValidDate(d) && 0 <= d.year <= 9999
    requires |rows| > 0 && rows[|rows| - 1] == WrittenRow(d, count)
    ensures FilterDate(rows) == FormatISO(NextDay(d))
  {
    var s := FormatISO(d);
    FormatISOIsoShaped(d.year, d.month, d.day);
    TrimSpaceNoop(s);
    IsoRoundTrip(d);
    FilterDateFromIso(rows, s, d);
  }

  /** Text of the `YYYY-MM-DD` shape naming an impossible date is read by no layout. */
  lemma ImpossibleIsoDateUnread(y: int, m: int, d: int)
    requires 0 <= y <= 9999 && 0 <= m <= 99 && 0 <= d <= 99 && !ValidDate(Date(y, m, d))
    ensures FirstParse(Layouts, FormatISO(Date(y, m, d))).None?
  {
    var s := FormatISO(Date(y, m, d));
    FormatISOIsoShaped(y, m, d);
    IsoReads(y, m, d);
    IsoShapedOnlyIso(s);
    LayoutsInOrder(s);
    FirstParseNone(AlternateLayouts, s);
  }

  /**
   * A `YYYY-MM-DD` cell naming an impossible date (day 0, February 30, ...)
   * is read by no layout, so the watermark falls back.
   */
  lemma ImpossibleIsoDateFallsBack(rows: seq<SheetRow>, y: int, m: int, d: int)
    requires 0 <= y <= 9999 && 0 <= m <= 99 && 0 <= d <= 99 && !ValidDate(Date(y, m, d))
    requires |rows| > 0 && |rows[|rows| - 1]| > 0 && rows[|rows| - 1][0] == Text(FormatISO(Date(y, m, d)))
    ensures FilterDate(rows) == FallbackFilterDate
  {
    var s := FormatISO(Date(y, m, d));
    FormatISOIsoShaped(y, m, d);
    TrimSpaceNoop(s);
    LastDateOfText(rows, s);
    ImpossibleIsoDateUnread(y, m, d);
  }

  /** `M/D/YYYY` text of a real date is read by `"1/2/2006"`, the first alternate, after the primary layout fails. */
  lemma SlashDateRead(y: int, m: nat, d: nat)
    requires 0 <= y <= 9999 && m < 100 && d < 100
    ensures FirstParse(Layouts, SlashText(y, m, d))
         == if ValidDate(Date(y, m, d)) then Some(Date(y, m, d)) else None
  {
    var s := SlashText(y, m, d);
    SlashTextShaped(y, m, d);
    SlashShapedNotYearFirst(s);
    NumSlashReads(y, m, d);
    LayoutsInOrder(s);
    if !ValidDate(Date(y, m, d)) {
      if Parse(ZeroSlashLayout, s).Some? {
        ZeroSlashShadowed(s);
      }
      FirstParseNone(AlternateLayouts, s);
    }
  }

  /** The cascade over the five layouts, written out in the order the resolver tries them. */
  lemma CascadeInOrder(s: string)
    ensures FirstParse(Layouts, s)
         == if Parse(IsoLayout, s).Some? then Parse(IsoLayout, s)
            else if Parse(NumSlashLayout, s).Some? then Parse(NumSlashLayout, s)
            else if Parse(ZeroSlashLayout, s).Some? then Parse(ZeroSlashLayout, s)
            else if Parse(YearSlashLayout, s).Some? then Parse(YearSlashLayout, s)
            else Parse(MonthNameLayout, s)
  {
    FirstParseOfFive(Layouts, s);
    assert Layouts[0] == IsoLayout && Layouts[1] == NumSlashLayout && Layouts[2] == ZeroSlashLayout;
    assert Layouts[3] == YearSlashLayout && Layouts[4] == MonthNameLayout;
  }

  /** FirstParse over five layouts, unfolded. */
  lemma FirstParseOfFive(layouts: seq<Layout>, s: string)
    requires |layouts| == 5
    ensures FirstParse(layouts, s)
         == if Parse(layouts[0], s).Some? then Parse(layouts[0], s)
            else if Parse(layouts[1], s).Some? then Parse(layouts[1], s)
            else if Parse(layouts[2], s).Some? then Parse(layouts[2], s)
            else if Parse(layouts[3], s).Some? then Parse(layouts[3], s)
            else Parse(layouts[4], s)
  {
    var b := layouts[1..];
    var c := b[1..];
    var e := c[1..];
    var f := e[1..];
    assert b[0] == layouts[1] && c[0] == layouts[2] && e[0] == layouts[3] && f[0] == layouts[4];
    FirstParseStep(layouts, s);
    FirstParseStep(b, s);
    FirstParseStep(c, s);
    FirstParseStep(e, s);
    FirstParseStep(f, s);
    assert f[1..] == [];
  }

  /** One step of FirstParse: the first layout, or else the rest. */
  lemma FirstParseStep(layouts: seq<Layout>, s: string)
    requires |layouts| > 0
    ensures FirstParse(layouts, s)
         == if Parse(layouts[0], s).Some? then Parse(layouts[0], s) else FirstParse(layouts[1..], s)
  {
  }

  /**
   * `YYYY/MM/DD` text is read by `"2006/01/02"`, the third alternate, after
   * the three layouts before it fail, exactly when it names a real date.
   */
  lemma YearSlashDateRead(y: int, m: int, d: int)
    requires 0 <= y <= 9999 && 0 <= m <= 99 && 0 <= d <= 99
    ensures FirstParse(Layouts, YearFirstText('/', y, m, d))
         == if ValidDate(Date(y, m, d)) then Some(Date(y, m, d)) else None
  {
    var s := YearFirstText('/', y, m, d);
    YearFirstTextShaped('/', y, m, d);
    YearSlashShapedOnlyYearSlash(s);
    YearSlashReads(y, m, d);
    CascadeInOrder(s);
  }

  /**
   * `Mon D, YYYY` text, with month `m`'s abbreviation in any ASCII case, is
   * read by `"Jan 2, 2006"`, the last alternate, exactly when it names a real
   * date.
   */
  lemma MonthNameDateRead(name: string, y: int, m: int, d: nat)
    requires 0 <= y <= 9999 && 1 <= m <= 12 && d < 100
    requires |name| == 3 && FoldEqual(name, ShortMonthNames[m - 1])
    ensures FirstParse(Layouts, MonthNameText(name, y, d))
         == if ValidDate(Date(y, m, d)) then Some(Date(y, m, d)) else None
  {
    var s := MonthNameText(name, y, d);
    MonthNameTextOnlyMonthName(name, y, m, d);
    MonthNameReads(name, y, m, d);
    CascadeInOrder(s);
  }

  /** An `M/D/YYYY` cell of a real date: the watermark is the next day. */
  lemma SlashDateWatermark(rows: seq<SheetRow>, y: int, m: nat, d: nat)
    requires 0 <= y <= 9999 && m < 100 && d < 100 && ValidDate(Date(y, m, d))
    requires |rows| > 0 && |rows[|rows| - 1]| > 0 && rows[|rows| - 1][0] == Text(SlashText(y, m, d))
    ensures FilterDate(rows) == FormatISO(NextDay(Date(y, m, d)))
  {
    var s := SlashText(y, m, d);
    SlashTextShaped(y, m, d);
    TrimSpaceNoop(s);
    LastDateOfText(rows, s);
    SlashDateRead(y, m, d);
    FilterDateOfLast(rows, Date(y, m, d));
  }

  /** An `M/D/YYYY` cell naming an impossible date is read by no layout: the watermark falls back. */
  lemma ImpossibleSlashDateFallsBack(rows: seq<SheetRow>, y: int, m: nat, d: nat)
    requires 0 <= y <= 9999 && m < 100 && d < 100 && !ValidDate(Date(y, m, d))
    requires |rows| > 0 && |rows[|rows| - 1]| > 0 && rows[|rows| - 1][0] == Text(SlashText(y, m, d))
    ensures FilterDate(rows) == FallbackFilterDate
  {
    var s := SlashText(y, m, d);
    SlashTextShaped(y, m, d);
    TrimSpaceNoop(s);
    LastDateOfText(rows, s);
    SlashDateRead(y, m, d);
  }

  /** The `"2006-01-02"` renderings of the July and February scenarios below. */
  lemma SummerTexts()
    ensures FormatISO(Date(2025, 7, 20)) == "2025-07-20"
    ensures FormatISO(Date(2025, 7, 21)) == "2025-07-21"
    ensures FormatISO(Date(2025, 2, 30)) == "2025-02-30"
  {
    AppendIntFour(2025);
    AppendIntTwo(2);
    AppendIntTwo(7);
    AppendIntTwo(20);
    AppendIntTwo(21);
    AppendIntTwo(30);
  }

  /** The `"2006-01-02"` renderings of the rollover scenarios below. */
  lemma RolloverTexts()
    ensures FormatISO(Date(2024, 2, 28)) == "2024-02-28"
    ensures FormatISO(Date(2024, 2, 29)) == "2024-02-29"
    ensures FormatISO(Date(2025, 12, 31)) == "2025-12-31"
    ensures FormatISO(Date(2026, 1, 1)) == "2026-01-01"
  {
    AppendIntFour(2024);
    AppendIntFour(2025);
    AppendIntFour(2026);
    AppendIntTwo(1);
    AppendIntTwo(2);
    AppendIntTwo(12);
    AppendIntTwo(28);
    AppendIntTwo(29);
    AppendIntTwo(31);
  }

  /** The `M/D/YYYY` rendering of 2025-07-20. */
  lemma SlashScenarioText()
    ensures SlashText(2025, 7, 20) == "7/20/2025"
  {
    AppendIntFour(2025);
    assert Decimal(20) == Decimal(2) + [Digit(0)];
  }

  /** A sheet ending in the row `["2025-07-20", 5]`: the next run searches from 2025-07-21. */
  lemma IsoScenario(rows: seq<SheetRow>)
    requires |rows| > 0 && rows[|rows| - 1] == [Text("2025-07-20"), Text("5")]
    ensures FilterDate(rows) == "2025-07-21"
  {
    SummerTexts();
    AppendedRowRoundTrip(rows, Date(2025, 7, 20), Text("5"));
  }

  /** A sheet ending in `["7/20/2025", 3]`: read by the `"1/2/2006"` alternate, the watermark is 2025-07-21. */
  lemma SlashScenario(rows: seq<SheetRow>)
    requires |rows| > 0 && rows[|rows| - 1] == [Text("7/20/2025"), Text("3")]
    ensures FilterDate(rows) == "2025-07-21"
  {
    SummerTexts();
    SlashScenarioText();
    SlashDateWatermark(rows, 2025, 7, 20);
  }

  /** A sheet ending in `["2025-02-30", 1]`, a day that does not exist: the watermark falls back to 2025-05-21. */
  lemma ImpossibleDateScenario(rows: seq<SheetRow>)
    requires |rows| > 0 && rows[|rows| - 1] == [Text("2025-02-30"), Text("1")]
    ensures FilterDate(rows) == FallbackFilterDate
  {
    SummerTexts();
    ImpossibleIsoDateFallsBack(rows, 2025, 2, 30);
  }

  /** The month rolls over into a leap day: after 2024-02-28 comes 2024-02-29. */
  lemma LeapDayScenario(rows: seq<SheetRow>)
    requires |rows| > 0 && rows[|rows| - 1] == [Text("2024-02-28"), Text("2")]
    ensures FilterDate(rows) == "2024-02-29"
  {
    RolloverTexts();
    AppendedRowRoundTrip(rows, Date(2024, 2, 28), Text("2"));
  }

  /** The year rolls over: after 2025-12-31 comes 2026-01-01. */
  lemma NewYearScenario(rows: seq<SheetRow>)
    requires |rows| > 0 && rows[|rows| - 1] == [Text("2025-12-31"), Text("4")]
    ensures FilterDate(rows) == "2026-01-01"
  {
    RolloverTexts();
    AppendedRowRoundTrip(rows, Date(2025, 12, 31), Text("4"));
  }
}
