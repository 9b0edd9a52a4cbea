/**
 * One incremental sync of `doZillow` once the sheet has been read and the
 * report e-mails fetched: the e-mails are sorted oldest first, each gets its
 * saves count from its body, and, unless an extraction failed, one row per
 * e-mail is appended to the sheet.
 */
module Sync {
  import opened Wrappers
  import opened Calendar
  import opened Extractor
  import opened GoTime
  import opened Watermark

  /**
   * The subject line the mail search asks for (`main.go:39`). The search runs
   * on the mail server before this model starts: every fetched message is
   * taken to carry it, and nothing here reads it.
   */
  const EmailSubject: string := "Your Daily Listing Report: 9121 Blackhawk Rd"

  /**
   * `EmailMessage`. Its `time.Time` is split in two: `stamp`, the instant
   * that orders messages, and `date`, the calendar day of that instant in the
   * message's own zone, the one `Format` writes. `saves` is the one field the
   * pipeline changes.
   */
  class Email {
    const subject: string
    const stamp: int
    const date: CalendarDate
    const content: string
    const id: string
    var saves: int

    /** A fetched message; Go's zero value leaves the count at 0 until extraction. */
    constructor (subject: string, stamp: int, date: CalendarDate, content: string, id: string)
      ensures this.subject == subject && this.stamp == stamp && this.date == date
      ensures this.content == content && this.id == id && saves == 0
    {
      this.subject := subject;
      this.stamp := stamp;
      this.date := date;
      this.content := content;
      this.id := id;
      saves := 0;
    }
  }

  /** A row as `appendToSheet` sends it: the date as `"2006-01-02"` text, then the count. */
  datatype Row = Row(date: string, saves: int)

  function RowOf(e: Email): Row
    reads e
  {
    Row(FormatISO(e.date), e.saves)
  }

  /** Oldest first: no message is followed by one with an earlier instant. */
  ghost predicate SortedByDate(s: seq<Email>) {
    forall p, q :: 0 <= p < q < |s| ==> s[p].stamp <= s[q].stamp
  }

  /**
   * `sort.Slice(emails, Date.Before)`: reorders the messages in place, oldest
   * first. This is an insertion sort by adjacent swaps; Go's sort is not
   * stable, so nothing is promised about the order of messages with the
   * same instant.
   */
  method SortByDate(a: array<Email>)
    modifies a
    ensures SortedByDate(a[..])
    ensures multiset(a[..]) == multiset(old(a[..]))
  {
    var i := 0;
    while i < a.Length
      invariant 0 <= i <= a.Length
      invariant forall p, q :: 0 <= p < q < i ==> a[p].stamp <= a[q].stamp
      invariant multiset(a[..]) == multiset(old(a[..]))
    {
      var j := i;
      while j > 0 && a[j].stamp < a[j - 1].stamp
        invariant 0 <= j <= i
        invariant forall p, q :: 0 <= p < q <= i && q != j ==> a[p].stamp <= a[q].stamp
        invariant multiset(a[..]) == multiset(old(a[..]))
      {
        a[j], a[j - 1] := a[j - 1], a[j];
        j := j - 1;
      }
      i := i + 1;
    }
  }

  /**
   * The loop of `appendToSheet`: one row per message, in list order, each
   * with the message's date and count. An empty batch sends nothing (`None`);
   * otherwise the rows are what the append call sends.
   */
  method AppendToSheet(emails: array<Email>) returns (sent: Option<seq<Row>>)
    ensures sent.None? <==> emails.Length == 0
    ensures sent.Some? ==> |sent.value| == emails.Length
    ensures sent.Some? ==> forall k :: 0 <= k < emails.Length ==> sent.value[k] == RowOf(emails[k])
  {
    var values: seq<Row> := [];
    var i := 0;
    while i < emails.Length
      invariant 0 <= i <= emails.Length
      invariant |values| == i
      invariant forall k :: 0 <= k < i ==> values[k] == RowOf(emails[k])
    {
      var email := emails[i];
      var dateStr := FormatISO(email.date);
      var row := Row(dateStr, email.saves);
      assert row == RowOf(emails[i]);
      values := values + [row];
      assert values[i] == RowOf(emails[i]);
      i := i + 1;
    }
    if |values| == 0 {
      return None;
    }
    return Some(values);
  }

  /**
   * The position of the first message whose extraction fails, or the batch
   * length when none does: where the gate of `processData` closes.
   */
  function FirstFailure(extract: string -> Extraction, s: seq<Email>): (n: nat)
    ensures n <= |s|
    ensures forall k :: 0 <= k < n ==> extract(s[k].content).Count?
    ensures n < |s| ==> extract(s[n].content).Failed?
    decreases |s|
  {
    if s == [] || extract(s[0].content).Failed? then 0
    else 1 + FirstFailure(extract, s[1..])
  }

  /**
   * `processData` with the extractor as a parameter. Each message in turn
   * gets its extracted count; the first failure marks its message with -1
   * and stops the loop, and then nothing is appended. Otherwise the
   * rows of all messages are appended (or nothing, for an empty batch).
   * Messages after a failure keep their count unless the same message also
   * appears earlier in the list.
   */
  method ProcessData(emails: array<Email>, extract: string -> Extraction) returns (sent: Option<seq<Row>>)
    modifies emails[..]
    ensures var f := FirstFailure(extract, emails[..]);
      && (forall k :: 0 <= k < f ==> emails[k].saves == extract(emails[k].content).n)
      && (f < emails.Length ==> emails[f].saves == -1)
      && (forall k :: f < k < emails.Length && emails[k] !in emails[..f + 1] ==> emails[k].saves == old(emails[k].saves))
      && (sent.Some? <==> f == emails.Length && emails.Length > 0)
    ensures sent.Some? ==> |sent.value| == emails.Length
    ensures sent.Some? ==> forall k :: 0 <= k < emails.Length ==>
      sent.value[k] == Row(FormatISO(emails[k].date), extract(emails[k].content).n)
  {
    ghost var f := FirstFailure(extract, emails[..]);
    var ok := true;
    var i := 0;
    while i < emails.Length
      invariant 0 <= i <= f
      invariant ok
      invariant forall k :: 0 <= k < i ==> emails[k].saves == extract(emails[k].content).n
      invariant forall k :: i <= k < emails.Length && emails[k] !in emails[..i] ==> emails[k].saves == old(emails[k].saves)
    {
      var email := emails[i];
      var r := extract(email.content);
      if r.Count? {
        email.saves := r.n;
      } else {
        ok := false;
        email.saves := -1;
        break;
      }
      assert emails[..i + 1] == emails[..i] + [email];
      i := i + 1;
    }
    if ok {
      sent := AppendToSheet(emails);
    } else {
      sent := None;
    }
  }

  /** The extractor in use never fails, so the gate of `processData` never closes. */
  lemma ZillowExtractorNeverFails(s: seq<Email>)
    ensures FirstFailure(ExtractZillowSavesCount, s) == |s|
  {
  }

  /**
   * The part of `doZillow` after the sheet read: `rows` is what the read
   * returned, `fetched` the messages the search for `filter` returned. The
   * messages end sorted and counted, and any non-empty batch is appended
   * whole, one row per message in the sorted order.
   */
  method DoZillow(rows: seq<SheetRow>, fetched: array<Email>) returns (filter: string, sent: Option<seq<Row>>)
    modifies fetched, fetched[..]
    ensures filter == FilterDate(rows)
    ensures SortedByDate(fetched[..])
    ensures multiset(fetched[..]) == multiset(old(fetched[..]))
    ensures forall k :: 0 <= k < fetched.Length ==> fetched[k].saves == ExtractZillowSavesCount(fetched[k].content).n
    ensures sent.None? <==> fetched.Length == 0
    ensures sent.Some? ==> |sent.value| == fetched.Length
    ensures sent.Some? ==> forall k :: 0 <= k < fetched.Length ==>
      sent.value[k] == Row(FormatISO(fetched[k].date), ExtractZillowSavesCount(fetched[k].content).n)
  {
    filter := ResolveFilterDate(rows);
    SortByDate(fetched);
    SameElements(old(fetched[..]), fetched[..]);
    ZillowExtractorNeverFails(fetched[..]);
    sent := ProcessData(fetched, ExtractZillowSavesCount);
  }

  /** A reordering keeps the same messages, so what the sorted list may modify was modifiable before. */
  lemma SameElements(before: seq<Email>, after: seq<Email>)
    requires multiset(after) == multiset(before)
    ensures forall k :: 0 <= k < |after| ==> after[k] in before
  {
    forall k | 0 <= k < |after| ensures after[k] in before {
      assert after[k] in multiset(after);
    }
  }

  /** The sheet shows an appended batch as rows whose first cell is each row's date text. */
  ghost predicate ShowsRows(shown: seq<SheetRow>, batch: seq<Row>) {
    |shown| == |batch|
    && forall k :: 0 <= k < |shown| ==> |shown[k]| == 2 && shown[k][0] == Text(batch[k].date)
  }

  /**
   * The next run resumes after this one: once a batch whose last row is for
   * day `d` is on the sheet, the next watermark is the day after `d`,
   * whatever the sheet shows for the counts.
   */
  lemma NextRunResumes(sheet: seq<SheetRow>, batch: seq<Row>, shown: seq<SheetRow>, d: Date)
    requires ValidDate(d) && 0 <= d.year <= 9999
    requires |batch| > 0 && batch[|batch| - 1].date == FormatISO(d)
    requires ShowsRows(shown, batch)
    ensures FilterDate(sheet + shown) == FormatISO(NextDay(d))
  {
    var all := sheet + shown;
    var last := shown[|shown| - 1];
    assert all[|all| - 1] == last;
    assert last == WrittenRow(d, last[1]);
    AppendedRowRoundTrip(all, d, last[1]);
  }

  /**
   * Every message's day is written in one zone: a later instant never falls
   * on an earlier calendar day. Mail servers may stamp messages in different
   * zones, and then the sorted order of instants and the order of the days
   * written to the sheet can disagree; under this hypothesis they agree.
   */
  ghost predicate OneZone(s: seq<Email>) {
    forall p, q :: 0 <= p < |s| && 0 <= q < |s| && s[p].stamp <= s[q].stamp ==> !Before(s[q].date, s[p].date)
  }

  /**
   * The rows of a sorted one-zone batch read back, through `"2006-01-02"`,
   * as their messages' days, and those days never go backwards down the
   * batch.
   */
  lemma SortedRowsReadInOrder(s: seq<Email>, batch: seq<Row>)
    requires SortedByDate(s) && OneZone(s) && |batch| == |s|
    requires forall k :: 0 <= k < |s| ==> batch[k].date == FormatISO(s[k].date) && 0 <= s[k].date.year <= 9999
    ensures forall k :: 0 <= k < |batch| ==> Parse(IsoLayout, batch[k].date) == Some(s[k].date)
    ensures forall p, q :: 0 <= p < q < |batch| ==>
      !Before(Parse(IsoLayout, batch[q].date).value, Parse(IsoLayout, batch[p].date).value)
  {
    forall k | 0 <= k < |batch| ensures Parse(IsoLayout, batch[k].date) == Some(s[k].date) {
      IsoRoundTrip(s[k].date);
    }
  }
}
