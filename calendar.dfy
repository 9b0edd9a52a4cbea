/**
 * Calendar dates as Go's `time` package handles them (proleptic Gregorian
 * calendar, year 0 included), the one-day step of `AddDate(0, 0, 1)` and the
 * `"2006-01-02"` rendering of `Time.Format`.
 */
module Calendar {
  import opened GoStrings

  datatype Date = Date(year: int, month: int, day: int)

  predicate IsLeap(year: int) {
    year % 4 == 0 && (year % 100 != 0 || year % 400 == 0)
  }

  /** The length of a month, as Go's `daysIn` reads it off its `daysBefore` table. */
  function DaysIn(month: int, year: int): (n: int)
    requires 1 <= month <= 12
    ensures 28 <= n <= 31
  {
    if month == 2 then (if IsLeap(year) then 29 else 28)
    else if month == 4 || month == 6 || month == 9 || month == 11 then 30
    else 31
  }

  predicate ValidDate(d: Date) {
    1 <= d.month <= 12 && 1 <= d.day <= DaysIn(d.month, d.year)
  }

  /** A date that names a real day; every `time.Time` has one. */
  type CalendarDate = d: Date | ValidDate(d) witness Date(1970, 1, 1)

  /** Chronological order of dates: year, then month, then day. */
  predicate Before(a: Date, b: Date) {
    a.year < b.year
    || (a.year == b.year && a.month < b.month)
    || (a.year == b.year && a.month == b.month && a.day < b.day)
  }

  /**
   * `AddDate(0, 0, 1)` on a valid date: the day after, rolling over into the
   * next month and the next year.
   */
  function NextDay(d: Date): (n: Date)
    requires ValidDate(d)
    ensures ValidDate(n) && Before(d, n)
  {
    if d.day < DaysIn(d.month, d.year) then Date(d.year, d.month, d.day + 1)
    else if d.month < 12 then Date(d.year, d.month + 1, 1)
    else Date(d.year + 1, 1, 1)
  }

  /** The day after `d` is its successor among valid dates: no valid date lies in between. */
  lemma NextDayIsSuccessor(d: Date, e: Date)
    requires ValidDate(d) && ValidDate(e) && Before(d, e)
    ensures !Before(e, NextDay(d))
  {
  }

  /** The day before a valid date, rolling back over month and year boundaries. */
  function PrevDay(n: Date): (p: Date)
    requires ValidDate(n)
    ensures ValidDate(p)
  {
    if n.day > 1 then Date(n.year, n.month, n.day - 1)
    else if n.month > 1 then Date(n.year, n.month - 1, DaysIn(n.month - 1, n.year))
    else Date(n.year - 1, 12, 31)
  }

  /** PrevDay undoes NextDay, so no two dates share a next day. */
  lemma PrevDayOfNextDay(d: Date)
    requires ValidDate(d)
    ensures PrevDay(NextDay(d)) == d
  {
  }

  /** Decimal digits of a natural number, most significant first, without padding. */
  function Decimal(u: nat): (s: string)
    ensures |s| >= 1 && AllDigits(s)
    decreases u
  {
    if u < 10 then [Digit(u)] else Decimal(u / 10) + [Digit(u % 10)]
  }

  /** Decimal's digits read back as the number: the two are inverse. */
  lemma {:induction false} DecimalValue(u: nat)
    ensures DigitsValue(Decimal(u)) == u
    decreases u
  {
    if u >= 10 {
      var s := Decimal(u);
      DecimalValue(u / 10);
      assert s[..|s| - 1] == Decimal(u / 10);
    }
  }

  function Zeros(n: int): (s: string)
    ensures |s| == if n > 0 then n else 0
    ensures forall k :: 0 <= k < |s| ==> s[k] == '0'
    decreases n
  {
    if n <= 0 then [] else Zeros(n - 1) + ['0']
  }

  /**
   * Go's `time.appendInt(b, x, width)`: an optional minus sign, then the
   * magnitude zero-padded to at least `width` digits, with the fast paths Go
   * takes for two- and four-digit fields.
   */
  function AppendInt(x: int, width: nat): string {
    var sign := if x < 0 then "-" else "";
    var u := if x < 0 then -x else x;
    if width == 2 && u < 100 then sign + [Digit(u / 10), Digit(u % 10)]
    else if width == 4 && u < 10000 then sign + [Digit(u / 1000), Digit(u / 100 % 10), Digit(u / 10 % 10), Digit(u % 10)]
    else sign + Zeros(width - |Decimal(u)|) + Decimal(u)
  }

  /** `Time.Format("2006-01-02")`: year on at least four digits, month and day on two. */
  function FormatISO(d: Date): string {
    AppendInt(d.year, 4) + "-" + AppendInt(d.month, 2) + "-" + AppendInt(d.day, 2)
  }

  /** Two decimal digits of `x` put back together give `x`. */
  lemma TwoDigits(x: int)
    requires 0 <= x < 100
    ensures DigitValue(Digit(x / 10)) * 10 + DigitValue(Digit(x % 10)) == x
  {
  }

  /** A two-digit field below 100 is written as exactly its two digits. */
  lemma AppendIntTwo(x: int)
    requires 0 <= x < 100
    ensures AppendInt(x, 2) == [Digit(x / 10), Digit(x % 10)]
    ensures DigitValue(Digit(x / 10)) * 10 + DigitValue(Digit(x % 10)) == x
  {
    assert "" + [Digit(x / 10), Digit(x % 10)] == [Digit(x / 10), Digit(x % 10)];
    TwoDigits(x);
  }

  /** A four-digit field below 10000 is written as exactly its four digits, which give back `y`. */
  lemma AppendIntFour(y: int)
    requires 0 <= y <= 9999
    ensures AppendInt(y, 4) == [Digit(y / 1000), Digit(y / 100 % 10), Digit(y / 10 % 10), Digit(y % 10)]
    ensures DigitValue(Digit(y / 1000)) * 1000 + DigitValue(Digit(y / 100 % 10)) * 100
      + DigitValue(Digit(y / 10 % 10)) * 10 + DigitValue(Digit(y % 10)) == y
  {
    var a, r := y / 1000, y % 1000;
    var b, t := r / 100, r % 100;
    var c, e := t / 10, t % 10;
    assert y / 100 == a * 10 + b;
    assert y / 10 == a * 100 + b * 10 + c;
    assert y / 100 % 10 == b;
    assert y / 10 % 10 == c;
    assert y % 10 == e;
    var digits := [Digit(a), Digit(b), Digit(c), Digit(e)];
    assert "" + digits == digits;
  }

  /** The rendering of the day after the last representable four-digit year: Go writes five digits. */
  lemma NextDayPastYear9999()
    ensures NextDay(Date(9999, 12, 31)) == Date(10000, 1, 1)
    ensures FormatISO(Date(10000, 1, 1)) == "10000-01-01"
  {
    assert Decimal(1) == "1";
    assert Decimal(10) == Decimal(1) + "0";
    assert Decimal(100) == Decimal(10) + "0";
    assert Decimal(1000) == Decimal(100) + "0";
    assert Decimal(10000) == Decimal(1000) + "0";
    assert AppendInt(10000, 4) == "" + Zeros(-1) + Decimal(10000);
    assert AppendInt(1, 2) == "01";
  }
}
