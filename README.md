# zillowsaves incremental sync, modelled in Dafny

zillowsaves keeps a Google Sheet with one row per day: the date, then the
number of "saves" a Zillow listing had that day. Each run works as follows:

1. It reads the sheet.
2. It works out the watermark, the day from which new data may exist: the
   day after the date in the last row's first cell, or the fixed date
   `2025-05-21`.
3. It fetches the daily report e-mails received since that day.
4. It sorts the e-mails oldest first.
5. It extracts the saves count from each body.
6. It appends one `[date, count]` row per e-mail. The append happens only
   if every extraction succeeded.

This project models that pipeline from `main.go`, one module per concern:

- `Wrappers`: `Option`.
- `GoStrings`: ASCII digits and `unicode.IsSpace`; `strings.TrimSpace` and the
  ASCII case folding of `strings.ToLower`.
- `Calendar`: dates in Go's proleptic Gregorian calendar, and
  `AddDate(0, 0, 1)`. Also Go's `appendInt`, and `Format("2006-01-02")` built
  on it, including five-digit years.
- `GoTime`: `time.Parse` for the five layouts the pipeline uses. Each layout
  is a sequence of Go's layout elements:
  - `2006` takes exactly four digits;
  - `01`/`02` take exactly two digits;
  - `1`/`2` take one or two digits, greedily;
  - `Jan` is matched without regard to case;
  - a space in the layout matches a run of spaces.

  The month range is checked at once. The day is checked against the month
  length at the end, and no text may be left over.
- `Watermark`: the sheet's cells and the resolution cascade of `doZillow`.
  This is a method with the cascade's loop and `parsed` flag, proved against
  the function `FilterDate`.
- `Extractor`: `extractZillowSavesCount`, with the RE2 pattern
  `(\d+)\s+saves?` written out as a leftmost-first scanner. RE2's `\s` is
  tab, newline, form feed, carriage return and space. The count goes
  through `strconv.Atoi`, with Go's 64-bit `int` bound.
- `Sync`: the `EmailMessage` record, which is the `Email` class with its one
  mutable field `saves`. Also:
  - the in-place sort of the e-mail array;
  - the gate loop of `processData`, with the extractor as a parameter;
  - the row building of `appendToSheet`;
  - their composition in `doZillow`.

Where the code does something other than a reader might expect, the model
follows the code:

- `extractZillowSavesCount` never returns an error. A body with no match, or
  whose number overflows `int`, counts 0 (`main.go:200`). So the gate of
  `processData` never closes, and such an e-mail is appended with count 0;
  a reader might expect such an e-mail to abort the batch.
  `Sync.ZillowExtractorNeverFails` proves that the gate stays open.
  `Sync.ProcessData` still models the `-1`/`break` path for any extractor
  that can fail.
- `sort.Slice` is not stable, so the model promises no order among
  e-mails with the same instant, where a reader might expect a stable sort.
- `processData` discards the error of `appendToSheet`.
- The layout `01/02/2006` can never be the first layout to succeed.
  Anything it reads, the `1/2/2006` layout before it reads the same way
  (`GoTime.ZeroSlashShadowed`).

## Model

| member | source | states |
|---|---|---|
| Sync.Email.constructor | main.go:50-56 | a fetched message keeps its subject, instant, calendar date, body and id, and its count starts at Go's zero value 0 |
| Sync.SortByDate | main.go:322-325 | afterwards the array is in non-decreasing instant order and is a permutation of the input; equal instants may be reordered |
| Sync.RowOf | main.go:145-148 | a message's row: its date in `2006-01-02` form, then its count |
| Sync.AppendToSheet | main.go:140-155 | an empty batch sends nothing; otherwise exactly one row per message, in array order, with the `2006-01-02` text of its date and its count |
| Sync.FirstFailure | main.go:228-241 | the position where the gate closes: it is the first message whose extraction fails, and every message before it extracts a count |
| Sync.ProcessData | main.go:226-249 | messages before the first failure get their extracted count; the failing one gets -1 and the loop stops; later messages keep their count; rows are sent exactly when no extraction failed and the batch is non-empty, one per message with its date text and count |
| Sync.ZillowExtractorNeverFails | main.go:200 | with `extractZillowSavesCount` as the extractor, the gate never closes: the first failure lies past the end of every batch |
| Sync.DoZillow | main.go:273-330 | the filter is the sheet's watermark; the messages end sorted and permuted, each with its extracted count; any non-empty batch is sent whole in sorted order and an empty one sends nothing |
| Sync.SortedRowsReadInOrder | main.go:322-325 | when every message's day is written in one zone, the rows of a sorted batch read back as their messages' days, and those days never go backwards down the batch |
| Sync.NextRunResumes | main.go:145 | once a batch whose last row is for day d is on the sheet, the next run's watermark is the day after d, whatever the count cells show |
| Watermark.ResolveFilterDate | main.go:273-312 | the cascade: primary layout, then the alternates in order until one parses, then the fallback. The result is exactly `FilterDate` of the rows |
| Watermark.FirstParse | main.go:289-299 | the reading of the first layout in the list that accepts the text; whatever it returns is a real date with a four-digit year |
| Watermark.LastDateText | main.go:275-279 | the last row's first cell, formatted and trimmed: none for no rows, an empty last row or a nil first cell |
| Watermark.LastDate | main.go:275-299 | the last row's trimmed first cell read by the first of the five layouts that accepts it; any date it gives is real and has a four-digit year |
| Watermark.FilterDateOf | main.go:282-312 | the watermark made from a last date: the day after it in `2006-01-02` form, or `2025-05-21` when there is none |
| Watermark.FilterDate | main.go:273-312 | the watermark of a sheet: `FilterDateOf` of its `LastDate` |
| Watermark.LastDatePadded | main.go:276-279 | a last row whose first cell is non-blank text with white space on either side gives, as the last date, the inner text read by the first layout that accepts it; the padding never matters |
| Watermark.FilterDateFromIso | main.go:275-286 | if the trimmed last first cell reads under `2006-01-02` as d, the watermark is the day after d in `2006-01-02` form |
| Watermark.FilterDateFromAlternate | main.go:287-299 | if the primary layout fails and alternate i is the first to read the cell as d, the watermark is the day after d |
| Watermark.FilterDateFallback | main.go:300-312 | no rows, a last row without a first cell, or a nil first cell: the watermark is `2025-05-21` |
| Watermark.FilterDateOfFallbackIff | main.go:40 | the watermark equals the fallback text exactly when no layout read a last date, or the last date is 2025-05-20 |
| Watermark.FilterDateFallbackIff | main.go:300-312 | the same at sheet level: the fallback text is used exactly when the sheet gives no last date or its last date is 2025-05-20 |
| Watermark.FallbackDateParses | main.go:40 | the fallback constant is itself a `2006-01-02` date, 2025-05-21 |
| Watermark.FilterDateReadsBack | main.go:284-285 | the mail search, which parses the watermark under `2006-01-02` (yahoo_imap.go:16-17), gets back exactly the day after the last date, or 2025-05-21 when there is none; after 9999-12-31 the watermark is `10000-01-01` |
| Watermark.FormatISOInjective | main.go:285 | distinct dates with four-digit years are written as distinct `2006-01-02` text |
| Watermark.AppendedRowRoundTrip | main.go:145 | a sheet whose last row is what `appendToSheet` writes for day d gives the day after d as the next watermark |
| Watermark.ImpossibleIsoDateUnread | main.go:282-294 | `YYYY-MM-DD` text naming a day that does not exist (day 0, February 30, month 13, ...) is read by none of the five layouts |
| Watermark.ImpossibleIsoDateFallsBack | main.go:282-303 | such a cell makes the watermark fall back to `2025-05-21` |
| Watermark.SlashDateRead | main.go:289-292 | `M/D/YYYY` text is read by `1/2/2006`, after the primary layout fails, exactly when it names a real date |
| Watermark.SlashDateWatermark | main.go:287-299 | an `M/D/YYYY` cell of a real date gives the next day as the watermark |
| Watermark.ImpossibleSlashDateFallsBack | main.go:292-303 | an `M/D/YYYY` cell naming an impossible date gives the fallback |
| Watermark.YearSlashDateRead | main.go:282-299 | `YYYY/MM/DD` text is read by `2006/01/02`, after the three layouts before it fail, exactly when it names a real date, and then as that date |
| Watermark.MonthNameDateRead | main.go:282-299 | `Mon D, YYYY` text, with the month abbreviation in any ASCII case, is read by `Jan 2, 2006`, after the other four fail, exactly when it names a real date, and then as that date |
| Watermark.IsoScenario | main.go:275-286 | a sheet ending in `["2025-07-20", 5]` resumes from `2025-07-21` |
| Watermark.SlashScenario | main.go:287-299 | a sheet ending in `["7/20/2025", 3]` resumes from `2025-07-21` |
| Watermark.ImpossibleDateScenario | main.go:300-303 | a sheet ending in `["2025-02-30", 1]` falls back to `2025-05-21` |
| Watermark.LeapDayScenario | main.go:284-285 | after 2024-02-28 comes 2024-02-29 |
| Watermark.NewYearScenario | main.go:284-285 | after 2025-12-31 comes 2026-01-01 |
| Calendar.AppendInt | main.go:145 | Go's `appendInt`: an optional minus sign, then the magnitude zero-padded to the width; its digits are stated by `AppendIntFour` and `AppendIntTwo` |
| Calendar.FormatISO | main.go:145 | `Format("2006-01-02")`: the year on at least four digits, a dash, the month on two, a dash, the day on two; read back by `GoTime.IsoRoundTrip` |
| Calendar.NextDay | main.go:284 | `AddDate(0, 0, 1)` of a valid date is a valid date strictly after it |
| Calendar.NextDayIsSuccessor | main.go:284 | no valid date lies strictly between a date and its next day |
| Calendar.PrevDayOfNextDay | main.go:284 | stepping back undoes the next-day step, so no two dates share a next day |
| Calendar.AppendIntFour | main.go:145 | a year in 0..9999 is written as exactly four digits, which spell the year |
| Calendar.AppendIntTwo | main.go:145 | a month or day below 100 is written as exactly two digits, which spell it |
| Calendar.NextDayPastYear9999 | main.go:284-285 | the day after 9999-12-31 is written with a five-digit year, `10000-01-01` |
| Calendar.DecimalValue | main.go:194 | the unpadded decimal digits of a number read back as that number |
| GoTime.CutSpace | main.go:289 | what is left after the leading spaces: a suffix of the text, everything dropped is a space, and it does not start with a space |
| GoTime.Skip | main.go:289 | a literal of the layout consumed from the front of the value; what is left is a suffix of the value |
| GoTime.GetNum | main.go:289 | a day or month number of one or two digits, greedily, or exactly two when fixed; the number is below 100 and exactly the digits read are consumed |
| GoTime.GetYear | main.go:282 | the `2006` element: a year in 0..9999 read from exactly four leading digits |
| GoTime.LookupMonth | main.go:289 | the `Jan` element: a month number in 1..12, with exactly its three letters consumed |
| GoTime.Step | main.go:282 | one layout element applied to the front of the value, rejecting a month outside 1..12 at once; the fields read stay in range and the value only shrinks |
| GoTime.Run | main.go:282 | the layout's elements applied in order, the first failure failing the whole parse; the fields read stay in range |
| GoTime.Parse | main.go:282 | whatever `time.Parse` returns is a real calendar date with a four-digit year |
| GoTime.IsoReads | main.go:282 | `YYYY-MM-DD` text parses under `2006-01-02` exactly when it names a real date, and then to that date |
| GoTime.IsoRoundTrip | main.go:145 | `Parse("2006-01-02")` of `Format("2006-01-02")` gives back the date, for four-digit years |
| GoTime.YearSlashReads | main.go:289 | `YYYY/MM/DD` text parses under `2006/01/02` exactly when it names a real date, and then to that date |
| GoTime.MonthNameReads | main.go:289 | `Mon D, YYYY` text, with month m's abbreviation in any ASCII case, parses under `Jan 2, 2006` exactly when it names a real date, and then to that date |
| GoTime.LookupMonthFinds | main.go:289 | a value starting with month m's abbreviation, in any ASCII case, is looked up as month m with those three letters consumed |
| GoTime.MonthNameIndex | main.go:289 | each abbreviation has three letters whose case-folded form names its own month, so no two abbreviations match the same text |
| GoTime.NumSlashReads | main.go:289-292 | `M/D/YYYY` text parses under `1/2/2006` exactly when it names a real date, and then to that date |
| GoTime.ZeroSlashShadowed | main.go:289 | anything `01/02/2006` parses, `1/2/2006` parses to the same date, so the third layout never decides the result |
| GoTime.FixedGetNumRefines | main.go:289 | the exactly-two-digit number reading agrees with the one-or-two-digit reading wherever it succeeds |
| GoTime.IsoShapedOnlyIso | main.go:289-292 | text of the `YYYY-MM-DD` shape is rejected by all four alternate layouts |
| GoTime.YearSlashShapedOnlyYearSlash | main.go:282-292 | text of the `YYYY/MM/DD` shape is rejected by `2006-01-02`, `1/2/2006`, `01/02/2006` and `Jan 2, 2006` |
| GoTime.MonthNameTextOnlyMonthName | main.go:282-292 | `Mon D, YYYY` text is rejected by `2006-01-02`, `1/2/2006`, `01/02/2006` and `2006/01/02` |
| GoTime.SlashShapedNotYearFirst | main.go:282-292 | text of the `M/D/YYYY` shape is rejected by `2006-01-02`, `2006/01/02` and `Jan 2, 2006` |
| GoTime.MonthNameNeedsLetter | main.go:289-292 | `Jan 2, 2006` rejects text that does not start with an ASCII letter |
| GoTime.YearFirstNeedsFourDigits | main.go:282-292 | the two year-first layouts reject text that does not start with four digits |
| GoStrings.TrimSpace | main.go:279 | `strings.TrimSpace`: what is left neither starts nor ends with white space |
| GoStrings.TrimSpaceSlice | main.go:279 | `TrimSpace` removes exactly the white space at both ends and keeps what lies between |
| GoStrings.TrimSpacePadded | main.go:279 | non-blank text with white space added at either end trims back to that text |
| GoStrings.ToLowerFolds | main.go:188 | each ASCII capital becomes its own letter of `a`..`z`, every other character is kept, no capital is left, and lower-casing twice is lower-casing once |
| Extractor.MatchesAt | main.go:179 | the pattern `(\d+)\s+saves?` matches at i with digits on [i, j), white space on [j, k) and `save` at k; the independent definition the scanner is proved against |
| Extractor.MatchAt | main.go:179-192 | a match anchored at i, with its greedy digit and space runs, exists exactly when the pattern can match there at all |
| Extractor.MatchIsMaximal | main.go:179-192 | a match that starts at i has a unique capture: the whole digit run and the whole space run after it |
| Extractor.FindFrom | main.go:190-192 | leftmost-first search: a match at the smallest start at or after i, or none anywhere at or after i |
| Extractor.AtoiDecimal | main.go:194 | `strconv.Atoi` of the decimal digits of n gives back n exactly when n fits in Go's 64-bit `int`, and fails for any larger n |
| Extractor.ExtractZillowSavesCount | main.go:177-201 | the extractor never fails, and its count lies in 0..MaxInt64 |
| Extractor.ExtractLeftmostMatch | main.go:178-196 | with leftmost match (i, j, k) in the lower-cased body, and a number that fits, the count is the number spelled by the captured digits |
| Extractor.ExtractOverflow | main.go:194-200 | a leftmost match whose number overflows `int` counts 0, with no error |
| Extractor.ExtractNoMatch | main.go:200 | a body without any match counts 0, with no error |
| Extractor.ExtractNonzeroHasMatch | main.go:193-196 | a nonzero count always comes from a match whose digits spell it |
| Extractor.ExtractFirstNumber | main.go:178-196 | a body whose text before the number has no digits, followed by white space and `save` in any case, counts that number |
| Extractor.SavedExample | main.go:179 | `Your listing had 5 saved homes` counts 5, since there is no word boundary |
| Extractor.UpperCaseExample | main.go:188-192 | `Total:\t42\nSAVES` counts 42: case is ignored, and a tab or newline separates number and word |

## Left out

- The OAuth flow, the token file and credential reading (`main.go:59-127`), and JSON configuration loading. These are file, network and interactive I/O.
- The Sheets read and append calls. The rows read are the parameter `rows`. The rows appended are the result `sent` of `AppendToSheet`, `ProcessData` and `DoZillow`. Neither the append call nor its error is modelled; `processData` ignores that error anyway.
- The IMAP client in `yahoo_imap.go` (TLS, login, search, fetch, and the goroutine that hands messages over). The fetched messages are the parameter `fetched` of `DoZillow`.
- The subject filter of the mail search. `Sync.EmailSubject` keeps the subject constant of `main.go:39`, but the search runs on the mail server, so every fetched message is taken to carry that subject.
- Console output, including the row and message dumps in `processData`, and `main` with its usage text.
- Time zones. Each message's `time.Time` is an abstract ordered instant (`stamp`) paired with the calendar date that `Format` writes in the message's own zone. The sort orders by instant, and the rows carry each message's own calendar date. So row dates need not be non-decreasing across zones; `Sync.SortedRowsReadInOrder` states it under the hypothesis that every message's day is written in one zone.
- Sheet cells other than text or empty. A numeric cell is rendered by `%v` as its text, so it is a `Text` cell here, and Go's float formatting is not modelled.
- Sync.SortByDate: an insertion sort by adjacent swaps stands in for Go's pdqsort. Both promise only a sorted permutation, so the order among equal instants is not modelled.
- GoStrings.ToLower: folds ASCII letters only. Go also lower-cases other Unicode letters. No such letter lower-cases to a digit, to RE2 white space or to `s`, `a`, `v`, `e`. So matches and counts are the same, except that a character whose lower-case form has a different UTF-8 length would move byte offsets, which no result depends on.
- Invalid UTF-8 in bodies or cells. Strings are sequences of Unicode characters.
- The commented-out alternative patterns of `extractZillowSavesCount`. They do not run.
- Go's `time.Parse` beyond the elements the five layouts use (time of day, zones, other element kinds).
