# Wedding gift ledger — a Dafny model

The application is a single-event wedding gift ledger (축의금 기록부). A clerk types
each guest's name, the gift amount, the number of meal tickets (식권) handed out and
an optional remark. The ledger numbers every envelope, keeps the list in the
browser's storage, shows it newest first with a search box and an inline editor,
prints a paged register with a summary page, and exports a CSV file.

This project models the parts of it that compute something exactly:

- `WeddingData` — the ledger hook (`src/hooks/useWeddingData.ts`): a `Ledger`
  class holding the guest list and its persisted copy; `AddGuest`, `RemoveGuest`,
  `UpdateGuest` and `ClearAll` replace both through `SaveGuests`; `GetStats`
  derives the count, the sums and the rounded average. The new lists are
  specified by the functions `Added`, `Removed` and `Updated`.
- `Currency` — `numberToKorean` (`src/utils/currency.ts`) as a method with its
  two nested loops, proved equal to the function `KoreanAmount`, which reads the
  amount in base-10000 groups (`''`, 만, 억, 조) and base-10 places (`''`, 십, 백, 천).
- `ExportCsv` — the text `exportToCSV` builds (`src/utils/exportCSV.ts`) and a
  reader for that format; reading the exported text gives back the header and
  every guest's cells in envelope order.
- `GuestbookDocument` — the printed register
  (`src/components/GuestbookDocument.tsx`): the remarks column, the paging loop as
  a method, the numbered blank rows and the totals.
- `Page` — the next-envelope preview and the highlight of the record just added
  (`src/app/page.tsx`).
- `GuestForm` — the entry form (`src/components/GuestForm.tsx`) as a `Form` class
  whose methods are the input handlers and the submit step.
- `GuestList` — the list view (`src/components/GuestList.tsx`): newest-first
  order, the search filter, the remarks column and a `ListView` class for the
  editor state.
- Shared modules: `Guests` (the records of `src/types/wedding.ts`, the largest
  envelope number, the two sums and the stable sort used by three components),
  `JsStrings` (the JavaScript string built-ins the code relies on: number to
  text, `parseInt`, `trim`, `includes`, `join`, the digit filter) and `Wrappers`
  (`Option`).

Representation choices. A missing envelope number is 0, which is how the code
reads it (`g.envelopeNumber || 0`). A message is an `Option<string>`; the code's
truthiness test is `HasMessage` (present and not empty). A partial update is a
`Patch` with one `Option` per field; its `message` is doubly optional because the
list editor puts the key `message` with the value `undefined` into the patch, and
the spread copies it. Ids and creation times are parameters. Timestamps are
integers (milliseconds).

Two consequences of the code that the model states as it is written:

- 125000 is written "일금 일십이만오천원정": the digit loop writes 일 before 십, 백
  and 천 like any other digit.
- With 45 guests the third page's blank rows are numbered 46 to 60: each blank
  row gets `pageIndex * 20 + pageGuests.length + i + 1`.

## Model

| member | source | states |
|---|---|---|
| Guests.MaxEnvelope | src/hooks/useWeddingData.ts:34-36 | the result is at least every envelope number, is one of them when the list is non-empty, and is 0 for an empty list |
| Guests.SumAmount | src/hooks/useWeddingData.ts:63 | the amount reduce is at least every amount, and is 0 exactly when every amount is 0 |
| Guests.SumMealTickets | src/hooks/useWeddingData.ts:65 | without negative counts, the meal-ticket reduce is non-negative and at least every count |
| Guests.SumsConcat | src/hooks/useWeddingData.ts:63-65 | the amount sum and the meal-ticket sum of a concatenation are the sums of the parts |
| Guests.SumsOfPermutation | src/components/GuestbookDocument.tsx:26-29 | the two sums depend only on which records there are, not on their order |
| Guests.TakeOutLast | src/components/GuestbookDocument.tsx:26-29 | a proof step of SumsOfPermutation: taking one copy of the same record out of two permutations leaves two permutations |
| Guests.SpliceShape | src/components/GuestbookDocument.tsx:26-29 | a proof step of SumsOfPermutation, split out to keep its solver cost low: a list is its front and its last record, and a list is the records before k, the one at k and those after |
| Guests.SumsSpliced | src/components/GuestbookDocument.tsx:26-29 | a proof step of SumsOfPermutation: putting the same record back into lists with equal sums keeps the sums equal |
| Guests.HeadBelowRest | src/utils/exportCSV.ts:13 | a proof step of Insert: when the record goes after the head of a sorted list, the head's key is at most every key of the rest with the record inserted |
| Guests.ConsSorted | src/utils/exportCSV.ts:13 | a proof step of Insert: a record whose key is at most every key of a sorted list keeps it sorted in front |
| Guests.Insert | src/utils/exportCSV.ts:13 | inserting into a sorted list gives a sorted list with one more copy of the record |
| Guests.SortBy | src/utils/exportCSV.ts:13 | the sorted copy is ordered by the comparator's key and is a permutation of the input |
| JsStrings.DecimalString | src/utils/exportCSV.ts:28 | `String(n)` is a non-empty digit string with no leading zero |
| JsStrings.ParseDecimalString | src/utils/currency.ts:16-19 | reading back the decimal text of n gives n |
| JsStrings.DecimalDigitAt | src/utils/currency.ts:19 | counting from the right, character i of the decimal text is digit i of the number |
| JsStrings.DecimalLength | src/utils/currency.ts:16-18 | the decimal text has at most k characters exactly when nothing is left after dropping k digits |
| JsStrings.FourDigitsAtMost | src/utils/currency.ts:12-18 | a group below 10000 has at most four digits, so the digit loop runs at most four times |
| JsStrings.ZeroHasNoDigits | src/utils/currency.ts:18 | a proof step of DigitAboveLength: every decimal digit of 0 is 0 |
| JsStrings.DigitAboveLength | src/utils/currency.ts:18 | digits beyond the decimal text's length are zero |
| JsStrings.JsParseInt | src/components/GuestList.tsx:153 | `parseInt` reads NaN (none) from a text without any digit, and a non-empty digit string as its value |
| JsStrings.NoDigitsRead | src/components/GuestList.tsx:153 | without a digit, nothing is read after the leading white space |
| JsStrings.DigitsReadWhole | src/components/GuestList.tsx:153 | a digit string has no leading white space and is read whole |
| JsStrings.ParseNegative | src/components/GuestList.tsx:153 | `parseInt` on a minus sign followed by a non-empty digit string is minus that string's value |
| JsStrings.LeadingDigitsOfDigits | src/components/GuestList.tsx:153 | a text made only of digits is read whole, with or without a minus sign in front |
| JsStrings.IntString | src/utils/exportCSV.ts:28 | `String(i)` is non-empty, starts with a minus sign exactly when i is negative, is digits otherwise, and after the sign is the magnitude's decimal text |
| JsStrings.ParseIntString | src/components/GuestList.tsx:153 | `parseInt(String(i))` is i, negatives included |
| JsStrings.ParseNatString | src/components/GuestList.tsx:153 | a proof step of ParseIntString: `parseInt(String(n))` is n for a natural n |
| JsStrings.ParseNegatedString | src/components/GuestList.tsx:153 | a proof step of ParseIntString: `parseInt(String(-m))` is -m for a positive m |
| JsStrings.ParseDigitsZero | src/components/GuestForm.tsx:45 | a digit string reads as zero exactly when every digit is 0 |
| JsStrings.DigitRunLength | src/components/GuestList.tsx:153 | the run of digits `parseInt` reads is digit-only and stops at the first non-digit |
| JsStrings.DigitRunOfDigits | src/components/GuestList.tsx:153 | in a text made only of digits the run covers the whole text |
| JsStrings.KeepDigits | src/components/GuestForm.tsx:76 | `replace(/[^0-9]/g, '')` yields a digit-only string no longer than its input |
| JsStrings.KeepDigitsCount | src/components/GuestForm.tsx:76 | the filter keeps each digit as many times as it occurs and drops every other character |
| JsStrings.KeepDigitsOfDigits | src/components/GuestForm.tsx:76 | the filter leaves digit-only text unchanged |
| JsStrings.KeepDigitsConcat | src/components/GuestForm.tsx:76 | the filter works piecewise, so kept digits stay in order |
| JsStrings.LeadingSpaceCount | src/components/GuestForm.tsx:40 | the count covers exactly the leading white space |
| JsStrings.TrailingSpaceCount | src/components/GuestForm.tsx:40 | the count covers exactly the trailing white space |
| JsStrings.Trim | src/components/GuestForm.tsx:40 | `trim()` is a slice with only white space outside it, neither of its ends is white space, and it is empty exactly when the text is all white space |
| JsStrings.TrimBetween | src/components/GuestForm.tsx:40 | cutting the trailing white space after the leading white space leaves a slice with white-space-free ends, empty exactly when the text is all white space |
| JsStrings.JoinEnds | src/utils/exportCSV.ts:33-35 | `join` of a non-empty list starts with its first part and ends with its last |
| JsStrings.Contains | src/components/GuestList.tsx:38-39 | `includes(t)` holds exactly when t occurs at some position |
| WeddingData.AssignedEnvelopeNumber | src/hooks/useWeddingData.ts:34-40 | the new number is 1 for an empty list, exceeds every existing number, and is one more than an existing number otherwise |
| WeddingData.NewEntry | src/hooks/useWeddingData.ts:34-42 | the new record carries the draft's name, amount, meal tickets and message verbatim, with the given id and time, and the envelope number `AssignedEnvelopeNumber` of the list |
| WeddingData.Added | src/hooks/useWeddingData.ts:43 | the new list is the old list, unchanged and in order, followed by exactly the new record |
| WeddingData.Removed | src/hooks/useWeddingData.ts:48 | filtering never lengthens the list |
| WeddingData.RemovedMembers | src/hooks/useWeddingData.ts:48 | a record survives removal exactly when it was there and its id differs |
| WeddingData.ApplyPatch | src/hooks/useWeddingData.ts:53 | each of the seven fields the patch carries, id, envelope number and time included, overrides the record's; every other field is kept |
| WeddingData.Updated | src/hooks/useWeddingData.ts:52-54 | same length and order; records with the id are patched, all others are unchanged |
| WeddingData.Ledger.constructor | src/hooks/useWeddingData.ts:9 | the in-memory list and the persisted copy both start as the loaded list |
| WeddingData.Ledger.SaveGuests | src/hooks/useWeddingData.ts:28-31 | the in-memory list and the persisted copy both become the new list |
| WeddingData.Ledger.AddGuest | src/hooks/useWeddingData.ts:33-45 | returns the new record, appends it, persists the result, and raises the count by one and the sums by the draft's amount and tickets |
| WeddingData.Ledger.RemoveGuest | src/hooks/useWeddingData.ts:47-49 | the list becomes `Removed` of the old list and is persisted |
| WeddingData.Ledger.UpdateGuest | src/hooks/useWeddingData.ts:51-55 | the list becomes `Updated` of the old list and is persisted |
| WeddingData.Ledger.ClearAll | src/hooks/useWeddingData.ts:57-59 | the list and the persisted copy become empty |
| WeddingData.RoundedAverage | src/hooks/useWeddingData.ts:64 | the average is the quotient rounded half up: 2·count·avg ≤ 2·total + count < 2·count·(avg + 1) |
| WeddingData.Ledger.GetStats | src/hooks/useWeddingData.ts:61-73 | count and sums of the list; the average is 0 for no guests and otherwise total/count rounded half up |
| WeddingData.AddedInTurn | src/hooks/useWeddingData.ts:33-45 | n successive adds lengthen the list by n |
| WeddingData.NextAfterConsecutive | src/hooks/useWeddingData.ts:34-40 | a list numbered 1..n in order gives the next add the number n + 1 |
| WeddingData.SequentialNumbering | src/hooks/useWeddingData.ts:34-43 | from an empty ledger, n adds without removals number the records 1..n in call order, each with its own request's id |
| WeddingData.RemovedConcat | src/hooks/useWeddingData.ts:48 | removal distributes over concatenation, so survivors keep their order |
| WeddingData.RemoveAbsentIsNoop | src/hooks/useWeddingData.ts:48 | removing an id no record has changes nothing |
| WeddingData.RemovalLeavesGap | src/hooks/useWeddingData.ts:34-36 | while a record with the largest number survives, the next number is unchanged by a removal and exceeds every removed number, so the gap is never refilled |
| WeddingData.SameLargest | src/hooks/useWeddingData.ts:34-36 | a sublist that keeps a record with the largest number is given the same next number |
| WeddingData.RemovingTopReusesItsNumber | src/hooks/useWeddingData.ts:34-48 | in a ledger numbered 1..n whose last record, numbered n, has an id no other record has, removing that record makes the next add reuse n |
| WeddingData.RemoveUniqueLast | src/hooks/useWeddingData.ts:48 | removing the id of the record appended last, which no earlier record has, drops exactly that record |
| WeddingData.UpdateAbsentIsNoop | src/hooks/useWeddingData.ts:52-54 | updating an id no record has changes nothing |
| WeddingData.UpdateAmountOnly | src/hooks/useWeddingData.ts:52-54 | a patch with only an amount changes only the amount of the matching records |
| Currency.GroupOf | src/utils/currency.ts:12 | a group is below 10000 |
| Currency.KoreanAmount | src/utils/currency.ts:1-37 | the reference phrase: "영원" exactly for 0, otherwise a phrase that starts with "일금 " and ends with "원정" |
| Currency.NumberToKorean | src/utils/currency.ts:1-37 | the loops produce exactly `KoreanAmount(number)`: "영원" for 0, otherwise "일금 " + group words + "원정" |
| Currency.PartText | src/utils/currency.ts:15-27 | the digit loop produces the words of the group's four places, most significant first |
| Currency.DropGroupsStep | src/utils/currency.ts:32 | each iteration divides the remaining amount by 10000 once more |
| Currency.GroupsTextStep | src/utils/currency.ts:12-29 | one more group puts its words and unit name in front, or nothing when the group is 0 |
| Currency.GroupLoopStep | src/utils/currency.ts:11-33 | one turn of the group loop divides the remaining amount by 10000 and puts the words of the group it removed, with their unit, in front of the result |
| Currency.PlacesTextStep | src/utils/currency.ts:22-25 | one more place puts that digit's word (nothing for 0) in front |
| Currency.AllGroupsBelowLimit | src/utils/currency.ts:4 | below 10^16 nothing is left after four groups, so the four unit names suffice |
| Currency.HighPlacesSilent | src/utils/currency.ts:18 | places beyond the group's decimal length add no words |
| Currency.HighGroupsSilent | src/utils/currency.ts:11 | once nothing is left, the remaining groups add no words, so the loop may stop |
| Currency.LowGroups | src/utils/currency.ts:12 | below 10^8 the amount has a units group, a 만 group and nothing above |
| Currency.TwoGroupsOnly | src/utils/currency.ts:29 | below 10^8 the words are the 만 group's followed by the units group's |
| Currency.BelowHundredMillion | src/utils/currency.ts:36 | a positive amount below 10^8 reads "일금 " + those words + "원정" |
| Currency.ThirtyThousandPhrase | src/utils/currency.ts:36 | a proof step of ThirtyThousand, split out to keep its solver cost low: the frame "일금 …원정" around "삼만" |
| Currency.ThirtyThousand | src/utils/currency.ts:14-29 | 30000 reads "일금 삼만원정": the zero units group writes nothing, not even its unit |
| Currency.ThirtyThousandWords | src/utils/currency.ts:18-26 | the groups of 30000 read "삼만" |
| Currency.FormalPhrase | src/utils/currency.ts:36 | a proof step of OneHundredTwentyFiveThousand, split out to keep its solver cost low: the frame "일금 …원정" around "일십이만오천" |
| Currency.OneHundredTwentyFiveThousand | src/utils/currency.ts:18-36 | 125000 reads "일금 일십이만오천원정" |
| Currency.OneHundredTwentyFiveThousandWords | src/utils/currency.ts:18-26 | the groups of 125000 read "일십이만오천" |
| ExportCsv.Row | src/utils/exportCSV.ts:15-22 | six cells: the number and amount read back as themselves, the name, meal tickets that `parseInt` reads back, the message or "", the time text |
| ExportCsv.Rows | src/utils/exportCSV.ts:15 | one row per guest, in the list's order |
| ExportCsv.EscapeCell | src/utils/exportCSV.ts:27-32 | a cell holding a comma, a double quote or a line feed is wrapped in quotes and grows by at least two; any other cell is written as it is |
| ExportCsv.DoubleQuotes | src/utils/exportCSV.ts:30 | doubling quotes never shortens the text |
| ExportCsv.CsvContent | src/utils/exportCSV.ts:24-35 | the content starts with the header line, and is only the header line when there are no guests |
| ExportCsv.CsvText | src/utils/exportCSV.ts:37-38 | the file starts with U+FEFF |
| ExportCsv.ParseBare | src/utils/exportCSV.ts:32 | what is left after reading an unquoted cell is never longer than the input |
| ExportCsv.ParseQuoted | src/utils/exportCSV.ts:30 | reading a quoted cell consumes at least its closing quote |
| ExportCsv.ContainsChar | src/utils/exportCSV.ts:29 | `includes` of one character is membership |
| ExportCsv.NeedsQuotes | src/utils/exportCSV.ts:29 | a cell is quoted exactly when it holds a comma, a double quote or a line feed |
| ExportCsv.EscapeCellsEach | src/utils/exportCSV.ts:27-33 | the escaped cells of a record are its cells, each escaped on its own and kept in place |
| ExportCsv.RecordLineEnds | src/utils/exportCSV.ts:27-33 | a record line starts with its first escaped cell and ends with its last |
| ExportCsv.RecordLines | src/utils/exportCSV.ts:26-34 | there is one line per record, and line i is the line of record i |
| ExportCsv.EscapeCellShape | src/utils/exportCSV.ts:28-32 | a quoted cell is the quote-doubled text between two quotes; any other cell is emitted unchanged and holds none of the three characters |
| ExportCsv.HalveDoubleQuotes | src/utils/exportCSV.ts:30 | halving doubled quotes undoes doubling |
| ExportCsv.UnescapeEscapeCell | src/utils/exportCSV.ts:28-32 | stripping the outer quotes and halving `""` recovers the original cell |
| ExportCsv.ParseBarePlain | src/utils/exportCSV.ts:32 | an unquoted cell reads back up to the next separator |
| ExportCsv.ParseQuotedDoubled | src/utils/exportCSV.ts:30 | a quoted cell reads back as the original text |
| ExportCsv.OpeningQuote | src/utils/exportCSV.ts:30 | a cell opening with a quote is read as quoted text from the next character |
| ExportCsv.ParseEscapedCell | src/utils/exportCSV.ts:27-33 | any escaped cell reads back as the cell, leaving what follows |
| ExportCsv.ParseRecordLine | src/utils/exportCSV.ts:26-33 | a record line reads back as its cells |
| ExportCsv.LastCell | src/utils/exportCSV.ts:33 | a cell followed by the end of the text or a line feed ends its record |
| ExportCsv.NextCell | src/utils/exportCSV.ts:33 | a cell followed by a comma is the first of the record read after the comma |
| ExportCsv.SingleCellLine | src/utils/exportCSV.ts:26-33 | a line of one cell reads back as that cell |
| ExportCsv.RecordLineCons | src/utils/exportCSV.ts:33 | a line of two or more cells is the first escaped cell, a comma, and the line of the others |
| ExportCsv.Regroup | src/utils/exportCSV.ts:33 | a proof step of FirstCellOfLine, split out to keep its solver cost low: the line regrouped as its first cell followed by the comma and the rest |
| ExportCsv.FirstCellOfLine | src/utils/exportCSV.ts:26-33 | an escaped cell and a comma in front of a readable line add that cell in front of its record |
| ExportCsv.ParseRecordLines | src/utils/exportCSV.ts:24-35 | record lines joined by LF read back as the records |
| ExportCsv.PlainCell | src/utils/exportCSV.ts:32 | a cell without the three characters is written as it is |
| ExportCsv.PlainTextChars | src/utils/exportCSV.ts:29 | plain text holds no comma, double quote or line feed |
| ExportCsv.PlainCells | src/utils/exportCSV.ts:26-33 | plain cells are all written as they are |
| ExportCsv.HeaderLine | src/utils/exportCSV.ts:4-11 | no header needs quoting, so the first line is the six names joined by commas |
| ExportCsv.ContentReadsBack | src/utils/exportCSV.ts:24-35 | the header line and the record lines read back as the header and the records |
| ExportCsv.ExportReadsBack | src/utils/exportCSV.ts:13-37 | the file reads back as the header and one six-cell record per guest, the guests being a permutation of the ledger in ascending envelope order |
| GuestbookDocument.TicketsText | src/components/GuestbookDocument.tsx:15 | the meal-ticket remark is not empty |
| GuestbookDocument.RemarkParts | src/components/GuestbookDocument.tsx:12-20 | one part for positive meal tickets and one for a truthy message, none of them empty |
| GuestbookDocument.DocumentRemarks | src/components/GuestbookDocument.tsx:11-23 | tickets first when positive, then a truthy message, joined by " · "; empty exactly when both are absent |
| GuestbookDocument.PageSplit | src/components/GuestbookDocument.tsx:31-35 | ceil(n/20) pages, page p being the slice from 20p of at most 20 guests |
| GuestbookDocument.Paginate | src/components/GuestbookDocument.tsx:29-35 | the sort and the paging loop produce exactly the pages of the envelope-sorted list |
| GuestbookDocument.SplitPages | src/components/GuestbookDocument.tsx:31-35 | the loop pushing one slice of 20 per step produces exactly ceil(n/20) pages, page p being the slice from 20p |
| GuestbookDocument.PageIndex | src/components/GuestbookDocument.tsx:33 | page k exists exactly when some guest comes after the first 20k, which is the loop's test |
| GuestbookDocument.BlankNumbers | src/components/GuestbookDocument.tsx:80-83 | 20 minus the page's guests blank rows, numbered consecutively after the page's guests and within the page's range of 20 |
| GuestbookDocument.DocumentTotals | src/components/GuestbookDocument.tsx:26-27 | the count and the two sums over the unsorted list equal those over the envelope-sorted list the pages print |
| GuestbookDocument.PageCountBounds | src/components/GuestbookDocument.tsx:33 | no pages for no guests; otherwise the last page holds the last guest |
| GuestbookDocument.FlattenPrefix | src/components/GuestbookDocument.tsx:33-34 | the first k pages written out are the first 20k guests |
| GuestbookDocument.PagesCoverAll | src/components/GuestbookDocument.tsx:31-35 | the pages written one after another are the sorted list |
| GuestbookDocument.PageSizes | src/components/GuestbookDocument.tsx:33-34 | every page but the last holds 20 guests, the last 1 to 20 |
| GuestbookDocument.TwentyRowsPerPage | src/components/GuestbookDocument.tsx:80 | guest rows and blank rows fill every page with exactly 20 rows |
| GuestbookDocument.BlankRowsContinue | src/components/GuestbookDocument.tsx:80-83 | only the last page has blank rows, numbered on from the last guest up to 20 times the page count |
| GuestbookDocument.FortyFiveGuests | src/components/GuestbookDocument.tsx:80-83 | 45 guests make 3 pages, the third holding 5 guests and blank rows 46 to 60 |
| GuestbookDocument.PagesMatchTotals | src/components/GuestbookDocument.tsx:26-29 | the pages hold as many guests, as much money and as many tickets as the summary page reports |
| GuestbookDocument.TotalsMatchStats | src/components/GuestbookDocument.tsx:26-27 | the summary totals equal the ledger's `getStats` |
| Page.NextEnvelopeNumber | src/app/page.tsx:17-19 | 1 for an empty list, exceeds every number, one more than an existing number otherwise |
| Page.PreviewMatchesAdd | src/app/page.tsx:17-19 | the preview equals the number the next `addGuest` on the same list assigns |
| Page.Home.constructor | src/app/page.tsx:14 | no record is highlighted at first |
| Page.Home.HandleAddGuest | src/app/page.tsx:30-33 | the draft is added and persisted, the highlight is the new record's id, and its number is the preview shown before |
| GuestForm.SubmittedDraft | src/components/GuestForm.tsx:40-52 | nothing for an all-white-space name; otherwise the trimmed non-empty name, the digits of the amount read as a number (0 for none), the tickets verbatim, and the trimmed message or none when blank |
| GuestForm.Form.constructor | src/components/GuestForm.tsx:22-27 | the form starts empty and valid |
| GuestForm.Form.SetName | src/components/GuestForm.tsx:147-150 | the name keeps at most the first 10 characters of the input |
| GuestForm.Form.SetMessage | src/components/GuestForm.tsx:284 | the message becomes the input; nothing else changes |
| GuestForm.Form.HandleAmountChange | src/components/GuestForm.tsx:75-78 | the amount becomes the input's digits, so it is always digit-only |
| GuestForm.AmountValue | src/components/GuestForm.tsx:44-45 | the amount field's value is 0 exactly when the field is empty or all zeros |
| GuestForm.Form.AddToAmount | src/components/GuestForm.tsx:80-86 | the amount's value grows by exactly the added value |
| GuestForm.Form.AdjustMealTickets | src/components/GuestForm.tsx:98-103 | the counter moves by delta but never below zero |
| GuestForm.Form.ResetForm | src/components/GuestForm.tsx:88-96 | the form is empty again |
| GuestForm.Form.HandleSubmit | src/components/GuestForm.tsx:37-62 | returns `SubmittedDraft` of the fields; a blank name leaves the form untouched, a submitted one empties it |
| GuestForm.SubmittedAmountIsFieldValue | src/components/GuestForm.tsx:44-45 | for a digit-only field the submitted amount is the field's value |
| GuestList.ListRemarks | src/components/GuestList.tsx:13-25 | the printed register's remarks, or "-" when there are none; never empty |
| GuestList.MatchesSearch | src/components/GuestList.tsx:37-39 | an empty term matches every guest; a term longer than both the name and the number's text matches none |
| GuestList.SearchFilter | src/components/GuestList.tsx:37-40 | filtering never lengthens the list |
| GuestList.SearchFilterMembers | src/components/GuestList.tsx:37-40 | the filter keeps exactly the guests whose name or decimal number contains the term |
| GuestList.SearchFilterCount | src/components/GuestList.tsx:37-40 | the filter keeps every copy of a matching guest and no copy of any other |
| GuestList.DisplayedGuests | src/components/GuestList.tsx:32-41 | newest first; all guests for an empty term, otherwise every copy of each matching guest and nothing else |
| GuestList.FilterKeepsOrder | src/components/GuestList.tsx:36-41 | filtering a sorted list keeps it sorted |
| GuestList.FilterConcat | src/components/GuestList.tsx:37-40 | filtering works piecewise, so shown rows keep their relative order |
| GuestList.EmptySearchShowsAll | src/components/GuestList.tsx:36-41 | an empty term shows the whole newest-first list |
| GuestList.EditPatch | src/components/GuestList.tsx:53-58 | the patch carries exactly the name, amount, tickets and message, so applied to its own record it changes nothing |
| GuestList.SanitizedAmount | src/components/GuestList.tsx:141-142 | the amount input is the value of its digits, 0 when there are none |
| GuestList.SanitizedTickets | src/components/GuestList.tsx:153 | unparsable input gives 0, and the text of any integer, negative ones included, gives that integer |
| GuestList.ListView.constructor | src/components/GuestList.tsx:28-30 | no search term, nothing being edited, an empty patch |
| GuestList.ListView.SetSearchTerm | src/components/GuestList.tsx:93 | the term becomes the input |
| GuestList.ListView.StartEdit | src/components/GuestList.tsx:51-59 | editing the record's id with its four editable fields loaded |
| GuestList.ListView.CancelEdit | src/components/GuestList.tsx:61-64 | leaves editing without touching the ledger |
| GuestList.ListView.SaveEdit | src/components/GuestList.tsx:66-70 | the ledger is updated once with the edits, then editing ends |
| GuestList.ListView.EditName | src/components/GuestList.tsx:190 | the patch's name becomes the input |
| GuestList.ListView.EditAmount | src/components/GuestList.tsx:198-201 | the patch's amount becomes the sanitised input |
| GuestList.ListView.EditMealTickets | src/components/GuestList.tsx:210 | the patch's tickets become the sanitised input |
| GuestList.ListView.EditMessage | src/components/GuestList.tsx:217 | the patch's message becomes the input |
| GuestList.SaveWithoutChangesIsNoop | src/components/GuestList.tsx:51-70 | saving right after starting an edit leaves every record as it was |
| GuestList.SaveAmountEdit | src/components/GuestList.tsx:51-70 | changing only the amount in the editor changes only that record's amount |

## Left out

- Loading from `localStorage` with `JSON.parse`, and the `isLoading` flag (src/hooks/useWeddingData.ts:12-26): I/O. The `Ledger` constructor takes the loaded list, and the storage write in `saveGuests` is the `stored` field.
- `Date.now()` ids and `new Date()` times: they are parameters. The code does not make ids unique, and the model does not assume it. Lemmas that need one record per id say so in their preconditions.
- React state closures: each handler reads `guests` from the last render. The model runs the operations one after another on the current list.
- `toLocaleString('ko-KR')` time text in the CSV: a parameter `timeText`. The Blob, the object URL, the link click and the file name are not modelled (I/O).
- Rendering, focus handling, Enter-key navigation, the remark toggle, `window.print`, the `confirm` before a deletion (a confirmed deletion is `Ledger.RemoveGuest`), and the 3-second timer that clears the highlight (src/app/page.tsx:21-28).
- `formatCurrency`, `formatAmount`, `toLocaleString` display of amounts, and the Korean-words preview in the form: locale formatting and floating point. src/components/StatsCard.tsx and src/app/layout.tsx are display only and are not part of this model.
- JavaScript numbers are doubles. Amounts and counts are unbounded integers here, so behaviour past 2^53, and `String(n)`'s exponent form from 10^21 on, are not modelled.
- Records without an envelope number or meal-ticket count: the records come from `localStorage`, and the code guards some reads of them with `|| 0`. Where the code applies `|| 0`, 0 is what the model holds. Where it does not, the model does not capture what JavaScript does: `String(undefined)` in the CSV, a `toString()` that throws in the search, and NaN in the sort comparator.
- Currency.KoreanAmount: the reference phrase has the same bound as NumberToKorean, a natural amount below 10^16, for the reason given on the next line.
- Currency.NumberToKorean: requires a natural amount below 10^16. The source writes wrong words for larger amounts (it runs out of unit names), and negative or fractional inputs are not modelled.
- JsStrings.JsParseInt: models radix 10 only. `parseInt` without a radix would read a `0x` prefix as hexadecimal; the inputs it reads here (a number input and digit-filtered text) do not produce one.
- GuestForm.Form.SetName: counts Unicode characters. `slice(0, 10)` counts UTF-16 code units, so the two differ for characters outside the Basic Multilingual Plane.
- Guests.SortBy: its contract states the order and the permutation, not where records with equal keys go. The body is a stable insertion sort, matching `Array.prototype.sort`.
- Deleting from the list (src/components/GuestList.tsx:266-270) is `Ledger.RemoveGuest` behind a `confirm`, and has no model of its own.
- GuestForm.Form.AddToAmount: the six quick-add amounts (3만 to 50만, src/components/GuestForm.tsx:12-19) are not listed in the model; the contract is stated and proved for every natural value, which covers each of them.
