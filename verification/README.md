# CPO payment portal — a Dafny model of its core

The CPO payment portal lets a driver find a parking charge notice (PCN) and pay
it in three monthly instalments. Penalty data comes from Excel workbooks kept in
an Azure Blob Storage container. The server searches one workbook,
"CPO Test Data.xlsx", row by row. It can also bulk-load any workbook into the
`penalties` table. Checkout creates a customer, a penalty record and a payment
schedule. Stripe webhooks then record each instalment and move the schedule
through `active`, `completed` and `cancelled`.

This project models that core as pure Dafny functions over immutable values:

- **Cells and sheets** (`Cells`): a worksheet is a sequence of rows of cells.
  A cell is empty, text, or a number.
- **JavaScript semantics the code relies on**:
  - `JsText`: `trim`, upper and lower case, digit strings.
  - `JsNumber`: `parseFloat`, `toFixed(2)` and `Number.toString`. Numbers are
    exact decimals plus NaN and ±Infinity.
  - `Calendar` and `JsDate`: `new Date(y, m, d, h, mi, s)`, `getDate()` and the
    others, and `TimeClip`, all in UTC.
- **The Azure storage service** (`server/azureStorage.ts`):
  - `BlobStore`: the blob container, file-name sanitising and the upload name.
  - `Charge`: charge-cell cleaning.
  - `ExcelDate`: `parseExcelDate`.
  - `ContraventionDate`: `parseContraventionDate`, with its four text shapes
    and Excel serial numbers.
  - `SheetSearch`: `searchPenaltiesFromExcel`.
  - `BulkIngest`: `processExcelFile` and `checkAndProcessNewFiles`.
- **The stores**:
  - `Schema`: the four tables of `schema.ts`, as rows with money held as
    `numeric(10,2)` pence.
  - `RecordStore`: the database storage of `server/storage.ts`.
  - `MemStore`: the in-memory customer store of `dist/index.js`.
  - `Like`: PostgreSQL `ILIKE`, which `searchPenalties` uses.
- **The HTTP routes** (`azure-deployment-package/server/routes.ts`):
  - `StorageRoutes`: search, upload, process-files and files, with their status
    codes.
  - `Checkout`: create-checkout-session, covering validation, customer
    find-or-create, penalty find-or-create and schedule creation.
  - `Webhook`: the Stripe webhook and the schedule transitions it makes.
- **The client pages**:
  - `SearchPage` (`client/src/pages/penalty-search.tsx`): the query string,
    error messages, the retry policy and toasts.
  - `PaymentPortal` (`azure-deploy/client/src/pages/payment-portal.tsx`): URL
    prefill, input normalising, the pay-button guard and the popup parameters.

Stripe, Azure, the XLSX decoder, the clock and JavaScript's free-form
`new Date(string)` parser are not modelled. Each is either a parameter of the
function that uses it or a value recorded in the model's state:

- `generic: string -> Time` stands for `new Date(text)`.
- `isEmail` stands for zod's e-mail check.
- `now` is the clock.
- `StripeIds` holds the identifiers Stripe returns.
- `Transport` is the answer to a `fetch`.
- `Content` is a blob: either a readable workbook's first sheet, or the reason
  it cannot be read.

Keys are natural numbers taken from a counter (`nextId`). The source uses
`gen_random_uuid()` and `randomUUID()`.

A store is *consistent* (`RecordStore.Consistent`) when:

- keys are unique in every table;
- customer e-mails and penalty ticket numbers are unique (schema.ts:8 and 29);
- every key is below the counter;
- every schedule names a stored customer and penalty, and every payment names a
  stored schedule and customer (schema.ts:45-46 and 62-63);
- every amount fits `numeric(10,2)`.

A store is *sane* (`Webhook.Sane`) when every schedule has completed between
0 and 3 payments, a completed schedule has exactly 3 and no next date, and
every payment is numbered 1 to 3.

Three behaviours of the code worth noting, which the model follows:

- Excel serial 60 is 28 February 1900 (server/azureStorage.ts:237-238).
  `fromExcelSerial` subtracts the fixed offset 25569, so the fictitious
  29 February 1900 of Excel never appears.
- Date text that no shape and no generic parse can read is returned as it was
  given, untrimmed (server/azureStorage.ts:299), not trimmed.
- The in-memory store accepts a second customer with a taken e-mail
  (dist/index.js:24-36); only the database enforces uniqueness.

## Model

| member | source | states |
|---|---|---|
| Cells.DataRows | server/azureStorage.ts:164-167 | the data rows are the sheet without its header row: row i is sheet row i+1, and there are none for an empty sheet |
| Cells.At | server/azureStorage.ts:343-344 | `row[i]` is the cell when the row has it, and an empty cell past the row's end |
| Cells.CellString | server/azureStorage.ts:343 | `cell?.toString()` is absent exactly for an empty cell |
| Cells.TrimmedText | server/azureStorage.ts:185-186 | `cell?.toString().trim()` is absent exactly for an empty cell, and is otherwise the trimmed text of the cell |
| Cells.TextOrNull | server/azureStorage.ts:187 | `cell?.toString().trim() \|\| null` is null exactly for an empty cell or one whose trimmed text is empty; otherwise it is the non-empty trimmed text |
| JsText.TrimIdempotent | server/azureStorage.ts:185 | trimming twice is trimming once |
| JsText.Trim | server/azureStorage.ts:185 | `trim` gives the middle of the text, starting after the leading white space, with no white space at either end and only white space after it |
| JsText.TrimNoOuterSpace | server/azureStorage.ts:185 | text with no white space at either end is left alone by `trim` |
| JsText.ToUpper | server/azureStorage.ts:344 | `toUpperCase` on ASCII text: each lower-case ASCII letter becomes its capital, every other character stays in place |
| JsText.NatToString | server/azureStorage.ts:173 | a natural number prints as at least one digit, with no leading zero, spelling that number |
| JsText.TrimEmptyIffAllSpace | server/azureStorage.ts:347 | a trimmed key is empty exactly when the cell text is all white space, which is when the search skips the row |
| JsText.ToUpperIdempotent | server/azureStorage.ts:344 | upper-casing an already upper-cased registration changes nothing |
| JsText.NatToStringOfDigits | server/azureStorage.ts:173 | printing a natural number and reading its digits back gives the number |
| JsNumber.ParseFixed2 | server/azureStorage.ts:188 | `parseFloat` of `x.toFixed(2)` is x rounded to hundredths, with x's sign |
| JsNumber.MathRound | server/azureStorage.ts:238 | `Math.round` gives the integer within half of the value, halves going up |
| JsNumber.ToFixed2 | server/azureStorage.ts:368 | `toFixed(2)` of a finite number is its sign and its hundredths with two decimals; NaN and the infinities print as "NaN", "Infinity" and "-Infinity" |
| JsNumber.ParseSignedFixed2 | server/azureStorage.ts:188 | reading back a signed two-decimal figure gives that number of hundredths, with its sign |
| JsNumber.RoundedTo2 | server/azureStorage.ts:188 | rounding to hundredths keeps a number finite exactly when it was, and leaves NaN and the infinities alone |
| JsNumber.ParseUnsigned | server/azureStorage.ts:188 | `parseFloat` reads a number only from text starting with a digit, or with a point followed by a digit |
| JsNumber.ToFixed2Shape | server/azureStorage.ts:368 | `toFixed(2)` of a finite number is an optional minus, at least one digit, a point and two digits |
| JsNumber.ParseUnsignedDigits | server/azureStorage.ts:255 | `parseFloat` of a run of digits is the integer those digits spell |
| JsNumber.ParseUnsignedPoint | server/azureStorage.ts:253-255 | `parseFloat` of `whole.frac` is the decimal it spells, scaled by the fraction's length |
| JsNumber.ParseNaNText | server/azureStorage.ts:197-198 | `parseFloat("NaN")` is NaN, so a printed NaN amount fails the amount check |
| JsNumber.ParsePosInfinityText | server/azureStorage.ts:197-198 | `parseFloat("Infinity")` is +Infinity, so an infinite amount passes the `> 0` check |
| JsNumber.ParseNegInfinityText | server/azureStorage.ts:197-198 | `parseFloat("-Infinity")` is -Infinity, so a negative infinite amount fails the check |
| JsNumber.ParseToFixed2 | server/azureStorage.ts:188-198 | reading back the printed amount gives the amount rounded to two places, for every number including NaN and ±Infinity |
| Calendar.CivilRoundTrip | server/azureStorage.ts:230-233 | turning a valid date into a day number and back gives the date |
| Calendar.DaysFromCivilInjective | server/azureStorage.ts:230-233 | different valid dates have different day numbers |
| Calendar.CivilFromDays | server/azureStorage.ts:230-233 | every day number is a valid date, and that date's day number is the one given |
| JsDate.TimeClip | server/azureStorage.ts:284-285 | a time is valid exactly within ±8.64e15 ms; a whole number inside that range is kept as it is |
| JsDate.FieldsOf | server/azureStorage.ts:230-233 | `getDate()`, `getHours()` and the other getters give a valid date and time no later than the instant and within one second of it |
| JsDate.FieldsRoundTrip | server/azureStorage.ts:230-233 | splitting the milliseconds of a valid date and time gives back its fields |
| JsDate.TimeOfDay | server/azureStorage.ts:232 | the milliseconds into a day are the hours, minutes and seconds the getters report, plus the milliseconds |
| JsDate.Construct | server/azureStorage.ts:284 | `new Date(y, m, d, h, mi, s)` for a year of at least 100 is the clipped day number times a day, plus the time |
| JsDate.ConstructInRange | server/azureStorage.ts:284 | constructing from a valid date's own fields, with the month made 0-based, gives that date's instant |
| JsDate.ConstructRollsOver | server/azureStorage.ts:277-284 | a day past the month's end rolls over: 31 February 2024 is 2 March 2024 |
| JsDate.FormatDate | server/azureStorage.ts:230-233 | an invalid date prints as `NaN/NaN/NaN NaN:NaN:NaN`; a valid one prints its `DD/MM/YYYY hh:mm:ss` fields |
| Charge.StripCharge | server/azureStorage.ts:355 | removing `£`, `$`, commas and white space leaves none of them and never lengthens the text |
| Charge.StripChargeConcat | server/azureStorage.ts:355 | the global replace works character by character, so it distributes over concatenation |
| Charge.StripChargeKeeps | server/azureStorage.ts:355 | text with none of those characters is left alone |
| Charge.StripChargeIdempotent | server/azureStorage.ts:355 | cleaning twice is cleaning once |
| Charge.ChargeValue | server/azureStorage.ts:355-357 | the charge is never NaN |
| Charge.EmptyChargeIsZero | server/azureStorage.ts:355-357 | a missing charge cell is read as `'0'` and gives 0 |
| Charge.UnreadableChargeIsZero | server/azureStorage.ts:355-357 | a charge with nothing left after cleaning, or whose remainder `parseFloat` cannot read, counts as 0 |
| Charge.ReadableChargeIsParsed | server/azureStorage.ts:355-357 | otherwise the charge is `parseFloat` of the cleaned text |
| Charge.LetterChargeIsZero | server/azureStorage.ts:355-357 | a cleaned remainder that starts with anything but a digit, a point, a sign or `I` counts as 0 |
| Charge.PointChargeValue | server/azureStorage.ts:355-357 | a charge that cleans to `whole.frac` is exactly the decimal those digits spell |
| Charge.DigitChargeValue | server/azureStorage.ts:355-357 | a charge that cleans to digits alone is the integer they spell |
| Charge.PoundsWithSeparator | server/azureStorage.ts:355-357 | "£1,234.50" is read as 1234.50 |
| Charge.UnreadableExamples | server/azureStorage.ts:355-357 | "£" and "abc" are read as 0 |
| Charge.NormaliseCharge | server/azureStorage.ts:368 | the shown amount is never "NaN": it is "Infinity", "-Infinity" or a two-decimal figure |
| Charge.NormaliseChargeReadsBack | server/azureStorage.ts:355-368 | reading the shown amount back gives the charge rounded to pence, with its sign |
| ExcelDate.ParseExcelDate | server/azureStorage.ts:303-323 | a falsy cell gives now; text gives the generic parse when that is valid and otherwise now; a number n gives 1 Jan 1900 plus n-2 days |
| ExcelDate.Epoch1900IsConstructed | server/azureStorage.ts:308 | the 1900 epoch is `new Date(1900, 0, 1)`, UTC midnight of 1 Jan 1900 |
| ExcelDate.SerialReadingsAgree | server/azureStorage.ts:236-240 | for a serial with at most five decimals, `parseExcelDate` and `fromExcelSerial` give the same instant |
| ContraventionDate.FromExcelSerial | server/azureStorage.ts:236-240 | a valid result is `Math.round((serial - 25569) * 86400000)` ms |
| ContraventionDate.ParseContraventionDate | server/azureStorage.ts:226-300 | null exactly for a falsy cell; a number is printed as its serial date; text that is changed at all is changed into a printed date |
| ContraventionDate.ParseDateText | server/azureStorage.ts:249-299 | text is either returned as it came or replaced by a printed date |
| ContraventionDate.ShapeTextFormatted | server/azureStorage.ts:263-289 | text that is not a serial and matches one of the four shapes is printed from the first matching shape's day, month, year and time, with the time parts that shape lacks taken as 0 |
| ContraventionDate.TryShapesSkip | server/azureStorage.ts:274-289 | shapes that do not match are passed over |
| ContraventionDate.SerialText | server/azureStorage.ts:253-259 | text is read as a serial exactly when it is digits with an optional `.digits` part |
| ContraventionDate.DateHead | server/azureStorage.ts:265-271 | a match is one or two digits, the separator, one or two digits, the separator, four digits, and a rest that does not start with a digit |
| ContraventionDate.DateHeadComplete | server/azureStorage.ts:265-271 | every text of that form matches, with exactly those groups |
| ContraventionDate.Clock | server/azureStorage.ts:265-267 | a time match is h or hh, a colon and mm, then optionally a colon and ss, and nothing else |
| ContraventionDate.ClockComplete | server/azureStorage.ts:265-267 | every text of that form matches, with exactly those groups |
| ContraventionDate.MatchShape | server/azureStorage.ts:263-281 | a shape's groups are well formed, and the two date-only shapes leave the time groups absent |
| ContraventionDate.TryShapesFirstMatch | server/azureStorage.ts:274-289 | the shapes are tried in order: some date results exactly when some shape matches, and it comes from the first shape that does |
| ContraventionDate.FormattedRoundTrip | server/azureStorage.ts:230-289 | re-parsing a printed date with a four-digit year gives back the same printed text |
| ContraventionDate.DateTextRoundTrip | server/azureStorage.ts:249-289 | a printed date that the first shape reads back to the same instant is returned as the same text |
| ContraventionDate.FormatIsTrimmed | server/azureStorage.ts:230-233 | a printed date has no outer white space and is never read as a serial number |
| ContraventionDate.FormatMatchesFirstShape | server/azureStorage.ts:265-267 | a printed date matches the first shape, with its own fields as the groups |
| ContraventionDate.TryShapes | server/azureStorage.ts:274-289 | a date found by trying the shapes is always a valid one |
| ContraventionDate.ConstructValid | server/azureStorage.ts:284 | dates built from a year of four digits and fields of at most two digits are always valid |
| ContraventionDate.NumericTextIsSerial | server/azureStorage.ts:249-259 | numeric text, after trimming, is printed as the date of the serial it spells |
| ContraventionDate.DigitTextIsSerial | server/azureStorage.ts:249-259 | all-digit text is printed as the date of that whole serial |
| ContraventionDate.UnreadTextKept | server/azureStorage.ts:291-299 | text that no shape and no generic parse reads comes back as it was given, untrimmed; empty text gives null |
| ContraventionDate.SerialSixtyAndSixtyOne | server/azureStorage.ts:237-238 | serial 60 prints as 28 Feb 1900 and serial 61 as 1 Mar 1900 |
| ContraventionDate.WholeSerial | server/azureStorage.ts:238 | a whole serial n is exactly n - 25569 days after the Unix epoch |
| ContraventionDate.SerialOfDay | server/azureStorage.ts:236-245 | the serial of a calendar day prints as midnight of that day |
| BlobStore.SanitiseName | server/azureStorage.ts:101 | the name keeps its length; letters, digits, `.`, `_` and `-` stay where they are and every other character becomes `_` |
| BlobStore.SanitiseFixesExactlyClean | server/azureStorage.ts:101 | sanitising leaves a name unchanged exactly when the name is already clean |
| BlobStore.SanitiseIdempotent | server/azureStorage.ts:101 | sanitising twice is sanitising once |
| BlobStore.Upload | server/azureStorage.ts:94-115 | fails only when storage is unavailable; otherwise stores the content under the sanitised name, returns that blob's URL and leaves the availability and base URL alone |
| BlobStore.UploadThenDownload | server/azureStorage.ts:94-140 | downloading the sanitised name after an upload gives the uploaded workbook, or the reason it cannot be read |
| BlobStore.Download | server/azureStorage.ts:118-140 | fails with the unavailable message when storage is down, and with the missing-blob error when no blob has the name; otherwise gives the first sheet of the first blob with the name, or the reader's error for bytes it cannot read |
| BlobStore.DownloadStored | server/azureStorage.ts:118-140 | in a container with unique names, downloading a stored blob's name reads that blob |
| BlobStore.MissingBlob | server/azureStorage.ts:118-124 | a missing blob's error message says that the blob "does not exist" |
| BlobStore.ListFiles | server/azureStorage.ts:143-153 | fails when storage is down; otherwise lists every stored blob name once, in the service's name order (`listBlobsFlat` pages through blobs sorted by name), whatever order they were written in |
| BlobStore.SortNames | server/azureStorage.ts:149-151 | the listing is sorted by name and holds exactly the stored names |
| BlobStore.SortedPermutationUnique | server/azureStorage.ts:149-151 | two sorted arrangements of the same names are the same listing, so the listing does not depend on write order |
| BlobStore.ListsInNameOrder | server/azureStorage.ts:149-151 | with "b.xlsx" written before "a.xlsx", "a.xlsx" is listed first |
| BlobStore.SortKeepsWorkbookCount | server/azureStorage.ts:383-387 | sorting the listing keeps the number of workbooks among the names |
| BlobStore.WorkbookNames | server/azureStorage.ts:385-387 | keeps exactly the names ending in `.xlsx` or `.xls` in any letter case |
| BlobStore.WorkbookNameIgnoresCase | server/azureStorage.ts:385-387 | upper-casing a name does not change whether it is a workbook |
| BlobStore.WorkbookNameSurvivesSanitising | server/azureStorage.ts:101 | sanitising a workbook's name keeps it a workbook |
| BlobStore.UploadNameIsClean | azure-deployment-package/server/routes.ts:106-107 | the timestamped upload name is already clean, so storing it does not rename it, and it is a workbook name |
| BlobStore.PutThenFind | server/azureStorage.ts:102-108 | after an upload the name finds exactly the uploaded blob |
| BlobStore.PutDistinct | server/azureStorage.ts:102-108 | an upload overwrites a blob of the same name, so names stay unique |
| BlobStore.Put | server/azureStorage.ts:102-108 | after an upload the new blob is in the container, and every blob there was there before or is the new one |
| BlobStore.UploadName | azure-deployment-package/server/routes.ts:106-107 | the upload name ends in `.xlsx` |
| BlobStore.PenaltiesClean | azure-deployment-package/server/routes.ts:106-107 | `penalties-<stamp>.xlsx` is a clean workbook name for a clean stamp |
| BlobStore.Dashed | azure-deployment-package/server/routes.ts:106 | `replace(/[:.]/g, '-')` keeps the length and turns exactly the colons and points into dashes |
| SheetSearch.RowVrm | server/azureStorage.ts:344 | a row's registration is present exactly when column B has a value; it is the trimmed text, upper-cased |
| SheetSearch.RowResult | server/azureStorage.ts:362-371 | the result's id is its ticket number; the date issued is the contravention date; the status is active; the date is null exactly when column C is falsy |
| SheetSearch.SearchRows | server/azureStorage.ts:340-373 | no more results than rows; a value is a result exactly when some row matches the query and gives that value |
| SheetSearch.SearchPenaltiesFromExcel | server/azureStorage.ts:326-380 | a download failure becomes "Search failed: …"; otherwise the result is the search of the data rows |
| SheetSearch.SearchFailed | server/azureStorage.ts:378 | a search failure message begins "Search failed: " |
| SheetSearch.SearchRowsConcat | server/azureStorage.ts:340-373 | the search keeps sheet order: searching two blocks of rows is searching each and concatenating |
| SheetSearch.ResultsMatchQuery | server/azureStorage.ts:350-353 | every result carries the queried ticket number exactly and the queried registration upper-cased |
| SheetSearch.VrmCaseInsensitive | server/azureStorage.ts:351 | the registration comparison ignores the case of the query |
| SheetSearch.KeylessRowsSkipped | server/azureStorage.ts:347 | a row without a ticket number or a registration never matches |
| SheetSearch.TicketCaseSensitive | server/azureStorage.ts:350 | the ticket comparison is exact: "AB1" does not find "ab1" |
| SheetSearch.SearchFileNotUploadable | azure-deployment-package/server/routes.ts:57 | the searched file name contains spaces, so no sanitised upload can ever be stored under it |
| BulkIngest.RowMessage | server/azureStorage.ts:180 | every row error begins "Row n: " with its row number |
| BulkIngest.CheckedAmount | server/azureStorage.ts:188-198 | the stored amount is the cell's amount rounded to two places, and passes the check exactly when it is +Infinity or rounds to a positive number of pence |
| BulkIngest.RowPenalty | server/azureStorage.ts:184-194 | the ticket is column A trimmed; the registration is column B trimmed and upper-cased; optional columns are null when empty; the date comes from `parseExcelDate`; the status is active |
| BulkIngest.Upsert | server/azureStorage.ts:203-211 | a stored row carries the row's fields, and an existing ticket keeps its key |
| BulkIngest.IngestRow | server/azureStorage.ts:171-216 | a row error carries the row's number and leaves the store alone |
| BulkIngest.IngestRowLoaded | server/azureStorage.ts:203-213 | a row that raises no error is stored under its trimmed ticket number, and the store stays consistent |
| BulkIngest.IngestRowKeepsOtherTickets | server/azureStorage.ts:203-211 | a row for another ticket keeps the store consistent and leaves the ticket's row alone |
| BulkIngest.IngestRowCases | server/azureStorage.ts:179-216 | a row missing A, B or D is a missing-fields error; a row whose amount fails the check is an invalid-amount error; both leave the store alone; otherwise the row is upserted, and it counts exactly when the upsert succeeds |
| BulkIngest.Fold | server/azureStorage.ts:171-217 | every row counts once, as processed or as an error |
| BulkIngest.FoldNumbers | server/azureStorage.ts:173 | error row numbers lie between the first row number and the last, strictly increasing |
| BulkIngest.IngestFrom | server/azureStorage.ts:171-217 | processed plus errors equals the rows, and the error row numbers lie within the block and strictly increase |
| BulkIngest.RunRows | server/azureStorage.ts:171-219 | the loop computes the same outcome as the fold over the rows from row 2 |
| BulkIngest.ProcessRows | server/azureStorage.ts:171-219 | the loop over the data rows gives the ingest outcome, and each row is counted once |
| BulkIngest.ProcessExcelFile | server/azureStorage.ts:156-223 | a download failure becomes "Failed to process Excel file: …"; otherwise every data row is counted once |
| BulkIngest.ProcessFiles | server/azureStorage.ts:392-406 | one result per file, in order; a file is listed as processed exactly when it downloads |
| BulkIngest.CheckAndProcessNewFiles | server/azureStorage.ts:383-409 | a listing failure is passed on; otherwise there is one result per workbook, and the processed files are exactly the workbooks that download |
| BulkIngest.UpsertThenGet | server/azureStorage.ts:203-211 | the upsert fails exactly when the date or amount cannot be stored; otherwise the store stays consistent, the ticket finds the row, and the row count grows only for a new ticket |
| BulkIngest.UpsertKeepsOtherTickets | server/azureStorage.ts:203-211 | an upsert leaves every other ticket's row alone |
| BulkIngest.IngestConsistent | server/azureStorage.ts:171-217 | loading a sheet keeps the store consistent: keys and ticket numbers stay unique and amounts fit the column |
| BulkIngest.IngestKeepsOtherTickets | server/azureStorage.ts:171-217 | rows for other tickets do not touch a ticket's row |
| BulkIngest.IngestConcat | server/azureStorage.ts:171-217 | loading two blocks of rows is loading the first, then the second from the next row number |
| BulkIngest.FoldConcat | server/azureStorage.ts:171-217 | the row loop over two blocks is the loop over the first, then over the second from the next row number |
| BulkIngest.FoldKeepsTicket | server/azureStorage.ts:171-217 | a loop over rows none of which is the ticket leaves the ticket's row as it was |
| BulkIngest.JoinAssociative | server/azureStorage.ts:392-406 | outcomes combine associatively, so the per-file results can be added up in any grouping |
| BulkIngest.LastOccurrenceWins | server/azureStorage.ts:203-211 | when a ticket appears in several loaded rows, the stored penalty is the last one loaded |
| BulkIngest.LoadedAmountPositive | server/azureStorage.ts:196-201 | an amount that passes the check and fits the column is stored as a positive number of pence |
| BulkIngest.StoredPence | schema.ts:32 | a stored amount of p pence reads back as p pence |
| Schema.ToPence | schema.ts:32 | a finite amount whose rounded pence fit `numeric(10,2)` is stored as those pence; ±Infinity is a numeric-field overflow |
| Schema.ToTimestamp | schema.ts:33 | a timestamp is stored exactly when the date is valid, and then as its milliseconds |
| Like.PercentMatchesAll | server/storage.ts:138 | `%` matches every text |
| Like.EscapedPrefix | server/storage.ts:138 | an escaped pattern followed by `%` matches exactly the texts that start with the filter, ignoring case |
| Like.EscapedContains | server/storage.ts:138-141 | `%escaped%` matches exactly the texts that contain the filter, ignoring case |
| Like.PlainContains | server/storage.ts:138-141 | for a filter without `%`, `_` or `\`, `%filter%` matches exactly the texts that contain it |
| Like.UnderscoreIsWildcard | server/storage.ts:138 | `%A_%` matches "AB" although "AB" does not contain "A_" |
| Like.EscapePlain | server/storage.ts:138-141 | escaping changes nothing for a filter without `%`, `_` or `\` |
| RecordStore.GetCustomer | server/storage.ts:90-93 | finds the row with the key, and finds nothing exactly when no row has it |
| RecordStore.GetCustomerByEmail | server/storage.ts:95-98 | finds a row with the e-mail, and finds nothing exactly when no row has it |
| RecordStore.CreateCustomer | server/storage.ts:100-103 | fails with the unique violation exactly when the e-mail is taken (schema.ts:8); otherwise appends a row with a fresh key, no Stripe ids and the current time |
| RecordStore.UpdateCustomerStripeInfo | server/storage.ts:105-121 | "Customer not found" exactly when the key is absent; otherwise sets the Stripe customer and keeps any subscription id not passed, in place |
| RecordStore.GetPenalty | server/storage.ts:124-127 | finds the row with the key, and finds nothing exactly when no row has it |
| RecordStore.GetPenaltyByTicketNo | server/storage.ts:129-132 | finds the row with the ticket number, and finds nothing exactly when no row has it |
| RecordStore.SearchPenalties | server/storage.ts:134-149 | no filter gives nothing; with a filter, the results are exactly the stored penalties meeting the `ILIKE` conditions |
| RecordStore.SearchPenaltiesEscaped | server/storage.ts:134-149 | the corrected search: no filter gives nothing |
| RecordStore.SearchEscapedFinds | server/storage.ts:134-149 | with a filter, the corrected search finds exactly the stored penalties whose fields contain the filters, ignoring case |
| RecordStore.SearchPlainAgrees | server/storage.ts:134-149 | for filters without `%`, `_` or `\`, the search as written and the corrected one agree |
| RecordStore.SearchUnderscoreOverMatches | server/storage.ts:137-138 | the search as written returns ticket "AB" for the filter "A_", which "AB" does not contain |
| RecordStore.CreatePenalty | server/storage.ts:151-154 | an invalid date or an amount that does not fit fails; a taken ticket number fails (schema.ts:29); otherwise appends a row with a fresh key, status `active` by default and both timestamps now |
| RecordStore.UpdatePenalty | server/storage.ts:156-168 | a patch whose amount or date cannot be stored fails with that error; "Penalty not found" for an absent key; otherwise, with keys distinct as the primary key keeps them, it succeeds exactly when the new ticket number is held by no other penalty, fails with the `penalties_ticket_no_unique` violation when it is, and on success the row is patched in place with `updatedAt` set to now |
| RecordStore.GetPaymentSchedule | server/storage.ts:171-174 | finds the row with the key, and finds nothing exactly when no row has it |
| RecordStore.GetPaymentSchedulesByCustomer | server/storage.ts:176-178 | exactly the customer's schedules |
| RecordStore.CreatePaymentSchedule | server/storage.ts:180-183 | succeeds exactly when both amounts fit and the customer and penalty exist (schema.ts:45-46); applies the defaults 3, 0 and active (schema.ts:49-51) |
| RecordStore.UpdatePaymentSchedule | server/storage.ts:185-197 | "Payment schedule not found" exactly when the key is absent; otherwise patched in place |
| RecordStore.CreatePayment | server/storage.ts:209-212 | succeeds exactly when the amount fits and the schedule and customer exist (schema.ts:62-63); the status is `pending` by default (schema.ts:66) |
| RecordStore.GetPayment | server/storage.ts:200-203 | finds the row with the key, and finds nothing exactly when no row has it |
| RecordStore.GetPaymentsBySchedule | server/storage.ts:205-207 | exactly the schedule's payments |
| RecordStore.UpdatePayment | server/storage.ts:214-226 | "Payment not found" exactly when the key is absent; otherwise the given fields replace the old ones in place |
| RecordStore.SamplePenalties | server/storage.ts:48-82 | three sample penalties with consecutive fresh keys, all active |
| RecordStore.InitializeSampleData | server/storage.ts:39-88 | inserts the samples only into an empty penalties table, and touches no other table |
| RecordStore.InitializeSampleDataIdempotent | server/storage.ts:42-45 | seeding twice is seeding once |
| RecordStore.CreateCustomerThenGet | server/storage.ts:100-103 | a created customer is found by its key and by its e-mail |
| RecordStore.CreatePenaltyThenGet | server/storage.ts:151-154 | a created penalty is found by its key and by its ticket number |
| RecordStore.UpdatePenaltyThenGet | server/storage.ts:156-168 | an updated penalty is found by its key as returned |
| RecordStore.CreateCustomerConsistent | schema.ts:6-15 | creating a customer keeps keys and e-mails unique, references intact and amounts in range |
| RecordStore.UpdateCustomerStripeInfoConsistent | server/storage.ts:105-121 | the update keeps the store consistent |
| RecordStore.CreatePenaltyConsistent | schema.ts:27-40 | creating a penalty keeps keys and ticket numbers unique |
| RecordStore.UpdatePenaltyConsistent | server/storage.ts:156-168 | a successful update keeps ticket numbers unique |
| RecordStore.CreatePaymentScheduleConsistent | schema.ts:43-57 | creating a schedule keeps the store consistent |
| RecordStore.UpdatePaymentScheduleConsistent | server/storage.ts:185-197 | updating a schedule keeps the store consistent |
| RecordStore.CreatePaymentConsistent | schema.ts:60-72 | creating a payment keeps the store consistent |
| RecordStore.UpdatePaymentConsistent | server/storage.ts:214-226 | updating a payment keeps the store consistent |
| RecordStore.InitializeSampleDataConsistent | server/storage.ts:39-88 | seeding keeps the store consistent |
| MemStore.GetCustomerByEmail | dist/index.js:19-23 | finds the first customer in insertion order with the e-mail, and finds nothing exactly when none has it |
| MemStore.CreateCustomer | dist/index.js:24-36 | always succeeds, appending a row with a fresh key, no Stripe ids and the current time |
| MemStore.UpdateCustomerStripeInfo | dist/index.js:37-50 | "Customer not found" exactly when the key is absent; otherwise the Stripe customer is set, and a missing or empty subscription id keeps the old one |
| MemStore.CreateThenGet | dist/index.js:24-36 | a created customer is found under its key |
| MemStore.DuplicateEmailShadowed | dist/index.js:19-36 | a second customer with a taken e-mail is stored, but lookups by e-mail still find the first |
| MemStore.UpdateValid | dist/index.js:37-50 | the update keeps keys unique |
| MemStore.UpdateIdempotent | dist/index.js:37-50 | repeating the same update changes nothing more |
| MemStore.GetCustomer | dist/index.js:16-18 | finds a stored customer with the key, and nothing exactly when none has it; in a valid map, the only customer with that key |
| MemStore.OrElse | dist/index.js:45-46 | `x \|\| old` keeps the new value when it is filled, and the old one when it is missing or empty |
| MemStore.CreateCustomerValid | dist/index.js:24-36 | creating a customer keeps keys unique |
| StorageRoutes.ClassifySearchError | azure-deployment-package/server/routes.ts:63-87 | 503 exactly for the unavailable message; 404 exactly for a missing-blob message or status 404; any other failure is 500 with the message as details |
| StorageRoutes.SearchRoute | azure-deployment-package/server/routes.ts:39-88 | 400 without a query; 503 when storage is down; success exactly when the workbook downloads, and then the rows that match |
| StorageRoutes.WrappedUnavailableIs503 | azure-deployment-package/server/routes.ts:66-71 | the unavailable error still gives 503 after the search wraps it in "Search failed: " |
| StorageRoutes.MissingWorkbookIs404 | azure-deployment-package/server/routes.ts:73-80 | when the workbook is absent the search answers 404 with its not-found details |
| StorageRoutes.ServiceUnavailable | azure-deployment-package/server/routes.ts:48-53 | the unavailable reply is 503 with the service-unavailable error |
| StorageRoutes.ClassifyError | azure-deployment-package/server/routes.ts:126-137 | an upload or processing failure is 503 exactly when its message names the unavailable storage, and otherwise 500 with the message as details |
| StorageRoutes.WrappedPrefixIs503 | azure-deployment-package/server/routes.ts:66-71 | any error beginning with the unavailable text still gives 503 after the search wraps it |
| StorageRoutes.MissingMessageIs404 | azure-deployment-package/server/routes.ts:73-80 | the missing-blob error, wrapped by the search, gives 404 with the not-found details |
| StorageRoutes.NotExistIs404 | azure-deployment-package/server/routes.ts:73-80 | a message containing "does not exist", with no `A` around it that could spell the unavailable text, gives 404 |
| StorageRoutes.AcceptUpload | azure-deployment-package/server/routes.ts:21-34 | a file is accepted exactly when it has one of the two Excel content types and is at most 50 MB; a wrong type is "Only Excel files are allowed" |
| StorageRoutes.UploadRoute | azure-deployment-package/server/routes.ts:91-139 | 400 without a file; 503 when storage is down; otherwise the file is stored under the timestamped name and processed |
| StorageRoutes.StoreAndProcess | azure-deployment-package/server/routes.ts:110-137 | a success reports the stored name and URL; a failure is 503 or 500; the blob is stored whatever processing does |
| StorageRoutes.UploadProcessesItsOwnFile | azure-deployment-package/server/routes.ts:105-124 | an upload processes exactly the rows of the workbook it stored: its counts and row errors are those of loading that sheet |
| StorageRoutes.UnreadableUploadFails | azure-deployment-package/server/routes.ts:117-137 | an unreadable workbook is stored, the store is untouched, and the reply is 500 with "Failed to process Excel file: …" |
| StorageRoutes.ProcessingFailureKept | azure-deployment-package/server/routes.ts:117-137 | a processing failure after the upload leaves the store as it was |
| StorageRoutes.StoredFileProcessed | azure-deployment-package/server/routes.ts:110-124 | a readable workbook stored under a clean name is processed: the reply carries the loop's counts and its row messages, and the store is the loop's |
| StorageRoutes.StoredUnreadableFails | azure-deployment-package/server/routes.ts:117-137 | an unreadable workbook stored under a clean name fails with the classified "Failed to process Excel file" error and leaves the store alone |
| StorageRoutes.ProcessFilesRoute | azure-deployment-package/server/routes.ts:142-171 | 503 when storage is down; otherwise one result per workbook in the container, and the container is untouched |
| StorageRoutes.FilesRoute | azure-deployment-package/server/routes.ts:174-202 | 503 with `files: []` when storage is down; otherwise one name per stored blob, exactly the stored names, sorted by name |
| Checkout.AmountIssues | azure-deployment-package/server/routes.ts:209 | the amount raises an issue exactly when it is not a positive number |
| Checkout.Issues | azure-deployment-package/server/routes.ts:205-221 | no issues exactly when the request is valid; each field's issue appears exactly when that field fails |
| Checkout.CustomerStep | azure-deployment-package/server/routes.ts:225-239 | the customer ends with a Stripe id; an existing customer with a non-empty one is used unchanged; a new customer, or one whose id is missing or empty (`if (customer.stripeCustomerId)` tests truthiness), gets the new Stripe id and keeps its key; no other table changes |
| Checkout.FoundOrCreated | azure-deployment-package/server/routes.ts:225-228 | an existing e-mail gives that customer with the store unchanged; otherwise a new row is appended |
| Checkout.SheetMatch | azure-deployment-package/server/routes.ts:297-306 | a sheet match needs available storage and carries the PCN searched for |
| Checkout.SheetRecord | azure-deployment-package/server/routes.ts:307-317 | the record copies the sheet's ticket, registration, site and amount; with no date issued, the date is now |
| Checkout.MinimalRecord | azure-deployment-package/server/routes.ts:328-340 | the minimal record has the PCN, the registration, the date now, no optional fields and status `active`; its amount is finite exactly when the paid amount is |
| Checkout.MinimalAmountIsFixed2 | azure-deployment-package/server/routes.ts:333 | the minimal record's amount is the paid amount printed with `toFixed(2)` and read back |
| Checkout.FindOrCreatePenalty | azure-deployment-package/server/routes.ts:294-345 | an existing ticket is reused with the store unchanged; otherwise the sheet record is created if that succeeds, and else the minimal record |
| Checkout.FindOrCreateThenGet | azure-deployment-package/server/routes.ts:294-345 | the penalty found or created carries the PCN, and both its key and its ticket number find it |
| Checkout.SheetCandidate | azure-deployment-package/server/routes.ts:297-318 | a record from the sheet needs available storage and carries the PCN searched for |
| Checkout.ThirdOf | azure-deployment-package/server/routes.ts:352 | a third of a finite amount is a two-decimal number of the size of a third of its hundredths, rounded; a non-finite amount stays as it is |
| Checkout.InstalmentsCoverTotal | azure-deployment-package/server/routes.ts:352 | three rounded thirds differ from the total by at most one penny |
| Checkout.ThirdFits | schema.ts:47-48 | a third of an amount that fits the money column fits it too |
| Checkout.RoundedFits | schema.ts:32 | rounding to hundredths before storing changes nothing |
| Checkout.ScheduleRecorded | server/storage.ts:180-183 | a schedule whose amounts fit and whose customer and penalty exist is always created; it is found under the next key and leaves the penalty alone |
| Checkout.ScheduleStarted | azure-deployment-package/server/routes.ts:348-385 | for a stored penalty and an amount that fits, the schedule is created and the reply names it |
| Checkout.StartSchedule | azure-deployment-package/server/routes.ts:348-358 | the schedule is for the customer and the penalty: three payments, none completed, active, with the Stripe schedule id |
| Checkout.CheckoutRoute | azure-deployment-package/server/routes.ts:212-391 | an invalid request is a 400 with its issues and no change; any success is for a valid request |
| Checkout.Enrol | azure-deployment-package/server/routes.ts:294-389 | a failure is a thrown error (400); a success returns the session, the customer and a schedule key the store has issued; customers and payments are unchanged |
| Checkout.CheckoutStartsSchedule | azure-deployment-package/server/routes.ts:212-385 | a valid request with an amount that fits leaves the store consistent, with an active schedule of three payments for the customer and a penalty carrying the PCN |
| Checkout.EnrolStartsSchedule | azure-deployment-package/server/routes.ts:294-385 | when the store is ready, enrolment succeeds, keeps the store consistent and starts the schedule for the PCN |
| Checkout.ExistingPenaltyReused | azure-deployment-package/server/routes.ts:294-295 | a PCN already on file adds no penalty |
| Checkout.InfiniteAmountOverflows | azure-deployment-package/server/routes.ts:328-344 | an infinite amount passes validation but cannot be stored, and the reply is a thrown overflow |
| Checkout.EnrolOverflows | azure-deployment-package/server/routes.ts:328-344 | an infinite amount makes enrolment throw the numeric-overflow error |
| Checkout.CustomerStepConsistent | azure-deployment-package/server/routes.ts:225-239 | the customer step keeps the store consistent, and its key finds the customer |
| Checkout.FoundOrCreatedConsistent | azure-deployment-package/server/routes.ts:225-228 | finding or creating the customer keeps the store consistent, with the requested e-mail, found by its key |
| Checkout.StripeCustomerRecorded | azure-deployment-package/server/routes.ts:230-238 | recording the Stripe customer on a stored customer always succeeds, keeps the store consistent and keeps the key and e-mail |
| Webhook.WebhookRoute | azure-deployment-package/server/routes.ts:394-408 | 400 exactly when no secret is set or the signature fails, with no change; the message says which |
| Webhook.WebhookRouteCorrected | azure-deployment-package/server/routes.ts:394-408 | the route with the corrected dispatch replies exactly as the route does |
| Webhook.LinkCustomer | azure-deployment-package/server/routes.ts:448-458 | no customer key changes nothing; an unknown key fails; only the customers table changes |
| Webhook.FirstPayment | azure-deployment-package/server/routes.ts:469-479 | the first payment is number 1, completed, for the schedule, with the monthly amount or 0 |
| Webhook.RecordFirstPayment | azure-deployment-package/server/routes.ts:461-484 | changes nothing for an unknown schedule, and never touches customers or penalties |
| Webhook.FirstPaymentSetsCount | azure-deployment-package/server/routes.ts:461-484 | after a completed checkout the schedule is active, linked to the subscription, due in 30 days, with one payment completed, and payment 1 is recorded |
| Webhook.ActivatedThenCounted | azure-deployment-package/server/routes.ts:461-484 | activating and then counting the first payment leaves the schedule active, linked, due in 30 days with one payment, and otherwise unchanged |
| Webhook.CountSetToOne | azure-deployment-package/server/routes.ts:469-484 | after the first payment is recorded, counting it always succeeds and adds exactly that payment |
| Webhook.RecordFirstPaymentKeeps | azure-deployment-package/server/routes.ts:461-484 | the first-payment step keeps the store consistent and the counts sane |
| Webhook.CompleteCheckoutKeeps | azure-deployment-package/server/routes.ts:411-495 | a completed checkout keeps the store consistent and the counts sane |
| Webhook.CompleteCheckout | azure-deployment-package/server/routes.ts:411-495 | a session without a subscription, or whose customer or metadata `scheduleId` is missing or empty (`!session.customer`, `if (scheduleId)`), changes nothing; penalties are never touched |
| Webhook.CountPatch | azure-deployment-package/server/routes.ts:524-532 | below three payments the schedule stays active and is due in 30 days; at three it is completed with no next date |
| Webhook.InvoiceSchedule | azure-deployment-package/server/routes.ts:500-509 | an invoice counts only for a stored schedule named by its subscription that has fewer than three payments |
| Webhook.InstalmentPayment | azure-deployment-package/server/routes.ts:511-521 | an instalment payment is completed, numbered as given, for the customer, with the invoice's amount in pence; it has a payment intent exactly when the invoice's is present and non-empty (`payment_intent \|\| null`), and then it is the invoice's |
| Webhook.CountInstalment | azure-deployment-package/server/routes.ts:509-532 | an invoice without a countable schedule changes nothing; counting never touches customers or penalties, and reports the schedule only when it reaches three |
| Webhook.PayInstalment | azure-deployment-package/server/routes.ts:511-532 | recording an instalment never touches customers or penalties, and reports the schedule only at the third payment |
| Webhook.CountedByPayment | azure-deployment-package/server/routes.ts:511-532 | an instalment for a stored schedule adds exactly one payment and patches the schedule's count up by one |
| Webhook.ThirdCounted | azure-deployment-package/server/routes.ts:524-537 | the invoice after two payments reaches the third, which triggers marking the penalty paid |
| Webhook.InstalmentKeeps | azure-deployment-package/server/routes.ts:511-532 | recording the next instalment keeps the store consistent and the counts sane |
| Webhook.AmountPaidExact | azure-deployment-package/server/routes.ts:515 | an invoice's `amount_paid / 100` is stored as exactly that many pence |
| Webhook.InstalmentCounted | azure-deployment-package/server/routes.ts:509-532 | an instalment adds one payment and moves the schedule's count up by one, with the matching status and next date |
| Webhook.RecordInstalment | azure-deployment-package/server/routes.ts:509-547 | the corrected instalment handler: no schedule means no change, and customers are never touched |
| Webhook.RecordInstalmentAsWritten | azure-deployment-package/server/routes.ts:509-547 | the handler as written: no schedule means no change, and customers are never touched |
| Webhook.RecordInstalmentKeeps | azure-deployment-package/server/routes.ts:509-547 | the corrected handler keeps the store consistent and the counts sane |
| Webhook.RecordInstalmentAsWrittenKeeps | azure-deployment-package/server/routes.ts:509-547 | the handler as written also keeps the store consistent and the counts sane |
| Webhook.MarkCustomerPcnPaidKeeps | azure-deployment-package/server/routes.ts:537-547 | marking the customer's PCN paid keeps the store consistent and the counts sane |
| Webhook.MarkPenaltyPaid | azure-deployment-package/server/routes.ts:541-546 | marking a penalty paid touches only the penalties, and nothing for an unknown key |
| Webhook.MarkCustomerPcnPaid | azure-deployment-package/server/routes.ts:537-547 | the marking step as written touches only the penalties |
| Webhook.PenaltyMarkedPaid | azure-deployment-package/server/routes.ts:541-546 | a stored penalty marked paid has status "paid" |
| Webhook.OtherPenaltyUntouched | azure-deployment-package/server/routes.ts:541-546 | marking one penalty paid leaves every other penalty as it was |
| Webhook.AsWrittenMarksTicket | azure-deployment-package/server/routes.ts:537-547 | as written, the penalty marked is the one whose ticket is the customer's stored PCN |
| Webhook.ThirdPaymentMarksPaid | azure-deployment-package/server/routes.ts:537-547 | corrected: the third instalment marks the schedule's own penalty paid |
| Webhook.CorrectedLeavesOthers | azure-deployment-package/server/routes.ts:537-547 | corrected: an instalment leaves every other penalty unchanged |
| Webhook.AsWrittenAgrees | azure-deployment-package/server/routes.ts:537-547 | when the customer's stored PCN is the schedule's penalty, the handler as written and the corrected one agree |
| Webhook.WrongPenaltyMarkedPaid | azure-deployment-package/server/routes.ts:537-547 | as written: when the customer's stored PCN names another penalty, that penalty is marked paid and the schedule's own is left as it was |
| Webhook.PcnMarkerMissesSchedule | azure-deployment-package/server/routes.ts:539-543 | the marking step as written updates the penalty named by the customer's PCN, not the schedule's |
| Webhook.SecondPcnLeftActive | azure-deployment-package/server/routes.ts:537-547 | a returning customer paying a second PCN: as written the first PCN is marked paid and the second stays active; corrected, the reverse |
| Webhook.RouteLeavesSecondPcnActive | azure-deployment-package/server/routes.ts:394-547 | the same through the webhook route: the route marks the first PCN paid, the corrected route the second |
| Webhook.CancelSchedule | azure-deployment-package/server/routes.ts:556-570 | only the schedules table changes, and nothing changes without a schedule key |
| Webhook.CancelledWhateverCount | azure-deployment-package/server/routes.ts:560-564 | cancelling sets the status to cancelled whatever the count, even for a completed schedule |
| Webhook.CancelScheduleKeeps | azure-deployment-package/server/routes.ts:556-570 | cancelling keeps the store consistent and the counts sane |
| Webhook.HandleEvent | azure-deployment-package/server/routes.ts:410-572 | the dispatch as written: other event types change nothing, only a completed checkout touches customers, and a cancellation touches neither penalties nor payments |
| Webhook.HandleEventCorrected | azure-deployment-package/server/routes.ts:410-572 | the dispatch with the corrected invoice handler, with the same frame |
| Webhook.DispatchesAgree | azure-deployment-package/server/routes.ts:410-572 | the two dispatches give the same store unless a paid invoice's customer holds another PCN than the schedule's |
| Webhook.WebhookRouteKeeps | azure-deployment-package/server/routes.ts:394-573 | every webhook, handled as the code handles it, keeps the store consistent and every schedule within three payments, completed only at three |
| Webhook.WebhookRouteCorrectedKeeps | azure-deployment-package/server/routes.ts:394-573 | the corrected route keeps the same invariant |
| Webhook.CountInstalmentKeeps | azure-deployment-package/server/routes.ts:509-532 | counting an instalment keeps the store consistent and the counts sane |
| SearchPage.GetParam | client/src/pages/penalty-search.tsx:60-62 | `params.get` gives the first value with the key, and nothing exactly when no parameter has it |
| SearchPage.SearchParams | client/src/pages/penalty-search.tsx:60-62 | at most two parameters, each non-empty; none exactly when there are no criteria |
| SearchPage.SearchParamsRead | client/src/pages/penalty-search.tsx:60-62 | the server reads back exactly the non-empty fields typed |
| SearchPage.RouteSeesCriteria | client/src/pages/penalty-search.tsx:53-62 | the route sees a query exactly when the page has criteria, so a search the page sends never gets the 400 for a missing query |
| SearchPage.StatusMessage | client/src/pages/penalty-search.tsx:85-103 | 502, 503, 404 and 500 have their own message; any other 4xx is an invalid request; anything else names the status |
| SearchPage.BodyDetails | client/src/pages/penalty-search.tsx:106-113 | the body's details win, then its error, then the status's default |
| SearchPage.HttpFailure | client/src/pages/penalty-search.tsx:123-126 | the thrown error carries the status, its message and the chosen details |
| SearchPage.CatchNetwork | client/src/pages/penalty-search.tsx:144-151 | a TypeError mentioning "fetch" becomes "Network connection failed"; any other error passes through unchanged |
| SearchPage.SearchQuery | client/src/pages/penalty-search.tsx:53-152 | no criteria gives no results and sends nothing; an ok answer gives its rows; another answer gives its status failure; a rejected fetch gives the network failure |
| SearchPage.NoCriteriaNoRequest | client/src/pages/penalty-search.tsx:53-58 | without criteria the answer is the same whatever the transport does |
| SearchPage.SearchFailureDetailsShown | client/src/pages/penalty-search.tsx:106-113 | every failure the search route returns reaches the page with its details, or its error when the details are empty |
| SearchPage.RetryDelay | client/src/pages/penalty-search.tsx:168 | the delay is 1000·2^n ms, capped at 30 s |
| SearchPage.RetryDelayMonotone | client/src/pages/penalty-search.tsx:168 | later retries never wait less |
| SearchPage.RetryDelayCapped | client/src/pages/penalty-search.tsx:168 | from the fifth retry on, the delay is the 30 s cap |
| SearchPage.RetryFollowsStatus | client/src/pages/penalty-search.tsx:155-167 | a status failure is retried exactly when it is not a 4xx and fewer than two failures came before; a 4xx is exactly a not-found or invalid-request message |
| SearchPage.NetworkFailureRetried | client/src/pages/penalty-search.tsx:144-166 | a network failure is retried while fewer than two failures came before |
| SearchPage.RunQuery | client/src/pages/penalty-search.tsx:155-168 | the last attempt's outcome is final: it succeeded or may not be retried, and every earlier attempt failed and could be retried |
| SearchPage.AtMostThreeAttempts | client/src/pages/penalty-search.tsx:155-168 | a search makes one to three attempts and waits at most 3 s in total; a 4xx on the first attempt ends it at once |
| SearchPage.HandleSearch | client/src/pages/penalty-search.tsx:221-229 | the button starts a search exactly when a field is filled |
| SearchPage.ButtonAlwaysSends | client/src/pages/penalty-search.tsx:221-229 | a search the button starts sends at least one parameter, and an ok answer gives its rows |
| SearchPage.ErrorToast | client/src/pages/penalty-search.tsx:178-199 | the toast shows the error's message and details when it has both, and the generic title and text when it has no message |
| SearchPage.HttpFailureToast | client/src/pages/penalty-search.tsx:85-126 | a failed answer's toast shows the status's message and the details chosen from the body |
| SearchPage.TypedVrm | client/src/pages/penalty-search.tsx:376 | the registration field holds the upper-cased text, character by character, and upper-casing it again changes nothing |
| SearchPage.TypedVrmFindsSameRows | client/src/pages/penalty-search.tsx:376 | upper-casing on input finds the same sheet rows as the raw text would |
| PaymentPortal.StripVrm | azure-deploy/client/src/pages/payment-portal.tsx:45 | the result holds only A-Z and 0-9 and is never longer |
| PaymentPortal.StripVrmContents | azure-deploy/client/src/pages/payment-portal.tsx:45 | a character is kept exactly when it is in the input and is A-Z or 0-9 |
| PaymentPortal.StripNormal | azure-deploy/client/src/pages/payment-portal.tsx:45 | stripping leaves a registration of upper-case letters and digits alone |
| PaymentPortal.StripAroundSpace | azure-deploy/client/src/pages/payment-portal.tsx:45 | a single space between two registrations of upper-case letters and digits is the only thing stripping removes |
| PaymentPortal.UpperNormal | azure-deploy/client/src/pages/payment-portal.tsx:44 | upper-casing leaves a registration of upper-case letters and digits alone |
| PaymentPortal.StripVrmConcat | azure-deploy/client/src/pages/payment-portal.tsx:45 | the replace works character by character, so it distributes over concatenation |
| PaymentPortal.NormaliseVrm | azure-deploy/client/src/pages/payment-portal.tsx:44-45 | the typed registration holds exactly the letters and digits of the upper-cased input |
| PaymentPortal.NormaliseFixedPoints | azure-deploy/client/src/pages/payment-portal.tsx:44-45 | normalising leaves a registration unchanged exactly when it is already upper-case letters and digits, and normalising twice is normalising once |
| PaymentPortal.TypedAmount | azure-deploy/client/src/pages/payment-portal.tsx:47 | the typed amount is never NaN, and is the parsed number whenever that is truthy |
| PaymentPortal.HandleInputChange | azure-deploy/client/src/pages/payment-portal.tsx:41-50 | only the edited field changes: registrations are normalised, amounts parsed, and other text kept as typed |
| PaymentPortal.TypingKeepsTyped | azure-deploy/client/src/pages/payment-portal.tsx:41-50 | typing keeps the registration normalised and the amount a number |
| PaymentPortal.EitherParam | azure-deploy/client/src/pages/payment-portal.tsx:22-24 | the short name wins when filled; otherwise the long name is used |
| PaymentPortal.PrefilledAmount | azure-deploy/client/src/pages/payment-portal.tsx:32 | a prefilled amount is always truthy: the parsed number when truthy, otherwise 90 |
| PaymentPortal.Prefill | azure-deploy/client/src/pages/payment-portal.tsx:20-36 | each field takes its filled parameter (the registration upper-cased but not stripped) and otherwise keeps the form's value |
| PaymentPortal.ShortNamesWin | azure-deploy/client/src/pages/payment-portal.tsx:22-24 | `pcn`, `vehicle` and `amount` take precedence over the long names |
| PaymentPortal.OnlyVehicleParam | azure-deploy/client/src/pages/payment-portal.tsx:23-31 | a lone `vehicle` parameter prefills the registration upper-cased |
| PaymentPortal.AbsentParamsKeepForm | azure-deploy/client/src/pages/payment-portal.tsx:27-35 | without any filled parameter the form is unchanged |
| PaymentPortal.PrefilledVehicleNotStripped | azure-deploy/client/src/pages/payment-portal.tsx:31 | a prefilled "ab 12" stays "AB 12", while typing it gives "AB12" |
| PaymentPortal.CanPayIff | azure-deploy/client/src/pages/payment-portal.tsx:55 | the form can be paid exactly when it has a PCN, a registration and a positive amount |
| PaymentPortal.AmountCheckAgreesWithCheckout | azure-deploy/client/src/pages/payment-portal.tsx:55 | with the PCN and registration filled, the page refuses exactly the amounts the checkout's validation rejects |
| PaymentPortal.PopupParams | azure-deploy/client/src/pages/payment-portal.tsx:65-69 | the popup gets `pcn`, `vehicle` and `amount`, in that order, with the amount printed by `toString` |
| PaymentPortal.Submit | azure-deploy/client/src/pages/payment-portal.tsx:52-86 | the validation toast is shown exactly when the form cannot be paid; otherwise the popup opens with the form's parameters, and the "Popup Blocked" toast follows exactly when the browser refused the window |
| PaymentPortal.PopupParamsReadBack | azure-deploy/client/src/pages/payment-portal.tsx:20-71 | a popup prefilled from a submitted, typed form gets back the same PCN and registration, and no e-mail |

## Left out

- Azure Blob Storage is a `Container` value holding blob names and contents, plus an availability flag:
  - the client set-up and credential choice (server/azureStorage.ts:14-58) are not modelled;
  - neither are `ensureContainerExists` and streaming.
- XLSX decoding is not modelled. A stored blob is either its first sheet as rows of cells, or the reason it cannot be read.
- Identifiers (`gen_random_uuid()` and `randomUUID()`) are natural numbers taken from a counter.
- JavaScript numbers are exact decimals, so these are not modelled:
  - binary floating-point rounding, such as `0.1 + 0.2`;
  - the exponent form of `Number.toString` for very large or small numbers;
  - overflow of a long digit string to Infinity.
- JsNumber.ParseToFixed2: states the round trip for exact decimals. Binary rounding of halves, which can differ from decimal rounding, is not modelled.
- JsText.ToUpper, JsText.ToLower, Like.Fold: map the ASCII letters only. JavaScript's `toUpperCase`/`toLowerCase` and PostgreSQL's `ILIKE` also map other letters, such as 'é' to 'É', and `toUpperCase` can lengthen text ('ß' becomes "SS"). So the registration and search functions built on them (SheetSearch.RowVrm, SearchPage.TypedVrm, PaymentPortal.NormaliseVrm) are exact only for ASCII input.
- Schema.ToPence: refuses NaN. PostgreSQL would store NaN in a `numeric(10,2)` column, but money here is whole pence with no NaN value, so the error text for NaN is a stand-in. No modelled caller passes NaN: zod refuses it at checkout, the bulk load's amount check refuses it, and a charge cell never reads as NaN.
- The popup window itself and its URL (`/payment?` followed by the encoded parameters) are not modelled. Whether the browser opened it is the parameter `popupOpened` of PaymentPortal.Submit.
- All `Date` arithmetic is UTC. The server's local time zone and its daylight-saving changes are not modelled.
- `new Date(string)` is the parameter `generic`. Its format rules are implementation-defined and not modelled.
- Stripe is not modelled: customers, products, prices, subscription schedules, sessions and subscription retrieval. Its identifiers arrive as `StripeIds`, and signature checking arrives as an already verified event or an error message.
- zod's e-mail check is the parameter `isEmail`. `z.coerce.number()` is applied by the caller, who passes a `JsNum`.
- apiRequest and queryClient (client/src/lib/queryClient.ts) are not part of this model. A request is a `Transport` value: either an answer with status, rows and optional error body, or a rejection.
- URL percent-encoding of query strings is not modelled. Parameters are key/value pairs.
- React rendering and state hooks are not modelled: the toast variants, disabled buttons while fetching, and the payment form of the search page (client/src/pages/penalty-search.tsx:240-630). Only the decisions those pages make are modelled.
- `getNextPaymentDates` and the date labels are display-only and are not modelled.
- Concurrency and request interleaving are not modelled: each route is one atomic step on the store. So are logging and `console` output.
- BlobStore.UploadNameIsClean and StorageRoutes.UploadProcessesItsOwnFile: assume the clock reads a year from 0 to 9999. `toISOString` writes other years with a sign and six digits, which is not modelled.
- SearchPage.RunQuery and SearchPage.AtMostThreeAttempts: follow react-query's convention that the retry policy is asked with the number of failures so far. The library itself is not modelled.
- PaymentPortal.PopupParamsReadBack: covers the PCN, the registration and the e-mail, not the amount. Proving that reading `Number.toString` back is exact would need the printing algorithm, which is only a canonical decimal here.
- RecordStore.UpdateCustomerStripeInfo: follows drizzle, which drops keys whose value is `undefined`. An absent subscription id therefore keeps the stored one, whereas a naive reading of server/storage.ts:108-112 would clear it.
- `processExcelFile`'s catch of a failed store call (server/azureStorage.ts:214-216) is modelled as the upsert's database error becoming a row error. Its message text is `Row n: ` followed by the error's message.
- The legacy route files are context only and are not modelled: server/routes.ts, client/src/pages/payment-portal.tsx, and the azure-deploy pages other than payment-portal.tsx.
- Helpers without a row (sequence search, key sets, digit strings, calendar day counts) serve the lemmas above and model nothing themselves.

## Findings

| source | as written | input that shows it | evidently intended | confidence | as-written member | corrected member |
|---|---|---|---|---|---|---|
| server/storage.ts:137-141 | the search filter is placed into an `ILIKE` pattern unescaped, so `_` and `%` in it act as wildcards | ticket "AB" stored, searched with ticketNo "A_": it is returned although "AB" does not contain "A_" | a penalty is found exactly when its field contains the filter, ignoring case | medium, not executed | RecordStore.SearchPenalties, RecordStore.SearchUnderscoreOverMatches | RecordStore.SearchPenaltiesEscaped, RecordStore.SearchEscapedFinds |
| azure-deployment-package/server/routes.ts:537-547 | after the third instalment, the penalty marked paid is the one whose ticket number is the customer's stored `pcnNumber`, looked up through the customer rather than the schedule | a customer created at checkout for PCN "A" pays PCN "B" with the same e-mail; the customer row keeps "A"; the third invoice for B's schedule marks A paid and leaves B active | the penalty of the schedule being paid (`currentSchedule.penaltyId`) is marked paid | high, not executed | Webhook.RecordInstalmentAsWritten, Webhook.WrongPenaltyMarkedPaid | Webhook.RecordInstalment, Webhook.ThirdPaymentMarksPaid |

`Webhook.HandleEvent` and `Webhook.WebhookRoute` dispatch to the handler as written. `Webhook.HandleEventCorrected` and `Webhook.WebhookRouteCorrected` dispatch to the corrected one, and `Webhook.RouteLeavesSecondPcnActive` shows the difference through the route. `Webhook.SecondPcnLeftActive` computes both handlers on the concrete two-PCN store. `Webhook.AsWrittenAgrees` shows the two handlers agree whenever the customer's stored PCN is the schedule's own penalty. `RecordStore.SearchPlainAgrees` shows the same for searches whose filters contain none of `%`, `_` or `\`.
