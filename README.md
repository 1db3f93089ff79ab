# Parts catalogue of the cyntek portal, modelled in Dafny

This project models how the cyntek portal handles its parts catalogue:

- **CSV bulk import** (`POST /api/admin/parts/bulk-upload`). A comma-splitting CSV parser checks the header, the column count and `price_type`, and coerces the cells. The endpoint runs three whole-file checks, then commits each row: it inserts the part, inserts an organisation-details row, deletes the part again when the details insert fails, and links the part to an application. The outcomes are tallied as `{success, failed, errors}`.
- **Admin list and create** (`GET`/`POST /api/admin/parts`):
  - the search, price and stock-bucket filters and the page window;
  - the grouping of a part's details rows and application rows into one entry per organisation;
  - part creation, with its required-field check, its details records and its application loop.
- **Customer catalogue reads** (`lib/parts-service.ts`):
  - the parts a user may see, through their organisation's details rows and an optional application filter;
  - the single-part access gate;
  - the user's applications.
- **Admin screens.** The edit and create part forms, with their access-entry list and request body. The parts manager's filter normalisation, query string, price badge and organisation summary. The bulk-upload dialog, with its file check, submit guard, status changes and downloadable template.

The database is a `Tables` value of four tables: `parts` (a map from id to record), `part_organization_details`, `part_applications` and the next free id. Where the code writes to the database step by step, the tables are held in the `Catalog.PartsStore` class. Each store call takes a reply (`Ok` or `Fail(message)`) as a parameter, so every pattern of store failure is covered by the proofs. Each imperative handler (the CSV parser, the import loop, the upload endpoint, part creation, the grouping fold, the upload dialog) is a method proved equal to a specification function. The properties are proved about those functions.

JavaScript values that reach the forms and the create endpoint are modelled by `Js.JsVal`, with JavaScript truthiness, `||` and missing keys (`undefined`). Numbers parsed from text (`parseInt`, `parseFloat`) are opaque cells `IntOf(text)`/`FloatOf(text)`, so no floating point is modelled.

## Model

Paths are relative to the repository root of the original sources.

| member | source | states |
|---|---|---|
| CsvParse.ParseCsv | cyntek-portal/src/app/api/admin/parts/bulk-upload/route.ts:15-78 | `parseCSV` as a loop over the lines is exactly the specification `ParseSpec`; fewer than two lines after trimming is the "header and at least one data row" error |
| CsvParse.ParseSpec | cyntek-portal/src/app/api/admin/parts/bulk-upload/route.ts:15-78 | a successful parse returns one row per data line (lines minus one) |
| CsvParse.Lines | cyntek-portal/src/app/api/admin/parts/bulk-upload/route.ts:16 | the text trimmed and cut at every newline; joined back with newlines it is the trimmed text (`Text.JoinSplit`) |
| CsvParse.HeaderNames | cyntek-portal/src/app/api/admin/parts/bulk-upload/route.ts:21 | the header line cut at commas, each name trimmed and lower-cased (`CsvParse.NormaliseHeaders`) |
| CsvParse.WellFormed | cyntek-portal/src/app/api/admin/parts/bulk-upload/route.ts:32-35 | a data line has one value per header and a valid price type under every `price_type` header; a line parses exactly when it is well formed (`CsvParse.ParseLineDoneIff`) |
| CsvParse.ParseDataLines | cyntek-portal/src/app/api/admin/parts/bulk-upload/route.ts:30-77 | the `for` loop over data lines equals the recursive `ParseRows` over all lines |
| CsvParse.BuildRow | cyntek-portal/src/app/api/admin/parts/bulk-upload/route.ts:37-72 | the `forEach` filling a row object equals `FillRow` over every header |
| CsvParse.NormaliseHeaders | cyntek-portal/src/app/api/admin/parts/bulk-upload/route.ts:21 | one header name per header field |
| CsvParse.TrimAll | cyntek-portal/src/app/api/admin/parts/bulk-upload/route.ts:32 | one value per field |
| CsvParse.TrimAllTrimmed | cyntek-portal/src/app/api/admin/parts/bulk-upload/route.ts:32 | trimming already-trimmed values changes nothing |
| CsvParse.NormaliseHeadersPlain | cyntek-portal/src/app/api/admin/parts/bulk-upload/route.ts:21 | trimmed lower-case header fields are read back unchanged |
| CsvParse.MissingFrom | cyntek-portal/src/app/api/admin/parts/bulk-upload/route.ts:22-25 | the missing names are exactly the required names absent from the header, in the required order |
| CsvParse.MissingHeadersReported | cyntek-portal/src/app/api/admin/parts/bulk-upload/route.ts:21-28 | when a required header is absent the parse fails with `MissingHeaders`, listing exactly the absent names in the order manufacturer_part_number, manufacturer, name, price_type |
| CsvParse.KeyOfAliases | cyntek-portal/src/app/api/admin/parts/bulk-upload/route.ts:52-59 | `rating_hp`/`rating_kw` and the full names both write `power_rating_hp`/`power_rating_kw`; every other header is its own key |
| CsvParse.Coerce | cyntek-portal/src/app/api/admin/parts/bulk-upload/route.ts:42-71 | a cell fails exactly when its column is `price_type` and it is not `fixed` or `non_fixed` |
| CsvParse.CoerceTable | cyntek-portal/src/app/api/admin/parts/bulk-upload/route.ts:42-71 | per column kind: `is_repairable` is true iff the lower-cased value is `true`; blank cells become null; lead time is an integer; prices and ratings are decimals; a valid price type and other text are kept |
| CsvParse.RepairableSpellings | cyntek-portal/src/app/api/admin/parts/bulk-upload/route.ts:60-62 | `TRUE`, `True` and `true` give true; blank and `yes` give false |
| CsvParse.FillRow | cyntek-portal/src/app/api/admin/parts/bulk-upload/route.ts:38-72 | the only row-level error is an invalid price type, reported with the row's line number |
| CsvParse.FillErrorPersists | cyntek-portal/src/app/api/admin/parts/bulk-upload/route.ts:63-66 | a thrown price-type error ends the row: later headers do not change the result |
| CsvParse.FillRowDoneIff | cyntek-portal/src/app/api/admin/parts/bulk-upload/route.ts:38-72 | a row is built iff every price-type cell among the first `k` headers is valid |
| CsvParse.FillRowKeys | cyntek-portal/src/app/api/admin/parts/bulk-upload/route.ts:38-72 | the row's keys are exactly the headers' keys, aliases resolved |
| CsvParse.FillRowValues | cyntek-portal/src/app/api/admin/parts/bulk-upload/route.ts:38-72 | a key holds the coerced value of the last column that writes it |
| CsvParse.FillRowTextCells | cyntek-portal/src/app/api/admin/parts/bulk-upload/route.ts:69-70 | text columns hold null or a non-empty string, never '' |
| CsvParse.Table | cyntek-portal/src/app/api/admin/parts/bulk-upload/route.ts:32 | line `i` becomes that line's trimmed comma-split values |
| CsvParse.ParseLine | cyntek-portal/src/app/api/admin/parts/bulk-upload/route.ts:32-74 | a data line fails only by a column-count mismatch or an invalid price type, each carrying the line number `i + 1` |
| CsvParse.ParseLineDoneIff | cyntek-portal/src/app/api/admin/parts/bulk-upload/route.ts:32-74 | a line parses iff it is well formed: right field count and valid price types |
| CsvParse.ParseRows | cyntek-portal/src/app/api/admin/parts/bulk-upload/route.ts:30-77 | a successful parse of `n` lines returns `n - 1` rows |
| CsvParse.ErrorPersists | cyntek-portal/src/app/api/admin/parts/bulk-upload/route.ts:33-35 | a failed line aborts the parse: later lines do not change the error, and no partial rows are returned |
| CsvParse.ParseRowsDoneIff | cyntek-portal/src/app/api/admin/parts/bulk-upload/route.ts:30-77 | the data lines parse iff every one is well formed |
| CsvParse.ParseRowsFirstError | cyntek-portal/src/app/api/admin/parts/bulk-upload/route.ts:31-35 | the reported error is at the first malformed line: every line before it is well formed |
| CsvParse.ParseWith | cyntek-portal/src/app/api/admin/parts/bulk-upload/route.ts:21-77 | after the header check, a success has one row per data line |
| CsvParse.ParseWithDoneIff | cyntek-portal/src/app/api/admin/parts/bulk-upload/route.ts:21-77 | the parse succeeds iff all required headers are present and every data line is well formed |
| CsvParse.ParseSpecDoneIff | cyntek-portal/src/app/api/admin/parts/bulk-upload/route.ts:15-78 | the same, for the whole file text |
| CsvParse.BadLineAbortsRows | cyntek-portal/src/app/api/admin/parts/bulk-upload/route.ts:31-35 | any malformed data line makes the whole parse fail, at that line or an earlier one |
| CsvParse.BadLineAbortsParse | cyntek-portal/src/app/api/admin/parts/bulk-upload/route.ts:31-35 | the same for the file: the error is a header error or names a line no later than the bad one |
| CsvParse.ParsedRowIsLine | cyntek-portal/src/app/api/admin/parts/bulk-upload/route.ts:74 | parsed row `r` is the row built from data line `r + 1` |
| CsvParse.ParsedRowCells | cyntek-portal/src/app/api/admin/parts/bulk-upload/route.ts:38-74 | each cell of a parsed row is the coerced value of its line's field |
| CsvParse.RowsTextCells | cyntek-portal/src/app/api/admin/parts/bulk-upload/route.ts:69-70 | no parsed row holds '' in a text column |
| CsvParse.ParsedTextCells | cyntek-portal/src/app/api/admin/parts/bulk-upload/route.ts:69-70 | the same, for the file text |
| BulkImport.UploadSpec | cyntek-portal/src/app/api/admin/parts/bulk-upload/route.ts:95-233 | every refusal is a 400 that leaves the tables unchanged |
| BulkImport.Upload | cyntek-portal/src/app/api/admin/parts/bulk-upload/route.ts:95-233 | the endpoint, written against the store object, leaves the store and gives the response that `UploadSpec` gives |
| BulkImport.ImportAll | cyntek-portal/src/app/api/admin/parts/bulk-upload/route.ts:142-228 | the row loop, written against the store object, gives the tables and tally of `ImportRows` |
| BulkImport.ImportRows | cyntek-portal/src/app/api/admin/parts/bulk-upload/route.ts:149-228 | the row loop as a function of the rows before it; its tally counts and error messages are stated by `BulkImport.TallyCounts`, `BulkImport.FailedRowsExact` and `BulkImport.ErrorsInRowOrder` |
| BulkImport.CommitRow | cyntek-portal/src/app/api/admin/parts/bulk-upload/route.ts:150-227 | one row of the loop; `BulkImport.CommitRowOutcome` states its error and `BulkImport.CommitRowValid`/`CommitRowExtends` the tables it leaves |
| BulkImport.RowError | cyntek-portal/src/app/api/admin/parts/bulk-upload/route.ts:155-227 | the error of a row: missing required fields first, then the part insert's message, then the details insert's (`BulkImport.CommitRowOutcome`) |
| BulkImport.HasRequired | cyntek-portal/src/app/api/admin/parts/bulk-upload/route.ts:155-157 | the four required cells are truthy; `BulkImport.RequiredMeansNonNull` states it for parsed rows |
| BulkImport.PartFromRow | cyntek-portal/src/app/api/admin/parts/bulk-upload/route.ts:160-178 | the `parts` record a row inserts; `BulkImport.PlacedPartFromRow` is it with machine and assembly added |
| BulkImport.CommitRowTo | cyntek-portal/src/app/api/admin/parts/bulk-upload/route.ts:150-227 | one iteration against the store (insert part, insert details, delete on details failure, optional link) gives the tables and error of `CommitRow` |
| BulkImport.OrNull | cyntek-portal/src/app/api/admin/parts/bulk-upload/route.ts:193 | `value or null`: a truthy cell is kept and any other becomes null |
| BulkImport.DetailsFromRow | cyntek-portal/src/app/api/admin/parts/bulk-upload/route.ts:188-199 | the details row names the new part and the organisation, uses the client part number (or null) as item number, and copies lead time, price type, unit price, repairability and repair price |
| BulkImport.CommitRowOutcome | cyntek-portal/src/app/api/admin/parts/bulk-upload/route.ts:155-227 | a row's error depends only on its required fields and on the part and details replies |
| BulkImport.TallyCounts | cyntek-portal/src/app/api/admin/parts/bulk-upload/route.ts:142-228 | after `n` rows, success + failed = n and there is one error per failed row |
| BulkImport.FailedRowsExact | cyntek-portal/src/app/api/admin/parts/bulk-upload/route.ts:223-227 | the failed rows are exactly the rows whose commit reports an error, in increasing order |
| BulkImport.ErrorsMatchStep | cyntek-portal/src/app/api/admin/parts/bulk-upload/route.ts:223-227 | each loop step keeps the error list matched to the failed rows |
| BulkImport.ErrorsInRowOrder | cyntek-portal/src/app/api/admin/parts/bulk-upload/route.ts:223-227 | the errors are "Row {i+2}: " plus the message of each failed row, in row order, and failed equals the number of failed rows |
| BulkImport.TallyIgnoresLinksAndUndo | cyntek-portal/src/app/api/admin/parts/bulk-upload/route.ts:201-221 | the tally does not depend on the link insert or on the compensating delete, nor on the starting tables |
| BulkImport.CommitRowValid | cyntek-portal/src/app/api/admin/parts/bulk-upload/route.ts:160-221 | a row commit keeps every details and link row pointing at an existing part |
| BulkImport.ImportValid | cyntek-portal/src/app/api/admin/parts/bulk-upload/route.ts:149-228 | so does the whole import |
| BulkImport.CommitRowExtends | cyntek-portal/src/app/api/admin/parts/bulk-upload/route.ts:160-221 | a commit only adds: existing parts, details and links are kept |
| BulkImport.ImportKeepsOld | cyntek-portal/src/app/api/admin/parts/bulk-upload/route.ts:149-228 | so does the whole import |
| BulkImport.HasDetailsGrows | cyntek-portal/src/app/api/admin/parts/bulk-upload/route.ts:188-199 | appending details rows keeps existing access |
| BulkImport.CommitRowDetailed | cyntek-portal/src/app/api/admin/parts/bulk-upload/route.ts:188-205 | when the compensating delete succeeds, every part a commit leaves has a details row for the organisation |
| BulkImport.NewPartsHaveDetails | cyntek-portal/src/app/api/admin/parts/bulk-upload/route.ts:188-205 | when every compensating delete succeeds, no imported part is left without a details row |
| BulkImport.CommitRowCount | cyntek-portal/src/app/api/admin/parts/bulk-upload/route.ts:160-205 | with a successful compensating delete, a commit adds one part exactly when the row succeeds |
| BulkImport.PartsAddedEqualsSuccess | cyntek-portal/src/app/api/admin/parts/bulk-upload/route.ts:149-228 | then the import adds exactly `success` parts |
| BulkImport.RequiredMeansNonNull | cyntek-portal/src/app/api/admin/parts/bulk-upload/route.ts:155-157 | for parsed rows, the truthiness check of the four required fields is the same as "present and not null" |
| BulkImport.ParsedRowsNonBlank | cyntek-portal/src/app/api/admin/parts/bulk-upload/route.ts:69-70 | parsed rows never hold '' in a text column |
| BulkImport.UploadCountsLines | cyntek-portal/src/app/api/admin/parts/bulk-upload/route.ts:132-233 | a completed upload tallies exactly one outcome per data line |
| BulkImport.ChecksPrecedeParsing | cyntek-portal/src/app/api/admin/parts/bulk-upload/route.ts:103-140 | a missing or unknown organisation, or a foreign application, is refused the same way whatever the file holds, and no row is processed |
| BulkImport.InvalidPriceTypeRejectsFile | cyntek-portal/src/app/api/admin/parts/bulk-upload/route.ts:63-66 | one invalid price type in an otherwise acceptable request rejects the whole file with "CSV parsing error: …" and writes nothing |
| BulkImport.PlacedPartFromRow | cyntek-portal/src/app/api/admin/parts/bulk-upload/route.ts:160-185 | the part record with `machine` and `assembly` taken from the row, otherwise the record the loop inserts |
| BulkImport.CommitRowUnplaced | cyntek-portal/src/app/api/admin/parts/bulk-upload/route.ts:160-185 | a commit never gives a new part a machine or an assembly |
| BulkImport.ImportDropsPlacement | cyntek-portal/src/app/api/admin/parts/bulk-upload/route.ts:149-228 | no part added by an import has a machine or an assembly |
| Catalog.PartsStore.InsertPart | cyntek-portal/src/app/api/admin/parts/bulk-upload/route.ts:160-185 | on success the record is stored under the next id; on failure nothing changes |
| Catalog.PartsStore.InsertDetails | cyntek-portal/src/app/api/admin/parts/bulk-upload/route.ts:188-199 | on success the rows are appended; on failure nothing changes |
| Catalog.PartsStore.InsertLinks | cyntek-portal/src/app/api/admin/parts/bulk-upload/route.ts:207-221 | on success the rows are appended; on failure nothing changes |
| Catalog.PartsStore.DeletePart | cyntek-portal/src/app/api/admin/parts/bulk-upload/route.ts:201-205 | on success the part is removed; on failure nothing changes |
| AdminList.GroupByOrganization | cyntek-portal/src/app/api/admin/parts/route.ts:133-164 | the `reduce`, the `forEach` and `Object.values` together give exactly `GroupSpec` |
| AdminList.GroupSpec | cyntek-portal/src/app/api/admin/parts/route.ts:133-164 | one part's grouping as a function; `AdminList.GroupedByFirstRow`, `GroupIdsDistinct`, `GroupApplications` and `OrphanApplicationsDropped` state what it holds |
| AdminList.IndexFirstRows | cyntek-portal/src/app/api/admin/parts/route.ts:133-149 | the `reduce` succeeds iff every first row of an organisation carries its joined organisation; its keys are the distinct organisation ids in first-appearance order, each entry built from that first row |
| AdminList.AttachApplications | cyntek-portal/src/app/api/admin/parts/route.ts:152-159 | the `forEach` keeps the set of organisations and appends each application row to its organisation's list |
| AdminList.Values | cyntek-portal/src/app/api/admin/parts/route.ts:161-164 | the entries in key order |
| AdminList.OrgIds | cyntek-portal/src/app/api/admin/parts/route.ts:134 | the organisation id of each details row |
| AdminList.GroupedByFirstRow | cyntek-portal/src/app/api/admin/parts/route.ts:133-149 | one entry per distinct organisation, in first-appearance order; each entry is the one built from that organisation's first row (id, name, item number, lead time, price type, unit price, repairable, repair price), its applications aside |
| AdminList.GroupIdsDistinct | cyntek-portal/src/app/api/admin/parts/route.ts:133-149 | no two entries share an id |
| AdminList.AppsOfMembers | cyntek-portal/src/app/api/admin/parts/route.ts:152-159 | an organisation's applications are exactly its joined application rows |
| AdminList.GroupApplications | cyntek-portal/src/app/api/admin/parts/route.ts:152-159 | each entry lists exactly the applications linked for its organisation |
| AdminList.OrphanApplicationsDropped | cyntek-portal/src/app/api/admin/parts/route.ts:152-159 | an application row of an organisation without a details row appears in no entry |
| AdminList.Filter | cyntek-portal/src/app/api/admin/parts/route.ts:65-86 | the filter never adds rows |
| AdminList.FilterMembers | cyntek-portal/src/app/api/admin/parts/route.ts:65-86 | a part is kept iff it matches the search, the price type and the stock bucket |
| AdminList.FilterKeepsOrder | cyntek-portal/src/app/api/admin/parts/route.ts:91 | filtering keeps the newest-first order |
| AdminList.Window | cyntek-portal/src/app/api/admin/parts/route.ts:91 | `range(from, to)` returns at most `to - from + 1` rows |
| AdminList.PageArithmetic | cyntek-portal/src/app/api/admin/parts/route.ts:88-91 | `from = (page-1)*limit` and `to = from+limit-1` span exactly `limit` rows; consecutive pages are adjacent and page 1 starts at 0 |
| AdminList.PagesTile | cyntek-portal/src/app/api/admin/parts/route.ts:88-91 | pages 1..k together are the first k·limit rows |
| AdminList.PageFacts | cyntek-portal/src/app/api/admin/parts/route.ts:88-91 | a page holds at most `limit` rows, all from the list, in order |
| AdminList.ListedPage | cyntek-portal/src/app/api/admin/parts/route.ts:28-175 | a listing is exactly the requested window of the filtered parts: part `i` of the listing is part `i` of `range(from, to)` over the matching parts, with that part's grouping; hence only selected parts, newest first, and `pagination.total` is the number of parts on this page, at most the limit |
| AdminList.ListSpec | cyntek-portal/src/app/api/admin/parts/route.ts:28-175 | the GET handler: store failure, limit zero, a refused window, then the page; its properties are `AdminList.ListedPage`, `AdminList.ListedUnlessGroupingThrows`, `AdminList.ZeroLimitListsNothing` and `AdminList.DefaultPage` |
| AdminList.ListedUnlessGroupingThrows | cyntek-portal/src/app/api/admin/parts/route.ts:88-175 | with the parts read and a valid window, the listing is produced exactly when every shown part's grouping succeeds, and otherwise the answer is 500 'Internal server error' |
| AdminList.ZeroLimitListsNothing | cyntek-portal/src/app/api/admin/parts/route.ts:33-34 | with `limit=0` the window `range(offset, offset - 1)` holds no row, so the listing is empty, with a total of zero and no pages |
| AdminList.DefaultPage | cyntek-portal/src/app/api/admin/parts/route.ts:33-34 | without `page` and `limit` the listing is page 1 of 50: its parts are the first 50 matching parts (all of them when fewer match), in table order |
| AdminList.StockBucketsPartition | cyntek-portal/src/app/api/admin/parts/route.ts:74-86 | every non-negative quantity is in exactly one of out_of_stock (0), low_stock (1..5) and in_stock (>5) |
| AdminList.NullStockInNoBucket | cyntek-portal/src/app/api/admin/parts/route.ts:74-86 | a part without a quantity matches no bucket |
| AdminList.SearchIgnoresCase | cyntek-portal/src/app/api/admin/parts/route.ts:66-68 | the search matches the same parts as its lower-cased term |
| AdminList.NameInfixMatches | cyntek-portal/src/app/api/admin/parts/route.ts:66-68 | a name containing the term matches |
| AdminCreate.Create | cyntek-portal/src/app/api/admin/parts/route.ts:184-302 | the handler against the store gives the tables and response of `CreateSpec` |
| AdminCreate.WriteAccess | cyntek-portal/src/app/api/admin/parts/route.ts:258-297 | the access block against the store equals `AccessSpec` |
| AdminCreate.LinkAll | cyntek-portal/src/app/api/admin/parts/route.ts:280-296 | the `for…of` loop against the store equals `LinkLoop` |
| AdminCreate.CreateSpec | cyntek-portal/src/app/api/admin/parts/route.ts:217-255 | a body failing the required-field check gets 400 with the message and nothing is written; a body passing it never gets 400, only `Created` or 500; a failed part insert writes nothing |
| AdminCreate.PassesValidation | cyntek-portal/src/app/api/admin/parts/route.ts:218 | the required-field check; `AdminCreate.CreateSpec` answers 400 exactly when it fails (both directions are in its contract) |
| AdminCreate.PartFromBody | cyntek-portal/src/app/api/admin/parts/route.ts:227-248 | the `parts` record a body inserts, each field as `CellOf` of the body's field |
| AdminCreate.AccessSpec | cyntek-portal/src/app/api/admin/parts/route.ts:258-297 | the access block: details records, then the link loop; `AdminCreate.WriteAccess` is proved against it |
| AdminCreate.CreateWithAccess | cyntek-portal/src/app/api/admin/parts/route.ts:217-297 | a valid body whose access entries are read without throwing ends in `Created` with the tables the link loop leaves |
| AdminCreate.LinkLoopAppends | cyntek-portal/src/app/api/admin/parts/route.ts:281-291 | an entry that lists applications appends their rows, in order, when its insert succeeds |
| AdminCreate.LinkLoopSkips | cyntek-portal/src/app/api/admin/parts/route.ts:281 | an entry whose `applications` is falsy changes nothing |
| AdminCreate.CellOf | cyntek-portal/src/app/api/admin/parts/route.ts:227-248 | `undefined` and `null` are stored as null |
| AdminCreate.FloatOrNull | cyntek-portal/src/app/api/admin/parts/route.ts:238-246 | `v ? parseFloat(v) : null` |
| AdminCreate.IntOrNull | cyntek-portal/src/app/api/admin/parts/route.ts:243 | `v ? parseInt(v) : null` |
| AdminCreate.DetailsFor | cyntek-portal/src/app/api/admin/parts/route.ts:259-268 | a details record names the new part and the entry's organisation; price type defaults to 'non_fixed', repairability to false and the other terms to null |
| AdminCreate.DetailsRecords | cyntek-portal/src/app/api/admin/parts/route.ts:259-268 | one record per access entry, in order |
| AdminCreate.LinkRecords | cyntek-portal/src/app/api/admin/parts/route.ts:282-286 | one application row per listed application, with the entry's organisation |
| AdminCreate.NonEmptyArray | cyntek-portal/src/app/api/admin/parts/route.ts:258-281 | items only for a non-empty array; a falsy value is skipped |
| AdminCreate.NonEmptyArrayCases | cyntek-portal/src/app/api/admin/parts/route.ts:258-259 | `x && x.length > 0` followed by `.map`: a non-empty array is read, a non-empty string or an object whose `length` is a positive number or `true` throws, anything else is skipped |
| AdminCreate.LinkLoop | cyntek-portal/src/app/api/admin/parts/route.ts:280-296 | the loop only appends application rows; parts and details are unchanged |
| AdminCreate.WithPart | cyntek-portal/src/app/api/admin/parts/route.ts:225-250 | the part is stored under the next id |
| AdminCreate.WithDetails | cyntek-portal/src/app/api/admin/parts/route.ts:270-277 | the records are appended on success, and nothing changes on failure |
| AdminCreate.LinkLoopThrowPersists | cyntek-portal/src/app/api/admin/parts/route.ts:280-296 | once the loop throws, later entries change nothing |
| AdminCreate.LinkLoopThrowIgnoresReplies | cyntek-portal/src/app/api/admin/parts/route.ts:280-296 | whether the loop throws depends on the entries only |
| AdminCreate.CreateResponseIgnoresLaterWrites | cyntek-portal/src/app/api/admin/parts/route.ts:270-296 | details and application insert failures never change the response |
| AdminCreate.CreateInsertsPart | cyntek-portal/src/app/api/admin/parts/route.ts:225-255 | a valid body whose part insert succeeds stores the part under a fresh id and answers with that id |
| AdminCreate.LinkLoopSources | cyntek-portal/src/app/api/admin/parts/route.ts:280-296 | every application row written comes from some entry's `applications` list, with that entry's organisation |
| AdminCreate.LinkLoopSkipsEntriesWithoutApplications | cyntek-portal/src/app/api/admin/parts/route.ts:281 | entries without `applications` write no application row |
| AdminCreate.CreateValid | cyntek-portal/src/app/api/admin/parts/route.ts:225-296 | creation keeps every details and application row pointing at an existing part |
| PartsService.AccessibleParts | cyntek-portal/lib/parts-service.ts:49-152 | never returns more parts than the table holds |
| PartsService.OrgPartIds | cyntek-portal/lib/parts-service.ts:96-99 | an id is listed iff the organisation has a details row for it |
| PartsService.AppPartIds | cyntek-portal/lib/parts-service.ts:113-123 | an id is listed iff a link row joins it to that organisation and application |
| PartsService.CandidateIds | cyntek-portal/lib/parts-service.ts:104 | the organisation's part ids, each once; `PartsService.CandidateIdsExact` states which |
| PartsService.AppScope | cyntek-portal/lib/parts-service.ts:122-123 | the candidates linked to the application, in candidate order (`PartsService.AppScopeExact`, `AppScopeInCandidateOrder`) |
| PartsService.QueryParts | cyntek-portal/lib/parts-service.ts:130-147 | the final parts query: the store's error, or the parts in scope that pass the search and price filters (`PartsService.AccessibleExact`) |
| PartsService.UnknownUser | cyntek-portal/lib/parts-service.ts:62-64 | without a profile, all three calls return nothing with 'User not found' (also lines 163-165 and 188-190) |
| PartsService.CandidateIdsExact | cyntek-portal/lib/parts-service.ts:96-105 | the candidates are exactly the parts the organisation has details for, each once |
| PartsService.AppScopeExact | cyntek-portal/lib/parts-service.ts:112-124 | with an application filter, the scope is the candidates linked to that application of the organisation, each once |
| PartsService.AppScopeInCandidateOrder | cyntek-portal/lib/parts-service.ts:124 | the scope keeps candidate order |
| PartsService.AccessibleExact | cyntek-portal/lib/parts-service.ts:96-147 | a part is listed iff it has a details row for the organisation, is linked to the requested application if one is given, and passes the search and the price type |
| PartsService.NoCandidatesNoQuery | cyntek-portal/lib/parts-service.ts:107-109 | with no candidates the result is empty with no error, whatever the parts table and its read would give |
| PartsService.DescriptionNotSearched | cyntek-portal/lib/parts-service.ts:137-139 | the description never affects whether a part is listed |
| PartsService.AccessibleByName | cyntek-portal/lib/parts-service.ts:145 | the parts come in name order |
| PartsService.PartById | cyntek-portal/lib/parts-service.ts:179-215 | a returned part is in the table and has the requested id; conversely, a known user whose organisation has a details row for the part gets exactly that part when both reads succeed and one row has the id |
| PartsService.PartByIdGate | cyntek-portal/lib/parts-service.ts:193-211 | a part is returned only when the organisation has a details row for it; otherwise 'Part not found or access denied'. Past the gate a part is returned exactly when the read succeeds with one row, which is then the part with the id; a failed read gives the store's error and a count other than one the single-row error |
| PartsService.UserApplications | cyntek-portal/lib/parts-service.ts:154-177 | never more applications than the table holds |
| PartsService.UserApplicationsExact | cyntek-portal/lib/parts-service.ts:167-173 | exactly the applications of the user's organisation |
| PartsService.UserApplicationsByName | cyntek-portal/lib/parts-service.ts:171 | in name order |
| AccessForm.Add | cyntek-portal/components/admin/EditPartModal.tsx:191-196 | appends one entry `{organization_id: '', use_default_pricing: true}` and keeps the others |
| AccessForm.Remove | cyntek-portal/components/admin/EditPartModal.tsx:198-200 | removes one entry for an index in range and nothing otherwise |
| AccessForm.Update | cyntek-portal/components/admin/EditPartModal.tsx:202-206 | the list keeps its length |
| AccessForm.RemoveUndoesAdd | cyntek-portal/components/admin/CreatePartModal.tsx:90-99 | removing the entry just added gives back the list |
| AccessForm.RemoveKeepsOthers | cyntek-portal/components/admin/CreatePartModal.tsx:97-99 | removal drops exactly the entry at the index and keeps the others in order |
| AccessForm.UpdateTouchesOneField | cyntek-portal/components/admin/CreatePartModal.tsx:101-105 | only the field of the entry at the index changes, and a falsy value is stored as `undefined` |
| AccessForm.UntickedDefaultIsUndefined | cyntek-portal/components/admin/EditPartModal.tsx:202-206 | unticking default pricing stores `undefined`, which the payload still reads as "custom price" |
| AccessForm.PayloadEntry | cyntek-portal/components/admin/EditPartModal.tsx:229-234 | keeps the organisation and default flag, maps '__none__' to `undefined`, and sends `custom_price` iff default pricing is off and a price was entered |
| AccessForm.AccessPayload | cyntek-portal/components/admin/CreatePartModal.tsx:126-133 | one object per entry with an organisation |
| AccessForm.PayloadKeepsEntriesWithOrganization | cyntek-portal/components/admin/CreatePartModal.tsx:126-127 | the payload keeps exactly the entries with an organisation, in order |
| AccessForm.NewEntryNotSent | cyntek-portal/components/admin/CreatePartModal.tsx:90-95 | an added but unfilled entry is not sent |
| AccessForm.Submit | cyntek-portal/components/admin/CreatePartModal.tsx:113-134 | rejected with the required-fields message iff part number, name, manufacturer or price type is empty; otherwise the form with `organization_access` is sent |
| EditForm.FormInit | cyntek-portal/components/admin/EditPartModal.tsx:122-140 | text fields are the value or '', number fields `String(value)` or '' (zero included), price type defaults to 'fixed', repairability is Boolean-coerced |
| EditForm.NumberText | cyntek-portal/components/admin/EditPartModal.tsx:134-139 | a falsy value, 0 included, shows as '' |
| EditForm.TextsOf | cyntek-portal/components/admin/EditPartModal.tsx:123-133 | each text field is the value or '' |
| EditForm.NumbersOf | cyntek-portal/components/admin/EditPartModal.tsx:134-139 | each number field is `NumberText` of the value |
| EditForm.EntryFor | cyntek-portal/components/admin/EditPartModal.tsx:147-158 | an entry has the organisation, the application if any, `use_default_pricing = !unit_price` and `custom_price` String(unit_price) or '' |
| EditForm.EntriesFor | cyntek-portal/components/admin/EditPartModal.tsx:145-159 | k entries for k > 0 applications, otherwise one |
| EditForm.Flatten | cyntek-portal/components/admin/EditPartModal.tsx:145-160 | the organisations' entries concatenated; `EditForm.FlattenLength` and `FlattenEntriesFromOrganizations` state its length and origin |
| EditForm.InitialEntries | cyntek-portal/components/admin/EditPartModal.tsx:145-160 | the initial access list, `[]` when the part lists no organisations |
| EditForm.InitialEntriesCount | cyntek-portal/components/admin/EditPartModal.tsx:145-160 | the initial access list has one entry per application of each organisation, one for an organisation without any, and none without organisations |
| EditForm.FlattenLength | cyntek-portal/components/admin/EditPartModal.tsx:145-160 | the flattened list has the sum of max(1, k) entries |
| EditForm.FlattenEntriesFromOrganizations | cyntek-portal/components/admin/EditPartModal.tsx:145-160 | every entry comes from one of the part's organisations and takes its pricing from it |
| EditForm.EntriesPerApplication | cyntek-portal/components/admin/EditPartModal.tsx:146-152 | one entry per application, in order, each scoped to it |
| EditForm.DefaultPricingWhenNoPrice | cyntek-portal/components/admin/EditPartModal.tsx:150-157 | default pricing is on iff the organisation's price is missing or zero, and then the custom price is '' |
| EditForm.InitialFormComplete | cyntek-portal/components/admin/EditPartModal.tsx:122-140 | a form loaded from a part with part number, name and manufacturer passes the submit check |
| CreateForm.InitialFormShape | cyntek-portal/components/admin/CreatePartModal.tsx:35-55 | the initial form has no `stock_quantity`, price type 'fixed', repairability false, and fails the submit check |
| CreateForm.SetField | cyntek-portal/components/admin/CreatePartModal.tsx:83-88 | only the edited field changes |
| CreateForm.SetFieldKeepsNoStock | cyntek-portal/components/admin/CreatePartModal.tsx:83-88 | editing fields never adds a stock quantity |
| CreateForm.NoApplicationKeptUntilSubmit | cyntek-portal/components/admin/CreatePartModal.tsx:130 | the '__none__' choice is stored in the entry and only the payload turns it into `undefined` |
| CreateForm.SubmittedFormRejected | cyntek-portal/src/app/api/admin/parts/route.ts:217-222 | every request the create form sends is answered 400 and writes nothing |
| CreateForm.PayloadLacksEndpointKeys | cyntek-portal/components/admin/CreatePartModal.tsx:128-133 | the sent entries lack `applications`, `unit_price` and `price_type` |
| CreateForm.ChosenApplicationsAndPricesDropped | cyntek-portal/src/app/api/admin/parts/route.ts:258-296 | even with a stock quantity added, no application row is written, and every details row gets 'non_fixed' and no unit price |
| CreateForm.FormWithStockAccepted | cyntek-portal/src/app/api/admin/parts/route.ts:217-255 | a form carrying a stock quantity that passes its own check passes the endpoint's and creates the part |
| CreateForm.StockFieldKept | cyntek-portal/components/admin/CreatePartModal.tsx:83-88 | a stock field survives edits of other fields |
| CreateForm.InitialFormWithStockShape | cyntek-portal/components/admin/CreatePartModal.tsx:35-55 | the corrected initial form differs only by stock '0' |
| CreateForm.EndpointEntry | cyntek-portal/src/app/api/admin/parts/route.ts:259-286 | an entry in the shape the endpoint reads keeps the organisation |
| CreateForm.EndpointEntryKeepsChoices | cyntek-portal/src/app/api/admin/parts/route.ts:259-286 | in that shape a chosen application becomes the entry's one-element `applications`, and the details unit price is `FloatOf` of the custom price exactly when default pricing is off and the price parses to a non-zero number, `null` otherwise |
| CreateForm.EndpointEntryFields | cyntek-portal/components/admin/CreatePartModal.tsx:128-133 | in that shape `applications` lists the chosen application, or is absent, and the organisation is passed through |
| CreateForm.EndpointObjects | cyntek-portal/components/admin/CreatePartModal.tsx:126-133 | one endpoint-shaped object per kept entry, in order |
| CreateForm.EndpointBody | cyntek-portal/components/admin/CreatePartModal.tsx:124-134 | the form's fields unchanged, with `organization_access` the entries with an organisation in the endpoint's shape |
| CreateForm.ChosenApplications | cyntek-portal/components/admin/CreatePartModal.tsx:131 | one application field per kept entry, `undefined` for 'No application' |
| CreateForm.Organizations | cyntek-portal/components/admin/CreatePartModal.tsx:130 | one organisation id per kept entry |
| CreateForm.EndpointObjectsShape | cyntek-portal/src/app/api/admin/parts/route.ts:280-286 | every object of the corrected body carries the fields the link loop reads |
| CreateForm.SingleApplicationLinks | cyntek-portal/src/app/api/admin/parts/route.ts:280-296 | over objects that list at most one application each, the link loop never throws and writes the application row of every object that lists one |
| CreateForm.EndpointCreateOutcome | cyntek-portal/src/app/api/admin/parts/route.ts:217-297 | the corrected request passes the required-field check, creates the part and runs the access block to the end, writing every chosen application's row |
| CreateForm.EndpointRequestKeepsChoices | cyntek-portal/src/app/api/admin/parts/route.ts:259-296 | through the whole create: the answer is `Created`, the chosen application's row (part, application, organisation) is written, and the entry's details row has its organisation and its unit price as the form's custom price when that parses to a non-zero number |
| AdminParts.Choice | cyntek-portal/components/admin/AdminPartsManager.tsx:155-158 | '__all__' becomes '' and every other value is kept |
| AdminParts.Normalize | cyntek-portal/components/admin/AdminPartsManager.tsx:152-160 | the search is trimmed |
| AdminParts.NormalizeIdempotent | cyntek-portal/components/admin/AdminPartsManager.tsx:119-125 | normalising twice is normalising once |
| AdminParts.ChoiceIdempotent | cyntek-portal/components/admin/AdminPartsManager.tsx:121-124 | the same for one select |
| AdminParts.NormalizeClearsAll | cyntek-portal/components/admin/AdminPartsManager.tsx:119-125 | no normalised select holds '__all__' |
| AdminParts.NoFilterIff | cyntek-portal/components/admin/AdminPartsManager.tsx:128 | no filter is set iff the trimmed search is empty and every select is empty or '__all__' |
| AdminParts.DebouncedSameAsSearch | cyntek-portal/components/admin/AdminPartsManager.tsx:128-136 | the debounced search sends the same query string as `handleSearch` |
| AdminParts.Params | cyntek-portal/components/admin/AdminPartsManager.tsx:88-93 | no parameter has an empty value |
| AdminParts.DebouncedFilters | cyntek-portal/components/admin/AdminPartsManager.tsx:128-136 | the debounced load; `AdminParts.DebouncedSameAsSearch` shows it sends the normalised filters |
| AdminParts.DeleteRefreshFilters | cyntek-portal/components/admin/AdminPartsManager.tsx:180-186 | the refresh after a delete, with the selects unnormalised (`AdminParts.DeleteRefreshSendsAll`) |
| AdminParts.RequestQuery | cyntek-portal/src/app/api/admin/parts/route.ts:29-34 | the query the list endpoint reads from the screen's parameters |
| AdminParts.ParamsExact | cyntek-portal/components/admin/AdminPartsManager.tsx:88-93 | each key reads back its filter's value, '' when absent |
| AdminParts.LookupParam | cyntek-portal/components/admin/AdminPartsManager.tsx:88-93 | a key is found past a parameter exactly when that parameter is not it |
| AdminParts.LabelAndColorAgree | cyntek-portal/components/admin/AdminPartsManager.tsx:194-208 | the grey badge goes with exactly the labels shown verbatim |
| AdminParts.PriceTypeLabel | cyntek-portal/components/admin/AdminPartsManager.tsx:202-208 | the badge label; `AdminParts.LabelAndColorAgree` ties it to the colour |
| AdminParts.PriceTypeColor | cyntek-portal/components/admin/AdminPartsManager.tsx:194-200 | the badge colour, grey exactly when the label is the raw type |
| AdminParts.OrgSummary | cyntek-portal/components/admin/AdminPartsManager.tsx:421-424 | the organisations line; `AdminParts.SummaryNamesEach` shows every organisation and application name in it |
| AdminParts.SummaryNamesEach | cyntek-portal/components/admin/AdminPartsManager.tsx:421-424 | the summary names every organisation and every one of its applications |
| AdminParts.PlainOrganizationLabel | cyntek-portal/components/admin/AdminPartsManager.tsx:422 | an organisation without applications shows only its name |
| AdminParts.DeleteRefreshSendsAll | cyntek-portal/components/admin/AdminPartsManager.tsx:180-186 | with "All" price selected the refresh asks for price type '__all__' and lists nothing |
| AdminParts.NormalizedRefreshIsSearch | cyntek-portal/components/admin/AdminPartsManager.tsx:152-160 | normalised, the refresh sends the search's query string, with no price condition |
| UploadForm.UploadModal.constructor | cyntek-portal/components/admin/BulkUploadModal.tsx:30-35 | idle, with no file, selection, error or results |
| UploadForm.UploadModal.Open | cyntek-portal/components/admin/BulkUploadModal.tsx:38-48 | opening resets file, selections, error, status and results |
| UploadForm.UploadModal.ChooseFile | cyntek-portal/components/admin/BulkUploadModal.tsx:63-73 | no file changes nothing; a non-CSV file sets the error and keeps the held file; a CSV file is taken and clears the error |
| UploadForm.AcceptsFile | cyntek-portal/components/admin/BulkUploadModal.tsx:66 | a CSV type or a `.csv` name; `UploadForm.UploadModal.ChooseFile` keeps the old file and reports the error otherwise |
| UploadForm.UploadModal.SelectOrganization | cyntek-portal/components/admin/BulkUploadModal.tsx:186 | sets the organisation and keeps the project |
| UploadForm.UploadModal.SelectProject | cyntek-portal/components/admin/BulkUploadModal.tsx:204 | sets the project |
| UploadForm.UploadModal.Submit | cyntek-portal/components/admin/BulkUploadModal.tsx:75-96 | no request iff the guard fails, with its message and the status unchanged; otherwise the request carries file, organisation and `ApplicationField(project)`, and the dialog is processing |
| UploadForm.UploadModal.Finish | cyntek-portal/components/admin/BulkUploadModal.tsx:103-123 | `onSuccess` fires iff the reply is ok with no failed row; a refusal or a throw sets the error state with its message; success stores the results |
| UploadForm.SubmitCheck | cyntek-portal/components/admin/BulkUploadModal.tsx:77-84 | the file is checked before the organisation, each with its own message |
| UploadForm.ApplicationField | cyntek-portal/components/admin/BulkUploadModal.tsx:94-96 | `application_id` is sent iff the project is non-empty and not '__none__', and then it is the project |
| UploadForm.RefusalMessage | cyntek-portal/components/admin/BulkUploadModal.tsx:106 | never empty; the server's error when it has one |
| UploadForm.ApplicationParam | cyntek-portal/src/app/api/admin/parts/bulk-upload/route.ts:97 | the endpoint sees no application iff none or '' was sent |
| UploadForm.NoApplicationNotSent | cyntek-portal/components/admin/BulkUploadModal.tsx:94-96 | choosing '__none__' sends the same request as choosing nothing |
| UploadForm.StaleApplicationRefused | cyntek-portal/src/app/api/admin/parts/bulk-upload/route.ts:118-130 | a project that is not an application of the selected organisation is refused with 400 and nothing is written |
| UploadForm.RefusalShowsEndpointError | cyntek-portal/components/admin/BulkUploadModal.tsx:105-109 | a refusal shows the endpoint's own error text |
| UploadForm.Endpoint | cyntek-portal/src/app/api/admin/parts/bulk-upload/route.ts:95-233 | the endpoint the dialog posts to, read from the request's fields (`UploadForm.StaleApplicationRefused`, `RefusalShowsEndpointError`) |
| UploadForm.Template | cyntek-portal/components/admin/BulkUploadModal.tsx:127-129 | the template text: three lines joined by newlines (`UploadForm.TemplateLinesRead`, `TemplateAccepted`) |
| UploadForm.TemplateNamesRequired | cyntek-portal/components/admin/BulkUploadModal.tsx:127 | the template header has all four required columns |
| UploadForm.TemplateFieldsRead | cyntek-portal/components/admin/BulkUploadModal.tsx:127-129 | the parser reads the template's header and samples back as written |
| UploadForm.TemplateLinesRead | cyntek-portal/components/admin/BulkUploadModal.tsx:127-129 | the template splits into its three lines |
| UploadForm.SamplesWellFormed | cyntek-portal/components/admin/BulkUploadModal.tsx:127-129 | each sample row has 18 fields and a valid price type |
| UploadForm.ThreeLinesAccepted | cyntek-portal/src/app/api/admin/parts/bulk-upload/route.ts:15-78 | a file of a header with the required names and two well-formed lines parses to two rows |
| UploadForm.TemplateAccepted | cyntek-portal/components/admin/BulkUploadModal.tsx:127-129 | the parser accepts the template and yields two rows |
| UploadForm.TemplateUploadTalliesTwoRows | cyntek-portal/components/admin/BulkUploadModal.tsx:127-129 | uploading the template to a known organisation completes with success + failed = 2 |
| UploadForm.TemplatePlacementParsed | cyntek-portal/components/admin/BulkUploadModal.tsx:128 | the first sample row parses with machine 'Machine A' and assembly 'Assembly 1' |
| UploadForm.TemplatePlacementDropped | cyntek-portal/src/app/api/admin/parts/bulk-upload/route.ts:160-185 | the part inserted for that row has neither a machine nor an assembly |
| UploadForm.TemplatePlacementKept | cyntek-portal/src/app/api/admin/parts/bulk-upload/route.ts:160-185 | with the placement copied, the part keeps 'Machine A' and 'Assembly 1' |
| Collections.Dedupe | cyntek-portal/lib/parts-service.ts:105 | `[...new Set(xs)]` keeps exactly the members |
| Collections.DedupeNoDuplicates | cyntek-portal/lib/parts-service.ts:105 | without repeats |
| Collections.DedupeFirstAppearanceOrder | cyntek-portal/lib/parts-service.ts:105 | in first-appearance order |
| Collections.Keep | cyntek-portal/lib/parts-service.ts:124 | `filter` never adds elements |
| Collections.KeepMembers | cyntek-portal/lib/parts-service.ts:124 | keeps exactly the members that pass |
| Collections.KeepKeepsOrder | cyntek-portal/lib/parts-service.ts:124 | in their order |
| Collections.KeepNoDuplicates | cyntek-portal/lib/parts-service.ts:124 | and adds no repeats |
| Text.Trim | cyntek-portal/src/app/api/admin/parts/bulk-upload/route.ts:16 | the result has no leading or trailing whitespace, JavaScript's full set of white space and line terminators |
| Text.TrimCutsOnlyEnds | cyntek-portal/src/app/api/admin/parts/bulk-upload/route.ts:16 | trimming only removes whitespace at the ends |
| Text.TrimIdempotent | cyntek-portal/components/admin/AdminPartsManager.tsx:154 | trimming twice is trimming once |
| Text.ToLower | cyntek-portal/src/app/api/admin/parts/bulk-upload/route.ts:21 | each character is lower-cased, ASCII letters only (see Left out) |
| Text.ToLowerIdempotent | cyntek-portal/src/app/api/admin/parts/bulk-upload/route.ts:61 | lower-casing twice is lower-casing once |
| Text.Split | cyntek-portal/src/app/api/admin/parts/bulk-upload/route.ts:16 | `split` always yields at least one piece |
| Text.SplitPiecesLackSeparator | cyntek-portal/src/app/api/admin/parts/bulk-upload/route.ts:21 | no piece contains the separator |
| Text.JoinSplit | cyntek-portal/src/app/api/admin/parts/bulk-upload/route.ts:16 | joining the pieces gives back the text |
| Text.SplitJoin | cyntek-portal/components/admin/BulkUploadModal.tsx:127-129 | splitting a join of separator-free pieces gives back the pieces |
| Text.JoinContainsEach | cyntek-portal/components/admin/AdminPartsManager.tsx:421-424 | a joined text contains each piece |
| Text.NatToStringRoundTrip | cyntek-portal/src/app/api/admin/parts/bulk-upload/route.ts:226 | a row number's decimal rendering reads back as the number |
| Js.Get | cyntek-portal/src/app/api/admin/parts/route.ts:195-215 | a missing key reads as `undefined` |
| Js.Or | cyntek-portal/components/admin/EditPartModal.tsx:123-133 | `v or fallback` keeps a truthy value and otherwise gives the fallback |
| Js.OrUndefined | cyntek-portal/components/admin/EditPartModal.tsx:204 | `v or undefined` has the same truthiness as `v` |
| Js.DigitRun | cyntek-portal/src/app/api/admin/parts/route.ts:264 | the longest run of digits at the start of a text |
| Js.MantissaDigits | cyntek-portal/src/app/api/admin/parts/route.ts:264 | the digits `parseFloat` reads before any exponent: the integer and fraction digits after white space and an optional sign |
| Js.Truthy | cyntek-portal/src/app/api/admin/parts/route.ts:264 | JavaScript truthiness; a number from `parseFloat` is truthy exactly when its digits are not all zero (`Js.ParsesNonZero`) |
| Js.PriceParsesNonZero | cyntek-portal/src/app/api/admin/parts/route.ts:264 | '12.5' parses to a truthy number |
| Js.ZeroPriceFalsy | cyntek-portal/src/app/api/admin/parts/route.ts:264 | '0.00' parses to zero, which is falsy |
| Js.TextPriceFalsy | cyntek-portal/src/app/api/admin/parts/route.ts:264 | 'abc' parses to NaN, which is falsy |
| Js.NoNonZeroDigitFalsy | cyntek-portal/src/app/api/admin/parts/route.ts:264 | any text without a digit from 1 to 9 (zeros only, or no digits) parses to zero or NaN, which is falsy |
| Js.LeadingDigitTruthy | cyntek-portal/src/app/api/admin/parts/route.ts:264 | any text starting with a digit from 1 to 9 parses to a non-zero number, which is truthy |

## Left out

- The Supabase client, its `.select`/`.single` plumbing and authentication (`getServerUserProfile`, 401 answers) are not modelled. Each store read is a parameter (a table given in the order the query asks for), and each write takes its reply as a parameter. A failed profile read counts as a missing profile.
- Roles: the routes do not check them, and the model adds no check either.
- `parseInt`/`parseFloat` and NaN: parsed numbers are opaque cells `IntOf(text)`/`FloatOf(text)`. Floating point is not modelled.
- `JSON.stringify` of the request bodies is read as the identity: keys that are `undefined` are absent either way, and a parsed price that is NaN or infinite arrives at the endpoint as `null`, which `Js.Truthy` reads as falsy through `Js.ParsesNonZero`.
- `Js.ParsesNonZero` ignores the exponent, so a price such as '1e400' (infinite) or '1e-400' (zero) is read as non-zero.
- `Text.ToLower`, `Catalog.ILike`, `CsvParse.NormaliseHeaders`: only the ASCII letters A–Z are lower-cased, whereas JavaScript's `toLowerCase` and PostgreSQL's `ILIKE` fold every cased letter of Unicode.
- `AdminList.ListSpec`: a negative offset or row count (a page below one with a positive limit, or a negative limit) is refused by the store, which the handler answers with 500; the store's own error text is not modelled.
- `AdminList.Values` relies on `Object.values` keeping insertion order. It does here because organisation ids are UUIDs, never integer-like keys, which JavaScript would list first in numeric order.
- `JSON.stringify` of the specifications when the edit form loads a part: that field of the form is left out.
- PostgREST `ilike` wildcards and the raw insertion of the search term into `.or(...)`: the search is a case-insensitive substring test, and the term is required to contain none of `%`, `_`, `,`, `)` (`Catalog.PlainTerm`).
- The `Promise.all` fan-out of the admin list is modelled as a sequential map, one grouping per part.
- The handlers for `/api/admin/parts/[id]` (`PUT`, `DELETE`, and the part read the edit form starts from) are not part of this model. The edit form's initial state is modelled from the part object the read returns.
- The 300 ms debounce timer, the loading flags, `confirm`/`alert`, rendering and the fetch of organisations and applications by the dialogs are not modelled.
- The template download (the Blob and link click) is not modelled; the template text is.
- The file-size display and the HTTP encoding of the multipart form are not modelled.
- The outer `catch` of every handler (500 "Internal server error", or `String(err)` in the service) is modelled only where the code itself can throw on its input: in part creation, on an access entry that is `null`, or where an array is expected: on a non-empty string, or on an object whose `length` is a number above zero or `true`. A `length` that is a string or an array, which JavaScript's `>` converts to a number, is read as no length. Exceptions from the network are not modelled.
- `PartsService.AccessibleParts`, `PartsService.UserApplications`: the store error object is passed through as a `StoreError(text)`, without its other fields.
- `BulkImport.CommitRow` stores the part as the code does, without machine and assembly (see Findings); `BulkImport.PlacedPartFromRow` is the corrected record and is not used by the import loop.
- An invalid `price_type` rejects the whole file rather than one row. This is how the code is written, and the model keeps it (`BulkImport.InvalidPriceTypeRejectsFile`).

## Findings

| source | as written | input that shows it | evidently intended | confidence | as-written member | corrected member |
|---|---|---|---|---|---|---|
| cyntek-portal/src/app/api/admin/parts/route.ts:218 | `POST` refuses any body without `stock_quantity`, and the create form has no such field (cyntek-portal/components/admin/CreatePartModal.tsx:35-55) | any complete create form, e.g. part number 'MPN001', name 'Gearbox', manufacturer 'Acme', price type 'fixed' | the form sends a stock quantity and the part is created | not executed | CreateForm.SubmittedFormRejected | CreateForm.FormWithStockAccepted |
| cyntek-portal/src/app/api/admin/parts/route.ts:259-286 | `POST` reads `applications`, `unit_price` and `price_type` from each access entry; the forms send `application_id`, `use_default_pricing` and `custom_price` (cyntek-portal/components/admin/CreatePartModal.tsx:128-133) | an entry for organisation 'o1' with application 'a1' and custom price '12.5' | an application row (part, 'a1', 'o1') and a details row with unit price 12.5 | not executed | CreateForm.ChosenApplicationsAndPricesDropped | CreateForm.EndpointRequestKeepsChoices |
| cyntek-portal/components/admin/AdminPartsManager.tsx:180-186 | the refresh after a delete sends the selects unnormalised, so "All" reaches the endpoint as `priceType=__all__` | price select on "All", any parts table of 'fixed'/'non_fixed' parts | the refresh lists what the search with the same selections lists | not executed | AdminParts.DeleteRefreshSendsAll | AdminParts.NormalizedRefreshIsSearch |
| cyntek-portal/src/app/api/admin/parts/bulk-upload/route.ts:160-185 | the row insert omits `machine` and `assembly`, although the template and the format guide offer them (cyntek-portal/components/admin/BulkUploadModal.tsx:127-129) | the downloaded template: its first row has machine 'Machine A' and assembly 'Assembly 1' | the imported part keeps its machine and assembly | not executed | UploadForm.TemplatePlacementDropped | UploadForm.TemplatePlacementKept |
