# Diamond inventory and address book: a Dafny model

This project models the inventory back end of a diamond marketplace, plus its
customer address book.

Suppliers bring stock in four ways: an API or Google-Sheets feed, an uploaded
CSV file, an FTP download, or manual entry. Every feed goes through the same
pipeline:

- the sheet link is rewritten to its CSV export;
- each row's values are normalised through a synonym table;
- the supplier's column mapping turns each row into a diamond record, reading
  numeric fields with a lenient float parser;
- rows without a stock id or a carat are refused with a row-numbered
  diagnostic;
- the accepted records are upserted into the store.

An API sync also hard-deletes the supplier's available listings that the feed
no longer lists. The controller layer adds the owner resolution (admins may act
for a seller), the header preview, manual entry with a duplicate check, the
paged listing, and the status update.

The address book keeps at most one default address per user.

Modules:

| module | file | models |
|---|---|---|
| `Common` | common.dfy | `Option`/`Result`, JavaScript `trim`, ASCII case mapping, substring search |
| `Rows` | rows.dfy | a parsed row as an ordered object; header clean-up |
| `Numeric` | numeric.dfy | `safeParseFloat` (strip non-numeric characters, then `parseFloat`) |
| `SheetsUrl` | sheets.dfy | `convertGoogleSheetsUrl` |
| `Normalize` | normalize.dfy | `normalizeRowValues` |
| `FieldMapping` | mapping.dfy | mapping inversion, coercion, the CSV and JSON record builders |
| `JsonFeed` | json.dfy | parsed JSON values, array unwrapping, the preview sample |
| `Batch` | batch.dfy | `processCsvStreamWithMapping`, `processJsonData` |
| `Store` | store.dfy | the diamond collection: `bulkWrite`, `deleteMany`, the two operation builders |
| `Sync` | sync.dfy | `syncInventoryFromApi` |
| `InventoryController` | controller.dfy | the inventory controller handlers |
| `AddressBook` | address.dfy | the address controller, with the schema's casts and checks |

The store is a map from (owner, stock id) to a record. This identity is what
the code's upsert filter `{ stockId, user }` selects on.

The model follows the code's branches; what it leaves out is listed under
"Left out". Each HTTP, FTP, JSON-parser or CSV-parser call is replaced by its
result, which the caller passes in as a parameter. For an HTTP request that
result is either axios's error or a 2xx answer: axios's default
`validateStatus` throws on any other status (`Sync.Answer`). The synonym table from `config/valueMapping.json` is also a
parameter, because that file is not part of this model.

Some behaviours of the code, which the model keeps as written:

- A sync hard-deletes stale listings (`deleteMany`). It does not archive them.
- The "existing" snapshot a sync compares against holds only the supplier's
  AVAILABLE stock ids. So a SOLD listing that drops out of the feed is kept.
- For a feed record that is not available, the service writes `SOLD`, whatever
  status the feed gave. Only the controller's builder writes the feed's
  upper-cased status.
- If the body parses as JSON but every JSON row is refused, the service reads
  the same body again as CSV. A JSON text on one line is read as a header line
  with no data lines. The sync then "succeeds" with zero records and deletes
  all of the supplier's available listings (`Sync.RejectedJsonClearsAvailable`).
  A pretty-printed JSON text does give data lines, but they fill no field
  unless a mapped column happens to be named like a line of the JSON text.
- An item of the JSON list that is an array or a string spreads into a row
  keyed `"0"`, `"1"`, ... (`{ ...item }`), so a mapping that names those keys
  reads it (`JsonFeed.ArrayItemFields`).
- Normalising a JSON item calls `value.toString()` on each of its non-null values.
  This throws for a value that is an object with a `toString` member, such as
  `{"toString": 0}`, and for an array holding such an object. The item is then
  reported with the error's message. A one-line feed of one such item fails
  as JSON, reads as CSV with no data lines, and removes all of the
  supplier's available listings (`Sync.ToStringFeedClearsAvailable`).
- Re-running a sync with an unchanged feed of distinct stock ids adds, updates
  and removes nothing, timestamps aside (`Sync.SyncTwiceIsQuiet`). The schema's
  `updatedAt` would make each matched `updateOne` count as modified; timestamps
  are not modelled.

## Model

| member | source | states |
|---|---|---|
| `Common.SkipBlanks` | services/inventoryService.js:8 | the first non-blank at or after a position, with only white space skipped |
| `Common.BackBlanks` | services/inventoryService.js:8 | the end of the last non-blank before a position, with only white space stepped over |
| `Common.TrimmedHasNoBorderSpace` | services/inventoryService.js:40 | a trimmed value has no border white space, and trimming is idempotent |
| `Common.TrimmedIsFixed` | services/inventoryService.js:40 | text without border white space is its own `trim()` |
| `Common.TrimEmptyIffAllSpace` | services/inventoryService.js:8 | `trim()` gives `""` exactly when the text is all white space |
| `Rows.KeyIndex` | services/inventoryService.js:29 | the index is the first position holding the key, or the length when the key is absent |
| `Rows.Lookup` | services/inventoryService.js:173 | `undefined` exactly when no member has the key, otherwise a member's value |
| `Rows.Put` | services/inventoryService.js:45 | an assignment keeps key order (a new key goes last), changes no other member, and makes the key read back the value |
| `Rows.CleanHeaderIsTrim` | services/inventoryService.js:84 | header clean-up is `trim`, is idempotent, and leaves no leading byte-order mark |
| `Rows.CsvRow` | services/inventoryService.js:81-87 | a CSV row object has distinct keys |
| `Rows.DistinctMeaning` | services/inventoryService.js:81-87 | keys that are each new when added are pairwise different, and conversely |
| `Rows.CsvRowKeysAreTrimmed` | services/inventoryService.js:84 | every key of a CSV row is trimmed |
| `Numeric.KeepNumeric` | services/inventoryService.js:10 | stripping keeps only digits, `.` and `-`, and never lengthens the text |
| `Numeric.DigitRun` | services/inventoryService.js:10 | the run is the longest digit prefix |
| `Numeric.NumeralValueBounds` | services/inventoryService.js:10 | the fraction digits of a numeral add less than one to its whole part |
| `Numeric.NonBlankIsParsed` | services/inventoryService.js:7-12 | non-blank text is parsed as `parseFloat` of its stripped form |
| `Numeric.BlankIsOmitted` | services/inventoryService.js:8-9 | null and blank values give `null` |
| `Numeric.KeepNumericAppend` | services/inventoryService.js:10 | stripping distributes over concatenation |
| `Numeric.NumberNeedsADigit` | services/inventoryService.js:7-12 | a number is returned only for text that holds a digit |
| `Numeric.ParseFloatNeedsDigit` | services/inventoryService.js:10 | `parseFloat` yields a number only for text holding a digit |
| `Numeric.KeepNumericKeepsNoNewDigit` | services/inventoryService.js:10 | stripping adds no digit |
| `Numeric.NoKeptGivesEmpty` | services/inventoryService.js:10 | text with no digit, `.` or `-` strips to nothing |
| `Numeric.NoiseIsIgnored` | services/inventoryService.js:10 | inserting characters the regex strips does not change the parsed value |
| `Numeric.NumeralRoundTrip` | services/inventoryService.js:7-12 | a decimal numeral parses back to its value |
| `Numeric.ParseDigits` | services/inventoryService.js:10 | `parseFloat` of a digit string is the number it spells |
| `Numeric.ParseMinusDigits` | services/inventoryService.js:10 | `parseFloat` of `-` and a digit string is the negated number |
| `Numeric.NatTextValue` | services/inventoryService.js:10 | the decimal numeral of a whole number spells that number |
| `Numeric.NegativeNumeralRoundTrip` | services/inventoryService.js:7-12 | a negative numeral parses back to its negative value |
| `Numeric.ParseOnePointTwenty` | services/inventoryService.js:10 | `parseFloat("1.20")` is 1.2 |
| `Numeric.WeightWithUnit` | services/inventoryService.js:7-12 | `"1.20 ct"` reads as 1.2 |
| `Numeric.NotApplicableIsOmitted` | services/inventoryService.js:7-12 | `"N/A"` reads as `null` (the stripped text is empty) |
| `SheetsUrl.FirstMatch` | services/inventoryService.js:18 | the result is the leftmost match of `/spreadsheets/d/` at or after the start, or none exists |
| `SheetsUrl.IdRunFrom` | services/inventoryService.js:18 | the captured id is the longest run of `[a-zA-Z0-9-_]` characters |
| `SheetsUrl.SheetIdMeaning` | services/inventoryService.js:18 | no id exactly when the pattern never matches; otherwise the id captured at the leftmost match |
| `SheetsUrl.SheetIdIs` | services/inventoryService.js:18-19 | the id read is the maximal id run after the leftmost match |
| `SheetsUrl.CaptureOfMatch` | services/inventoryService.js:18 | wherever the pattern matches, the greedy run after `/spreadsheets/d/` is a whole, non-empty capture |
| `SheetsUrl.ConvertGoogleSheetsUrl` | services/inventoryService.js:14-23 | the result is empty exactly when the input is empty |
| `SheetsUrl.PassThrough` | services/inventoryService.js:16-22 | Apps Script links and non-sheet links are returned unchanged |
| `SheetsUrl.SheetLinkIsExported` | services/inventoryService.js:17-20 | a sheet link becomes the CSV export URL of its leftmost captured id |
| `SheetsUrl.SheetLinkWithoutId` | services/inventoryService.js:17-22 | a sheet link without a matching id is returned unchanged |
| `SheetsUrl.ExportUrlIsNotAppsScript` | services/inventoryService.js:16-20 | an export URL is never taken for an Apps Script link |
| `SheetsUrl.NoMarkerAt` | services/inventoryService.js:16 | no position of an export URL holds `script.google.com/macros` |
| `SheetsUrl.ExportUrlMentionsSheets` | services/inventoryService.js:17-20 | an export URL contains `docs.google.com/spreadsheets`, so it is taken for a sheet link |
| `SheetsUrl.ExportUrlFirstMatch` | services/inventoryService.js:18-20 | in an export URL the pattern first matches right after the host |
| `SheetsUrl.ExportUrlSheetId` | services/inventoryService.js:18-20 | the id captured from an export URL is the id it was built from |
| `SheetsUrl.ExportUrlIsFixed` | services/inventoryService.js:14-23 | converting an export URL returns it unchanged |
| `SheetsUrl.ConvertIsIdempotent` | services/inventoryService.js:14-23 | converting twice is converting once |
| `Normalize.NormalizeRow` | services/inventoryService.js:25-50 | every member keeps its key and position, and its value is normalised on its own |
| `Normalize.NormalizeRowValues` | services/inventoryService.js:25-50 | the loop computes `NormalizeRow` |
| `Normalize.FindSynonym` | services/inventoryService.js:41-46 | the lookup finds a replacement exactly when the table has one for the lower-cased header and value |
| `Normalize.NormalizeKeepsKeys` | services/inventoryService.js:26-27 | the keys and their order are unchanged |
| `Normalize.KeyIndexOfSameKeys` | services/inventoryService.js:26-27 | rows with the same keys in the same order find a key at the same position |
| `Normalize.NormalizeLookup` | services/inventoryService.js:25-50 | reading a key of the normalised row is normalising the value read from the original |
| `Normalize.SkippedValuesPassThrough` | services/inventoryService.js:31-38 | null, blank and `*` values are left as given |
| `Normalize.UnknownValuesPassThrough` | services/inventoryService.js:41-46 | values without a table entry are left as given (untrimmed) |
| `Normalize.ChangedValuesComeFromTable` | services/inventoryService.js:40-46 | a value that changes is replaced by the table's entry for its lower-cased header and lower-cased trimmed text |
| `Normalize.NormalizeIgnoresCaseAndBlanks` | services/inventoryService.js:28-43 | the header's case, and the value's case and border spaces, do not affect the replacement |
| `Normalize.NormalizeIdempotent` | services/inventoryService.js:25-50 | when every replacement is trimmed, is neither empty nor `*`, and maps to itself under its own lower-cased text, normalising twice is normalising once |
| `Normalize.LowerIsStar` | services/inventoryService.js:35 | `*` is the only text whose lower-case form is `*` |
| `FieldMapping.FieldKinds` | services/inventoryService.js:64-78 | carat is numeric; stock id, availability, certificate number and user are text |
| `FieldMapping.CoerceIsWellTyped` | services/inventoryService.js:97-103 | a coerced value is a number exactly for the numeric fields |
| `FieldMapping.WellTypedUpdate` | services/inventoryService.js:97-103 | storing a coerced value keeps the record well typed |
| `FieldMapping.InvertMapping` | services/inventoryService.js:56-62 | the loop computes the inverted mapping |
| `FieldMapping.InvertedMeaning` | services/inventoryService.js:58-61 | a column is inverted exactly when it is usable (not empty or `none`) and some field maps to it; it goes to the last such field |
| `FieldMapping.InvertedStep` | services/inventoryService.js:58-61 | one more mapping entry sets its column to its field when the column is usable, and otherwise changes nothing |
| `FieldMapping.InvertedDomain` | services/inventoryService.js:58-61 | a column is inverted exactly when it is usable and some entry names it |
| `FieldMapping.InvertedLast` | services/inventoryService.js:58-61 | an inverted column goes to the field of the last entry that names it |
| `FieldMapping.MapCsvRow` | services/inventoryService.js:92-105 | the loop builds the CSV record |
| `FieldMapping.MapCsvEntry` | services/inventoryService.js:93-104 | one pass of the loop is one `CsvStep` |
| `FieldMapping.CsvStepWellTyped` | services/inventoryService.js:97-103 | one step keeps the record well typed |
| `FieldMapping.CsvRecordShape` | services/inventoryService.js:93-105 | a CSV record is well typed, and each field comes from the inverted mapping |
| `FieldMapping.CsvRecordWellTyped` | services/inventoryService.js:92-105 | a CSV record is well typed |
| `FieldMapping.CsvRecordFields` | services/inventoryService.js:92-105 | each field of a CSV record is non-empty and some column maps to it |
| `FieldMapping.MapJsonItem` | services/inventoryService.js:170-183 | the loop builds the JSON record |
| `FieldMapping.LastYield` | services/inventoryService.js:171-183 | the index is the last mapping entry for the field that yields a value |
| `FieldMapping.JsonRecordWellTyped` | services/inventoryService.js:171-183 | a JSON record is well typed |
| `FieldMapping.JsonRecordMeaning` | services/inventoryService.js:171-183 | a field is present exactly when some entry for it yields a value, and it holds the last such value |
| `FieldMapping.ZeroCaratIsRejected` | services/inventoryService.js:107 | a carat of 0 fails the truthiness test |
| `FieldMapping.CsvDropsSharedField` | services/inventoryService.js:58-94 | with two fields on one column, the CSV reader fills only the last; that mapping has distinct fields, as an object would (`MappingFromObject`) |
| `FieldMapping.JsonKeepsSharedField` | services/inventoryService.js:171-180 | with two fields on one column, the JSON reader fills both |
| `JsonFeed.ItemRow` | services/inventoryService.js:169 | a JSON item read as a row has distinct keys |
| `JsonFeed.IndexRow` | services/inventoryService.js:26 | the cells of an array or string sit under their indices as keys, with distinct keys |
| `JsonFeed.IndexKeysDistinct` | services/inventoryService.js:26 | different indices give different keys |
| `JsonFeed.ArrayItemFields` | services/inventoryService.js:169-173 | reading key `"i"` of an array item gives its i-th element |
| `JsonFeed.ThrowOf` | services/inventoryService.js:31-34 | `value.toString()` throws exactly for a value that cannot be converted: "value.toString is not a function" for an object with a `toString` member, "Cannot convert object to primitive value" for an array holding one |
| `JsonFeed.MembersRowKeys` | services/inventoryService.js:26 | the keys of an object item's row are exactly the keys of its members |
| `JsonFeed.ItemValues` | services/inventoryService.js:26-30 | the row of an item has one value per key |
| `JsonFeed.FirstErrorMeaning` | services/inventoryService.js:27-34 | the loop throws exactly when some value cannot be converted, and then with the error of the first such value |
| `JsonFeed.ObjectErrorMeaning` | services/inventoryService.js:25-34 | normalising an object item throws exactly when one of its members cannot be converted to text |
| `JsonFeed.UnprintableMemberThrows` | services/inventoryService.js:25-34 | a member that cannot be converted makes normalising its object throw |
| `JsonFeed.ThrowingObjectHasUnprintableMember` | services/inventoryService.js:25-34 | a throwing object item has a member that cannot be converted |
| `JsonFeed.ArrayErrorMeaning` | services/inventoryService.js:25-34 | an array item throws exactly when one of its elements cannot be converted; a string item never throws |
| `JsonFeed.Member` | services/inventoryService.js:156-162 | `undefined` exactly when no member has the key, otherwise that member's value |
| `JsonFeed.UnwrapMeaning` | services/inventoryService.js:155-165 | the list is the first of `data`, `diamonds`, `result`, `results` that holds an array, else the value itself when it is an array; the error happens exactly otherwise |
| `JsonFeed.ArrayIsTheList` | services/inventoryService.js:155-165 | a bare array is the list |
| `JsonFeed.PreviewSample` | controllers/inventoryController.js:309-310 | a sample is always truthy |
| `JsonFeed.PreviewIgnoresResult` | controllers/inventoryController.js:309-310 | the preview does not look under `result`, although the import does |
| `Batch.Collect` | services/inventoryService.js:107-118 | there are no more results or diagnostics than rows |
| `Batch.CollectPrefixStep` | services/inventoryService.js:107-118 | each row adds its record when kept and its diagnostic, numbered from 1, when reported |
| `Batch.ResultsAreAcceptedInOrder` | services/inventoryService.js:107-108 | the results are exactly the accepted records, in row order |
| `Batch.AcceptedOfSnoc` | services/inventoryService.js:107-108 | the accepted records of a longer batch are those of the shorter one plus the new record if it is accepted |
| `Batch.DiagnosticsMeaning` | services/inventoryService.js:109-118 | each diagnostic names a 1-based row that threw or was refused with some fields, with that row's message; every such row is reported, in increasing order |
| `Batch.DiagnosticsAreReported` | services/inventoryService.js:109-118 | each diagnostic names a reported row and carries its message |
| `Batch.ReportedAreDiagnosed` | services/inventoryService.js:109-118 | every reported row has its diagnostic |
| `Batch.DiagnosticsInOrder` | services/inventoryService.js:109-118 | diagnostics come in increasing row order |
| `Batch.FirstDiagnosticIsFirstReported` | services/inventoryService.js:120-128 | the first diagnostic is that of the first reported row |
| `Batch.FirstReportedRow` | services/inventoryService.js:120-128 | the first diagnostic's message is that of the first reported row |
| `Batch.SomeDiagnosticIffReported` | services/inventoryService.js:109-118 | some diagnostic exists exactly when some row is reported |
| `Batch.VerdictMeaning` | services/inventoryService.js:120-128 | processing fails exactly when nothing was accepted and something was reported; it then names the first reported row's error; otherwise it yields the accepted records in order |
| `Batch.VerdictFailsIff` | services/inventoryService.js:120-128 | processing fails exactly when no row was kept and some row was reported |
| `Batch.VerdictMessage` | services/inventoryService.js:120-128 | a failure carries the prefix and the message of the first reported row |
| `Batch.AcceptedOfEmpty` | services/inventoryService.js:121 | nothing is accepted exactly when no record passes the check |
| `Batch.CsvRows` | services/inventoryService.js:88-105 | one record per line, each built from that line alone; no CSV line throws |
| `Batch.ProcessCsvStreamWithMapping` | services/inventoryService.js:52-134 | the stream loop computes `CsvOutcome` |
| `Batch.ReadLine` | services/inventoryService.js:91-105 | one line becomes its record |
| `Batch.CsvRecordsAreWellFormed` | services/inventoryService.js:93-108 | each accepted CSV record has a stock id and a carat, is well typed, and holds only mapped fields |
| `Batch.JsonRows` | services/inventoryService.js:167-196 | one outcome per item, each the item's own: its error when normalising throws, else its normalised and mapped record |
| `Batch.ProcessJsonData` | services/inventoryService.js:136-205 | the loop computes `JsonOutcome` |
| `Batch.ReadItems` | services/inventoryService.js:167-196 | the `forEach` loop collects exactly the results and diagnostics of the item outcomes, a caught error reported with its message |
| `Batch.ReadItem` | services/inventoryService.js:168-196 | one item becomes its error, when normalising it throws, or its record |
| `Batch.JsonRecordsAreWellFormed` | services/inventoryService.js:171-186 | each accepted JSON record has a stock id and a carat, and is well typed |
| `Batch.ThrowingItemFailsAlone` | services/inventoryService.js:168-202 | an item whose normalisation throws is reported with the error's message, and a list of it alone fails with that message |
| `Batch.ToStringMemberFailsTheFeed` | services/inventoryService.js:25-202 | an object item with a member that is an object with a `toString` member throws whatever the mapping, so a list of it alone fails, even with a stock id and a carat |
| `Store.ApplyOp` | services/inventoryService.js:254-277 | an `updateOne` touches only its key; the key exists afterwards exactly when it existed or the op upserts; `$set` fields hold and other fields are kept; inserted and changed are reported exactly |
| `Store.ApplyAll` | services/inventoryService.js:277 | inserted plus modified never exceeds the number of ops |
| `Store.ApplyAllFrame` | services/inventoryService.js:277 | `bulkWrite` deletes nothing and leaves untargeted keys alone; new keys come only from upserting ops |
| `Store.EmptyBulkIsNoOp` | controllers/inventoryController.js:139-147 | an empty batch changes nothing and counts nothing |
| `Store.DeleteWhere` | services/inventoryService.js:284-288 | `deleteMany` removes exactly the matching documents, keeps the rest unchanged, and counts what it removed |
| `Store.AvailableIds` | services/inventoryService.js:209-216 | the snapshot is the owner's stock ids whose availability is AVAILABLE |
| `Store.UpsertOf` | services/inventoryService.js:257-264 | the upsert targets (owner, stock id); it sets every record field plus the owner and AVAILABLE |
| `Store.ServiceOp` | services/inventoryService.js:254-275 | the op upserts exactly when the record is available; otherwise it only sets SOLD |
| `Store.ServiceOps` | services/inventoryService.js:254 | one op per record, in order |
| `Store.ControllerOp` | controllers/inventoryController.js:38-61 | the op upserts exactly when the upper-cased status is AVAILABLE or the status is missing; otherwise it sets the upper-cased status |
| `Store.CreateBulkOperations` | controllers/inventoryController.js:36-63 | one op per record, in order (none for no records) |
| `Store.OpsTargetOwner` | services/inventoryService.js:254-275 | neither builder targets another owner's key |
| `Store.ControllerIsMoreLenient` | controllers/inventoryController.js:39-40 | every record the service upserts, the controller upserts too; a record only the controller upserts has a lower-case letter in its status |
| `Store.BuildersDisagreeOnCase` | services/inventoryService.js:255 | the status `available` is SOLD for the service and AVAILABLE for the controller |
| `Store.UpperOfAvailable` | controllers/inventoryController.js:39-40 | a status that upper-cases to AVAILABLE without being AVAILABLE has a lower-case letter |
| `Store.Diamonds.FindAvailableIds` | services/inventoryService.js:209-216 | the query returns the snapshot |
| `Store.Diamonds.FindOne` | controllers/inventoryController.js:99-102 | the lookup returns the document stored under the key, if any |
| `Store.Diamonds.BulkWrite` | services/inventoryService.js:277 | the collection becomes `ApplyAll` of the ops |
| `Store.Diamonds.DeleteMany` | services/inventoryService.js:284-288 | the collection becomes what `DeleteWhere` keeps |
| `Sync.SyncInventoryFromApi` | services/inventoryService.js:207-305 | the reply and the new collection are `SyncSpec` of the old collection and the response for the converted URL |
| `Sync.ReadFeed` | services/inventoryService.js:240-250 | the feed is read as JSON, falling back to CSV |
| `Sync.ReconcileStore` | services/inventoryService.js:252-289 | the upserts and the stale delete compute `Reconcile` |
| `Sync.ReconcileFrame` | services/inventoryService.js:252-289 | reconciliation leaves other owners' documents as they were |
| `Sync.ReconcileDeletesStale` | services/inventoryService.js:279-289 | after reconciliation the store is the bulk-written store less the owner's stale ids |
| `Sync.FailureLeavesStoreUnchanged` | services/inventoryService.js:299-304 | a failed sync changes nothing and carries a non-empty message |
| `Sync.BadStatusIsReported` | services/inventoryService.js:224-225 | a 2xx status other than 200 fails with `API returned status <n>` |
| `Sync.Answer` | services/inventoryService.js:219-222 | the request resolves exactly for a 2xx status, and throws otherwise |
| `Sync.ErrorStatusIsThrown` | services/inventoryService.js:219-225 | a status outside 2xx fails the sync with axios's `Request failed with status code <n>` and changes nothing |
| `Sync.EmptyBodyRemovesAvailable` | services/inventoryService.js:226-238 | an empty body deletes exactly the owner's available listings and reports how many |
| `Sync.OtherOwnersUntouched` | services/inventoryService.js:207-305 | no other owner's listing is added, changed or removed |
| `Sync.SyncReconciles` | services/inventoryService.js:291-298 | a readable feed reports its record count and the `Reconcile` counts, and leaves the `Reconcile` state |
| `Sync.StaleIdsAreRemoved` | services/inventoryService.js:279-289 | an available stock id missing from the feed is deleted |
| `Sync.OnlyAvailableRecordsAreInserted` | services/inventoryService.js:255-273 | a new listing belongs to the owner and comes from an available feed record |
| `Sync.AvailableAfterSyncAreInFeed` | services/inventoryService.js:252-289 | after a sync, every available listing of the owner is in the feed |
| `Sync.FeedStatusIsStored` | services/inventoryService.js:254-289 | with distinct stock ids: an available record is stored as AVAILABLE; a non-available one is never inserted, and where it exists it is SOLD |
| `Sync.BulkStoresStatus` | services/inventoryService.js:254-277 | with distinct stock ids, the bulk write leaves an available record AVAILABLE, and a non-available one SOLD where it exists, never inserted |
| `Sync.OnlyTargetOf` | services/inventoryService.js:277 | an op whose key no other op targets decides that key |
| `Sync.FeedIsMirrored` | services/inventoryService.js:252-289 | with distinct stock ids, the owner's available listings after a sync are exactly the available feed records |
| `Sync.SettledIsQuiet` | services/inventoryService.js:277 | a bulk write whose operations are already reflected changes and counts nothing |
| `Sync.ReconcileSettles` | services/inventoryService.js:252-289 | with distinct stock ids, the reconciled store already reflects every operation of the same feed |
| `Sync.ReconcileTwiceIsQuiet` | services/inventoryService.js:252-289 | reconciling again with the same feed of distinct stock ids adds, updates and removes nothing |
| `Sync.SyncTwiceIsQuiet` | services/inventoryService.js:207-298 | a second sync on the same response reports zero adds, updates and removals, and leaves the store as it is |
| `Sync.JsonFailureFallsBackToCsv` | services/inventoryService.js:241-250 | a JSON body that throws in processing is re-read as CSV |
| `Sync.RejectedJsonClearsAvailable` | services/inventoryService.js:241-289 | a JSON feed whose every row is refused succeeds with zero records and leaves the owner no available listing |
| `Sync.ToStringFeedClearsAvailable` | services/inventoryService.js:241-289 | a one-line feed whose only item has a `toString` object member succeeds with zero records and leaves the owner no available listing |
| `InventoryController.GetUserIdMeaning` | controllers/inventoryController.js:16-20 | an admin with a seller id acts for the seller; another user acts for themself; no user gives none |
| `InventoryController.GetHeadersMeaning` | controllers/inventoryController.js:21-35 | an empty buffer is refused; otherwise the headers are the parser's, trimmed and without a byte-order mark |
| `InventoryController.PreviewMeaning` | controllers/inventoryController.js:297-327 | 200 exactly with a non-empty header list, which is the keys of the JSON sample or else the CSV headers |
| `InventoryController.PreviewErrorStatus` | controllers/inventoryController.js:305-325 | a status outside 2xx gives a 500 carrying axios's message |
| `InventoryController.PreviewReadsResultWrapperAsCsv` | controllers/inventoryController.js:307-315 | a `result`-wrapped feed is previewed through the CSV reader |
| `InventoryController.AddManualMeaning` | controllers/inventoryController.js:87-112 | success is a 201 that inserts the body under the resolved owner; a failure is a 400 that changes nothing; a missing stock id or carat gives the required-fields message |
| `InventoryController.AddManualTwiceIsDuplicate` | controllers/inventoryController.js:99-109 | adding the same diamond again is refused as a duplicate and changes nothing |
| `InventoryController.AddManualDiamond` | controllers/inventoryController.js:87-112 | the handler computes `AddManualSpec` |
| `InventoryController.CsvRecordsHaveTextStatus` | controllers/inventoryController.js:134-138 | CSV records have text statuses, as the controller's builder needs |
| `InventoryController.ImportMeaning` | controllers/inventoryController.js:134-164 | an import deletes nothing and touches no other owner; no records gives the "no valid data" reply with nothing changed; a failed parse changes nothing |
| `InventoryController.ImportsNeverDelete` | controllers/inventoryController.js:114-277 | an upload or FTP import never removes a listing |
| `InventoryController.ImportKeepsDocuments` | controllers/inventoryController.js:134-164 | an import keeps every document the store had |
| `InventoryController.ImportRecords` | controllers/inventoryController.js:134-164 | the handler body computes `ImportSpec` |
| `InventoryController.UploadFromCsv` | controllers/inventoryController.js:114-174 | the handler computes `UploadFromCsvSpec` |
| `InventoryController.SyncFromFtp` | controllers/inventoryController.js:216-277 | the handler computes `SyncFromFtpSpec` |
| `InventoryController.PageOf` | controllers/inventoryController.js:349 | the page is never 0, and a given non-zero page is used as is |
| `InventoryController.Pages` | controllers/inventoryController.js:370 | the page count is the ceiling of count / 10 |
| `InventoryController.PagesTileTheResults` | controllers/inventoryController.js:348-370 | each result lies on exactly one page, and that page is within the page count |
| `InventoryController.GetDiamondsMeaning` | controllers/inventoryController.js:347-371 | a non-admin sees only their own listings, an admin with a seller id only that seller's; the count is the visible total; page 1 is the default |
| `InventoryController.UpdateStatusMeaning` | controllers/inventoryController.js:401-420 | a failure is 400, 403 or 404 and changes nothing; success sets only the availability of the owner's listing |
| `InventoryController.UpdateDiamondStatus` | controllers/inventoryController.js:401-420 | the handler computes `UpdateStatusSpec` |
| `AddressBook.TrueFlagIsTruthy` | controllers/addressController.js:22-35 | a flag the schema casts to true is truthy, so it clears the old defaults |
| `AddressBook.ClearDefaults` | controllers/addressController.js:23 | `updateMany` clears exactly the user's flags and keeps every address |
| `AddressBook.ClearDefaultsMeaning` | controllers/addressController.js:23 | clearing keeps at most one default per user |
| `AddressBook.ClearLeavesNoDefault` | controllers/addressController.js:114 | clearing leaves the user no default |
| `AddressBook.AddMeaning` | controllers/addressController.js:6-43 | a missing required field is a 400 with nothing changed; the save happens exactly when the type is valid and the flag casts; the new address holds every given field, the given type or Home, and the cast flag (false when none is given); a truthy flag clears the user's defaults even when the save is then rejected; nothing else changes |
| `AddressBook.FalseTextClearsDefault` | controllers/addressController.js:22-38 | `isDefault: "false"` is truthy but casts to false: the old default is cleared and the user is left with none |
| `AddressBook.AddKeepsOneDefault` | controllers/addressController.js:22-38 | adding keeps at most one default per user; a new default is the user's only one |
| `AddressBook.UpdateMeaning` | controllers/addressController.js:53-83 | a missing address is a 404 and a foreign one a 401, with nothing changed; otherwise the save happens exactly when the merged type is valid and the merged flag casts, and no id is added or removed; a save stores the merge of each field (given value, else the old one), a rejected save leaves the address as it was; the user's other addresses lose their flag exactly when the flag casts to true on an address that was not the default, also when the save is then rejected; other users are untouched |
| `AddressBook.UpdateAsWrittenMeaning` | controllers/addressController.js:53-83 | the same for the code as written, except that the user's other addresses lose their flag exactly when the body's flag is the boolean `true` on an address that was not the default |
| `AddressBook.UpdateKeepsOneDefault` | controllers/addressController.js:66-80 | the corrected update keeps at most one default per user |
| `AddressBook.UpdateAsWrittenAllowsTwoDefaults` | controllers/addressController.js:66 | as written, `isDefault: "true"` leaves two defaults; the corrected update leaves one |
| `AddressBook.DeleteMeaning` | controllers/addressController.js:85-101 | delete succeeds exactly for the user's own address, removes only it, and keeps at most one default |
| `AddressBook.SetDefaultAsWrittenClearsCurrent` | controllers/addressController.js:114-117 | as written, re-setting the current default leaves the user no default |
| `AddressBook.SetDefaultMeaning` | controllers/addressController.js:103-123 | the corrected set makes the address its user's one and only default; a missing or foreign address is a 404 with nothing changed |
| `AddressBook.AddressTable.AddAddress` | controllers/addressController.js:6-43 | the handler computes `AddSpec` and keeps the table valid |
| `AddressBook.AddressTable.UpdateAddress` | controllers/addressController.js:53-83 | the handler computes the corrected `UpdateSpec` and keeps the table valid |
| `AddressBook.AddressTable.DeleteAddress` | controllers/addressController.js:85-101 | the handler computes `DeleteSpec` and keeps the table valid |
| `AddressBook.AddressTable.SetDefaultAddress` | controllers/addressController.js:103-123 | the handler computes the corrected `SetDefaultSpec` and keeps the table valid |

## Left out

- HTTP, FTP and socket I/O, `console` logging, and the `req`/`res` plumbing. Every response, download and parse result is a parameter.
- The CSV tokenizer. The model takes the parser's header list and cell lists as given. It therefore does not capture how a row with extra cells gets `_<i>` keys, how a short row fills missing cells, or how `getHeaders` never settles on a body with no header line.
- `JSON.parse` itself. A parsed value, or its failure, is an input.
- IEEE double rounding in `parseFloat`. Numbers are exact reals.
- Case mapping outside ASCII in `toLowerCase`/`toUpperCase`.
- Keys such as `__proto__` that behave specially on plain objects, and synonym-table values that are not strings.
- The `try`/`catch` of the CSV reader (inventoryService.js:116-118). CSV cells are text, so nothing in that block throws; the JSON reader's catch (inventoryService.js:194-196) is modelled.
- `JSON.parse(mapping)` failing in the CSV upload. The mapping is taken as already parsed.
- The order of an unordered `bulkWrite`. Ops are applied in sequence, which gives the same result when stock ids are distinct.
- `createdAt`/`updatedAt` timestamps, the `populate` of the user name, the regex search and the `createdAt` sort of the listing.
- Negative or fractional page numbers.
- Concurrent requests, the scheduler, and the other controller handlers (`syncFromApi`, the by-id getters, `updateDiamond`, `deleteDiamond`).
- Mongoose's casting and strict mode on the diamond schema.
- An address `isDefault` of `null` or a number. Only missing, boolean and text flags are modelled.
- `Store.Key`: a diamond's `_id` is modelled by its (owner, stock id) key.
- `InventoryController.AddManualSpec`, `InventoryController.AddManualDiamond`: require a text stock id. A numeric stock id in the request body is not modelled.
- `Store.ControllerAvailable`, `Store.ControllerOp`, `Store.CreateBulkOperations`: require a text status (`TextStatus`). The records they receive come from the CSV reader, which only produces text statuses (`CsvRecordsHaveTextStatus`).
- `JsonFeed.SampleKeys`, `InventoryController.PreviewMeaning`: an object's keys are listed in the order first written. JavaScript's `Object.keys` lists integer-like keys (`"0"`, `"2"`, ...) first, in ascending order, so the preview's header list can differ in order (not in content) for such keys. The record builders look fields up by key and are unaffected.
- `JsonFeed.ItemError`, `Batch.ItemOutcome`: the values of an object item are tried in the order its keys were first written, not in `for...in` order (integer-like keys first), so an item holding both an object and an array that cannot be converted may report the other of the two messages. The message texts are V8's.
- `FieldMapping.Mapping`: a sequence may name a schema field twice, which an object cannot. `FieldMapping.MappingFromObject` names the mappings the code can receive; the lemmas hold for all sequences.
- `AddressBook.AddMeaning`: requires that the new id is unused. Fresh ids stand in for MongoDB's generated `_id`.

## Findings

| source | as written | input that shows it | evidently intended | confidence | as-written member | corrected member |
|---|---|---|---|---|---|---|
| controllers/addressController.js:114-117 | `updateMany` clears the flag in the database, then `save()` on the loaded address writes nothing because `isDefault` was already `true` in memory | `setDefaultAddress` on the user's current default address | the address stays the user's one default | medium, not executed | `AddressBook.SetDefaultAsWrittenClearsCurrent` | `AddressBook.SetDefaultMeaning` |
| controllers/addressController.js:66 | other defaults are cleared only when `isDefault === true` (boolean), but the schema also saves the text `"true"` (and `"1"`, `"yes"`) as `true` | `updateAddress` on a non-default address with `isDefault: "true"` while another address is the default | the other defaults are cleared whenever the address becomes the default | medium, not executed | `AddressBook.UpdateAsWrittenAllowsTwoDefaults` | `AddressBook.UpdateKeepsOneDefault` |
