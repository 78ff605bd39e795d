# my-finances-tracker core, modelled in Dafny

my-finances-tracker imports bank statements. The user uploads an ING CSV
export. The server stores the file and records a pending import. A
background job later parses the file and inserts one transaction per row.
A second job tags untagged transactions through an external agent.

Each transaction carries a SHA-256 checksum over its normalised fields. The
database enforces a unique key on that checksum, which makes importing the
same row twice a duplicate. The repository holds two generations of the same
code:
- the older tree: `internal/transaction`, `internal/parser`, `internal/jobs`,
  `internal/importer`, `internal/vendor`, `internal/storage`;
- the newer tree: `internal/domain`, `internal/app`, `internal/infra`.

The model covers one shared core and states where the two trees agree.

Modules, in dependency order:

- `Wrappers`: `Option` and `Result`.
- `Text`: `strings.TrimSpace`, `strings.Join`, `strings.ReplaceAll` on one character, and ASCII `EqualFold`.
- `Format`: decimal and hexadecimal text.
- `Uuids`: UUIDs and their 36-character text.
- `Dates`: calendar dates and the `20060102` layout.
- `Transactions`: the transaction record, `NewTransaction` and the checksum.
- `Vendors`: the vendor record and `NewVendor`.
- `Imports`: the import record and its status transitions.
- `Mapper`: the storage mappers of `internal/infra/storage/mapper.go`.
- `TxStore`: the transactions table, covering its unique checksum, the untagged query and `Tag`.
- `IngParsing`: the ING header and row parser, its row iterator and the parser factory.
- `CsvImport`: the synchronous CSV import, with its `ImportSummary`.
- `ImportJob`: one cycle of the background import job.
- `Tagger`: one tick of the tagging job.
- `Uploads`: the two upload handlers.

Values the program draws from its surroundings become parameters:
- SHA-256 is a `Hasher`, a function from the payload text to 32 bytes.
- Fresh UUIDs are `Uuid` values, or a function from the row number to a `Uuid`.
- The clock is a `Date`.
- `fmt.Sscanf("%f")` is a `FloatParser`, a function from text to an optional float.
- A CSV reader is the sequence of its `Read` outcomes; the end of the sequence is `io.EOF`.
- Stores are immutable values.
- A database failure other than the duplicate key is an optional error text per insert: per row number in the import job, per record index in the CSV import.
- The float64 product `amount * 100` is a `Scaler`, a function from the amount to the product as float64 arithmetic rounds it.

## Model

| member | source | states |
|---|---|---|
| Text.TrimSpacePadding | internal/transaction/transaction.go:84-86 | Trimming removes any amount of surrounding white space, so padded and unpadded text trim to the same string |
| Text.TrimSpaceIdempotent | internal/domain/transaction.go:74-76 | Trimming twice gives what trimming once gives |
| Text.JoinInjective | internal/transaction/transaction.go:93-94 | Joining with a separator that occurs in no part is injective: equal joins come from equal part lists |
| Format.FormatIntRoundTrip | internal/transaction/transaction.go:88-89 | Reading back the decimal text of any integer, negative ones included, gives the integer |
| Format.FormatIntInjective | internal/transaction/transaction.go:88-89 | Two integers with the same decimal text are equal |
| Format.HexRoundTrip | internal/transaction/transaction.go:96-97 | Decoding the lower-case hex text of a digest gives the digest back |
| Format.HexEncodeInjective | internal/transaction/transaction.go:96-97 | Distinct digests have distinct hex text |
| Uuids.UuidStringInjective | internal/transaction/transaction.go:90 | Two UUIDs with the same canonical text are the same UUID |
| Dates.ParseYYYYMMDD | internal/parser/ing.go:113-116 | A parsed date came from exactly eight digits, is a valid calendar day, and has its time of day at midnight |
| Dates.ParseFormatRoundTrip | internal/parser/ing.go:113-116 | Formatting a valid date with the layout `20060102` and parsing the text back gives that day at midnight |
| Dates.FormatParseRoundTrip | internal/transaction/transaction.go:91 | Any text the parser accepts is reproduced exactly by formatting the parsed date |
| Dates.FormatYYYYMMDDInjective | internal/transaction/transaction.go:91 | Two dates format to the same text exactly when they fall on the same day, so the checksum ignores the time of day |
| Transactions.Truncate | internal/domain/transaction.go:57 | The `int64` conversion truncates toward zero: a non-negative value gives the largest whole number not above it, a negative one the smallest not below it |
| Transactions.Cents | internal/transaction/transaction.go:67 | The cent amount is the float64 product `amount * 100` truncated toward zero, so it lies within one cent below a non-negative product |
| Transactions.Float029Rounding | internal/transaction/transaction.go:67 | The float64 nearest to 0.29 is 5224175567749775·2^-54, and the float64 nearest to 100 times it is 29 − 2^-48, which is below 29 |
| Transactions.PointTwentyNineLosesACent | internal/domain/transaction.go:57 | With the float64 product, the amount 0.29 is stored as 28 cents, while rounding to the nearest cent gives 29 |
| Transactions.CentsRounded | internal/domain/transaction.go:67-70 | Rounding the product to the nearest cent gives a cent amount within half a cent of it |
| Transactions.CentsRoundedRecovers | internal/domain/transaction.go:67-70 | Any product within half a cent of a whole number of cents is rounded to exactly that number |
| Transactions.Checksum | internal/transaction/transaction.go:81-98 | The checksum is 64 hex digits that decode to the hash of the joined payload |
| Transactions.NewTransaction | internal/transaction/transaction.go:55-76 | Construction fails with `ErrInvalidAmount` exactly when the amount is NaN, infinite or negative. Otherwise every field comes from its argument, the tag is empty, nothing is ignored, the cents are the float64 product `amount * 100` truncated toward zero, and the checksum is the one of the record |
| Transactions.PayloadInjective | internal/transaction/transaction.go:81-98 | For text free of the unit separator, two records have the same payload exactly when their trimmed texts, direction, cents, day, row number and import ID all agree |
| Transactions.PayloadDeterminedByKey | internal/domain/transaction.go:71-88 | Records that agree on the key fields have the same payload and the same checksum |
| Transactions.DistinctRowsDistinctPayloads | internal/transaction/transaction.go:93-94 | Two rows of different imports, or with different row numbers, never share a payload |
| Transactions.ChecksumIgnoresPadding | internal/transaction/transaction.go:84-86 | White space around description, note and source does not change the checksum |
| Transactions.NewTransactionDeterministic | internal/domain/transaction.go:45-66 | The checksum does not depend on the fresh ID or on the clock, so the same row built twice gets the same checksum |
| Transactions.GeneratedFieldsSeparatorFree | internal/transaction/transaction.go:88-91 | Cents, date, row number and import ID texts never contain the unit separator |
| Vendors.NewVendor | internal/vendor/vendor.go:46-57 | A vendor is created exactly for a supported name and then carries the ID, the name and the clock; any other name gives `ErrUnsupportedVendor` |
| Vendors.NewVendorOnlyIng | internal/domain/vendor.go:42-66 | The only supported name is `ING`, compared exactly: `ing` and ` ING` are refused |
| Vendors.FieldNamesDistinct | internal/domain/vendor.go:46-53 | The vendor field names are pairwise distinct, and every field is in the supported list |
| Imports.StatusTextInjective | internal/importer/import.go:18-23 | The four stored status strings are pairwise distinct |
| Imports.NewImportRecord | internal/importer/import.go:45-58 | A new import is pending, with an empty message, zero counters, the vendor's ID, the path and the clock for both timestamps |
| Imports.NewImport | internal/domain/import.go:32-45 | The newer tree's new import is pending, with an empty message and zero counters, and holds the whole vendor |
| Imports.MarkInProgress | internal/importer/import.go:60-63 | Marking in progress changes only the status and the update time |
| Imports.MarkCompleted | internal/importer/import.go:65-72 | Completing sets the status, the four counters and the update time, and keeps identity and message |
| Imports.MarkFailed | internal/importer/import.go:74-78 | Failing sets the status, the message and the update time, and keeps identity and counters |
| Imports.MarksIgnoreStatus | internal/importer/import.go:60-78 | None of the transitions looks at the current status, so each one applies from any state |
| Mapper.ToDomainTransaction | internal/infra/storage/mapper.go:5-22 | Every stored column reaches the domain transaction unchanged |
| Mapper.FromDomainTransaction | internal/infra/storage/mapper.go:24-38 | The stored row keeps eleven fields but has row number 0, is not ignored, and has the nil import ID |
| Mapper.TransactionRoundTrip | internal/infra/storage/mapper.go:5-38 | Storing and loading gives back the transaction with those three fields reset. The round trip is the identity exactly when they already held their zero values |
| Mapper.StoredRowLosesPayload | internal/infra/storage/mapper.go:24-38 | For a row with a row number or an import ID, the stored row's payload differs from the payload its checksum was computed over |
| Mapper.FromDomainTransactionFull | internal/infra/storage/mapper.go:24-38 | The corrected mapper also carries the row number, the ignored flag and the import ID |
| Mapper.TransactionRoundTripFull | internal/infra/storage/mapper.go:5-38 | With the corrected mapper, storing then loading and loading then storing are identities, and the payload is kept |
| Mapper.ToDomainImport | internal/infra/storage/mapper.go:40-54 | The domain import carries the given vendor and every stored column |
| Mapper.FromDomainImport | internal/infra/storage/mapper.go:56-70 | The stored import keeps every field and replaces the vendor by its ID |
| Mapper.ImportRoundTrip | internal/infra/storage/mapper.go:40-70 | Loading a stored import with its own vendor gives it back, and storing a loaded row gives the row back |
| Mapper.ToDomainVendor | internal/infra/storage/mapper.go:72-79 | Every vendor column is carried over |
| Mapper.FromDomainVendor | internal/infra/storage/mapper.go:81-88 | Every vendor field is carried over |
| Mapper.VendorRoundTrip | internal/infra/storage/mapper.go:72-88 | The vendor mappers are inverse to each other in both directions |
| TxStore.Create | internal/storage/sqlx_transaction_store.go:35-68 | A database failure gives the wrapped failure and changes nothing. Without one, an existing checksum gives the duplicate error and changes nothing. The insert succeeds exactly when there is no failure and the checksum is new; the row is then appended, and the unique-checksum constraint is preserved |
| TxStore.CreateErrorText | internal/storage/sqlx_transaction_store.go:59-66 | The duplicate error has its own fixed text, and a failure's text ends with the database's own error after a non-empty prefix |
| TxStore.CreateMapped | internal/infra/storage/sqlx_transaction_store.go:22-54 | The newer store fails exactly as the older one. On success it appends the mapped eleven-column row, which carries the transaction's checksum. Failure changes nothing, and the unique-checksum constraint is preserved |
| TxStore.CreateTwiceIsDuplicate | internal/storage/sqlx_transaction_store.go:59-66 | Inserting the same transaction again right after it succeeded leaves the table unchanged. It fails with the duplicate error, or with the database's failure if that insert meets one |
| TxStore.NewestUntagged | internal/storage/sqlx_transaction_store.go:70-89 | The query finds nothing exactly when no row is untagged. Otherwise it picks an untagged row whose date is not earlier than any other untagged row's |
| TxStore.FetchNewestUntagged | internal/storage/sqlx_transaction_store.go:70-89 | The page has at most one row. It is empty exactly when every row is tagged, and its row is an untagged row of the table |
| TxStore.Tag | internal/storage/sqlx_transaction_store.go:91-99 | Only rows with the given ID change, and only their tag and update time. An unknown ID changes nothing |
| TxStore.TagKeepsChecksums | internal/storage/sqlx_transaction_store.go:91-99 | Tagging keeps every checksum, and so the unique-checksum constraint |
| TxStore.GrowsKeepsChecksum | internal/storage/sqlx_transaction_store.go:35-68 | A table that only grew still holds every checksum it held |
| IngParsing.LastIndexMap | internal/parser/ing.go:73-80 | Every header is a key. Each key maps to a column holding that header, and no later column holds it, so the last duplicate wins |
| IngParsing.HeaderMapOf | internal/parser/ing.go:73-80 | The header map indexes the trimmed header titles, with the last duplicate winning |
| IngParsing.DirectionOf | internal/parser/ing.go:104-110 | `Debit` in any letter case is a cash-out and `Credit` a cash-in. Anything else is rejected |
| IngParsing.ParseRow | internal/parser/ing.go:83-126 | With no header the row fails with the header error. Otherwise it fails on the amount, then on the direction, then on the date, in that order. A success carries the description, the notes, the source `ING` and the parsed values. Every comma of the amount becomes a point before parsing, so `1.234,56` is read as `1.234.56` |
| IngParsing.ParseRowIgnoresRowAndImport | internal/parser/ing.go:83-126 | The parsed row does not depend on the row number or the import ID passed in |
| IngParsing.ParseAll | internal/parser/ing.go:26-40 | An empty stream gives EOF, and a failing first read gives that error. Otherwise the first record becomes the header map and the rest are the rows |
| IngParsing.Decode | internal/parser/ing.go:50-59 | A row yields data exactly when it was read as a record that parses with row number k+1. Read errors and rejected rows are skipped |
| IngParsing.Drive | internal/parser/ing.go:42-69 | The iterator yields only decodable rows, under strictly increasing row numbers starting after the rows already consumed. It consumes the whole stream unless the consumer stops it, and it stops right at the row it yielded last |
| IngParsing.DriveYieldsDecodable | internal/parser/ing.go:42-69 | The rows the iterator yields are exactly the decodable rows, in order, up to where it stopped |
| IngParsing.NeverStops | internal/parser/ing.go:62-64 | A consumer that always continues consumes the whole stream |
| IngParsing.DriveToEnd | internal/parser/ing.go:42-69 | A consumer that always continues receives every decodable row of the file |
| IngParsing.Iterate | internal/parser/ing.go:26-70 | Each yielded row is a record of the file that parses to the yielded data under its own row number, and row numbers strictly increase |
| IngParsing.StepIncreasingIsStrict | internal/parser/ing.go:44-65 | Row numbers that increase from each yield to the next increase between any two yields |
| IngParsing.ParseAllWellFormed | internal/parser/ing.go:26-40 | A stream with a non-empty header and rows of the header's width parses to a row source whose columns all fit |
| IngParsing.NewIngParser | internal/parser/ing.go:20-24 | A new parser has an empty header map |
| IngParsing.CreateCsvParser | internal/parser/factory.go:16-23 | The factory succeeds exactly for `ING`; for any other vendor the error text ends with the vendor ID |
| IngParsing.CreateCsvParserIdentifiesVendor | internal/parser/factory.go:16-23 | Two vendor IDs get the same answer exactly when they are equal, and a success is a fresh ING parser |
| IngParsing.NewVendorIngParser | internal/app/vendors/parser_ing.go:20-38 | The newer tree's parser starts with no header and the fixed ING header and field tables |
| IngParsing.FieldTablesInverse | internal/app/vendors/parser_ing.go:20-38 | The header-to-field and field-to-header tables are inverse to each other; five fields are mapped, and the source field is not one of them |
| IngParsing.SetHeader | internal/app/vendors/parser_ing.go:41-47 | Setting the header builds the same trimmed, last-duplicate-wins map as the older parser, and keeps the tables |
| CsvImport.AddRowError | internal/app/transactions/from_csv.go:122-128 | A row error adds one failure and appends the error; the other counters are unchanged |
| CsvImport.Classify | internal/app/transactions/from_csv.go:58-93 | Each row is classified as exactly one of: read error (not counted), blank line (skipped), short row, parse failure, an amount `NewTransaction` refuses, or a decoded transaction. The refused amount and the decoded transaction are each stated in both directions against the parsed row |
| CsvImport.Save | internal/app/transactions/from_csv.go:94-103 | The row is imported exactly when the database does not fail and the checksum is new; the table then gains the mapped row. A stored checksum counts as a duplicate and a failure, and a database failure as a failure, each with its row error and the table unchanged. Without a database failure the checksum is stored afterwards |
| CsvImport.Row | internal/app/transactions/from_csv.go:58-103 | One row keeps the summary consistent, adds at most one row error, for that row, and counts the row unless it was a read error or a blank line |
| CsvImport.Loop | internal/app/transactions/from_csv.go:51-104 | The loop ends at the end of the stream with a live context, with cancellation at a row where the context was done, or, as written, with the store's panic right after a row whose amount `NewTransaction` refuses |
| CsvImport.LoopKeepsOrder | internal/app/transactions/from_csv.go:51-104 | The loop keeps the summary consistent and its errors ordered by row, each naming a row it read |
| CsvImport.LoopCompletes | internal/app/transactions/from_csv.go:51-104 | The loop ends without error exactly when the context is live at every check up to EOF and no row aborts it |
| CsvImport.LoopChecksContext | internal/app/transactions/from_csv.go:53-56 | Every row the loop processed was processed while the context was not yet done |
| CsvImport.LoopCounts | internal/app/transactions/from_csv.go:74 | The total counts exactly the processed rows that were neither read errors nor blank, and the unique-checksum constraint is kept |
| CsvImport.LoopAccounting | internal/app/transactions/from_csv.go:58-103 | When every failure is reported, imported plus failed exceeds the total by exactly the number of read errors |
| CsvImport.LoopSettles | internal/app/transactions/from_csv.go:84-103 | After the loop, the table has only grown, and every decoded row's checksum is in it unless its insert met a database failure |
| CsvImport.LoopImportsAtMostUnstored | internal/app/transactions/from_csv.go:94-103 | The loop imports at most the decoded rows whose checksum the table did not hold when it started |
| CsvImport.StepCountsAgree | internal/app/transactions/from_csv.go:58-74 | The counted rows are the non-blank records of the file, and the read errors are its failed reads |
| CsvImport.Run | internal/app/transactions/from_csv.go:27-106 | An empty file, a failing header read and a rejected header end the import with their error and an empty summary. A normal run processes every row. Only the handler as written aborts, and then right after a row whose amount `NewTransaction` refuses. The summary's total is the number of non-blank records |
| CsvImport.Handle | internal/app/transactions/from_csv.go:27-106 | The handler as written. Its summary is consistent, its errors are ordered by row, and its total counts the non-blank records read. It aborts only after a row whose amount `NewTransaction` refuses |
| CsvImport.CompletedRunHasValidAmounts | internal/app/transactions/from_csv.go:84-95 | A run of the handler as written that completes met no row whose amount `NewTransaction` refuses |
| CsvImport.HandleCorrected | internal/app/transactions/from_csv.go:79-95 | Corrected handler: it never panics, and every counted row is either imported or failed, so imported plus failed equals the total plus the read errors |
| CsvImport.ParseFailureLeavesNoTrace | internal/app/transactions/from_csv.go:79-83 | A row the parser rejects is counted in the total but is neither imported nor failed, and leaves no row error. The corrected handler reports it as row 2 |
| CsvImport.RejectedAmountAborts | internal/app/transactions/from_csv.go:84-95 | As written, a row with the amount −5 ends the run with the nil-pointer panic and an unchanged table. The corrected handler records one `creating transaction: invalid amount` row error and goes on |
| CsvImport.ReimportImportsOnlyFailedRows | internal/app/transactions/from_csv.go:84-103 | Importing the same file again after a completed run imports at most the rows whose insert met a database failure in the first run, whatever fresh IDs, clock, context and failures the second run meets. Without such failures it imports nothing |
| CsvImport.SameRowSameChecksum | internal/app/transactions/from_csv.go:84-93 | A row classifies the same way, with the same checksum, whatever fresh IDs, clock, context and database failures the run draws |
| ImportJob.OldestPending | internal/storage/sqlx_import_store.go:27-44 | Nothing is found exactly when no import is pending. Otherwise the chosen import is pending and was created no later than any pending import, and strictly after none listed before it |
| ImportJob.FetchById | internal/storage/sqlx_vendor_store.go:53-64 | The vendor found has the requested ID. Not found means no vendor has it |
| ImportJob.UpdateState | internal/storage/sqlx_import_store.go:46-54 | Rows with another ID are untouched. Rows with the ID take the status, message, counters and update time and keep their identity |
| ImportJob.FailureMessage | internal/jobs/import.go:117-123 | The stored message is the fixed prefix followed by the error text |
| ImportJob.Prepare | internal/jobs/import.go:75-94 | Each of these fails with its own error text: vendor lookup, parser factory, file open, and header read. Success exactly when all succeed. It then returns the vendor and the well-formed row source |
| ImportJob.BuildTx | internal/jobs/import.go:99 | The job's transaction uses the iterator's row number, the import's ID and the vendor's name as its source, and fails only on an invalid amount |
| ImportJob.Insert | internal/jobs/import.go:99-108 | An insert succeeds exactly when the row was built, the database does not fail on it, and its checksum is new. Failure leaves the table as it was. A database failure gives its wrapped text, and otherwise a stored checksum gives `duplicate transaction` |
| ImportJob.Replay | internal/jobs/import.go:98-109 | The reference loop only appends to the table and keeps the unique-checksum constraint |
| ImportJob.ReplayShape | internal/jobs/import.go:98-109 | The reference loop appends the built rows in order, one per row, up to the first that fails, and stops with that row's failure. With no failure every row is appended |
| ImportJob.DriveReplays | internal/jobs/import.go:98-109 | Running the loop body over the iterator gives exactly the reference loop over the decodable rows |
| ImportJob.Final | internal/jobs/import.go:110-119 | A clean run completes the import with all four counters zero. A failure marks it failed with the prefixed message and keeps its counters |
| ImportJob.Process | internal/jobs/import.go:64-115 | A store fault is returned unchanged, and no pending import means nothing happens. Otherwise only the oldest pending import changes, to its final state. Vendors and files are kept, and the table only grows |
| ImportJob.Cycle | internal/jobs/import.go:75-115 | A failed preparation leaves the table alone and records the error. Otherwise the table and the error are those of the reference loop over every decodable row |
| ImportJob.RerunIsDuplicate | internal/jobs/import.go:105-108 | Replaying rows that all went in the first time (a job's built rows, or any others) adds nothing and fails at once on the first row: with `duplicate transaction`, or with the database's failure if that insert meets one |
| ImportJob.NeverMarksInProgress | internal/jobs/import.go:64-115 | The job never sets an import's status to in progress |
| Tagger.Int64 | internal/jobs/tagger.go:48 | The wrapped value lies in the signed 64-bit range and equals the input when the input already does |
| Tagger.Backoff | internal/jobs/tagger.go:47-51 | The next interval is at most one minute. For a positive interval that does not overflow when doubled, it is twice the interval, capped at one minute |
| Tagger.Tick | internal/jobs/tagger.go:40-62 | A fetch error or an empty poll backs off and changes nothing. Otherwise the interval resets to the default and the newest untagged row is handed to the agent. On an agent failure that row is tagged `unk` |
| Tagger.BackoffsClosedForm | internal/jobs/tagger.go:45-53 | After k empty polls in a row the interval is the default times 2^k, capped at one minute |
| Tagger.BackoffsBounded | internal/jobs/tagger.go:45-56 | The interval stays positive and never exceeds the larger of the default and one minute |
| Tagger.TagShrinksUntagged | internal/storage/sqlx_transaction_store.go:91-99 | A non-empty tag never increases the number of untagged rows. It lowers that number when the ID names an untagged row |
| Tagger.FallbackMakesProgress | internal/jobs/tagger.go:58-62 | When the agent fails, the fallback tag leaves one untagged row fewer, so one failing transaction cannot block the queue |
| Uploads.Upload | internal/importer/from_csv.go:42-60 | Upload effects run in order: lookup, write, create, cleanup. Each failure stops the handler with its own error. A failed create removes exactly the written file and returns the create error. Success returns the ID of the created import |
| Uploads.ImporterHandle | internal/importer/from_csv.go:42-60 | On success the created import is fresh, holds the vendor's ID and the written path, and its ID is returned |
| Uploads.AppHandle | internal/app/imports/from_csv.go:27-45 | On success the created import is pending with an empty message, holds the vendor and the written path, and its ID is returned |
| Uploads.HandlersAgree | internal/app/imports/from_csv.go:27-45 | The two handlers return the same result, and perform the same effects once the newer tree's import is mapped to its row |

## Left out

- Database failures are given per insert, not drawn from a model of the database. Failures of the bind and expand steps (`internal/storage/sqlx_transaction_store.go:48-55`) count as such failures.
- Concurrency and timing. This covers the ticker loops of `internal/jobs/import.go:49-62` and `internal/jobs/tagger.go:31-39`, the job manager, and cancellation. One import-job cycle and one tagger tick are modelled. Context cancellation in the CSV import is a predicate over row positions.
- SHA-256, UUID generation and the clock are parameters. The checksum's properties hold for every hash function. Collision resistance is not assumed.
- Floating point. Amounts are NaN, ±Inf or an exact real. `fmt.Sscanf("%f")` is an arbitrary parser function, so its rounding and accepted syntax are not modelled.
- Transactions.Cents: the cent amount is an unbounded integer. The `int64` conversion of amounts above about 9.2·10^16 cents is not modelled. The float64 rounding of `amount * 100` is the `Scaler` parameter; only the one product that shows the lost cent is computed.
- CSV tokenising (`encoding/csv` quoting and field-count checks) is represented by the reader's outcomes. In the ING iterator, records are assumed to have the same width as the header, as `encoding/csv` enforces.
- Time zones. A date is a calendar day plus a time of day. `time.Parse` with layout `20060102` is modelled exactly; other layouts are not.
- `strings.EqualFold` is modelled as ASCII case folding. Non-ASCII letters that fold to ASCII `k` or `s` are not.
- SQL ties. Where `ORDER BY` leaves the order open, `FetchUntagged` and `OldestPending` pick the first qualifying row in insertion order.
- The errors of `UpdateState` and of the tagger's fallback `Tag` are ignored by the source. The model drops them (`tagFault` leaves the table unchanged).
- ImportJob.FetchById: database errors other than not-found are not modelled.
- ImportJob.Process: any `OldestPending` failure other than no-rows is the `pendingFault` parameter.
- Tagger.Tick: the agent's own tag write and its HTTP client (`internal/agent`) are outside the model. Only its success or failure enters.
- Disk I/O: `WriteCsv` and `Remove` are outcomes and effects. Random file names and the best-effort removal's own error are not modelled.
- The HTTP and REST layers, routing, logging, APM tracing, configuration, migrations, bootstrap and market data are not part of this model.
- The commented-out tests of `internal/app/transactions/from_csv_test.go` expect a parse failure to be counted as failed, which the handler does not do (see Findings).

Facts of the code that a reader may not expect:
- The tagger takes the newest untagged transaction: the query orders by `date DESC` (`internal/storage/sqlx_transaction_store.go:72`).
- `MarkInProgress` exists (`internal/importer/import.go:60-63`), but the import job never calls it (`internal/jobs/import.go:64-115`).
- On success the import job completes the import with all four counters zero (`internal/jobs/import.go:110`).
- The import job stops at the first row whose insert fails, a duplicate included, and marks the import failed (`internal/jobs/import.go:105-108`).
- The import job numbers rows by iterator position, from 1 (`internal/parser/ing.go:44`). The synchronous import numbers them by file line, from 2 (`internal/app/transactions/from_csv.go:51`).

## Findings

| source | as written | input that shows it | evidently intended | confidence | as-written member | corrected member |
|---|---|---|---|---|---|---|
| internal/infra/storage/mapper.go:24-38 | `fromDomainTransaction` does not copy `RowNumber`, `Ignored` or `ImportID` into the stored row | any transaction with row number 2, or with a non-nil import ID | the stored row keeps every field, so its checksum still matches its payload and a reload gives the same transaction | high, not executed | Mapper.StoredRowLosesPayload | Mapper.TransactionRoundTripFull |
| internal/app/transactions/from_csv.go:79-83 | a row whose `ParseRow` fails is counted in `TotalRows` but is not added as a row error or counted as failed | header `["Amount"]`, one row `["x"]`, and a parser that rejects every row: total 1, imported 0, failed 0 | every counted row is imported or failed, with a row error for the parse failure (the commented-out tests of internal/app/transactions/from_csv_test.go expect `failed == 1`) | medium, not executed | CsvImport.ParseFailureLeavesNoTrace | CsvImport.HandleCorrected |
| internal/domain/transaction.go:57 | `AmountCents: int64(amount * 100)` truncates the float64 product | the amount `0,29`: the float64 nearest 0.29 times 100 is 29 − 2^-48, stored as 28 cents | the cent amount of the written amount, as the comment at internal/domain/transaction.go:69-70 says cents avoid floating-point trouble; rounding gives 29 | high, not executed | Transactions.PointTwentyNineLosesACent | Transactions.CentsRounded |
| internal/app/transactions/from_csv.go:84-95 | the error of `domain.NewTransaction` is overwritten by the result of `Create`, which receives the nil transaction; the store's mapper dereferences it (internal/infra/storage/mapper.go:26) | header `["Amount"]`, one row whose amount parses to −5 | a row error `creating transaction: invalid amount` and the import goes on (the commented-out tests at internal/app/transactions/from_csv_test.go:130-160 expect an invalid-amount row error) | high, not executed | CsvImport.RejectedAmountAborts | CsvImport.HandleCorrected |
