# DVLA MOT loaders — a Dafny model

The DVLA loaders read gzipped, newline-delimited JSON files of vehicle
records. Each record is a vehicle with its MOT tests, and each test has its
defects. The loaders put them into a `vehicles` / `mot_tests` / `defects`
schema and keep an `import_log` ledger of per-file status. This project
models the core of the three loaders:

- `delta_loader.py`: MySQL. It selects files from the DVLA listing, processes
  extracted archives, and retries FAILED files.
- `initial_loader.py`: MySQL bulk load. Its parse-and-append block is
  duplicated.
- `PG_initial_loader.py`: PostgreSQL. It has a row mode with defect lookups,
  a COPY mode with staged CSV files and a join, and `main` wraps the run in a
  disable/enable-triggers bracket.

It also models the `clean_datetime` copy in `test_single_file.py`.

The model is layered as follows:

- **`records.dfy`**: what `json.loads` makes of a line (`Line`), the vehicle,
  test and defect records, and a file's content (`Stream`: the lines read,
  and whether reading raised after them).
- **`timestamps.dfy`**: the two `clean_datetime` variants, as string
  functions.
  - The strip-all variant is in `delta_loader.py` and `test_single_file.py`.
  - The strip-one variant is in `PG_initial_loader.py` and
    `initial_loader.py`.
- **`ledger.dfy`**: `import_log` as a map from file name to status, the
  three queries on it, and the replay of a sequence of `mark_file_status`
  calls.
- **`store.dfy`**: the data tables as values.
  - Vehicles are keyed by registration. Tests are a sequence whose index is
    the surrogate id. Defects point at a test id.
  - It holds the lookups and joins on `(registration, completed_date)` and
    the MySQL upserts.
  - It holds a `Database` class whose methods change the tables, the
    committed snapshot, the ledger and the trigger switch in place.
- **`retry.dfy`**: the `retry_request` decorator as a loop with a doubling
  delay.
- **`mysql_batch.dfy`**: the batching machinery shared by the two MySQL
  loaders.
  - It covers the batch lists, the `(inserted, failed)` accounting of
    `batch_insert_*`, and flushes.
  - It holds the parse-and-append block, both as a pure step over a `Scan`
    state and as methods on a `Batches` object.
- **`delta_loader.dfy`**, **`initial_loader.dfy`**, **`pg_loader.dfy`**,
  **`pg_copy.dfy`**, **`pg_main.dfy`**: each loader's `process_file`
  (`process_file_copy`) and its `main`.
  - Each is an imperative method with loop invariants. It is proved equal to
    a pure fold over the lines (`Lines`, `Run`, `Stage`, `RunCopy`, `Main`).
  - The properties are lemmas about those folds.

Where the database's answer matters, the outcome of each SQL statement is a
parameter:

- `(statement, flush number) -> bool` for MySQL, one flag for each of the two upserts of every flush;
- `(statement, flush number) -> bool` for PostgreSQL row mode;
- `statement -> bool` for COPY mode.

Worker threads are modelled one file at a time, in submission order.

The model follows the code where it differs from the scripts' comments and
log messages:

- `PG_initial_loader.py` never imports `sys`, so each `sys.exit(1)` in it
  raises `NameError`. This exits the process with an error all the same.
  `PgMain.Main` models it as `ExitedWithError`.
  - After a listing failure (`PG_initial_loader.py:448`), the `finally` of
    `main` still switches the triggers back on.
  - The two earlier exits, in `validate_db_env` (`:30`) and after a failed
    pool creation (`:426`), come before the `try`. They end the process
    before the triggers are switched off.
- In PostgreSQL row mode a failed statement aborts the transaction.
  - The later statements of that flush fail too, and its `commit()` becomes
    a rollback.
  - If defects are held, the first lookup raises inside the aborted
    transaction, the file is marked FAILED, and the transaction is
    abandoned.
- COPY mode never writes `import_log`. So every run of `main` in COPY mode
  submits the same files again.
- The COPY vehicles row cleans `lastUpdateDate` (`PG_initial_loader.py:217`)
  and writes `engineSize` uncoerced. Row mode does the opposite for both.

## Model

| member | source | states |
|---|---|---|
| Timestamps.ReplaceT | delta_loader.py:78 | same length; every `T` becomes a space, every other character is kept |
| Timestamps.RStripZ | delta_loader.py:78 | a prefix of the input; everything dropped is `Z`; the result does not end in `Z` |
| Timestamps.FirstDotField | delta_loader.py:79 | a dot-free prefix of the input, followed in the input by a `.` whenever it is shorter |
| Timestamps.StripAllShape | delta_loader.py:75-79 | `None` and `""` give `None`; any other input gives a value: a prefix of the `T`-replaced input with no `T` and no `.`, all trailing `Z`s gone |
| Timestamps.StripOneShape | PG_initial_loader.py:52-60 | the same for the strip-one variant: `None`/`""` give `None`, otherwise a `T`-free, dot-free prefix of the `T`-replaced input with at most one trailing `Z` removed |
| Timestamps.CutAtFirstDot | PG_initial_loader.py:58-59 | when the `T`-replaced input has a `.`, both variants return exactly the text before the first one |
| Timestamps.NormalisesIso | initial_loader.py:43-51 | `dateTtime.fractionZ` becomes `date time` in both variants |
| Timestamps.ReplaceIso | delta_loader.py:78 | only the `T` between date and time is replaced |
| Timestamps.VariantsCompared | PG_initial_loader.py:56-57 | with `u` the `T`-replaced input: when `u` holds a `.` both variants return the text before it; otherwise strip-all drops all `k` trailing `Z`s and strip-one keeps `k - 1` of them; so they differ iff `u` has no `.` and ends in `ZZ` (`"ZZZ"` gives `""` and `"ZZ"`) |
| Timestamps.DoubleZDiffers | PG_initial_loader.py:56-57 | `…ZZ` loses both `Z`s under strip-all and keeps one under strip-one |
| Timestamps.IsoExample | delta_loader.py:75-79 | `"2024-01-02T03:04:05.123Z"` becomes `"2024-01-02 03:04:05"` |
| Timestamps.DoubleZExample | PG_initial_loader.py:52-60 | `"2024-01-02T03:04:05ZZ"` gives `…05` (strip-all) and `…05Z` (strip-one) |
| Timestamps.LoneZBecomesEmpty | test_single_file.py:23-27 | the non-empty `"Z"` becomes `""`, not `None`, in both variants |
| Ledger.ReplayLastWriterWins | delta_loader.py:217-228 | after any sequence of `mark_file_status` calls a file's row is its last call's status, or its old row when no call named it |
| Ledger.ImportedIffLastMarkCompleted | delta_loader.py:230-238 | `is_file_imported` holds after a history iff the file's last mark was COMPLETED (or, unmarked, its old row is) |
| Ledger.FailedIffLastMarkFailed | delta_loader.py:251-259 | `get_failed_files` after a history holds exactly the files last marked FAILED |
| Ledger.RetryConvergence | delta_loader.py:217-259 | marking a FAILED file COMPLETED makes it imported, removes exactly it from the FAILED set, and changes no other file's answers |
| Ledger.ImportedIsDownloadedOrCompleted | delta_loader.py:240-249 | `is_file_imported` implies `is_file_downloaded_or_completed`; the latter without the former means DOWNLOADED |
| Store.FirstMatchingTest | PG_initial_loader.py:342-346 | the `LIMIT 1` lookup: a matching id with no matching id before it, or none when no test matches |
| Store.AllMatches | PG_initial_loader.py:273-279 | the join's ids: ascending, each matching, and every matching id present |
| Store.FirstMatchIsFirstJoined | PG_initial_loader.py:342-346 | the point lookup returns the first id the join produces, and nothing exactly when the join produces nothing |
| Store.UpsertVehiclesOverlay | delta_loader.py:125-177 | the `ON DUPLICATE KEY UPDATE` batch is the old table overridden by the batch's own map, whose keys are the batch's registrations |
| Store.UpsertVehiclesIdempotent | delta_loader.py:125-177 | upserting the same batch twice is upserting it once |
| Store.UpsertVehiclesKeys | initial_loader.py:71-121 | the keys afterwards are the old keys plus the batch's; an untouched registration keeps its row |
| Store.UpsertVehiclesLastWins | initial_loader.py:71-121 | a registration carried by the batch ends with the batch's last row for it |
| Store.InsertNewVehiclesKeepsStored | PG_initial_loader.py:88-91 | inserting only registrations the duplicate probe did not find leaves every stored vehicle untouched |
| Store.UpsertTestProperties | delta_loader.py:179-214 | one `mot_tests` upsert keeps keys unique, never moves or re-keys a row, and stores the new row |
| Store.UpsertTestsProperties | delta_loader.py:179-214 | a whole test batch keeps keys unique and keeps every existing row's id and key |
| Store.UpsertTestsKeys | delta_loader.py:179-214 | after a test batch the natural keys are the old ones plus the batch's dated keys |
| Store.DatedCountIsKeys | delta_loader.py:179-214 | under unique keys the number of dated test rows is the number of natural keys |
| Store.InsertNewTestsProperties | PG_initial_loader.py:128-154 | the keyed test insert only appends, adds exactly the rows' dated keys, and keeps keys unique |
| Store.InsertNewTestsRerun | PG_initial_loader.py:128-154 | repeating the keyed test insert with the same rows adds no key and no dated row |
| Store.ParentsSurvive | PG_initial_loader.py:156-173 | every statement the loaders issue keeps every defect pointing at an existing test |
| Store.Database.MarkFileStatus | PG_initial_loader.py:62-74 | the ledger is upserted for that file only; the data tables are untouched |
| Store.Database.IsFileImported | PG_initial_loader.py:76-82 | true iff the file's row says COMPLETED |
| Store.Database.SetTriggers | PG_initial_loader.py:394-406 | the trigger switch is set and recorded; tables and ledger are untouched |
| Retry.DelaySchedule | delta_loader.py:83-90 | the sleeps of five failed attempts are 2, 4, 8, 16 and 32 seconds |
| Retry.RetryRequest | delta_loader.py:81-92 | at most five attempts; every sleep follows a `RequestException` and doubles from 2; the result is the first value, the first other exception propagated, or "max retries" exactly after five `RequestException`s |
| MySqlBatch.Expand | delta_loader.py:322-344 | the loop completes iff every test is an object; each recorded test carries the vehicle's registration and is the corresponding element |
| MySqlBatch.ExpandStopsAtRaise | delta_loader.py:322-333 | once a non-object test has raised, later tests change nothing |
| MySqlBatch.CleanIsCleaned | delta_loader.py:75-79 | either `clean_datetime` gives NULL or text with no `T` and no `.`, and NULL exactly for a missing or empty date |
| MySqlBatch.VehicleRowsCleaned | delta_loader.py:130-147 | the vehicle rows carry exactly the buffered registrations, one row per vehicle under its own; the four date columns are cleaned (NULL only for a missing or empty date); `lastUpdateDate` and the engine size pass through raw |
| MySqlBatch.TestRowsCleaned | delta_loader.py:184-192 | each test row carries its vehicle's registration and cleaned dates; it is dated, and so has a natural key, iff its raw completed date is non-empty |
| MySqlBatch.FlushedVehicleKeys | delta_loader.py:348-363 | a flush adds the upserted registrations to the vehicle keys, or nothing when the upsert fails or is empty |
| MySqlBatch.FlushedTestKeys | delta_loader.py:348-363 | a flush adds the upserted rows' natural keys to the test keys, or nothing when the upsert fails or is empty |
| MySqlBatch.FlushedInStep | delta_loader.py:348-363 | two runs flushing the same buffers from different tables add the same keys and agree on everything else |
| MySqlBatch.AdmitInStep | delta_loader.py:320-363 | admitting one vehicle keeps two runs from different tables in step |
| MySqlBatch.RerunKeys | delta_loader.py:292-403 | a second run in step with a first, started where the first ended, ends with the first's vehicle keys, vehicle count and test keys |
| MySqlBatch.BatchCounts | delta_loader.py:125-214 | `(0,0)` for an empty batch, else `(n,0)` on success or `(0,n)` on failure: the two sum to `n`, one is zero |
| MySqlBatch.FlushedProperties | delta_loader.py:348-363 | a flush empties all three buffers, keeps the count, writes no defect, keeps test keys unique, and adds exactly each buffer's size to its counter pair |
| MySqlBatch.AppendKeepsParents | delta_loader.py:320-344 | appending a vehicle and children under its registration keeps every buffered child's parent buffered |
| MySqlBatch.AdmitCounts | delta_loader.py:346-348 | `processed` goes up by one exactly when the tests expand without raising; flushes stay `processed / BATCH_SIZE` |
| MySqlBatch.AdmitBatchSize | delta_loader.py:346-363 | with no raising test the buffer holds exactly `processed % BATCH_SIZE` vehicles |
| MySqlBatch.AdmitKeeps | delta_loader.py:320-363 | an admitted vehicle keeps children's parents buffered, writes no defect, keeps test keys unique |
| MySqlBatch.Batches.Clear | delta_loader.py:361-363 | all three batch lists are empty |
| MySqlBatch.BatchInsertVehicles | delta_loader.py:125-177 | returns the `BatchCounts` pair; the table is upserted with the rows on success and unchanged otherwise |
| MySqlBatch.BatchInsertTests | delta_loader.py:179-214 | the same for `mot_tests` |
| MySqlBatch.BuildVehicleRows | delta_loader.py:130-172 | the row-building loop returns `VehicleRows`: one row per buffered vehicle, in order |
| MySqlBatch.BuildTestRows | delta_loader.py:179-209 | the row-building loop returns `TestRows`: one row per buffered test, in order |
| MySqlBatch.FlushBatches | delta_loader.py:348-365 | the database and buffers end as `Flushed` says: both upserts, a commit, cleared lists |
| MySqlBatch.HoldDefects | delta_loader.py:336-344 | appends exactly `HeldDefects` to the defect list and nothing to the others |
| MySqlBatch.ExpandTests | delta_loader.py:322-344 | appends exactly what `Expand` records and reports whether the loop completed |
| MySqlBatch.FlushIfDue | delta_loader.py:346-365 | the batches are flushed exactly when `processed` is a multiple of `BATCH_SIZE`; the journal gains one commit then |
| MySqlBatch.AdmitVehicle | delta_loader.py:320-365 | the database, buffers and counters end as `Admit` says |
| DeltaLoader.LinesProperties | delta_loader.py:312-370 | `processed` counts exactly the counted lines (malformed, non-object, registration-less and non-object-test lines add nothing); flushes stay `processed / BATCH_SIZE`; children keep their parents; no defect is ever written |
| DeltaLoader.LinesBatchSize | delta_loader.py:346-363 | with no raising test the buffer holds exactly `processed % BATCH_SIZE` vehicles |
| DeltaLoader.RunProperties | delta_loader.py:303-398 | COMPLETED iff reading did not raise, FAILED otherwise; `processed` counts the counted lines; one flush per multiple plus at most the leftover one; nothing left buffered after COMPLETED; no defect written |
| DeltaLoader.LinesInStep | delta_loader.py:312-370 | two line loops over one file from different tables add the same keys and agree on everything but the tables |
| DeltaLoader.RerunStable | delta_loader.py:292-403 | re-running a file over what its first run left, with the same statement outcomes, leaves the vehicle keys, the vehicle count, the test keys, the defects and (under unique keys) the dated test count as after the first run |
| DeltaLoader.ScanLines | delta_loader.py:311-370 | the database, buffers and counters end as `Lines` says; the journal gains one commit per flush |
| DeltaLoader.FinishFile | delta_loader.py:372-399 | unless reading raised, the leftover batch is flushed; then the file is marked COMPLETED, or FAILED when reading raised; the journal gains the commits, then the status |
| DeltaLoader.ProcessFile | delta_loader.py:292-402 | tables, counters and ledger end as `Run` says; the journal is STARTED, the commits, the final status |
| DeltaLoader.Selected | delta_loader.py:532-553 | at most one name per entry; every selected name is non-empty, not a bulk export, and not COMPLETED |
| DeltaLoader.SelectEntry | delta_loader.py:532-575 | one listing entry is appended iff it is wanted; the ledger gains exactly its DOWNLOADED marks; the data tables are untouched |
| DeltaLoader.SelectedIff | delta_loader.py:532-553 | a name is selected iff some listed entry carrying it has a name and a URL, is not under `v1/public/bulk/`, and is not COMPLETED |
| DeltaLoader.DownloadMarksLast | delta_loader.py:574-575 | the selection loop writes no status but DOWNLOADED |
| DeltaLoader.DownloadsKeepImported | delta_loader.py:548-575 | the DOWNLOADED rows never change which files count as imported |
| DeltaLoader.SelectFiles | delta_loader.py:531-589 | returns `Selected`; the ledger gains exactly the DOWNLOADED marks of the fetched files; the data tables are untouched |
| DeltaLoader.RunExtractedWritesOnlyJson | delta_loader.py:596-602 | running an archive's files writes no ledger row for a non-`.json.gz` name |
| DeltaLoader.ArchivesCompleted | delta_loader.py:592-607 | every archive ends COMPLETED, whatever became of its files |
| DeltaLoader.RunArchivesKeepsOthers | delta_loader.py:592-607 | the archive loop writes no ledger row for a name that is neither an archive nor a `.json.gz` file |
| DeltaLoader.NonArchiveSelectedAgain | delta_loader.py:531-607 | a selected file that is not an extracted zip archive is never COMPLETED and the same listing selects it again |
| DeltaLoader.ProcessExtracted | delta_loader.py:596-602 | the database ends as `RunExtracted` says |
| DeltaLoader.ProcessArchives | delta_loader.py:592-612 | the database ends as `RunArchives` says |
| DeltaLoader.RetryOutcome | delta_loader.py:405-499 | only the given names change; a retried name ends FAILED iff its read fails, COMPLETED otherwise; a skipped one keeps its row |
| DeltaLoader.RetryConverges | delta_loader.py:405-499 | retrying never adds a FAILED file, and every retried file that now reads to the end is imported |
| DeltaLoader.RetryFailedFiles | delta_loader.py:405-485 | the database ends as `RetryAll` says |
| InitialLoader.AdmitTwice | initial_loader.py:203-313 | two admissions of one vehicle keep what one admission keeps |
| InitialLoader.LinesProperties | initial_loader.py:201-318 | raised iff some line is a non-object; otherwise `processed` is twice the counted lines; flushes stay `processed / BATCH_SIZE`; children keep parents; no defect written |
| InitialLoader.RaiseStops | initial_loader.py:258-261 | the first non-object line ends the loop in the state just before it, raised |
| InitialLoader.LinesBatchSize | initial_loader.py:234-311 | with no raising test the buffer holds exactly `processed % BATCH_SIZE` admissions |
| InitialLoader.RunProperties | initial_loader.py:192-357 | COMPLETED iff neither reading nor a non-object line raised; then `processed` is twice the counted lines and nothing is buffered; flush count bounded; no defect written |
| InitialLoader.StepInStep | initial_loader.py:202-315 | one line, through both parse-and-append blocks, keeps two runs from different tables in step and raises alike |
| InitialLoader.LinesInStep | initial_loader.py:201-315 | two line loops over one file from different tables stay in step and raise alike |
| InitialLoader.RerunStable | initial_loader.py:181-357 | re-running a file over what its first run left, with the same statement outcomes, leaves the vehicle keys, the vehicle count, the test keys, the defects and (under unique keys) the dated test count as after the first run |
| InitialLoader.ScanLines | initial_loader.py:201-318 | the database, buffers and counters end as `Lines` says |
| InitialLoader.ProcessLine | initial_loader.py:202-318 | one iteration of the line loop ends as `Step` says; the journal gains one commit per flush |
| InitialLoader.FinishFile | initial_loader.py:321-357 | unless something raised, the leftover batch is flushed; then the file is marked COMPLETED, or FAILED; the journal gains the commits, then the status |
| InitialLoader.ProcessFile | initial_loader.py:181-357 | tables, counters and ledger end as `Run` says; the journal is STARTED, the commits, the final status |
| InitialLoader.Pending | initial_loader.py:361-367 | every submitted name is a `.json.gz` name that is not COMPLETED |
| InitialLoader.PendingIff | initial_loader.py:361-367 | a name is submitted iff it is listed, ends in `.json.gz` and is not COMPLETED |
| InitialLoader.ListPending | initial_loader.py:360-368 | returns `Pending` |
| InitialLoader.RunAllOutcome | initial_loader.py:370-380 | each submitted file ends COMPLETED or FAILED by its own content; other rows are untouched |
| InitialLoader.MainOutcome | initial_loader.py:359-380 | after `main` a listed `.json.gz` file is COMPLETED iff it was before or its run raised nothing; names not submitted keep their rows |
| InitialLoader.ProcessAll | initial_loader.py:370-380 | the database ends as `RunAll` says |
| PgLoader.CoerceEngineSize | PG_initial_loader.py:92-96 | the coerced engine size is NULL or an integer |
| PgLoader.CoerceEngineSizeProperties | PG_initial_loader.py:92-96 | falsy values become NULL; a non-zero integer is kept; a decimal string parses back to its number with either sign; a non-decimal string becomes NULL |
| PgLoader.ExpandDefects | PG_initial_loader.py:327-328 | the held defects are the leading defect objects, in order, each under the registration and the test's raw completed date; a walk that stops does so at a non-object |
| PgLoader.Expand | PG_initial_loader.py:325-328 | a completed walk records one test per element; each recorded test is the corresponding element under the vehicle's registration; every held defect carries that registration |
| PgLoader.ExpandCompleteIff | PG_initial_loader.py:325-328 | the walk completes iff every test and every defect is an object |
| PgLoader.ExpandParents | PG_initial_loader.py:325-328 | every buffered defect has a buffered test of the same vehicle with the same completed date |
| PgLoader.ExpandStops | PG_initial_loader.py:325-328 | once a non-object test or defect has raised, later tests change nothing |
| PgLoader.VehicleRowOf | PG_initial_loader.py:97-113 | the row keeps the registration, cleans four dates, coerces the engine size, keeps `lastUpdateDate` raw |
| PgLoader.NewVehicleRows | PG_initial_loader.py:88-91 | no row sent has a registration already stored |
| PgLoader.NewVehicleRowsIff | PG_initial_loader.py:84-126 | a registration is sent iff some buffered vehicle carries it and it is not stored |
| PgLoader.LookupDefects | PG_initial_loader.py:339-348 | at most one row per held defect, each pointing at an existing test |
| PgLoader.FlushedProperties | PG_initial_loader.py:332-353 | one event per flush; after a rollback the tables are unchanged; stored vehicles unchanged, tests and defects only appended, parents resolved; a flush that does not raise empties the buffers |
| PgLoader.FlushedCommits | PG_initial_loader.py:332-353 | a flush raises only when defects were held; when every statement succeeds it commits |
| PgLoader.StepProperties | PG_initial_loader.py:316-353 | a line that does not raise is counted and keeps flushes within `processed / BATCH_SIZE` |
| PgLoader.LinesProperties | PG_initial_loader.py:316-357 | every line read before a raise is counted; flushes never outrun `processed / BATCH_SIZE`; stored vehicles never change; tests and defects only appended; parents resolved |
| PgLoader.StepRaise | PG_initial_loader.py:317-330 | with every statement succeeding, a line raises iff it is a non-object or holds a non-object test or defect |
| PgLoader.LinesRaise | PG_initial_loader.py:314-357 | with every statement succeeding, the loop raises iff some line is such a raising line |
| PgLoader.SkippedFlushCheck | PG_initial_loader.py:321-323 | a registration-less line is counted but skips the flush check, even at a multiple of the batch size |
| PgLoader.RunProperties | PG_initial_loader.py:309-392 | COMPLETED iff neither reading, the loop nor the leftover flush raised; then every line is counted and nothing is buffered; tables only grow; parents resolved; with all statements succeeding, FAILED iff a read error or raising line |
| PgLoader.NewVehicleKeys | PG_initial_loader.py:84-126 | inserting what the duplicate probe lets through yields the stored keys plus every buffered registration |
| PgLoader.RowInsertsSucceed | PG_initial_loader.py:333-338 | with every statement succeeding the row inserts do not abort, add the buffered registrations and append the buffered tests |
| PgLoader.FlushedSucceeds | PG_initial_loader.py:332-353 | with every statement succeeding a flush commits: keys plus the buffered registrations, tests plus the buffered tests, buffers cleared |
| PgLoader.FlushedInStep | PG_initial_loader.py:332-353 | with every statement succeeding, two runs flushing the same buffers add the same keys and append the same test rows |
| PgLoader.StepInStep | PG_initial_loader.py:316-354 | one line keeps two runs from different tables in step |
| PgLoader.LinesInStep | PG_initial_loader.py:314-357 | two line loops over one file from different tables stay in step |
| PgLoader.RunInStep | PG_initial_loader.py:309-392 | two runs of one file from different tables stay in step and end with the same status |
| PgLoader.RerunAddsTestsAgain | PG_initial_loader.py:128-154 | re-running a file over what its first run left, with every statement succeeding, keeps the vehicles but appends the first run's tests again, so a dated test ends with two rows under one key; same status |
| PgLoader.Batches.Clear | PG_initial_loader.py:353 | all three buffers are empty |
| PgLoader.HoldDefects | PG_initial_loader.py:327-328 | appends exactly what `ExpandDefects` holds and reports whether the loop completed |
| PgLoader.ExpandTests | PG_initial_loader.py:325-328 | appends exactly what `Expand` records and reports whether the loop completed |
| PgLoader.ExpandTest | PG_initial_loader.py:325-328 | one test of the walk appends exactly what `Expand` adds for that element |
| PgLoader.BatchInsertVehicles | PG_initial_loader.py:84-126 | sends `NewVehicleRows`; returns `(n,0)` or `(0,n)` over the non-duplicate rows, `(0,0)` for none |
| PgLoader.ProbeVehicles | PG_initial_loader.py:87-91 | the duplicate probe keeps exactly `NewVehicleRows`: one row per buffered vehicle not already stored, in order |
| PgLoader.BatchInsertTests | PG_initial_loader.py:128-154 | returns the `(inserted, failed)` pair over the buffered tests; fails in an aborted transaction |
| PgLoader.LookupDefectRows | PG_initial_loader.py:339-348 | returns `LookupDefects` of the current tests: first match per defect, misses dropped |
| PgLoader.BatchInsertDefects | PG_initial_loader.py:156-173 | returns the row count on success, 0 when empty or on error |
| PgLoader.InsertRows | PG_initial_loader.py:333-338 | the tables and counters end as `RowInserts` says |
| PgLoader.FlushBatches | PG_initial_loader.py:332-354 | the database, buffers and counters end as `Flushed` says |
| PgLoader.SettleFlush | PG_initial_loader.py:339-353 | the lookups, defect insert and commit or rollback end as `Settled` says |
| PgLoader.SettledProperties | PG_initial_loader.py:339-353 | settling a flush appends one event and clears the buffers; after a rollback the tables are unchanged; tables only grow; parents resolved; one more flush |
| PgLoader.CheckFlush | PG_initial_loader.py:332-354 | the flush check ends as `Check` says |
| PgLoader.CheckProperties | PG_initial_loader.py:332-354 | the flush check keeps the count, keeps flushes within `processed / BATCH_SIZE`, only grows the tables and keeps parents resolved |
| PgLoader.ProcessLine | PG_initial_loader.py:316-354 | one iteration of the line loop ends as `Step` says |
| PgLoader.ScanLines | PG_initial_loader.py:314-357 | the database, buffers and counters end as `Lines` says |
| PgLoader.ScanFile | PG_initial_loader.py:314-378 | tables, counters and status end as `Run` says |
| PgLoader.ProcessFile | PG_initial_loader.py:297-392 | tables, counters and ledger end as `Run` says; the journal is STARTED, the flush outcomes, the final status |
| PgCopy.StageVehicles | PG_initial_loader.py:197-219 | a vehicle is staged for a registration iff some line decodes to an object with that truthy registration |
| PgCopy.StageLineParents | PG_initial_loader.py:197-239 | one line keeps every staged row's parent staged |
| PgCopy.StageParents | PG_initial_loader.py:194-239 | every staged test follows its vehicle, every staged defect a test with its registration and cleaned date |
| PgCopy.CsvField | PG_initial_loader.py:190-192 | a field read back by `COPY ... WITH CSV` is NULL exactly when it was `None` or empty, and is kept otherwise |
| PgCopy.CsvScalar | PG_initial_loader.py:190-192 | the engine size read back is NULL exactly when it was null or an empty string, and is kept otherwise |
| PgCopy.ReadBackRegistrations | PG_initial_loader.py:252-255 | reading back keeps the staged registrations |
| PgCopy.ReadBackParents | PG_initial_loader.py:256-272 | after the read-back, every staged defect whose date is not NULL has a test under the same key |
| PgCopy.JoinOne | PG_initial_loader.py:273-279 | one `defects` row per matching test, carrying that test's id |
| PgCopy.JoinRows | PG_initial_loader.py:273-279 | every joined row points at an existing test |
| PgCopy.AtMostOneMatch | PG_initial_loader.py:277-278 | under unique test keys a key matches at most one test |
| PgCopy.JoinAgreesWithLookup | PG_initial_loader.py:273-279 | under unique keys, and given the same staged keys, the join inserts exactly what row mode's lookups insert |
| PgCopy.JoinRepeatsOnDuplicateKeys | PG_initial_loader.py:273-279 | with two tests under one key the join inserts a staged defect twice |
| PgCopy.JoinKeepsResolvable | PG_initial_loader.py:273-279 | a staged defect with a date whose key has a test is never dropped: the join yields at least `CountDated` rows, counting dates that are not NULL |
| PgCopy.RunCopyProperties | PG_initial_loader.py:174-293 | the database is touched only when all three temp files exist and reading finished. Then one transaction commits the whole staging iff every statement succeeds and every staged registration is new, and otherwise leaves the tables unchanged. After a commit: the tests are appended as `COPY` reads them back, the vehicle keys gain the staged registrations, and parents stay resolved. At least `CountDated` of the read-back defects are added, so a defect whose cleaned date is empty is not counted |
| PgCopy.LoadedProperties | PG_initial_loader.py:252-279 | a committed load appends the read-back tests, keeps the stored defects first, keeps parents resolved, adds the staged registrations and at least `CountDated` read-back defects |
| PgCopy.LoadedJoinCount | PG_initial_loader.py:269-279 | the join after a load yields at least one row for every read-back defect whose date is not NULL |
| PgCopy.NullMatchesNothing | PG_initial_loader.py:277-278 | a NULL completed date matches no test |
| PgCopy.EmptyDateJoinsNothing | PG_initial_loader.py:231-237 | a defect whose cleaned date is empty (a raw `"Z"`) is read back with a NULL date and joins no test |
| PgCopy.LoneZDefectNotLoaded | PG_initial_loader.py:203-279 | one line whose test has the date `"Z"` and one defect, loaded into empty tables: the load commits, the test is stored with a NULL date, and no defect is stored |
| PgCopy.CopyRerunRollsBack | PG_initial_loader.py:252-255 | after a committed load of a file with a registration, loading it again fails `COPY vehicles` on the key and rolls back, whatever the other statements do, leaving the tables as the first load left them |
| PgCopy.WriteDefects | PG_initial_loader.py:230-237 | writes exactly the rows of `ExpandDefects` and reports whether the loop completed |
| PgCopy.WriteTest | PG_initial_loader.py:221-237 | writes the test row, then its defects' rows |
| PgCopy.WriteTestItem | PG_initial_loader.py:220-237 | one element of the `motTests` walk writes exactly the rows `Expand` adds for it |
| PgCopy.ExpansionRowsHaveTests | PG_initial_loader.py:220-237 | every defect CSV row written for a vehicle has a test row with its registration and cleaned completed date |
| PgCopy.WriteTests | PG_initial_loader.py:220-237 | writes exactly what `Expand` records and reports whether the loop completed |
| PgCopy.WriteLine | PG_initial_loader.py:197-239 | the CSV files end as `StageLine` says |
| PgCopy.WriteLines | PG_initial_loader.py:195-239 | from empty files, the CSV files end as `Stage` of the lines |
| PgCopy.CopyLoad | PG_initial_loader.py:249-285 | reads the CSV files back as `COPY` does and commits iff every statement succeeds and every staged registration is new; the tables end `Loaded` or unchanged; the journal gains one commit or rollback |
| PgCopy.RemoveTempFiles | PG_initial_loader.py:286-293 | removes exactly the temp files that were created, in order |
| PgCopy.ProcessFileCopy | PG_initial_loader.py:174-293 | tables and journal end as `RunCopy` says; the ledger is untouched; exactly the created temp files are removed |
| PgMain.MissingVars | PG_initial_loader.py:26-30 | at most the four required names |
| PgMain.MissingAmongIff | PG_initial_loader.py:27 | a name is reported iff it is required and unset or empty |
| PgMain.SettingsComplete | PG_initial_loader.py:26-30 | nothing is missing iff all four settings are present and non-empty |
| PgMain.Listed | PG_initial_loader.py:436-445 | at most the listed names |
| PgMain.ListedIff | PG_initial_loader.py:436-445 | a name is submitted iff it is listed, ends in `.json.gz`, its status query did not raise, and it is not COMPLETED |
| PgMain.RowFileNoTriggerSwitch | PG_initial_loader.py:297-392 | a row-mode file only appends events, none of them a trigger switch |
| PgMain.StepNoTriggerSwitch | PG_initial_loader.py:316-354 | one line of the row loop appends no trigger switch |
| PgMain.LinesNoTriggerSwitch | PG_initial_loader.py:314-357 | the whole row loop appends no trigger switch |
| PgMain.RowFileOutcome | PG_initial_loader.py:297-392 | one row-mode file ends COMPLETED or FAILED, and with all statements succeeding COMPLETED iff read whole with no raising line; other rows untouched; tables only grow; parents resolved |
| PgMain.RunRowsEvents | PG_initial_loader.py:450-462 | the row-mode files only append events, none a trigger switch |
| PgMain.CopyFileNoTriggerSwitch | PG_initial_loader.py:174-293 | a COPY file appends at most one event, a commit or rollback |
| PgMain.RunCopiesEvents | PG_initial_loader.py:450-462 | the COPY files only append events, none a trigger switch |
| PgMain.RunCopiesKeepLedger | PG_initial_loader.py:450-462 | COPY mode leaves `import_log` unchanged |
| PgMain.RunRowsOutcome | PG_initial_loader.py:450-462 | each submitted file ends COMPLETED or FAILED, and with all statements succeeding COMPLETED iff read whole with no raising line; other rows untouched; tables only grow; parents resolved |
| PgMain.RunCopiesResolved | PG_initial_loader.py:450-462 | COPY mode keeps every defect attached to an existing test |
| PgMain.MainEarlyExits | PG_initial_loader.py:412-448 | missing settings or a failed pool change nothing and exit with an error; a failed listing only switches triggers off and on and exits with an error; the run finishes normally iff both settings/pool and listing succeed |
| PgMain.MainBracketsTriggers | PG_initial_loader.py:428-466 | once the pool is open, the earlier events are kept, the first new event is triggers-off, the last is triggers-on, and none in between switches triggers |
| PgMain.MainSubmits | PG_initial_loader.py:412-462 | a name is submitted iff `main` started, the listing succeeded and holds it, it ends in `.json.gz`, its query did not raise, and it is not COMPLETED |
| PgMain.MainRowLedger | PG_initial_loader.py:436-462 | in row mode each submitted file ends COMPLETED or FAILED (COMPLETED iff clean, when statements succeed); other rows untouched; tables only grow; parents resolved |
| PgMain.MainCopyResubmits | PG_initial_loader.py:436-452 | in COPY mode the ledger is unchanged, so a second `main` submits the same files again; parents stay resolved |
| PgMain.CopyFileLoggedSkipped | PG_initial_loader.py:436-445 | with each COPY-mode file marked COMPLETED on commit and FAILED otherwise, a committed file is not listed by the next `main`, and an uncommitted one is listed again when its query succeeds; tables, events and other rows are as in the unmarked run |
| PgMain.ListFiles | PG_initial_loader.py:436-445 | returns `Listed` for the current ledger |
| PgMain.ProcessRows | PG_initial_loader.py:450-462 | the database ends as `RunRows` says |
| PgMain.ProcessCopies | PG_initial_loader.py:450-462 | the database ends as `RunCopies` says |
| PgMain.RunMain | PG_initial_loader.py:412-468 | the database, exit and submitted files end as `Main` says; triggers are on afterwards whenever `main` got past the pool |

## Left out

- Network and OAuth: `get_access_token`, `list_dvla_files`, the download loop of `delta_loader.py` and `initial_bulk_download.py`. The listing is a parameter; whether a file is already on disk is a parameter.
- gzip, zip, CSV writing, temporary-file and directory handling: a file's content is a `Stream` of decoded lines; archives are given as their extracted files; temp-file creation is a count of the files the file system lets `process_file_copy` create; unlink errors are ignored as the source ignores them.
- JSON parsing and SQL text: a line is given already decoded; SQL statements are functions on the tables, and their success is an oracle parameter.
- Thread pools and connection pools: files are run one at a time in submission order; the pool's other interleavings are not modelled. The dead thread-name branch at `initial_loader.py:343-349` is not modelled.
- Ledger writes, commits, connection acquisition and `disable_indexes`/`enable_indexes` are assumed to succeed; only the statements named in each oracle fail.
- Timestamps, logging, argparse, `validate_env_vars` of `delta_loader.py`, and the report at the end of `delta_loader.py`'s `main`.
- The `**mt`/`**d` spread in `PG_initial_loader.py:326-328`, which lets a test's own `registration` or `completedDate` key override the vehicle's: buffered rows always carry the vehicle's registration and the test's date.
- `int()` on strings with whitespace or underscores, and on floats: the engine size accepts an optional sign and ASCII digits `0`-`9` only; Python's `int()` also accepts other Unicode decimal digits, which are not modelled.
- Non-string dates and registrations, and non-boolean `dangerous`: the fields are modelled as optional strings (and an optional boolean).
- A non-positive `BATCH_SIZE` (`delta_loader.py:52` reads it from the environment): the model requires a positive batch size.
- `test_actual_import` in `test_single_file.py` and the other helper scripts.
- `retry_failed_files`' zip branch: a retried name is run as a single file.
- `PgCopy.Loaded`: `vehicles` is taken to be keyed by registration, so `COPY vehicles` fails on a registration already stored or staged twice. The schema is not in the source; row mode's duplicate probe relies on the same key. In row mode, two buffered vehicles with the same new registration are both sent, and the failure this causes is one of the oracle's outcomes.
- `PgCopy.ReadVehicleRow`: the pass-through columns in `details` are not read back, so an empty one there is not turned into NULL.
- `PgCopy.JoinRows`: rows come out in staged order, then by test id; SQL promises no order.
- `Store.FirstMatchingTest`: `LIMIT 1` without `ORDER BY` is modelled as the lowest id.
- `Store.Matches`: `completed_date` is compared as the cleaned string, not as a `TIMESTAMP`. A cleaned date that is not a valid timestamp, such as the `''` row mode sends for a raw `"Z"`, would make PostgreSQL reject the statement; here it is stored and compared as a string.
- `Store.UpsertTests`: MySQL's uniqueness of `(registration, completed_date)` in `mot_tests` is assumed, since the schema is not in the source.
- `PgLoader.Flushed`: an abandoned transaction (the lookup raising in an aborted transaction) is modelled as a rollback. In the source the raise skips `pool.putconn(conn)` (`PG_initial_loader.py:352` and `:378`), so the connection is never returned. It stays checked out in its aborted transaction until `pool.closeall()` at `PG_initial_loader.py:467` closes it at the end of `main`, and PostgreSQL then rolls the transaction back. The pool is one connection smaller until then; that falls under connection acquisition, which is assumed to succeed.
- PgMain.Listed: `checkFails` may be any set of names. In the source, one failed `is_file_imported` aborts the shared listing connection's transaction, so every later status query raises too and every later name is skipped (`PG_initial_loader.py:436-445`). That case is the oracle that fails from the first failing name on; the lemmas hold for it as for any other, but the model does not force this shape.
- The `NameError` raised by each `sys.exit(1)` of `PG_initial_loader.py` is modelled as an error exit; its traceback is not.
- MySqlBatch.Expand: a test whose `defects` value is null or a number makes `for defect in defects` raise `TypeError` after its vehicle and the test itself were buffered (`delta_loader.py:336-337`, `initial_loader.py:226-227` and `initial_loader.py:285-286`), so the source does not count that line; here `defects` is always a list, so the line is counted. A string or an object as `defects` is iterated as its characters or keys, which a decoded list of that length stands for. In `PG_initial_loader.py` a null or number `defects` raises as a non-object element does, which is modelled.
- DeltaLoader.RerunStable: the natural-key statements cover dated test rows only. A test with a missing or empty completed date has a NULL key, matches nothing, and is inserted again by every run, as in the source. The same holds for InitialLoader.RerunStable.
- DeltaLoader.NonArchiveSelectedAgain: which downloads are zip archives is a parameter (`archives`), because `zipfile.is_zipfile` reads the file.
- PgCopy.JoinAgreesWithLookup: compares the join with row mode's lookups on the same keys. COPY reads an empty cleaned date back as NULL, which then matches nothing. Row mode sends `''` as the parameter, which the model compares as a string (see `Store.Matches`).

## Findings

| source | as written | input that shows it | evidently intended | confidence | as-written member | corrected member |
|---|---|---|---|---|---|---|
| PG_initial_loader.py:128-154 | `batch_insert_mot_tests` plain-inserts every buffered test, so a re-run of a file appends all of its tests again | a file with one vehicle holding one test with a completed date, processed twice with every statement succeeding: two `mot_tests` rows with the same registration and completed date | re-running a file creates no duplicate test: a test whose `(registration, completed_date)` is stored is skipped | not executed; assumes no unique key on those columns, since the schema is not in the source | PgLoader.RerunAddsTestsAgain | Store.InsertNewTestsRerun |
| PG_initial_loader.py:436-452 | `process_file_copy` never writes `import_log`, although `main` lists only files that `is_file_imported` does not report, so every later `main` submits every file again; a file already loaded fails `COPY vehicles` on the registration key and rolls back | one file with one registration, loaded by one COPY-mode `main`, then a second COPY-mode `main` over the same directory: the file is submitted again and its load rolls back | a file whose load committed is marked COMPLETED, as row mode marks its files, and is skipped by the next `main` | not executed; assumes the registration key on `vehicles`, since the schema is not in the source | PgCopy.CopyRerunRollsBack | PgMain.CopyFileLoggedSkipped |
