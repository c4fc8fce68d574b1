# Evidence pipeline: a verified model

This project models, in Dafny, how the bridge comes to say that a parent channel is
completely captured, and the append-only ledger that the captured text goes into. It
proves what the pieces promise, over all inputs and all runs.

- **Completeness store** (`Text`, `Framing`, `Times`, `Receipts`, `CompletenessTables`,
  `CompletenessStore`, `AuditTheorems`, `StoreRuns`, `AuditLog`, `AcceptedCalls`, `AuditRows`,
  `AuditReports`, `Refusals`): scans with scope receipts, child certificates, and an audit
  that retires certificates and gives the verdict. The class changes its tables as the
  program does; the verdict is characterised for arbitrary table contents, and for every log
  of calls without mentioning tables.
- **Inventory producer** (`Paging`, `ArchiveInventory`, `ArchiveByTime`, `ScopeInventory`,
  `ArchiveFields`, `InventoryFields`, `InventoryFit`, `InventorySweep`): the cursor loop over
  archive pages, the receipts built from it, and the proof that producer and store fit
  together, for any page source and up to a stable audit of an unchanged server.
- **Ledger and its writers** (`Ledger`, `LedgerBlocks`, `Registry`, `Ingest`, `CaptureBatch`,
  `LegacyIngest`, `LegacyRuns`, `LegacyCalls`, `LedgerFields`, `LegacyFields`, `EventFields`,
  `EventIds`, `ExternalImport`, `ImportRuns`, `ImportInspection`, `ImportFields`, `ImportLocks`,
  `LedgerRuns`): a file of many hash-chained streams, the append transaction, message
  ingest, legacy ingest, and the external import as a compare-and-swap protocol whose steps
  interleave with other writers.
- **Cache parser and record export** (`SimpleCache`, `CacheBytes`, `Snowflake`, `ChannelMap`,
  `RecordExport`, `ExportReport`, `ExportRecords`, `ExportOutputs`, `ExportFields`): the
  binary parser with the printer it undoes, and the select, count, sort, chunk and write
  pass whose output the ingest accepts.
- **Two loops** (`RestBackfill`, `BaselineLint`): the REST backfill as `take`, the counted
  baseline as multiset difference.

The modules named after fields, rows, bytes, calls, reports and refusals state the main
results once more on the fields of what goes in and comes out, without the predicates of
the program that the results are about.

SHA-256, `stable_text_hash`, `canonical_event_hash` and the redaction of secrets are
function parameters, so every theorem holds for all of them. Where digests are compared,
freedom from collisions is a hypothesis on the finitely many texts involved; the framing in
front of the hash is proved. A dictionary field that may be missing, null or of another
type is a `Raw` value. The page source, the HTTP call, the clock and the steps of other
processes are parameters too.

Some properties one might expect do not hold of the code. Each has an input for which it
fails, and its exact condition.

- The importer locks the name `canonical-text-snapshots`, while ledger writers lock that
  name followed by a key (`external_snapshot_import.py` line 199, `core.py` lines
  1503-1515). They do not exclude each other: from every ledger that admits an import a run
  exists in which the swap drops a row a writer had committed
  (`ImportLocks.ProgramCanLoseARow`). No row is ever lost exactly when the names agree
  (`ImportLocks.LosesNothingIffSharedLock`). Answers are honest either way.
- An enumeration that claims the end need not have seen every thread. Against a server that
  answers with what was archived strictly before the cursor, a page that ends
  between two threads of one archive time passes over the second, and that is the only way
  (`ArchiveByTime.CompleteIffNoTie`, `ArchiveByTime.TieLosesThread`).
- Event ids are hashes of parts joined with a bar, not framed: an ingest is refused exactly
  when another event has the same text (`EventIds.IngestSucceedsOnTexts`,
  `EventIds.LegacyExactOnTexts`), and two streams, or two legacy rows, can have it
  (`EventIds.MovedBarRefuses`, `EventIds.BarRowsAreRefused`).
- The records of a channel are strictly ordered by (timestamp, id) exactly when no two share
  timestamp and id value; the id pattern admits zeros in front, other Unicode digits and a
  final newline, so two ids can be one number (`ExportRecords.ChannelOrderExact`,
  `ExportRecords.OrderNeedNotBeStrict`).
- For the same reason two channels can share a record file, and then the later one replaces
  the earlier (`ExportOutputs.NothingOverwrittenExact`, `ExportOutputs.NewlineChannelsOverwrite`).
- The producer accepts ids made of white space only, which the store refuses
  (`InventorySweep.SweepIsRecorded`, `InventorySweep.BlankIdIsBuiltAndRefused`).
- The REST backfill raises on a page that holds items but no object, and only then
  (`RestBackfill.RaisesExact`).
- A repeated registration adds nothing exactly when its URL is not padded with white space
  or the first offer added nothing (`Registry.RepeatAddsNothingExact`).

`dafny verify dfyconfig.toml` checks the whole project.

## Model

| member | source | states |
|---|---|---|
| Framing.UnframeOfFrame | src/discord_context_bridge/completeness_store.py:38-40 | Length-framed text can be read back part by part, for any strings, including ones made of digits and colons. |
| Framing.FrameInjective | src/discord_context_bridge/completeness_store.py:38-40 | Two lists of parts frame to one text only if they are the same list. |
| Framing.IdsTextIsSet | src/discord_context_bridge/completeness_store.py:38-40 | The text hashed for `sorted(set(xs))` equals that for `sorted(set(ys))` exactly when the two sets of ids are equal: order and repeats vanish, nothing else does. |
| Framing.DigestIsSet | src/discord_context_bridge/completeness_store.py:38-40 | Where the two texts do not collide under SHA-256, equal digests mean equal sets. |
| Framing.AttemptRecoverable | src/discord_context_bridge/acquisition_gate.py:32-36 | Base capture id and attempt id can be read back from the framed attempt text. |
| Framing.AttemptIdUnique | src/discord_context_bridge/acquisition_gate.py:15-36 | Two accepted attempt identities get one capture id exactly when they are the same identity (no collision between the two texts). |
| Framing.AttemptExact | src/discord_context_bridge/acquisition_gate.py:15-36 | Which identities get a capture id, character by character, and which text it is the digest of. |
| Framing.FramedTexts | src/discord_context_bridge/completeness_store.py:38-40 | The framing to the letter, on texts with digits, colons and an empty part; repeats and order vanish before it. |
| Text.LessExact | src/discord_context_bridge/completeness_store.py:38-40 | The order that `sorted` puts ids in: a proper prefix first, and otherwise the first difference decides. |
| Text.DecimalIsPlain | src/discord_context_bridge/completeness_store.py:38-40 | The lengths in front of the parts are written without zeros in front. |
| Text.StripExact | src/discord_context_bridge/ingest.py:98-104 | Stripping cuts off white space at both ends and no more. |
| Text.SpacesAre | src/discord_context_bridge/ingest.py:98-104 | The characters that it cuts off, one by one. |
| Times.FromMicrosComplete | src/discord_context_bridge/completeness_store.py:43-48 | Converting an instant to UTC civil time and back loses nothing, over the whole range of years 1 to 9999. |
| Times.IsoOrder | src/discord_context_bridge/completeness_store.py:43-48 | The text of an earlier UTC time sorts first, with or without a fractional part. |
| Times.TextOrderIsTimeOrder | src/discord_context_bridge/completeness_store.py:43-48 | The order of the stored time texts is the order of the instants, for any two offsets. |
| Times.NormalizeTwice | src/discord_context_bridge/completeness_store.py:43-48 | Normalising a normalised time changes nothing. |
| Times.NormalizedExact | src/discord_context_bridge/completeness_store.py:43-48 | A time is accepted exactly when some UTC civil time is its civil time minus its offset, and that time is what is stored. |
| Times.OnlyAwareTimes | src/discord_context_bridge/completeness_store.py:46-47 | A time without an offset is refused. |
| Times.FurtherEastIsEarlier | src/discord_context_bridge/completeness_store.py:43-48 | Of one civil time, the larger offset is the earlier text. |
| Times.MicrosIs | src/discord_context_bridge/completeness_store.py:43-48 | The instant of a civil time in closed form: leap years, lengths of months, hours, minutes, seconds and microseconds. |
| Times.TimesToTheLetter | src/discord_context_bridge/completeness_store.py:43-48 | Stored texts to the letter, with offsets to either side of midnight and of a year. |
| Receipts.NormalizeScopeReceipts | src/discord_context_bridge/completeness_store.py:114-195 | The loop over the submitted receipts, against the fold that says which error comes first and what is kept. |
| Receipts.AcceptedIffAcceptable | src/discord_context_bridge/completeness_store.py:77-111 | One receipt is refused only for what was submitted; the check of its normalised form never fires, and an accepted receipt is stored in valid form. |
| Receipts.NormalizationAccepts | src/discord_context_bridge/completeness_store.py:114-195 | A submission is accepted exactly when every receipt is acceptable for an applicable scope and no thread comes twice, within a scope or across scopes. |
| Receipts.NormalizationKeeps | src/discord_context_bridge/completeness_store.py:114-195 | An accepted submission keeps exactly the submitted ids and one valid receipt per submitted scope. |
| Refusals.ReceiptRefusedExact | src/discord_context_bridge/completeness_store.py:126-163 | Which of its checks refuses a submitted receipt, for each of them, on the submitted fields. |
| Refusals.ScanRefusedExact | src/discord_context_bridge/completeness_store.py:312-350 | Which scan calls are refused for their names, their evidence or a repeated id. |
| Refusals.CertificateRefusedExact | src/discord_context_bridge/completeness_store.py:387-467 | Which certificate calls are refused, for each error, in the order of the checks. |
| CompletenessStore.CompletenessStore.constructor | src/discord_context_bridge/completeness_store.py:238-310 | Opening a store keeps the rows it finds; a new file opens with empty tables. |
| CompletenessStore.CompletenessStore.RecordInventoryScan | src/discord_context_bridge/completeness_store.py:312-385 | The new tables, every column included, or the error with the tables untouched, for canonical and legacy scans. |
| CompletenessStore.CompletenessStore.RecordChildCertificate | src/discord_context_bridge/completeness_store.py:387-467 | Upsert of one certificate, and every refusal in the order of the checks, with the tables untouched. |
| CompletenessStore.CompletenessStore.RetireAbsentCertificates | src/discord_context_bridge/completeness_store.py:469-513 | The loop moves exactly the certificates absent from the latest inventory into the log, and nothing when the inventory is not stable. |
| CompletenessStore.CompletenessStore.AuditParent | src/discord_context_bridge/completeness_store.py:515-748 | The audit retires and reports: status, counts and the blockers, each listed once. |
| CompletenessStore.GroupMembership | src/discord_context_bridge/completeness_store.py:542-549 | The loop that groups the membership rows of a scan by scope loses no row and repeats none. |
| CompletenessStore.VerifySaved | src/discord_context_bridge/completeness_store.py:539-565 | The comparison of counts and digests on lists decides whether receipts, totals and membership rows of a scan agree as sets. |
| CompletenessStore.ReviewCertificates | src/discord_context_bridge/completeness_store.py:687-715 | The loop over the threads finds the strict-full ones and raises exactly the blockers that some thread gives rise to. |
| AuditTheorems.LatestTwoExact | src/discord_context_bridge/completeness_store.py:526-533 | The two rows the audit reads are the two newest of the parent by time, then by row id, and there are two whenever the parent has two. |
| AuditTheorems.SameInventoryIsSets | src/discord_context_bridge/completeness_store.py:591-614 | Two complete scans count as the same inventory exactly when they name one kind of parent and the same threads scope by scope. |
| AuditTheorems.FullIsStableAndCertified | src/discord_context_bridge/completeness_store.py:515-748 | The verdict is `full` exactly for a stable inventory all of whose threads hold strict-full certificates, whatever is in the database. |
| AuditTheorems.FullExact | src/discord_context_bridge/completeness_store.py:515-748 | The same with thread sets instead of digests, for arbitrary database contents, tampered ones included. |
| AuditTheorems.RetirementConserves | src/discord_context_bridge/completeness_store.py:469-513 | Certificates before = certificates after + retired; every other certificate, every scan and every parent stays; nothing moves when the inventory is not stable. |
| AuditTheorems.RetirementIsLogged | src/discord_context_bridge/completeness_store.py:485-505 | Each retired certificate leaves exactly one row in the retirement log, and older rows stay. |
| AuditTheorems.AuditSettles | src/discord_context_bridge/completeness_store.py:665-685 | Auditing again at once changes no table and repeats the verdict, with zero retired. |
| AuditRows.ReceiptSoundIs | src/discord_context_bridge/completeness_store.py:77-111 | Which stored receipts count as evidence, field by field. |
| AuditRows.ReconciledByFields | src/discord_context_bridge/completeness_store.py:537-565 | The saved evidence of a row agrees exactly when its receipts are sound and its columns agree with the membership rows, in all and scope by scope; the sum of counts then agrees by itself. |
| AuditRows.FullByRows | src/discord_context_bridge/completeness_store.py:515-748 | For arbitrary tables: `full` exactly when the two newest rows prove the same threads and each of these has a certificate that says full, confirmed, with messages, no gap, no retry, equal attachment counts and no blocker. Column by column. |
| AuditReports.BlockersByRows | src/discord_context_bridge/completeness_store.py:526-715 | Each of the fifteen blockers is raised exactly under its own condition on the columns. |
| AuditReports.ReportByRows | src/discord_context_bridge/completeness_store.py:716-748 | Every other field of the report, from the columns: counts, flags, required scopes, evidence model, locked threads. |
| AuditReports.AuditByRows | src/discord_context_bridge/completeness_store.py:515-748 | The whole audit on arbitrary tables: blockers and fields of its report, and which certificates it retires. |
| AuditLog.BackdatedCallIsIgnored | src/discord_context_bridge/completeness_store.py:312-385 | On every log: a scan call whose instant lies before the two latest accepted scans of its parent, at any offset, changes the verdict of no parent. |
| StoreRuns.StoredRowReconciles | src/discord_context_bridge/completeness_store.py:537-565 | A stored canonical scan agrees with its membership rows: per-scope counts and digests, total count and total digest. |
| StoreRuns.ReachableGood | src/discord_context_bridge/completeness_store.py:312-513 | After any sequence of calls every canonical scan reconciles, and no two threads of one parent hold one capture id. |
| StoreRuns.MismatchMeansLegacy | src/discord_context_bridge/completeness_store.py:537-565 | In a reachable store `inventory_saved_evidence_mismatch` is raised exactly when one of the two latest scans is a legacy scan. |
| AuditLog.StableIsSettled | src/discord_context_bridge/completeness_store.py:567-614 | The audit finds an inventory stable exactly when the two latest accepted scan calls cover all required scopes and submitted the same threads, scope by scope. |
| AuditLog.CertificatesAreStanding | src/discord_context_bridge/completeness_store.py:387-513 | A stored certificate is the last one accepted for its thread that no audit has retired since, over every log of calls. |
| AuditLog.FullOverRuns | src/discord_context_bridge/completeness_store.py:515-748 | After any sequence of calls from an empty store the audit says `full` exactly when the two latest accepted scans settle the inventory and every submitted thread has a standing strict-full certificate; stated on the log of calls alone. |
| AcceptedCalls.NewRowExact | src/discord_context_bridge/completeness_store.py:312-350 | Which scan calls are fit to be stored, on their fields: names that are not blank, sound evidence, no repeated thread, a time that names an instant. |
| AcceptedCalls.ScanAcceptedExact | src/discord_context_bridge/completeness_store.py:312-385 | In every log a scan call is accepted exactly when it is fit and no earlier accepted call of its parent had its scan id. |
| AcceptedCalls.ReceiptsRow | src/discord_context_bridge/completeness_store.py:164-195 | What is stored of each submitted receipt, field by field, the digests of cursor and ids included. |
| AcceptedCalls.FlagsRow | src/discord_context_bridge/completeness_store.py:312-385 | The columns that a scan without receipts leaves. |
| AcceptedCalls.NewCertificateExact | src/discord_context_bridge/completeness_store.py:387-467 | Which certificate calls are fit, and every column of the certificate they leave. |
| AcceptedCalls.CertificateAcceptedExact | src/discord_context_bridge/completeness_store.py:387-467 | In every log a certificate call is accepted exactly when it is fit, its parent was scanned before, and no other thread of the parent holds its capture id. |
| ArchiveInventory.EnumerateArchivePages | src/discord_context_bridge/archive_inventory.py:40-103 | The loop with its dictionary and set of cursors returns what the walk over the history of pages gives; at most `max_pages` requests, no cursor sent twice, also when it raises. |
| ArchiveInventory.StorePage | src/discord_context_bridge/archive_inventory.py:70-79 | Items enter the dictionary in order, up to the first bad one. |
| ArchiveInventory.EnumerateExact | src/discord_context_bridge/archive_inventory.py:59-103 | Against any page source: it succeeds exactly when a chain of pages exists that ends at a page saying there is no more or at the page limit, and returns just that chain; `terminal_reached` only on the word of the last page. |
| ArchiveInventory.CollectedMeans | src/discord_context_bridge/archive_inventory.py:77-103 | One record per id received, the last one that came under it, at the place of the first. |
| ArchiveInventory.PagesNeededIsCeiling | src/discord_context_bridge/archive_inventory.py:59-103 | The page count in the next row is `max(1, ceil(k / size))`. |
| ArchiveInventory.PaginationComplete | src/discord_context_bridge/archive_inventory.py:40-103 | Against a faithful `before` server with distinct ids and cursors it never raises, makes exactly `min(max_pages, max(1, ceil(k / size)))` requests, returns the first pages of the listing, and all of it when it says terminal. |
| ArchiveFields.CursorExact | src/discord_context_bridge/archive_inventory.py:30-37 | Joined private archives page by the thread id, all others by the archive timestamp; an empty or missing one is an error. |
| ArchiveFields.EnumerateByFields | src/discord_context_bridge/archive_inventory.py:40-103 | Against any page source, on the fields of its responses: success is a complete reading of readable responses, each cursor read off the last thread of the one before; listed is the last thread under each id, in the order in which the ids first came. |
| ArchiveFields.ErrorByFields | src/discord_context_bridge/archive_inventory.py:59-103 | Each error is returned exactly when a reading breaks at a response that gives rise to it; the first bad item of a page decides. |
| ArchiveByTime.CompleteIffNoTie | src/discord_context_bridge/archive_inventory.py:40-103 | Against a server that pages by time, strictly before the cursor: the end is always reached within `ceil(k / size)` pages and claimed; all threads were returned exactly when no page ended between two threads of one archive time. |
| ArchiveByTime.TieLosesThread | src/discord_context_bridge/archive_inventory.py:59-103 | Two threads of one archive time read one by one: `terminal_reached`, and one of them is missing. |
| ScopeInventory.BuildActiveFilteredResult | src/discord_context_bridge/archive_inventory.py:207-240 | The filter loop, its count of threads filtered out and its first error. |
| ScopeInventory.ActiveKeepsOwn | src/discord_context_bridge/archive_inventory.py:185-240 | It succeeds exactly on trusted items and keeps exactly the threads of the parent, all of them. |
| ScopeInventory.TallyScope | src/discord_context_bridge/archive_inventory.py:283-301 | The inner loop over one scope: ids, locked count, first error. |
| ScopeInventory.TallyMeans | src/discord_context_bridge/archive_inventory.py:283-301 | A scope is taken exactly when its items are trusted and no own thread comes twice; it yields the own ids and the locked ones. |
| ScopeInventory.BuildScopeReceiptsInventory | src/discord_context_bridge/archive_inventory.py:243-347 | The program that assembles the inventory, against the fold over the scopes. |
| ScopeInventory.InventoryExact | src/discord_context_bridge/archive_inventory.py:243-347 | An inventory is built exactly from well-formed, duplicate-free offers; scopes are disjoint, thread ids are those offered, sorted; thread and locked totals are the sums over the scopes. |
| ScopeInventory.InventoryFlags | src/discord_context_bridge/archive_inventory.py:323-347 | The flags for older readers repeat what each enumeration said, and the inventory is exhausted exactly when all of them say so and a text channel was authorised. |
| Refusals.TrustedExact | src/discord_context_bridge/archive_inventory.py:185-204 | What is read from one thread: own or foreign under the active scope, an error for another parent elsewhere, and its locked flag. |
| InventoryFields.FilterByFields | src/discord_context_bridge/archive_inventory.py:207-240 | The filter on the fields of the threads: which lists it takes, what it keeps and how many it counts out. |
| InventoryFields.BuildByFields | src/discord_context_bridge/archive_inventory.py:243-322 | An inventory is built exactly from known kinds, given names and time, and for every required scope a list of threads with id, boolean `locked` and no other parent, no id twice. |
| InventoryFields.InventoryByFields | src/discord_context_bridge/archive_inventory.py:293-347 | Every field of every receipt it holds, and its totals: exactly these ids, and as locked exactly those with `locked` true. |
| InventoryFields.ForeignThreadIsRefused | src/discord_context_bridge/archive_inventory.py:200-201 | An archive page with a thread of another parent is never made into an inventory. |
| InventoryFit.ProducerFitsConsumer | src/discord_context_bridge/completeness_store.py:312-385 | For arbitrary scope results: what is built is accepted by the store, with the totals and digest of the inventory, exactly unless an id is blank, a page count is below one, a cursor is no text or the scan id is taken. |
| InventorySweep.SweepIsRecorded | src/discord_context_bridge/archive_inventory.py:40-347 | End to end, for every page source and guild list: an inventory that was built is recorded exactly when parent, scan id and thread ids are not blank and the scan id is new; a blank thread id is refused as such. |
| InventorySweep.BlankIdIsBuiltAndRefused | src/discord_context_bridge/archive_inventory.py:185-240 | The input for which producer and store disagree: one thread with the id of three blanks is built and then refused with `scope_receipt_thread_ids_invalid`. |
| InventoryFit.TourOffersHost | src/discord_context_bridge/archive_inventory.py:243-347 | An exhaustive enumeration offers exactly the threads the server holds, whatever the page sizes. |
| InventoryFit.UnchangedServerIsStable | src/discord_context_bridge/completeness_store.py:567-614 | When the two latest accepted scans are exhaustive, authorised inventories of one unchanged server, the audit finds the inventory stable. |
| Ledger.ValidateTextSnapshotChain | src/discord_context_bridge/core.py:1673-1722 | The validator with its dictionaries of ids and heads, against the fold over the rows. |
| Ledger.ChainExact | src/discord_context_bridge/core.py:1673-1722 | Validation succeeds exactly when no id is bound twice and every row continues the history of its stream; it yields the end of each history. |
| Ledger.StreamsAreConsecutive | src/discord_context_bridge/core.py:1673-1722 | In a valid ledger every stream is numbered 1, 2, 3, ... and linked hash by hash. |
| Ledger.SnapshotStore.Append | src/discord_context_bridge/core.py:1748-1821 | The transaction appends all accepted candidates behind the old rows, or leaves the file untouched. |
| Ledger.CheckCandidates | src/discord_context_bridge/core.py:1774-1806 | The loop over the candidates with its dictionaries decides skip, refuse or append as the ledger so far demands. |
| Ledger.TransactionKeepsChain | src/discord_context_bridge/core.py:1748-1821 | Whatever is offered, an accepted transaction keeps the old ledger as a prefix and the new one valid, so the validation after the loop never fails. |
| Ledger.AppendConcat | src/discord_context_bridge/core.py:1774-1806 | Offering two batches at once is offering one after the other. |
| LedgerFields.RowsByFields | src/discord_context_bridge/core.py:1673-1722 | In a valid ledger the k-th row of a stream bears number k + 1, names k as the number before, quotes the hash of the row before and seals itself; on the fields. |
| LedgerFields.NextRowExact | src/discord_context_bridge/core.py:1673-1722 | Behind a valid ledger a chained row with a new id passes exactly when all of this holds of it. |
| LedgerFields.OfferExact | src/discord_context_bridge/core.py:1774-1806 | What the transaction makes of one row with a new id: taken, or which of its two errors. |
| LedgerFields.TakenIdExact | src/discord_context_bridge/core.py:1774-1792 | A row with a taken id is skipped when it repeats the row of that id, and refused otherwise. |
| LedgerFields.OlderRowIsQuoted | src/discord_context_bridge/core.py:1697-1722 | Behind a row of the older form, the next row quotes the hash that it carries, or else the computed one. |
| LedgerBlocks.BlockIsAppended | src/discord_context_bridge/core.py:1774-1806 | A block of freshly built events is never skipped: it is taken whole exactly when its event ids are new, and lengthens the history of its own stream only. |
| Ingest.BuildMessageEvents | src/discord_context_bridge/ingest.py:546-654 | The loop with its counters, hashes and two dictionaries builds what a search of the whole history before each message gives. |
| Ingest.FillSeen | src/discord_context_bridge/ingest.py:557-571 | The two dictionaries answer every question a backwards search of the history would. |
| Ingest.FlagsExact | src/discord_context_bridge/ingest.py:587-601 | `duplicate_message_id`, `duplicate_content` and `changed` of each event, against all that was observed before it: history and earlier batch. |
| Ingest.LinksExact | src/discord_context_bridge/ingest.py:602-654 | Number, previous-event hash and previous-content hash of each event point at the row before it in its stream; it carries its message, redacted. |
| Ingest.EditsAndRevertsAreChanged | src/discord_context_bridge/ingest.py:587-600 | An edit is flagged as changed and going back to the older text is flagged as changed again; an exact repeat is not. |
| Ingest.EventsConcat | src/discord_context_bridge/ingest.py:587-654 | Building A followed by B is building A, then building B on the longer history. |
| Ingest.IngestAppendsAll | src/discord_context_bridge/ingest.py:328-338 | An accepted ingest appends all its events, in order, to its stream; other streams keep their histories. |
| Ingest.IngestSucceeds | src/discord_context_bridge/ingest.py:328-338 | Ingest succeeds exactly on a valid ledger with new event ids. |
| EventIds.IngestSucceedsOnTexts | src/discord_context_bridge/ingest.py:602-608 | Where no two of the texts hashed collide: ingest succeeds exactly on a valid ledger in which no event has the id text of a new one. The ledger may hold any ids. |
| EventIds.OneStreamTakesAll | src/discord_context_bridge/ingest.py:602-608 | Events of the same stream are never in the way: a ledger of one stream of message events takes every further batch. |
| EventIds.MovedBarRefuses | src/discord_context_bridge/ingest.py:605-607 | The parts are joined with a bar and not framed: for every hash, a bar that moves from capture time to target key gives two streams one event id, and the second ingest is refused. |
| EventIds.BarBehindTimeRefuses | src/discord_context_bridge/ingest.py:605-607 | The input: for every capture time, key and message, the bar standing behind the time in one call and in the key of the other. |
| EventIds.OriginsExist | src/discord_context_bridge/ingest.py:602-608 | For every ledger each id is the hash of some text or of none, so the theorems on texts apply to all ledgers. |
| Ingest.IngestHomomorphism | src/discord_context_bridge/ingest.py:546-654 | Ingesting two batches at once leaves the same ledger, or fails in the same way, as ingesting one after the other. |
| EventFields.IngestByFields | src/discord_context_bridge/ingest.py:546-654 | An accepted batch lengthens its stream by one event per message: each with its number, both links, its own hash, its id text, its flags against everything before, the message redacted, and times, source, URL and title of the call. |
| EventFields.DuplicatesExact | src/discord_context_bridge/ingest.py:339-352 | The duplicates that a report counts are the events flagged as having the content seen last. |
| Ingest.IngestCapture | src/discord_context_bridge/ingest.py:323-352 | The target is registered first and stays registered; then all events of the batch are appended or none. A dry run writes nothing and counts what it would append, and its duplicates. |
| CaptureBatch.BatchExact | src/discord_context_bridge/ingest.py:106-185 | A batch is taken exactly when it is of one flat schema, within both limits and names one target; no row that names a key, URL, title or stream of its own is filed under another. |
| CaptureBatch.BatchByFields | src/discord_context_bridge/ingest.py:106-185 | The same on the fields: 1 to 2000 records of one of two schemas, bodies up to a million characters, no two records in contradiction. |
| CaptureBatch.BatchMeans | src/discord_context_bridge/ingest.py:131-151 | Each field of the batch is the first given value among its records. |
| CaptureBatch.BatchRefusedExact | src/discord_context_bridge/ingest.py:106-185 | Which error refuses which batch. |
| CaptureBatch.NoObjectIsRefused | src/discord_context_bridge/ingest.py:178-187 | A batch with a value that is no object is refused. |
| CaptureBatch.IdentityByFields | src/discord_context_bridge/ingest.py:201-230 | Which text names the target, and under which scheme. |
| Registry.TargetRegistry.Resolve | src/discord_context_bridge/target_registry.py:67-106 | One pass over the entries finds whether a target is known and its last non-empty URL and label. |
| Registry.TargetRegistry.Register | src/discord_context_bridge/target_registry.py:109-164 | An entry is appended unless it says nothing new about a known target. |
| Registry.RegisteredMeans | src/discord_context_bridge/target_registry.py:109-164 | After registering, the target says what was offered, other targets say what they did, and no entry is taken back. |
| Registry.RepeatAddsNothingExact | src/discord_context_bridge/target_registry.py:133-146 | Offering an entry again adds nothing exactly when it added nothing the first time or its URL has no white space around it: a padded URL is stored padded, compared stripped, and added on every call. |
| LegacyIngest.BuildLegacyObservationEvents | src/discord_context_bridge/ingest.py:463-543 | The loop for one target with its dictionary of imported ids, against a search of the records. |
| LegacyIngest.LegacyEventFacts | src/discord_context_bridge/ingest.py:501-541 | The event of one row continues its stream, is what a re-ingest of the row compares with, and flags its content against the row before it. |
| LegacyRuns.GroupingPermutes | src/discord_context_bridge/ingest.py:392-394 | Grouping rows by target loses none and invents none. |
| LegacyRuns.BatchMeans | src/discord_context_bridge/ingest.py:409-418 | The events of a call are built exactly when no row conflicts with what was imported under its id; they carry exactly the new rows, once each, and the rest is counted as skipped. |
| LegacyRuns.GroupsAreAppended | src/discord_context_bridge/ingest.py:409-437 | The transaction takes the events of all targets whole, exactly when their ids are new. |
| LegacyCalls.IngestLegacyObservations | src/discord_context_bridge/ingest.py:355-460 | The whole call on a store and a registry: validation, check before the registry, registrations with their merging, transaction, report. |
| LegacyCalls.ConflictRejectsWhole | src/discord_context_bridge/ingest.py:420-441 | A row whose stored target, times or content differ rejects the call with ledger and registry unchanged. |
| LegacyCalls.LateConflictKeepsLedger | src/discord_context_bridge/ingest.py:420-441 | A conflict that another writer creates after the check still leaves the ledger unchanged; the registrations are made by then. |
| LegacyCalls.LegacyExact | src/discord_context_bridge/ingest.py:384-460 | Exactly when a call succeeds, and that it then appends exactly the new rows and counts all others as skipped. |
| LegacyFields.ValidatedExact | src/discord_context_bridge/ingest.py:355-408 | Which calls are worked on, on their fields: limits, five texts in every row, no id twice, one stream per target. |
| LegacyFields.CallRefusedExact | src/discord_context_bridge/ingest.py:355-408 | Which check refuses which call; among the rows the first bad one decides. |
| LegacyFields.ReplayConflictExact | src/discord_context_bridge/ingest.py:489-499 | A call is refused as a conflict, ledger and registry untouched, exactly when a row has the id of an imported record whose target, time of capture, time of observation or content hash is another. |
| LegacyFields.ChangedTextIsRefused | src/discord_context_bridge/ingest.py:489-499 | So a row that comes back with another text is refused. |
| EventFields.LegacyCallByFields | src/discord_context_bridge/ingest.py:463-543 | An accepted call lengthens every stream by one event per row of its target whose id is new, in order, each with all its fields; nothing else changes. |
| EventFields.RegistrationsByFields | src/discord_context_bridge/ingest.py:420-436 | It registers each target once, with URL and title of its first row. |
| EventIds.LegacyExactOnTexts | src/discord_context_bridge/ingest.py:507-507 | Where no two of the texts hashed collide: a legacy call succeeds exactly on a valid ledger, without conflicts, and when its new rows have id texts of their own. |
| EventIds.BarRowsAreRefused | src/discord_context_bridge/ingest.py:507-507 | For every hash: two valid legacy rows, with a bar moved from the id to the target, are refused on the empty ledger, while their targets stay registered. |
| LegacyCalls.SecondIngestAddsNothing | src/discord_context_bridge/ingest.py:500-516 | The same rows again, at any later time and whatever was appended in between: nothing appended, every row skipped. |
| LegacyCalls.SecondCallKeepsRegistry | src/discord_context_bridge/ingest.py:426-436 | The repeated call adds nothing to the registry either, when the URLs offered have no white space around them. |
| LegacyCalls.LegacyKeepsUnique | src/discord_context_bridge/ingest.py:480-541 | A call keeps each legacy event id at most once in the ledger, the old ledger as prefix and the chain valid. |
| LedgerRuns.EveryWriterKeepsTheLedger | src/discord_context_bridge/ingest.py:546-654 | After any sequence of message ingests, legacy ingests and imports: every stream consecutive and linked, no legacy observation and no import twice, every later file begins with the earlier one. |
| ExternalImport.Inspect | src/discord_context_bridge/external_snapshot_import.py:152-186 | The inspection loop: first problem, and whether the import or its content is present; a row without text or without stream id skips that check. |
| ExternalImport.Stage | src/discord_context_bridge/external_snapshot_import.py:228-261 | The staged copy after transaction and read-back, or the refusal. |
| ExternalImport.StagingMeans | src/discord_context_bridge/external_snapshot_import.py:228-261 | A stage that passes is the store with exactly one event behind it, valid and inspected. |
| ExternalImport.ImportExternalSnapshot | src/discord_context_bridge/external_snapshot_import.py:188-317 | The program step by step, with failures and with changes of the file by others between any two steps, against the step relation of the protocol. |
| ImportFields.InspectionExact | src/discord_context_bridge/external_snapshot_import.py:152-186 | A file passes exactly when its chain is valid and every row fits by text, URL, key, stream and import id; otherwise the first row that does not fit, and its first failing check, decide. |
| ImportFields.StagingExact | src/discord_context_bridge/external_snapshot_import.py:228-261 | A file that passed and does not hold the import is staged exactly when hash, URL, key and ids are sound and the id is new; then with one event behind it, all of whose fields are given. |
| ImportFields.FirstTurn | src/discord_context_bridge/external_snapshot_import.py:188-198 | What the first step answers: failure, a changed store, the finding of the inspection, already present, or ready; and otherwise goes on. |
| ImportFields.ImportExact | src/discord_context_bridge/external_snapshot_import.py:188-317 | A whole import, whatever fails and whatever others do between its steps: exactly when the file is swapped, what it then holds, and exactly when the answer is success. Without a swap the file is what others made of it and the answer claims nothing. |
| ImportRuns.ImportsAreHonest | src/discord_context_bridge/external_snapshot_import.py:279-317 | Whatever the locks and the interleaving: `events_appended` is 1 exactly when this import replaced the file, and a blocked answer with `commit_state` "none" replaced nothing. |
| ImportRuns.SwapsInstallInspected | src/discord_context_bridge/external_snapshot_import.py:257-283 | In every run, under any locks, the file an import installs passes its own inspection and holds the import. |
| ImportInspection.BuiltPassesExact | src/discord_context_bridge/external_snapshot_import.py:152-186 | The row that one import writes passes the inspection of another exactly when the two agree on channel and key and are not two records under one import id. |
| ImportInspection.RunsKeepRows | src/discord_context_bridge/external_snapshot_import.py:152-186 | Under any locks and in every interleaving: when all processes write rows that an inspection passes, every row of the file goes on passing it. |
| ImportInspection.InspectionNeverRefuses | src/discord_context_bridge/external_snapshot_import.py:152-283 | With one lock, `inspect` is true of the file at every moment of such a run, and the import is never refused for what it finds in the file. |
| ImportRuns.SharedLockLosesNothing | src/discord_context_bridge/external_snapshot_import.py:199-294 | With one lock for importers and writers, in every interleaving the file holds exactly what was committed, in order; streams stay chained and no import stands twice. |
| ImportLocks.ProgramLocksDiffer | src/discord_context_bridge/core.py:1503-1515 | The lock the ledger writers take is never the lock the importer takes. |
| ImportLocks.RowsAreLost | src/discord_context_bridge/external_snapshot_import.py:199-281 | Under different lock names, for every hash, every file that admits an import and every writer: the run in which the writer commits between the last check and the swap ends with its rows dropped. |
| ImportLocks.FileIsLossy | src/discord_context_bridge/external_snapshot_import.py:199-281 | So every file that admits an import begins a run that loses a row. |
| ImportLocks.LosesNothingIffSharedLock | src/discord_context_bridge/external_snapshot_import.py:199-199 | For every hash library under which an import is possible at all: no run loses a committed row exactly when the writers take the importer's lock. |
| ImportLocks.EmptyStoreAdmits | src/discord_context_bridge/external_snapshot_import.py:204-261 | An import is possible as soon as any URL names a channel: the empty store admits it. |
| ImportLocks.ProgramCanLoseARow | src/discord_context_bridge/core.py:1503-1515 | As the program names its locks, such a run exists for every hash and from every ledger that admits an import. |
| SimpleCache.ParseOfPrint | src/discord_context_bridge/desktop_cache.py:159-192 | Parsing a printed entry returns its key, body and metadata, with or without key digest and whatever the skipped fields hold. |
| SimpleCache.ParseExact | src/discord_context_bridge/desktop_cache.py:159-192 | The parser accepts exactly the printed entries: its slices and the bytes it skips tile the file. |
| SimpleCache.PrintInjective | src/discord_context_bridge/desktop_cache.py:159-192 | No entry can be read in two ways. |
| SimpleCache.KeyReaderAgrees | src/discord_context_bridge/desktop_cache.py:195-210 | Where the parser succeeds, the streaming reader returns the same key, or refuses it exactly for being empty or over a mebibyte. |
| CacheBytes.ParseByBytes | src/discord_context_bridge/desktop_cache.py:159-192 | The parser accepts exactly the entries, byte by byte: magic numbers, version, little-endian lengths, and 32 digest bytes exactly when the second bit of the flags is set. |
| CacheBytes.KeyByBytes | src/discord_context_bridge/desktop_cache.py:195-210 | What the streaming reader takes, byte by byte, and up to which length. |
| CacheBytes.ErrorsByBytes | src/discord_context_bridge/desktop_cache.py:159-192 | Which error refuses what is no entry. |
| ChannelMap.ChannelMap.AddGuild | src/discord_context_bridge/desktop_cache_records.py:90-100 | A first mapping is kept and credited to its source, a differing later one only counted. |
| ChannelMap.ChannelMap.AddParent | src/discord_context_bridge/desktop_cache_records.py:102-106 | The first parent of a channel is kept. |
| ChannelMap.ChannelMap.LearnHints | src/discord_context_bridge/desktop_cache_records.py:90-106 | Feeding the hints to the object one by one leaves the map that the theorems below are about. |
| ChannelMap.GuildExact | src/discord_context_bridge/desktop_cache_records.py:108-113 | What guild is found for a channel, told by the hints alone: the one named first for it, or else the one named first for the parent named first; none exactly when there is neither. |
| ChannelMap.MappedIffNamed | src/discord_context_bridge/desktop_cache_records.py:90-100 | A channel is mapped exactly when some well-formed hint names a guild for it. |
| ChannelMap.FirstHintWins | src/discord_context_bridge/desktop_cache_records.py:90-100 | It is mapped to the guild named first. |
| ChannelMap.ConflictsAreContradictions | src/discord_context_bridge/desktop_cache_records.py:96-100 | `conflicts` counts exactly the hints that contradict the final mapping. |
| ChannelMap.SourcesAreCredited | src/discord_context_bridge/desktop_cache_records.py:96-98 | The counts per source are the hints that were first to map their channel, and add up to the mapped channels. |
| ChannelMap.UrlsAreDistinct | src/discord_context_bridge/desktop_cache_records.py:256-266 | Two channels never share a URL. |
| ExportFields.GuildByHints | src/discord_context_bridge/desktop_cache_records.py:90-113 | The guild of a channel on the fields of the hints: the first sound one for it, or without any the first for its first parent. |
| ExportFields.UrlByHints | src/discord_context_bridge/desktop_cache_records.py:256-266 | The URL to the letter, with its kind and guild: direct message, thread under guild and parent, channel under guild, or none. |
| ChannelMap.SharedTargetExact | src/discord_context_bridge/desktop_cache_records.py:444-444 | Two channels share the text of a target key exactly when their ids differ in a final newline at most and their URLs agree in front of it. |
| ChannelMap.NewlineSharesTarget | src/discord_context_bridge/desktop_cache_records.py:63-106 | Such channels exist: the id pattern admits a final newline. |
| RecordExport.BestIsFirstOfHighest | src/discord_context_bridge/desktop_cache_records.py:76-77 | The observation chosen for a message is the first of the highest rank. |
| RecordExport.SelectMessages | src/discord_context_bridge/desktop_cache_records.py:392-415 | The selection loop: exclusions by reason and by channel, and the emitted messages of each channel, count the picks exactly. |
| ExportFields.PicksByFields | src/discord_context_bridge/desktop_cache_records.py:392-415 | Of every message seen the first of its latest observations (edit, time seen, entry) is picked, and left out exactly for the reason that applies first. |
| ExportFields.PicksCover | src/discord_context_bridge/desktop_cache_records.py:392-395 | Every message seen is picked once, in ascending order of ids. |
| ExportFields.ExclusionsAreCounted | src/discord_context_bridge/desktop_cache_records.py:402-411 | Each reason is counted as often as a pick has it. |
| RecordExport.BucketsSum | src/discord_context_bridge/desktop_cache_records.py:392-415 | Distinct buckets that hold everything share out the whole weight. |
| ExportReport.Summarise | src/discord_context_bridge/desktop_cache_records.py:428-510 | The loop over the channels: emitted total, server lines, unknown-server and direct-message totals. |
| ExportReport.SeenAddsUp | src/discord_context_bridge/desktop_cache_records.py:392-415 | Unique messages seen = emitted + excluded; the exclusions by reason and those by channel make up the excluded. |
| ExportReport.KindsAddUp | src/discord_context_bridge/desktop_cache_records.py:430-442 | The unknown-server messages, and without direct messages the direct ones, are the exclusions under these reasons. |
| ExportReport.ServersAddUp | src/discord_context_bridge/desktop_cache_records.py:503-510 | Emitted = messages over all servers, plus direct messages when these are included. |
| ExportReport.ServerChannels | src/discord_context_bridge/desktop_cache_records.py:504-510 | A server has a line exactly when one of its channels emits, and its channel count is the number of those channels. |
| ExportReport.CountExport | src/discord_context_bridge/desktop_cache_records.py:392-533 | The counting part of the export, with its totals adding up. |
| ExportRecords.TimeOrderSorts | src/discord_context_bridge/desktop_cache_records.py:429-431 | The messages of a channel are permuted into an order in which none comes before an earlier one. |
| ExportRecords.ChannelOrderExact | src/discord_context_bridge/desktop_cache_records.py:429-431 | No message twice; the order by (timestamp, id) is strict exactly when no two messages share timestamp and id value, and always when the ids are ASCII digits without a zero in front or a final newline. |
| ExportRecords.TiedIdsBreakOrder | src/discord_context_bridge/desktop_cache_records.py:402-431 | Every two accepted ids of one value break it: two messages of one mapped channel and one time are both selected and emitted, and the order is not strict. |
| ExportRecords.OrderNeedNotBeStrict | src/discord_context_bridge/desktop_cache_records.py:62-63 | Such ids exist behind every accepted id: the same with a final newline, and with a zero in front. |
| Snowflake.PlainIdsDiffer | src/discord_context_bridge/desktop_cache_records.py:62-63 | Ids of ASCII digits without a zero in front have one value only if they are one id. |
| Snowflake.TiedIdsAreNotPlain | src/discord_context_bridge/desktop_cache_records.py:62-63 | Of two accepted ids with one value, one has a zero in front, a final newline or other Unicode digits. |
| Snowflake.AsciiIsSnowflake | src/discord_context_bridge/desktop_cache_records.py:62-63 | Of texts in ASCII digits, with or without a final newline, those of 15 to 21 digits are ids. |
| ExportRecords.BuildRows | src/discord_context_bridge/desktop_cache_records.py:462-488 | The loop that builds the rows of a channel, with their ordinals. |
| ExportRecords.RowsAreNumbered | src/discord_context_bridge/desktop_cache_records.py:462-488 | Every emitted message once, in order, with ordinals 0 to n-1. |
| ExportFields.RowsByFields | src/discord_context_bridge/desktop_cache_records.py:462-488 | Every field of every row, with the messages by time and then by the number that the id is. |
| ExportFields.TiesStay | src/discord_context_bridge/desktop_cache_records.py:429-431 | Messages that tie stay in the order in which they came. |
| ExportRecords.ChunksJoin | src/discord_context_bridge/desktop_cache_records.py:489-489 | The chunks join up to the rows; none is empty or over the limit. |
| ExportRecords.ChunksAreIngested | src/discord_context_bridge/ingest.py:106-185 | The ingest takes every chunk whose bodies are within the size limit, and only those, and files it under the one target of the channel. |
| ExportOutputs.WriteRecords | src/discord_context_bridge/desktop_cache_records.py:428-501 | The writing part of the loop: the list of outputs, and what the files hold after all writes. |
| ExportOutputs.OutputsMatchReport | src/discord_context_bridge/desktop_cache_records.py:490-510 | The record counts of the listed files add up to `emitted`, and for every server to its message count. |
| ExportOutputs.FilesByFields | src/discord_context_bridge/desktop_cache_records.py:489-501 | Each listed file: the key of the stripped URL, its part number, its server, and what every row in it carries. |
| ExportOutputs.LatestExact | src/discord_context_bridge/desktop_cache_records.py:460-460 | Its time is the latest at which one of its messages was seen. |
| ExportOutputs.NothingOverwrittenExact | src/discord_context_bridge/desktop_cache_records.py:489-501 | After the export every listed file holds its records exactly when no two channels write under one key with one file each, or with several each. |
| ExportOutputs.NewlineChannelsOverwrite | src/discord_context_bridge/desktop_cache_records.py:444-501 | Two channels whose ids differ in a final newline overwrite each other: both files are listed, and the messages of one channel are gone. |
| RestBackfill.FetchDiscordMessages | scripts/discord_rest_backfill.py:96-130 | The loop with its cursor and remaining count; `remaining` is the termination measure. |
| RestBackfill.BackfillIsTake | scripts/discord_rest_backfill.py:96-130 | Against a newest-first history: the first `min(max(0, limit), n)` messages in at most `ceil(limit / size)` requests for every page size; an HTTP error leaves exactly the full pages before it. |
| RestBackfill.RaisesExact | scripts/discord_rest_backfill.py:96-130 | Against any source: the call raises exactly when the run reaches a request, with messages still wanted, that is answered by a page that holds items but no object; otherwise it returns. |
| RestBackfill.PageWithoutObjectsRaises | scripts/discord_rest_backfill.py:122-125 | Every such page, at any request of the run, makes the call raise. |
| RestBackfill.BackfillByAgeIsTake | scripts/discord_rest_backfill.py:96-130 | The same against a server that answers with what is older than the cursor, for any age of ids that descends strictly. |
| RestBackfill.PageSizeExact | scripts/discord_rest_backfill.py:96-130 | The page size asked for is brought into the range from 1 to 100. |
| BaselineLint.Partition | scripts/lint_capture_store_layout.py:315-325 | The counted loop splits the violations into known and new, each in order. |
| BaselineLint.PartitionCounts | scripts/lint_capture_store_layout.py:315-325 | Each key is known `min(count, baseline)` times and new for the rest. |
| BaselineLint.PartitionConserves | scripts/lint_capture_store_layout.py:315-325 | Known and new together are the violations, duplicates included. |
| BaselineLint.PassesIffCovered | scripts/lint_capture_store_layout.py:327-330 | `ok` holds exactly when the violations are a sub-multiset of the baseline. |
| BaselineLint.FreshBaselinePasses | scripts/lint_capture_store_layout.py:299-329 | A baseline just written lets the same violations pass, in any order. |
| BaselineLint.SelectedExact | scripts/lint_capture_store_layout.py:315-325 | Known are exactly the places at which a violation, path, kind and detail, has occurred no more often than in the baseline; both lists keep the order. |
| BaselineLint.BuildReport | scripts/lint_capture_store_layout.py:270-340 | The report of each mode, and the baseline file it leaves. |

## Left out

- AuditLog.FullOverRuns: assumes that no two of the texts whose digests the log's audits compare collide under SHA-256; nothing can be said without it.
- CompletenessStore.CompletenessStore.AuditParent: the order of the blockers found in child certificates follows Python set iteration, so blockers are compared as a set without repeats; the order of rows in the retirement log is a multiset for the same reason.
- CompletenessStore.CompletenessStore.RecordInventoryScan: thread ids are strings, other element types make the list mistyped; the creation times that the database fills in are not modelled.
- Ledger.ValidateTextSnapshotChain: revocation events and the pairs they form (core.py lines 1569-1670, 1725-1735) are not part of this model; no other writer here produces them.
- Ledger.SnapshotStore.Append: the file is a sequence of rows; encoding, line splitting, link counts and the read-back of what was just written are not modelled.
- Ingest.BuildMessageEvents: the ordinal of a message is an integer or missing; constant metadata fields of an event are not listed.
- Registry.TargetRegistry.Register: an entry is what the two ingests offer, without server label and aliases; a failing write of the registry file is not modelled.
- LegacyCalls.IngestLegacyObservations: the schema check of each row cannot fail behind the dispatch and is omitted.
- ExternalImport.ImportExternalSnapshot: the checks of the source record itself (lines 100-150) are flat conjunctions and taken as passed; a file is read and replaced whole, with directories, descriptors, links and permissions left to the step that may fail.
- ImportRuns.SharedLockLosesNothing: a ledger writer reads and builds in one step and appends in another; its own read-back after the append changes nothing in the file and is not a step.
- ArchiveInventory.EnumerateArchivePages: a page source that raises by itself ends the call and is not modelled; `pages` and cursors handed to the receipt builder are integers and texts, null or of another type.
- SimpleCache.ParseExact: keys are bytes; decoding them and decompressing bodies is not modelled, nor is the refusal of symbolic links.
- RecordExport.SelectMessages: the decimal digits are those of Unicode 14.0, later versions add blocks. Which cache entries are scanned, and how a date header becomes an observation time, is input.
- ExportRecords.ChunksAreIngested: the target key is a non-empty text without surrounding white space, as a hexadecimal digest is.
- ChannelMap.ChannelMap.AddGuild: the labels of channels and guilds are not modelled.
- EventIds.IngestSucceedsOnTexts: assumes that the texts of the new events and those behind the ids of the ledger do not collide under `stable_text_hash`; nothing can be said without it.
- ExportOutputs.WriteRecords: the directory is empty at the start and file names are pairs of key and part; the other files of an export are not modelled.
- `full_capture.py` and the completion gate: conjunctions of flags; the strict-full certificate predicate stands in for them.
- SQL and JSON text, schema migration, file hardening, command line, MCP server, reports and printed messages: storage and plumbing.
- `probe_discord_desktop_cache`, `_walk_dicts` and the collection of channel metadata from arbitrary JSON: they would add easy members only.
