# ollog verification

A Dafny model of the parts of the ollog amateur-radio logbook where a mistake would lose, duplicate or
misattribute contacts, with proofs about them. `dafny verify dfyconfig.toml` checks all of it.

The project has one module per component:

- **ADIF codec.** `Utf8` is a byte-exact UTF-8 encoder and a decoder with U+FFFD for each maximal subpart (RFC 3629
  section 3; Unicode Standard section 3.9). `AdifParser` is the parser's cursor loop, `AdifSerializer` the serializer
  and the export stream, `AdifRoundTrip` what the one makes of the other. Text is a sequence of Unicode scalar values.
- **Row hash.** `Calendar`, `KeyOrder` and `CanonicalHash` model datetimes, key order, canonicalisation and the JSON
  text (strings: RFC 8259 section 7). The payload's text stands for its SHA-256 digest.
- **QSO store.** `QsoModel` and `QsoService` hold the document, its hydration and dump, the two duplicate checks,
  ingest, import, update, soft delete and clear, each as a function on the collection's contents and as a method of the
  class `Collection` that is proved equal to it. `RowHashInvariant` is about all runs of these operations,
  `DuplicateWindow` and `SequentialRuns` about runs one after another, `ImportReport` about reports, `ExportImport`
  about exporting, `LogRoundTrip` about importing an export. `ConcurrentIngest` is about any interleaving of ingest
  tasks, one database call a step, `ConcurrentSpacing` about when those keep active contacts apart, and
  `ConcurrentEdits` about patches and soft deletes that read and write in separate steps. `Failures` has inputs on which
  promises fail.
- **ACLog bridge.** `AclogTags` (the tag scanner), `AclogParser` (commands and full records), `AclogFormats` (the two
  response forms), `AclogRecords` (matching, merging, cached state), `CustomFields` (an operator's custom field
  slots and their mapping), `SyncReader` (message splitting and the manual sync's reader), `BridgeSession` (one
  connection), `BridgeManager` (the reconciler of bridge tasks).
- **Others.** `RangeLookup` (callsign ranges), `RowHashBackfill` and `CollectionMigration` (migrations), `OperatorCache`
  (the UDP cache with its dirty flag). `Text` has the string operations shared by all.

A database collection is a sequence of documents in insertion order, with a unique `_id` and a unique sparse `rowHash`.
The clock (`now`), the order in which a set is walked, the failing writes of a migration and Python's `str` are
parameters. Exceptions are constructors or flags of the results.

## Where the code does not do what is promised

Each of these is stated exactly, with the condition under which the promise does hold.

- Without a header the ADIF round trip returns no record at all as soon as one value contains `<EOH>` in any letter case
  (`AdifRoundTrip.HeaderlessRoundTrip`, `AdifRoundTrip.HeaderlessRoundTripFails`). The export stream has a header and is
  not affected.
- A datetime and the string that is its ISO text get the same row hash (`CanonicalHash.TextCollidesWithDatetime`).
- A stored document with a key named like a model attribute (`id`, `row_hash`, ...) cannot be read back; reading and
  dumping gives a document back exactly when it has all declared keys and none of those (`QsoModel.HydrateThenDump`).
  A patch that sets such a key raises after it has written (`RowHashInvariant.UpdateFieldsResult`); after a patch with
  the key `id` the operator's log cannot be exported (`Failures.PatchedIdBreaksExport`).
- The duplicate window of a contact in the first or last two minutes of the calendar overflows; one such record aborts
  a whole import (`SequentialRuns.ImportCovers`, `LogRoundTrip.ExportThenImport`, `Failures.FirstDayAbortsImport`).
- Soft delete is refused exactly when the same contact was deleted before (`RowHashInvariant.SoftDeleteRefusedIff`); so
  every contact that was entered, deleted and entered again (`Failures.ReenteredCannotBeDeleted`).
- Concurrent ingest tasks keep active contacts of one key more than 120 seconds apart if and only if every insertion
  that writes finds its window still free (`ConcurrentSpacing.SpacedIffWindowsFree`). Two rivals that have both checked
  before either inserts are both stored, unless they are equal outside the excluded fields
  (`ConcurrentSpacing.RivalsBothWrite`, `ConcurrentSpacing.RaceOutcome`).
- Two patches of one document that both read it before either writes leave it with a hash that is not its own
  (`ConcurrentEdits.OverlappingPatchesBreakHash`). Hashes hold in every interleaving if and only if no write lands on a
  document that has changed since it was read (`ConcurrentEdits.HashesHoldIff`).
- An import report can name a record twice: the parser's errors carry a record index too. Each index occurs exactly once
  if and only if none of them carries a record's index (`ImportReport.ImportPartitionsIff`,
  `Failures.BadLengthNamesRecordTwice`).
- A custom field slot may be named `CALL`, `QSO_DATE`, `TIME_ON`, `BAND` or `MODE`; what it holds then replaces the
  value the live event was matched on. Every match is kept if and only if no slot has such a name
  (`CustomFields.ConfigurationKeepsMatchIff`, `CustomFields.MatchedNamesAreAccepted`).
- An account change between a cache load's read and its commit, with its notification before the commit, leaves a clean,
  stale cache (`OperatorCache.StaleRun`), and so does every profile edit after a load, since edits send no notification
  (`OperatorCache.StaleProfile`). Runs are coherent if and only if no commit and no edit of these kinds occurs
  (`OperatorCache.CoherentRunsIff`).
- A username that makes no collection name aborts the collection migration (`CollectionMigration.MigrationCounts`,
  `CollectionMigration.SpacedUsernameAborts`).

## Model

| member | source | states |
|---|---|---|
| Utf8.DecodeEncode | app/adif/parser.py:87-93 | decoding what was encoded gives any text back, strictly and with replacement |
| Utf8.StrictIffEncoding | app/adif/parser.py:89-91 | bytes decode strictly to a text exactly when they are that text's encoding |
| Utf8.DecodeCut | app/adif/parser.py:88-93 | cutting an encoding at any byte yields the covered characters, the last one replaced by U+FFFD exactly when it is cut |
| Utf8.DecodePrefix | app/aclog/sync.py:283-284 | decoding a prefix of bytes gives a prefix of the whole decoding, or one followed by a single U+FFFD |
| Text.ParsePrint | app/adif/parser.py:75 | reading a printed decimal length gives the length |
| AdifParser.HandleTag | app/adif/parser.py:54-99 | the loop body changes the parser's variables and moves the cursor as the step function says, for control tags, non-data tags, bad lengths and fields |
| AdifParser.ParseAdi | app/adif/parser.py:11-101 | the cursor loop terminates on every text and returns the records and errors of the scan over the text's suffixes |
| AdifParser.FieldValueCovers | app/adif/parser.py:84-96 | for every text and declared length, also too long, negative or cutting a character, the cursor moves over the least number of characters whose encoding covers the byte slice, and never past the end |
| AdifParser.FieldValueExact | app/adif/parser.py:84-96 | when the declared length is the value's own byte count, the value comes back whatever follows |
| AdifParser.ParsedRecordsAreLegal | app/adif/parser.py:49-101 | on any text every returned record is non-empty, and its names are upper case without `:` and `>` |
| AdifSerializer.SerializeAdi | app/adif/serializer.py:12-44 | the loops over records and sorted names produce the concatenation of the printed records |
| AdifSerializer.ExportPieces | app/adif/router.py:183-186 | the streamed pieces join to the header followed by every record's text |
| KeyOrder.SortedKeysIncreasing | app/adif/serializer.py:38 | field names are printed in strictly increasing code point order |
| AdifRoundTrip.ExportRoundTrip | app/adif/router.py:157-186 | parsing the export stream gives the non-empty records back with no errors, whatever text the values hold, tags included |
| AdifRoundTrip.ReserializationFixpoint | app/adif/parser.py:31-101 | printing what any text parses to and parsing that changes nothing |
| AdifRoundTrip.HeaderlessRoundTrip | app/adif/parser.py:30-31 | without a header the non-empty records come back if and only if no value contains `<EOH>` in any letter case, or there are none |
| AdifRoundTrip.HeaderlessRoundTripFails | app/adif/parser.py:30-31 | a log of two records, one with a comment `<eoh>`, parses to nothing |
| Calendar.DateOfInverts | app/hashing.py:58-66 | every day of the calendar is the day number of the valid date it is written as |
| Calendar.IsoInjective | app/hashing.py:58-64 | different instants have different ISO texts |
| CanonicalHash.PrintFree | app/hashing.py:41-47 | the JSON text with sorted keys determines the value, and where it ends |
| CanonicalHash.CanonicalIffSame | app/hashing.py:51-69 | two values canonicalise alike if and only if they are equal outside the excluded keys at every depth, datetimes compared as instants and matching their own ISO text |
| CanonicalHash.RowHashIffSame | app/hashing.py:29-48 | two documents have the same payload, as text and as bytes, if and only if they are the same in that sense |
| CanonicalHash.TextCollidesWithDatetime | app/hashing.py:58-64 | two different documents with the same hash |
| CanonicalHash.StoredKeepsCanonical | app/hashing.py:60-63 | dropping the offsets of stored datetimes keeps the canonical form |
| QsoModel.HydrateThenDump | app/qso/service.py:73-115 | reading a document and dumping it gives it back exactly when it has every declared key and no attribute's name |
| QsoModel.HashIgnoresExcluded | app/hashing.py:11-26 | documents equal outside the excluded keys have the same hash |
| QsoModel.NewDocIsHashed | app/qso/service.py:118-157 | an inserted document has every declared key and carries the hash of what is stored, although the hash field is part of it and offsets are lost |
| QsoService.Collection.InsertQsoDict | app/qso/service.py:224-254 | inserts, or finds the document with the hash when the index refuses |
| QsoService.Collection.CheckThenInsert | app/qso/service.py:339-395 | the window check and then the insertion, with every outcome |
| QsoService.Collection.IngestRecord | app/qso/service.py:293-408 | rejects for the alphabetically first missing field or a bad date, else checks and inserts |
| QsoService.Collection.ImportOne | app/qso/service.py:446-498 | puts one record's entry on one report list, or ends the import |
| QsoService.Collection.ImportBytes | app/qso/service.py:411-507 | the import loop: refuses more than 10 MB, decodes, parses, and imports record by record |
| QsoService.Collection.Write | app/qso/service.py:257-261 | sets the fields and the hash of the result in the one document, or fails |
| QsoService.Collection.Update | app/qso/service.py:589-597 | writes the fields and the hash, and raises when the write is refused or the document cannot be read back |
| QsoService.Collection.SoftDeleteQso | app/qso/service.py:600-606 | sets the deleted flag and the hash |
| QsoService.Collection.ClearLog | app/qso/service.py:609-628 | removes exactly the operator's active documents and counts them |
| RowHashInvariant.InsertKeeps | app/qso/service.py:242-248 | the unique indexes keep hashes and ids pairwise distinct |
| RowHashInvariant.UpdateFieldsResult | app/qso/service.py:589-597 | an update is refused exactly when another document has the hash of its result; otherwise it changes that document alone, to the fields and the hash of the result, and then raises exactly when it has set an attribute's name |
| RowHashInvariant.WriteFieldsKeeps | app/qso/service.py:257-261 | a write keeps every hash equal to its document's and pairwise distinct |
| RowHashInvariant.RunKeeps | app/qso/service.py:118-157 | over every run of inserts, ingests, imports, patches, soft deletes and clears each document carries its hash and no two hashes or ids are equal |
| RowHashInvariant.ReachableDocumentsDiffer | app/qso/collections.py:64-69 | hence no two reachable documents are equal outside the excluded fields |
| RowHashInvariant.SoftDeleteRefusedIff | app/qso/service.py:600-606 | soft delete is refused exactly when an already deleted document equal outside the excluded fields is stored, and otherwise changes only the flag and the hash |
| DuplicateWindow.NewDocIsStoredFor | app/qso/service.py:178-221 | the document stored for any valid record has its CALL, BAND, MODE and time, is active and readable, and has the operator exactly when one is given or the record's own `_operator` is empty; its id is the record's, or the generated one |
| DuplicateWindow.FindDuplicateResult | app/qso/service.py:264-290 | the query raises exactly when the window leaves the calendar, and otherwise names a document in the window exactly when there is one |
| DuplicateWindow.EqualHashIsInWindow | app/qso/service.py:264-290 | a document with the new document's hash would be in its window |
| SequentialRuns.CheckAndInsertResult | app/qso/service.py:339-395 | the outcome is decided by the window alone: after an empty window the insertion always succeeds, so the hash-duplicate branch is never reached |
| SequentialRuns.ImportFromResult | app/qso/service.py:444-500 | the import loop aborts exactly when a valid record's window leaves the calendar, and otherwise every valid record ends with an active document within 120 seconds |
| SequentialRuns.ImportCovers | app/qso/service.py:411-507 | the same for a whole import, whose store only grows |
| SequentialRuns.ReachableDocumentsAreSpaced | app/qso/service.py:264-290 | in every sequential run of import, ingest, soft delete and clear, two active documents with the same operator, CALL, BAND and MODE are more than 120 seconds apart |
| ImportReport.ImportCounts | app/qso/service.py:437-507 | a completed import lists every record's index once, as accepted, duplicate or error, and any index once more for each parser error that carries it; the parser's errors come first |
| ImportReport.ImportPartitionsIff | app/qso/service.py:437-507 | so every record's index occurs exactly once if and only if no parser error carries a record's index |
| AdifRoundTrip.BadLengthParse | app/adif/parser.py:72-82 | a field whose length is no number, in front of any record, gives that record and an error with its index |
| ImportReport.ImportAgain | app/qso/service.py:411-507 | after a completed import into any store with fresh ids, patched and forced documents included, importing the same bytes again stores nothing, accepts nothing, gives the same errors, and as duplicates all that was accepted or duplicate |
| ImportReport.RunKeepsFresh | app/qso/service.py:118-157 | generated ids stay fresh over every run, forced insertions and patches included |
| ExportImport.QsoToAdif | app/adif/router.py:125-154 | the loop builds the declared fields and the extra fields that are neither skipped nor None |
| ExportImport.ExportLog | app/adif/router.py:170-186 | the endpoint yields the header and each active document's record, or raises when one cannot be read |
| ExportImport.BuiltExports | app/adif/router.py:125-154 | exporting a built document gives back its record as normalised and stamped |
| ExportImport.RebuiltKey | app/qso/service.py:178-221 | building from an exported record gives the document's own key and time |
| LogRoundTrip.ExportThenImport | app/qso/service.py:411-521 | importing the export of a log of built documents changes nothing, accepts nothing, has no errors and reports one duplicate per document; it is aborted exactly when a document lies within two minutes of the calendar's ends |
| LogRoundTrip.StreamIsReadBack | app/adif/router.py:183-186 | the encoded export stream of non-empty records with legal names is decoded and parsed to those records without errors |
| LogRoundTrip.ReachableLogRoundTrip | app/adif/router.py:157-186 | the same in every sequential run of imports, ingests, soft deletes and clears, where moreover the report names each exported document as the duplicate of its own record |
| ConcurrentIngest.InterleaveKeeps | app/qso/service.py:340-395 | every step of every interleaving keeps the whole invariant |
| ConcurrentIngest.InterleavedDocumentsDiffer | app/qso/service.py:224-254 | over every interleaving of ingest tasks, clears, soft deletes and patches no two stored documents are equal outside the excluded fields |
| ConcurrentIngest.AcceptedTasksAreInsertions | app/qso/service.py:340-408 | accepted tasks and insertions correspond one to one and agree on the id; while nothing is removed, the store is what they wrote, in order |
| ConcurrentIngest.AcceptedDocumentsAreStored | app/qso/service.py:340-408 | over every interleaving each stored document's id is that of exactly one accepted task's write, and what an accepted task wrote is stored under its id unless a clear removed it |
| ConcurrentIngest.NoExistingNeedsRemoval | app/qso/service.py:242-248 | a duplicate answer that names no document needs a step that removed that very hash between the refused insertion and the lookup |
| ConcurrentSpacing.InsertKeepsSpacingIff | app/qso/service.py:340-395 | in a spaced store a task's insertion keeps the spacing exactly when its window is still free or it writes nothing |
| ConcurrentSpacing.SpacedIffWindowsFree | app/qso/service.py:264-290 | over every interleaving of ingest tasks, clears and soft deletes, active documents of one key are more than 120 seconds apart at all times if and only if every insertion that writes finds its window still free |
| ConcurrentSpacing.UnrivalledRunsAreSpaced | app/qso/service.py:340-408 | so they are whenever no task writes while a rival stands between its own check and insertion |
| ConcurrentSpacing.RivalsBothWrite | app/qso/service.py:340-395 | in any spaced store, two rivals that have both checked are both stored within 120 seconds, except when they are equal outside the excluded fields; only then is the second refused |
| ConcurrentSpacing.RaceOutcome | app/udp/server.py:232-236 | every pair of rivals gets there from an empty log, whatever the clocks say |
| ConcurrentEdits.StepKeepsIff | app/qso/service.py:589-606 | in a store whose hashes hold, a step keeps them exactly when it is no write that lands on a document changed since its request read it, outside the excluded fields and those the request writes |
| ConcurrentEdits.HashesHoldIff | app/qso/service.py:257-261 | over every interleaving of all operations with split patches and soft deletes, each document always carries its own hash, and no two share one, if and only if there is no such write |
| ConcurrentEdits.PendingWasRead | app/qso/router.py:320-323 | while they hold, every open request has seen the document as it was stored when the request read it |
| ConcurrentEdits.OverlappingPatchesBreakHash | app/qso/router.py:346-351 | two patches of different fields that overlap both land, and leave both values with the hash of only the second |
| Failures.ReenteredCannotBeDeleted | app/qso/service.py:600-606 | every valid record that was ingested, deleted and ingested again cannot be deleted again |
| Failures.FirstDayAbortsImport | app/qso/service.py:276-277 | a file with one contact of 0001-01-01 0000 aborts its import, into any store |
| Failures.BadLengthNamesRecordTwice | app/qso/service.py:439-453 | importing such a text names index 0 twice, into any store |
| Failures.PatchedIdBreaksExport | app/qso/service.py:589-597 | patching an active contact with the field `id` writes and then raises, and ends that operator's exports |
| AclogTags.ExtractLeaves | app/aclog/parser.py:339-347 | the recursive extraction returns the leaves of the tag search |
| AclogTags.LeavesOfPrinted | app/aclog/parser.py:339-347 | for every printed forest with no tag inside one of the same name, extraction gives exactly the leaves in order and the search the outermost tags |
| AclogParser.FullRecordToAdif | app/aclog/parser.py:134-154 | the field loop and the band normalisation build the record |
| AclogParser.WrappedRecords | app/aclog/parser.py:168-173 | one record per wrapper body, blank ones dropped |
| AclogParser.FlatRecords | app/aclog/parser.py:175-191 | a CALL after a non-empty CALL starts a new record |
| AclogParser.FullRecordsFromMessage | app/aclog/parser.py:157-192 | the command of a message, and its wrapped or else its flat records |
| AclogFormats.WrappedResponse | app/aclog/parser.py:157-173 | a response that wraps its records, whatever their fields and their order, its command tag left open or closed and in any letter case, is read as those records |
| AclogFormats.FlatResponse | app/aclog/parser.py:175-192 | a response that lists the fields one after another, each record starting with its only CALL, is read as the same records |
| AclogFormats.MessageBody | app/aclog/parser.py:320-336 | the command and the text inside a message are found, whether the command's tag is closed or not |
| AclogRecords.NormalizeBandTwice | app/aclog/parser.py:299-305 | a normalised band is already normal |
| AclogRecords.MergeKeepsMatch | app/aclog/parser.py:203-244 | an event that matches a full record still matches after merging with it and any cached state |
| SyncReader.MessagesOfPrefix | app/aclog/parser.py:78-81 | the messages found in a prefix are a prefix of those found in the whole |
| SyncReader.MessagesOfBytes | app/aclog/sync.py:283-284 | the same for bytes, even when the cut lies inside a character |
| SyncReader.ReadSyncResponses | app/aclog/sync.py:267-292 | however the bytes are cut into reads, the result is the first complete LIST message, or all bytes, and the last non-blank setup call before it |
| BridgeSession.Client.HandleMessage | app/aclog/client.py:162-227 | one message changes the cached state, the pending event, the requests and the outcomes as stated |
| BridgeSession.Client.Run | app/aclog/client.py:88-127 | the read loop handles every line's messages in order and skips what is pending at a clean disconnect |
| BridgeSession.EveryEventEnds | app/aclog/client.py:88-227 | up to a clean disconnect ENTEREVENTs, full-record requests and outcomes are equal in number, the i-th outcome is the i-th event's, and every record handed to `_ingest_aclog_record` matches its event |
| BridgeSession.IngestedRecordsMatch | app/aclog/client.py:274-283 | so does the record handed on to the QSO service, when no filled custom slot is named after a matched key |
| CustomFields.NormalizeFields | app/qso/custom_fields.py:42-84 | the validating loop returns the configuration of eight slots, or raises |
| CustomFields.NormalizedTwice | app/qso/custom_fields.py:42-88 | a validated configuration has distinct, legal, unprotected names, and validating it again changes nothing |
| CustomFields.MapOtherSlots | app/aclog/client.py:341-347 | the loop moves each filled slot's value to the slot's name, in slot order |
| CustomFields.MappedRecordMatches | app/aclog/client.py:341-347 | when no filled slot, filled by the record or by an earlier slot, is named after a matched key, the mapped record matches the same events |
| CustomFields.ConfigurationKeepsMatchIff | app/aclog/client.py:341-347 | a configuration keeps every match if and only if no slot is named after a matched key |
| CustomFields.MatchedNamesAreAccepted | app/qso/custom_fields.py:12-25 | the validation accepts each of these names |
| BridgeManager.Manager.StopBridge | app/aclog/manager.py:114-122 | forgets the bridge, cancels its task, and raises what it crashed with |
| BridgeManager.Manager.ReconcileBridges | app/aclog/manager.py:92-103 | the two loops: stop the stale bridges, then keep, restart or start the wanted ones |
| BridgeManager.ReconcileResult | app/aclog/manager.py:69-112 | a reconcile fails exactly if a recorded task has ended with an exception; otherwise exactly the wanted keys are recorded, live and current, and tasks that were are kept |
| BridgeManager.ReconcileTwice | app/aclog/manager.py:69-112 | a second reconcile at once, in any order, changes nothing |
| BridgeManager.AbortForgetsOne | app/aclog/manager.py:114-122 | a reconcile that fails forgets exactly one such task |
| BridgeManager.CrashFreeRunsComplete | app/aclog/client.py:129-146 | in every run in which, as the bridge's own loop provides, no task ends with an exception, every reconcile completes settled and every stop forgets all bridges |
| BridgeManager.LiveTasksAreRecorded | app/aclog/manager.py:33-122 | over every run of reconciles, task deaths and stops from an empty manager each live task is the one recorded under its key |
| BridgeManager.ShutdownResult | app/aclog/manager.py:33-49 | after stop no task is live; it fails exactly when a recorded task has crashed, and forgets all bridges otherwise |
| BridgeManager.DesiredIs | app/aclog/manager.py:70-90 | a key is wanted exactly when an enabled user has an enabled bridge under it |
| RangeLookup.LookUp | app/callsign/prefixes.py:634-656 | on every sorted table of disjoint ranges the lookup loop returns what the plain scan returns |
| RangeLookup.LookupIsPlainScan | app/callsign/prefixes.py:645-656 | the bisection and the early exit lose no match |
| RangeLookup.ProbeDecides | app/callsign/prefixes.py:647-655 | the loop body runs at most once |
| RangeLookup.PlainScanIs | app/callsign/prefixes.py:634-644 | the scan finds the matching range with the greatest start, and nothing exactly when none matches |
| RowHashBackfill.BackfillRowHash | app/qso/row_hash_migration.py:33-106 | the grouping loops, the planned updates and the bulk write give each uniquely hashed document its hash and report the rest |
| RowHashBackfill.EachUniqueDocumentIsHashed | app/qso/row_hash_migration.py:71-87 | an existing hash is never changed, and an unhashed document gets its own hash exactly when no other document has or would have it |
| RowHashBackfill.BackfillKeepsDistinct | app/qso/row_hash_migration.py:71-87 | distinct hashes stay distinct |
| RowHashBackfill.SecondBackfill | app/qso/row_hash_migration.py:33-106 | a second run updates nothing, changes nothing and reports the same duplicate groups |
| CollectionMigration.MigrateSharedQsos | app/qso/collection_migration.py:78-155 | the cursor loop, with its counters, lists and initialised collections, up to its end or an exception |
| CollectionMigration.CollectionNameInjective | app/qso/collections.py:17-33 | different users have different collections, none of which is the shared one |
| CollectionMigration.BelongsToOne | app/qso/collection_migration.py:58-64 | a routed document's user is the only one with its normalised callsign |
| CollectionMigration.MigrationOnlyAdds | app/qso/collection_migration.py:97-155 | existing documents stay where they are, what is added comes from the source and goes to its one user's collection, and the shared collection and dry runs write nothing |
| CollectionMigration.MigrationCounts | app/qso/collection_migration.py:97-155 | the migration is aborted exactly when a document's user has no collection name; otherwise the counters add up to the number scanned |
| CollectionMigration.SpacedUsernameAborts | app/qso/collections.py:17-33 | one document of a user whose name has a space aborts the migration |
| CollectionMigration.MigrationRerun | app/qso/collection_migration.py:97-155 | with no failed write an unchanged rerun migrates nothing, finds present what was migrated or present, and repeats the same conflicts and unrouted documents |
| OperatorCache.UdpOperatorCache.Commit | app/udp/operator_cache.py:49-53 | a load fills and installs the view of the users it read, and clears the flag |
| OperatorCache.UdpOperatorCache.Resolve | app/udp/operator_cache.py:56-67 | a dirty cache is loaded before the lookup |
| OperatorCache.EventsGiveState | app/udp/operator_cache.py:49-53 | each pending load holds the accounts as the last change or edit before its read left them |
| OperatorCache.StepBreaksIff | app/udp/operator_cache.py:50-53 | after a coherent run a step keeps coherence exactly when it is neither a commit of a load whose view has been altered since, with no notification still to come, nor a profile edit that alters the view while the flag is clean and no notification is to come |
| OperatorCache.CoherentRunsIff | app/udp/operator_cache.py:41-72 | in every run of changes, profile edits, notifications, reads and commits, a clean flag with no outstanding notification always means the cache equals the enabled users by upper-case callsign, if and only if the run has no such step |
| OperatorCache.QuietRunsAreCoherent | app/udp/operator_cache.py:41-72 | so it does in every run where nothing between a load's read and its commit alters the view, and profiles are edited only under a set flag, an outstanding notification, or an unaltered view |
| OperatorCache.StaleRun | app/udp/operator_cache.py:41-72 | a run with a change during a load ends clean, stale, and still resolving a disabled user |
| OperatorCache.StaleProfile | app/profile/service.py:38-39 | a profile edited after a load leaves the cache clean and resolving the old profile, with no load and no notification under way |
| OperatorCache.ViewIs | app/udp/operator_cache.py:47-50 | the view has exactly the enabled users' callsigns, each with the last such user |

## Left out

- Routes, templates, event streams, authentication, statistics, pagination, log messages, field catalogues, backup and
  the vendored documentation scripts: I/O, library wrappers or easier members.
- SHA-256, ObjectId and UUID generation: payload text stands for its digest, a counter for generated ids.
- CanonicalHash.PrintFree: values are null, booleans, integers, floats by their printed text, strings, lists and
  documents; other objects (`default=str`) are not modelled.
- CanonicalHash.CanonicalIffSame: datetimes have whole seconds, and other objects are not modelled.
- CanonicalHash.RowHashIffSame: the same kinds of values as in the canonical form.
- QsoModel.HydrateThenDump: `revision_id`, `cls` and `_fields_set`, names that the libraries behind the document class
  use themselves, are treated as ordinary extra fields; the libraries' source is not part of this model.
- RowHashInvariant.RunKeeps: the same for patches that set one of these three keys.
- SequentialRuns.ImportFromResult: the driver's refusal of a field name with U+0000, which would end an import, is not
  modelled.
- SequentialRuns.ImportCovers: the same.
- Full Unicode upper-casing, white space and digits: these are the ASCII ones. Python's limit of 4300 digits in `int()`
  and the leniency of `strptime` (missing leading zeros, a second of 60 or 61) are not modelled.
- Updates whose keys contain dots or operators: an update sets top-level fields.
- `find_one` returns the first document in insertion order, and the clock is read once per call.
- LogRoundTrip.ExportThenImport: covers exports of at most 10 MB, the most an import accepts, and documents not patched
  since they were built.
- SequentialRuns.ReachableDocumentsAreSpaced: live records must not carry the fields `_id` and `id`, which the record
  sources (the ADIF and ACLog parsers, upper case only) never produce, and callsigns are not empty.
- Input records hold strings; a None value in one is not modelled.
- The Beanie branch of the service (`collection is None`) and `QSO.update`/`QSO.set`: they delegate to the library.
- ConcurrentIngest: validation before the window check and logging after it are not steps of a task, and a patch or soft
  delete is one step; `ConcurrentEdits` splits those.
- ConcurrentSpacing.SpacedIffWindowsFree: patches are not steps of these runs, as they may change a contact's key or
  time.
- Exceptions in the middle of an ingest on the live bridge, and the identity check behind `_ingest_aclog_record`: an
  outcome records that it was called and with what.
- CustomFields.NormalizeFields: not modelled are labels, the flags that do not affect the mapping, and which of several
  faults is reported.
- BridgeSession.EveryEventEnds: a connection that ends by an exception drops its pending event and is not covered.
- BridgeManager.ShutdownResult: the manager's own periodic reconcile task, cancelled before the bridges, is not in the
  state.
- BridgeManager: a cancelled task ends at once; cancellation of a reconcile or of stop itself is not modelled.
- SyncReader.ReadSyncResponses: the timeout is not modelled, and the reads are the ones before the end of the stream.
- RangeLookup: the literal ITU table, its construction and the choice of candidate prefixes; `bisect_right` is taken by
  its specification on sorted lists.
- Creating the indexes of a migration's target, and a target whose documents already share a hash.
- The UDP token cache, whose view depends on the clock.
