# A verified model of bqemulator

bqemulator answers the BigQuery API from a local DuckDB file. This project models, in Dafny, the parts of
it that keep state and that other parts rely on, and proves what they are for:

- **The catalog** (`CatalogModel`, `CatalogLaws`, `CatalogStore`, `CatalogRepository`, `PersistentRepository`). Eight kinds
  of entry live in dictionaries; every accepted change is written through to ten stored tables; a restart
  rebuilds the dictionaries from them. The central result is that a restart cannot be noticed, with the
  exact condition on each call.
- **The Storage Write API** (`WriteStreams`, `WriteServer`, `WriteAnswers`, `AppendRetries`, `BatchCommit`, `AppendLoop`, `WriteServicer`).
  Four kinds of stream, append, flush, finalize, two-pass batch commit, the sticky-schema append loop and
  the gauge. Rows are conserved over every run; commit is all or nothing exactly when every target exists.
- **Resumable uploads** (`ContentRange`, `UploadSessions`, `UploadAnswers`, `UploadManager`). Chunks may arrive in any order,
  any number of times; the staging file is always a prefix of the object.
- **DDL** (`DdlSync`), **CREATE MODEL** (`CreateModelJobs`), **export and seed** (`SeedModel`, `SeedRows`,
  `ExportSeed`, `SeedCommands`) and **sharded export** (`ShardNames`, `ShardedExport`).
- **Response schemas** (`ResponseSchema`) and **Avro routing** (`AvroRouting`).

Besides the theorems about whole runs there is, for each operation, a law named `...Answers` or `...Exactly`: its outcome and
its effect from what a caller can see before the call.

Code that updates state in place is written as classes and loops, each proved against a function on values;
the properties of whole runs are proved about those functions. The two repositories have twenty-one mutating
calls each, all proved against `CatalogModel.Apply` and one step of `CatalogStore.Next`; the table below lists only
those with more to them than one dictionary. `Basics`, `MapSum`, `Decimal` and
`DoubledSeparator` are shared helpers.

## What the model assumes

- Storing an entry as JSON and reading it back gives the same entry; a COPY keeps rows and their order; the
  catalog's own SQL statements succeed.
- Clocks, new stream and session ids, decoded rows, training queries, what reading a new relation back finds, and the rules of
  the storage engine for CREATE and DROP (`DdlSync.Execute`) enter as parameters or as written-out functions.
- Appends to one upload session come one after another, as do calls on one stream.
- Listings are compared as sets, and the base tables of a materialized view are a set.

## Where the code and its promises part

Each of these is a lemma with a failing input, next to a lemma that says exactly when the promise holds.

- A plain dataset delete drops policies, views and snapshots from the cache but leaves them on disk; a
  cascade drops dependency rows that a view elsewhere still has in the cache; access-entry references that
  contain `::`, or end a part in `:`, do not survive storage; a view without base tables comes back with one
  (`CatalogStore.StepExact`, `LeftoverPolicyRun`, `OutsideReaderRun`, `ColonReferenceRun`, `NoBasesRun`).
- A batch commit whose target table is missing raises half way (`BatchCommit.BatchExact`,
  `AbortExact`). Committing or flushing to a missing table, or removing a stream that holds
  rows, loses rows that were acknowledged, and nothing else does (`WriteServer.NothingLost`). An append to a
  missing table raises after the offset has moved, so that a retry is told its rows exist
  (`AppendRetries.ExactlyOnce`, `RetryAfterCrash`).
- A chunk is not compared with its range, an unbounded range may pass the declared total, and a probe may
  declare a total below the cursor (`UploadSessions.WithinTotalExactly`,
  `CompletionOverRuns` and three overrun lemmas).
- CREATE TABLE or VIEW of a name that the identifier whitelist refuses, such as `a b`, is carried out and then
  fails when it is read back: the relation stays and is never listed (`DdlSync.AgreementExactly`,
  `UnquotableTableIsUnlisted`). A bare DROP SCHEMA of a dataset that holds only models drops the schema and then
  fails on the catalog (`ModelsStrand`). DDL on the names of the emulator's own schemas registers or deletes
  datasets that have nothing to do with them (`ReservedSchemaIsRegistered`).
- Two datasets can share one physical schema, `a.b__c` and `a__b.c`; export followed by seed then doubles
  rows (`ExportSeed.RoundTripExactly`, `NamesCanMeet`), and DDL in one makes the catalog wrong about the other
  (`DdlSync.AgreementExactly`, `SharedSchemaCollides`).
- The seed command reports the size of each loaded table, not the rows it loaded (`SeedRows.ReportedRowsExactly`):
  a second seed reports twice the rows (`ExportSeed.SeedTwiceInOrder`).
- A job that resolved to REPLACE still reports it when the model was dropped meanwhile
  (`CreateModelJobs.ReportTrueExactly`, `DropMakesReplaceFalse`), and CREATE OR REPLACE and CREATE IF NOT EXISTS
  can fail because the model exists (`LosesRaceExactly`, `ClausesDoNotHelp`).
- Shard numbers are padded to twelve digits but not cut, so names sort only up to 10^12 shards
  (`ShardNames.SortedExactly`); columns `a, a, a_1` get clashing names (`ResponseSchema.DistinctExactly`).

## Model

| member | source | states |
|---|---|---|
| DoubledSeparator.RoundTripExactly | src/bqemulator/catalog/duckdb_repository.py:1060-1087 | joining strings by a doubled character and splitting returns the tuple if and only if no part holds the separator and no part but the last ends in its character |
| DoubledSeparator.JoinSplit | src/bqemulator/catalog/duckdb_repository.py:1060-1072 | joining what was split always gives the text back |
| CatalogModel.IntegrityOverRuns | src/bqemulator/catalog/memory_repository.py:73-591 | over every run, raising calls included, each key matches its value and each table, routine and model has its dataset |
| CatalogModel.RaisingChangesNothing | src/bqemulator/catalog/memory_repository.py:73-591 | a call that raises leaves the catalog as it was |
| CatalogModel.DeleteDatasetIsExact | src/bqemulator/catalog/memory_repository.py:91-178 | a dataset delete is refused exactly when a table, routine or model exists and no cascade was asked; otherwise nothing that belongs to the dataset is left in any kind and nothing elsewhere changes |
| CatalogModel.RecreateAfterDelete | src/bqemulator/catalog/memory_repository.py:91-142 | after a delete the same dataset, table and policy ids can be created without conflict |
| CatalogLaws.AnswersExactly | src/bqemulator/catalog/memory_repository.py:73-591 | for each of the twenty-one calls: the outcome follows from its verb, the lookup of its key and of its dataset, and the not-found flag alone |
| CatalogLaws.ReadAfterWrite | src/bqemulator/catalog/memory_repository.py:73-591 | for every call and every key of all eight kinds: a lookup afterwards finds the record of an accepted call, nothing after an accepted delete of the entry or its dataset, and otherwise what it found before |
| CatalogLaws.LastAcceptedIsFound | src/bqemulator/catalog/memory_repository.py:73-591 | over every run a lookup finds what the last accepted call about that entry left |
| CatalogStore.EntryRoundTrip | src/bqemulator/catalog/duckdb_repository.py:1060-1087 | an access entry survives its stored row if and only if its references survive the `::` codec |
| CatalogStore.RereadExactly | src/bqemulator/catalog/duckdb_repository.py:305-331 | a dataset read back from its entry rows is the dataset, order included, if and only if every entry is storable |
| CatalogStore.StoredRowsWin | src/bqemulator/catalog/duckdb_repository.py:305-331 | stored access rows are read back in order in place of the entries of the JSON record; without any, the record keeps its own |
| CatalogStore.WriteExact | src/bqemulator/catalog/duckdb_repository.py:437-478 | writing a dataset and hydrating yields the cache with that dataset replaced, if and only if its entries are storable, whatever rows were there before |
| CatalogStore.UpsertExact | src/bqemulator/catalog/duckdb_repository.py:883-923 | a stored view hydrates to itself if and only if its base set is not empty |
| CatalogStore.CascadeExact | src/bqemulator/catalog/duckdb_repository.py:388-435 | a cascade leaves disk and cache equal if and only if no view elsewhere reads from the dataset |
| CatalogStore.PlainDeleteExact | src/bqemulator/catalog/duckdb_repository.py:361-387 | a plain delete leaves disk and cache equal if and only if the dataset had no policies, views or snapshots |
| CatalogStore.StepExact | src/bqemulator/catalog/duckdb_repository.py:349-1054 | for every call: cache equal to hydrated disk before implies equal after if and only if the call is safe, a condition on the catalog before the call |
| CatalogStore.CoherentOverRuns | src/bqemulator/catalog/duckdb_repository.py:96-331 | over every safe run, restarts included, the cache is what hydration would build |
| CatalogStore.RestartTransparent | src/bqemulator/catalog/duckdb_repository.py:84-331 | after every safe run from an empty store a restart changes nothing |
| CatalogStore.UnsafeCallIsNoticed | src/bqemulator/catalog/duckdb_repository.py:349-478 | the first unsafe call of a run is always visible after a restart, so no weaker condition would do |
| CatalogStore.LeftoverPolicyRun | src/bqemulator/catalog/duckdb_repository.py:361-435 | a run in which a policy deleted with its dataset is back after a restart and blocks its own creation |
| CatalogStore.OutsideReaderRun | src/bqemulator/catalog/duckdb_repository.py:427-435 | a run in which a cascade takes the base tables of a view in another dataset, seen only after a restart |
| CatalogStore.ColonReferenceRun | src/bqemulator/catalog/duckdb_repository.py:1060-1087 | a run in which an authorized view of project `p:` changes over a restart |
| CatalogStore.NoBasesRun | src/bqemulator/catalog/duckdb_repository.py:237-273 | a run in which a view without base tables comes back after a restart with the one base `None.None.None` |
| CatalogRepository.KeysInDataset | src/bqemulator/catalog/memory_repository.py:144-157 | lists exactly the keys of a dataset, each once |
| CatalogRepository.DeleteKeys | src/bqemulator/catalog/memory_repository.py:159-163 | deletes exactly the listed keys, none of which can be missing when its turn comes |
| CatalogRepository.PurgeSnapshots | src/bqemulator/catalog/memory_repository.py:165-178 | keeps exactly the snapshots whose source lies in another dataset |
| CatalogRepository.MemoryCatalogRepository.DeleteDataset | src/bqemulator/catalog/memory_repository.py:91-142 | the gate and the six purge loops together are the one catalog function that `DeleteDatasetIsExact` is about |
| CatalogRepository.MemoryCatalogRepository.CreateTable | src/bqemulator/catalog/memory_repository.py:213-225 | the in-place call is the catalog function: conflict before missing dataset, and only the table dictionary changes |
| CatalogRepository.MemoryCatalogRepository.UpsertView | src/bqemulator/catalog/memory_repository.py:494-500 | the in-place call is the catalog function: stores the view under its identity, new or not |
| PersistentRepository.SoundStep | src/bqemulator/catalog/duckdb_repository.py:349-1054 | every call keeps every stored row under its own identity and the entry rows of each dataset without a gap, which is what the hydration loops rely on |
| PersistentRepository.GroupEntries | src/bqemulator/catalog/duckdb_repository.py:305-331 | the ordered scan of entry rows groups, for every dataset, exactly its entries in index order |
| PersistentRepository.LoadDatasets | src/bqemulator/catalog/duckdb_repository.py:144-155 | dataset rows with their grouped entries are the hydrated datasets |
| PersistentRepository.LoadViews | src/bqemulator/catalog/duckdb_repository.py:237-273 | view rows with their dependency rows are the hydrated views |
| PersistentRepository.LoadAll | src/bqemulator/catalog/duckdb_repository.py:96-331 | the row-by-row loading of all tables computes `Hydrate`, in whatever order rows come |
| PersistentRepository.InsertRows | src/bqemulator/catalog/duckdb_repository.py:437-478 | the insert loop stores exactly the entries under slots 0, 1, ... |
| PersistentRepository.DuckDBCatalogRepository.EnsureReady | src/bqemulator/catalog/duckdb_repository.py:84-90 | the first call makes the cache what hydration builds; later calls change nothing |
| PersistentRepository.DuckDBCatalogRepository.WriteDatasetRows | src/bqemulator/catalog/duckdb_repository.py:437-478 | delete-then-insert of a dataset's rows is `WriteDataset` |
| PersistentRepository.DuckDBCatalogRepository.CreateDataset | src/bqemulator/catalog/duckdb_repository.py:349-353 | cache and stored tables move together as one step of the store; a raising call writes nothing |
| PersistentRepository.DuckDBCatalogRepository.DeleteDataset | src/bqemulator/catalog/duckdb_repository.py:361-435 | as above; the child tables are purged only under cascade |
| PersistentRepository.DuckDBCatalogRepository.UpsertView | src/bqemulator/catalog/duckdb_repository.py:883-923 | as above, the dependency rows replaced |
| PersistentRepository.DuckDBCatalogRepository.DeleteView | src/bqemulator/catalog/duckdb_repository.py:925-951 | as above, the dependency rows deleted |
| WriteStreams.FlushNeverFindsEmptyBuffer | src/bqemulator/streaming/strategies/buffered.py:89-143 | the internal-error branch of a flush cannot be reached |
| WriteStreams.AppendConserves | src/bqemulator/streaming/strategies/pending.py:49-125 | an accepted append publishes its rows and holds none, or publishes none and holds them last, for all four kinds; a refused one changes nothing |
| WriteStreams.FlushConserves | src/bqemulator/streaming/strategies/buffered.py:89-143 | a flush publishes exactly the rows up to its offset, keeps the rest, and succeeds exactly inside the window |
| WriteStreams.CommitConserves | src/bqemulator/streaming/strategies/pending.py:112-125 | a commit publishes all that is held and leaves nothing |
| WriteAnswers.AppendAnswers | src/bqemulator/streaming/strategies/pending.py:49-110 | for each kind of stream: the exact condition on state, offset and size under which an append is accepted, and the cause of each refusal |
| WriteAnswers.AppendLeaves | src/bqemulator/streaming/strategies/buffered.py:35-87 | an accepted append replies with the rows accepted before it, and moves offset and count by its own; nothing else but the buffer changes |
| WriteAnswers.FlushAnswers | src/bqemulator/streaming/strategies/buffered.py:89-143 | when a flush is accepted, what it replies, and what it leaves |
| WriteAnswers.CommitAnswers | src/bqemulator/streaming/strategies/pending.py:112-125 | a commit succeeds exactly on a finalized pending stream and leaves it committed and empty |
| WriteServer.OnlyNamedStreamMoves | src/bqemulator/grpc_api/write_servicer.py:423-455 | append, flush and commit touch no stream but the one named |
| WriteServer.RowsConserved | src/bqemulator/grpc_api/write_servicer.py:567-675 | over every interleaving on any number of streams, for every table and row: stored plus buffered plus lost equals what was there plus what was acknowledged |
| WriteServer.NothingLost | src/bqemulator/grpc_api/write_servicer.py:629-675 | over every run nothing acknowledged is lost if and only if each removed stream holds nothing and each commit or flush that publishes rows has its table, checked before the call |
| WriteServer.CountsOverRuns | src/bqemulator/grpc_api/write_servicer.py:629-675 | the catalog's row count stays equal to the target's row count |
| WriteServer.ForwardOnly | src/bqemulator/grpc_api/write_servicer.py:302-455 | stream states only move forward, and offsets and counts never shrink |
| WriteServer.FinalizeIsIdempotent | src/bqemulator/grpc_api/write_servicer.py:302-340 | a repeated finalize, after any run, changes nothing and reports the same rows (or fails once the stream is committed) |
| WriteServer.GaugeOverRuns | src/bqemulator/grpc_api/write_servicer.py:126-136 | in every reachable state each gauge equals the number of registered streams of its kind, removals included |
| WriteAnswers.CreateAnswers | src/bqemulator/grpc_api/write_servicer.py:167-237 | the reply to a create from table, kind and registry; accepted, an empty open stream of that kind is under the name; otherwise nothing changes |
| WriteAnswers.OpenDefaultAnswers | src/bqemulator/streaming/write_stream.py:203-223 | the default stream of a known table is there after the call, the old one if there was one |
| WriteAnswers.ServerAppendAnswers | src/bqemulator/grpc_api/write_servicer.py:567-598 | an append is missing its stream, refused with the strategy's status, acknowledged with the rows accepted before it, or raises exactly when it publishes rows and the table is gone |
| WriteAnswers.FinalizeAnswers | src/bqemulator/grpc_api/write_servicer.py:302-340 | the reply to a finalize from kind and state: only an open stream is changed, and only to finalized |
| WriteAnswers.ServerFlushAnswers | src/bqemulator/grpc_api/write_servicer.py:423-455 | the reply to a flush from kind, window and table; outside the window nothing changes |
| WriteAnswers.RemoveAnswers | src/bqemulator/streaming/write_stream.py:230-235 | a removed stream is gone, its row count is reported, and no other stream, table or count moves |
| WriteAnswers.FinalizeReportsAccepted | src/bqemulator/grpc_api/write_servicer.py:302-340 | over every run the rows a stream counts, and its finalize reports, are those of the appends it accepted |
| AppendRetries.ExactlyOnce | src/bqemulator/grpc_api/write_servicer.py:567-598 | a client that repeats requests with offsets, in any order: the acknowledged rows are the gapless stretch of its source that the offset has passed, if and only if no rows are handed over to a missing table, a condition on the stream and the attempts before they are sent |
| AppendRetries.AcknowledgedIsThere | src/bqemulator/grpc_api/write_servicer.py:567-675 | after any attempts the table followed by what the stream holds is what it was followed by the acknowledged rows |
| AppendRetries.RetryAfterCrash | src/bqemulator/grpc_api/write_servicer.py:567-598 | after an insert that raised, the same request is refused as existing although its rows are nowhere |
| BatchCommit.ErrorsExactly | src/bqemulator/grpc_api/write_servicer.py:358-396 | validation reports no error if and only if every named stream is a finalized pending stream |
| BatchCommit.ErrorsNameTheBad | src/bqemulator/grpc_api/write_servicer.py:358-396 | one error for each name that cannot be committed, in the order given, each with its right cause |
| BatchCommit.BatchExact | src/bqemulator/grpc_api/write_servicer.py:344-419 | for every list of names: rejected exactly when one is not committable, and then nothing changes; a commit time exactly when every target can take its rows, and then each stream is drained and each table gains its rows once, names repeated or not |
| BatchCommit.AbortExact | src/bqemulator/grpc_api/write_servicer.py:398-419 | for every list of valid names whose first unlandable one is the k-th: the call aborts with exactly the streams up to and including it drained, and the tables have gained the rows of those before it |
| BatchCommit.MissingTableBreaksAtomicity | src/bqemulator/grpc_api/write_servicer.py:398-419 | the case of two streams: the first committed, the second emptied, no time reported |
| BatchCommit.ValidatedStays | src/bqemulator/grpc_api/write_servicer.py:344-419 | no other call between the two passes can make a validated stream uncommittable, unless it commits or removes it |
| AppendLoop.OneResponseEach | src/bqemulator/grpc_api/write_servicer.py:459-521 | one response per request, in order, until the one that ends the connection |
| AppendLoop.TurnStopsExactly | src/bqemulator/grpc_api/write_servicer.py:459-598 | a request ends the connection exactly when it fits the size limit and its stream cannot be bound, its name is malformed, or its converted rows are handed over to a missing table |
| AppendLoop.StopsAtFirstFailure | src/bqemulator/grpc_api/write_servicer.py:459-565 | the number of responses is the index of the first request that ends the connection for one of those reasons; no earlier one does |
| AppendLoop.StoppedStays | src/bqemulator/grpc_api/write_servicer.py:459-521 | later requests are not looked at |
| AppendLoop.UnusableRequestChangesNothing | src/bqemulator/grpc_api/write_servicer.py:459-521 | an oversize or undecodable request changes no stream, table, count or gauge |
| AppendLoop.RememberedIsLatest | src/bqemulator/grpc_api/write_servicer.py:683-733 | the schema a connection remembers per format is that of the latest converted request that carried one |
| AppendLoop.ConvertedExactly | src/bqemulator/grpc_api/write_servicer.py:683-733 | a request is converted exactly when it fits and its rows decode under its own schema or else the remembered one |
| AppendLoop.BindExactly | src/bqemulator/grpc_api/write_servicer.py:523-565 | when a stream can be bound and what binding leaves: only the default stream is ever created by it |
| AppendLoop.ConvertExactly | src/bqemulator/grpc_api/write_servicer.py:683-733 | rows are decoded with the request's own schema, else with the one remembered for the same format, else not at all |
| AppendLoop.ResponseExactly | src/bqemulator/grpc_api/write_servicer.py:459-521 | the response to a request: oversize names the stream bound before, undecodable the request's, else the server's reply; the stream stays bound |
| AppendLoop.ServeIsRun | src/bqemulator/grpc_api/write_servicer.py:459-598 | the effect of a whole connection is a run of server calls, so every result about runs holds of it |
| WriteServicer.WriteStream.Append | src/bqemulator/streaming/strategies/committed.py:39-77 | the in-place append is the value-level one |
| WriteServicer.WriteStream.Flush | src/bqemulator/streaming/strategies/buffered.py:89-143 | the in-place flush is the value-level one |
| WriteServicer.WriteStream.Commit | src/bqemulator/streaming/strategies/pending.py:112-125 | the in-place commit is the value-level one |
| WriteServicer.WriteHandler.FlushToTarget | src/bqemulator/grpc_api/write_servicer.py:629-675 | rows and count go up together, or the insert raises and neither does |
| WriteServicer.WriteHandler.CreateWriteStream | src/bqemulator/grpc_api/write_servicer.py:167-237 | the handler's objects after the call are the server function's result |
| WriteServicer.WriteHandler.GetOrCreateDefault | src/bqemulator/streaming/write_stream.py:203-223 | as above |
| WriteServicer.WriteHandler.PerformAppend | src/bqemulator/grpc_api/write_servicer.py:567-598 | as above, the stream moved before the insert |
| WriteServicer.WriteHandler.FinalizeWriteStream | src/bqemulator/grpc_api/write_servicer.py:302-340 | as above |
| WriteServicer.WriteHandler.HandleFlushRows | src/bqemulator/grpc_api/write_servicer.py:423-455 | as above |
| WriteServicer.WriteHandler.CommitOne | src/bqemulator/grpc_api/write_servicer.py:410-413 | committing one validated stream hands its buffer to the target and marks it committed |
| WriteServicer.WriteHandler.Validate | src/bqemulator/grpc_api/write_servicer.py:358-396 | the validation loop collects one error for every bad name, in order |
| WriteServicer.WriteHandler.BatchCommitWriteStreams | src/bqemulator/grpc_api/write_servicer.py:344-419 | the two loops are `Batch`, which `BatchExact` is about |
| WriteServicer.WriteHandler.RemoveWriteStream | src/bqemulator/streaming/write_stream.py:230-235 | removal releases the gauge slot of a stream that still held one |
| WriteServicer.WriteHandler.EnsureStreamBound | src/bqemulator/grpc_api/write_servicer.py:523-565 | binding is `Bind`: the bound stream, an existing one, or a new default one |
| WriteServicer.WriteHandler.HandleAppendRows | src/bqemulator/grpc_api/write_servicer.py:459-521 | the request loop with its mutable locals is `Serve` |
| ContentRange.ParseIsSensible | src/bqemulator/jobs/upload_session_manager.py:362-388 | an accepted header has its start not after its end and its end below its total |
| ContentRange.ParseRender | src/bqemulator/jobs/upload_session_manager.py:49-57 | every sensible range, written as section 14.4 of RFC 9110 says, is read back exactly |
| ContentRange.ReadHeader | src/bqemulator/jobs/upload_session_manager.py:237-244 | a header that is present is read as a sensible range or found unreadable, never ignored |
| ContentRange.HeaderExactly | src/bqemulator/jobs/upload_session_manager.py:237-244 | a header says exactly what its text is understood as, and is unreadable exactly when it is not understood |
| ContentRange.GrammarIsUnderstood | src/bqemulator/jobs/upload_session_manager.py:49-57 | every text of the grammar, with any blanks and leading zeros, is understood as the range it spells |
| ContentRange.UnderstoodIsGrammar | src/bqemulator/jobs/upload_session_manager.py:362-388 | conversely every text that is understood is of the grammar and spells that range |
| ContentRange.BlanksExactly | src/bqemulator/jobs/upload_session_manager.py:49-57 | spaces, tabs and line breaks are blanks, and no printable ASCII character is |
| UploadSessions.SecondBranchIsDead | src/bqemulator/jobs/upload_session_manager.py:295-312 | completion is decided by the session's total alone; the branch on the chunk's own total adds nothing |
| UploadSessions.WithinTotalExactly | src/bqemulator/jobs/upload_session_manager.py:203-312 | an accepted append keeps the cursor within the total if and only if cursor plus chunk is at most the reconciled total, and that is so if and only if the reply says complete exactly at equality |
| UploadSessions.HonestStaysWithinTotal | src/bqemulator/jobs/upload_session_manager.py:247-292 | a full range of matching length or an empty probe never passes the total |
| UploadSessions.LongChunkOverruns | src/bqemulator/jobs/upload_session_manager.py:203-235 | six bytes sent as range 0-4 of 5 are accepted and complete |
| UploadSessions.StarRangeOverruns | src/bqemulator/jobs/upload_session_manager.py:269-292 | a range of unknown total may pass a total declared before |
| UploadSessions.LateProbeOverruns | src/bqemulator/jobs/upload_session_manager.py:269-292 | a probe may declare a total below the cursor |
| UploadSessions.SafeOverRuns | src/bqemulator/jobs/upload_session_manager.py:163-343 | over every run the file is as long as the cursor, the cursor and any declared total are within the cap |
| UploadSessions.GrowsOverRuns | src/bqemulator/jobs/upload_session_manager.py:203-292 | over every run a session's file is only extended, and a total once declared never changes |
| UploadSessions.RefusedAppendChangesNothing | src/bqemulator/jobs/upload_session_manager.py:203-235 | an append that raises leaves bytes, cursor, total and activity time of every live session alone |
| UploadSessions.ExpiredForGood | src/bqemulator/jobs/upload_session_manager.py:189-201 | once past its time to live a session is never returned again |
| UploadSessions.EvictsOnlyExpired | src/bqemulator/jobs/upload_session_manager.py:390-398 | eviction removes exactly the expired sessions, files included |
| UploadSessions.ExactCompletion | src/bqemulator/jobs/upload_session_manager.py:203-312 | over every run of honest calls the cursor stays within the total and a reply says complete exactly at equality |
| UploadSessions.CompletionOverRuns | src/bqemulator/jobs/upload_session_manager.py:203-312 | over every run, honest or not, cursor and completion are exact all the way if and only if every acceptable append to a live session fits where it comes, a test on session, chunk and header |
| UploadSessions.Reassembly | src/bqemulator/jobs/upload_session_manager.py:203-312 | whatever the order, duplication and refusals, the staging file is a prefix of the object as long as the cursor |
| UploadSessions.CompleteMeansWhole | src/bqemulator/jobs/upload_session_manager.py:203-312 | a reply says complete exactly when the total is known and the file is the object |
| UploadAnswers.OrdinaryIdsAreValid | src/bqemulator/jobs/upload_session_manager.py:46-49 | ids of 8 to 64 letters, digits, underscores and hyphens are looked up, so every drawn id is |
| UploadAnswers.OtherIdsAreNot | src/bqemulator/jobs/upload_session_manager.py:356-359 | ids that are too short, too long or hold another character, but for one final newline, are never found |
| UploadAnswers.LookupAnswers | src/bqemulator/jobs/upload_session_manager.py:189-201 | a session is found exactly when it is registered under a valid id and has not outlived its time to live; it is returned as it is |
| UploadAnswers.LookupSweeps | src/bqemulator/jobs/upload_session_manager.py:390-398 | a lookup removes exactly the sessions idle for longer, with their files |
| UploadAnswers.CreateAnswers | src/bqemulator/jobs/upload_session_manager.py:163-187 | a new session starts at zero with an empty file, unless its file exists already |
| UploadAnswers.AppendAnswers | src/bqemulator/jobs/upload_session_manager.py:203-292 | an append to a session that is found is judged on header and size alone; accepted, its bytes follow the file and the cursor, total and activity move with them |
| UploadAnswers.FinalizeAnswers | src/bqemulator/jobs/upload_session_manager.py:323-334 | finalize marks a session that is found and renews its activity |
| UploadAnswers.RemoveAnswers | src/bqemulator/jobs/upload_session_manager.py:336-343 | remove takes session and file, and neither complains about a missing one nor touches another |
| UploadAnswers.InUseIsFound | src/bqemulator/jobs/upload_session_manager.py:189-201 | over every run in which no call comes later than the time to live after the last activity, a session that is not removed is found |
| UploadAnswers.CreatedIsFound | src/bqemulator/jobs/upload_session_manager.py:163-201 | so a created session is found by every later lookup in time |
| UploadManager.UploadSessionManager.Create | src/bqemulator/jobs/upload_session_manager.py:163-187 | the manager's objects after the call are the function's result |
| UploadManager.UploadSessionManager.Get | src/bqemulator/jobs/upload_session_manager.py:189-201 | as above, eviction first |
| UploadManager.UploadSessionManager.CheckAppend | src/bqemulator/jobs/upload_session_manager.py:203-292 | the checks, in order, are those of `AppendChunk` |
| UploadManager.UploadSessionManager.WriteChunk | src/bqemulator/jobs/upload_session_manager.py:203-235 | an accepted chunk updates file, cursor, total and activity of that session only |
| UploadManager.UploadSessionManager.AppendBytes | src/bqemulator/jobs/upload_session_manager.py:203-235 | the whole append is `Do`, raising or not |
| UploadManager.UploadSessionManager.ListExpired | src/bqemulator/jobs/upload_session_manager.py:390-398 | lists exactly the sessions past their time to live |
| UploadManager.UploadSessionManager.EvictExpired | src/bqemulator/jobs/upload_session_manager.py:390-398 | the eviction loop is `Evict` |
| UploadManager.UploadSessionManager.FinalizeSession | src/bqemulator/jobs/upload_session_manager.py:323-334 | as above |
| UploadManager.UploadSessionManager.Remove | src/bqemulator/jobs/upload_session_manager.py:336-343 | as above |
| ShardNames.ShardNumbersDistinct | src/bqemulator/jobs/executor.py:2085-2110 | different shards have different numbers, at any count |
| ShardNames.SortedExactly | src/bqemulator/jobs/executor.py:2085-2110 | the padded numbers sort in index order if and only if there are at most 10^12 shards |
| ShardNames.TwelveDigits | src/bqemulator/jobs/executor.py:2085-2110 | below 10^12 a shard number has exactly twelve digits and denotes the shard |
| ShardedExport.ShardOffsets | src/bqemulator/jobs/executor.py:1847-1863 | the accumulating loop yields the slices of the closed form |
| ShardedExport.SlicesCover | src/bqemulator/jobs/executor.py:1847-1863 | for all counts the slices are contiguous, cover every row, differ in length by at most one, the longer ones first, and none is empty when there are rows to go round |
| ShardedExport.ShardsAreTheTable | src/bqemulator/jobs/executor.py:1847-1863 | the slices read in order are the table |
| ShardedExport.Shards | src/bqemulator/jobs/executor.py:2129-2149 | at least one shard, and never more than rows |
| ShardedExport.ShardsExactly | src/bqemulator/jobs/executor.py:2129-2149 | the number of files and the two size errors, exactly: with a wildcard the fewest files whose shares stay within the threshold, as far as there are rows |
| ShardedExport.ResolveExactly | src/bqemulator/jobs/executor.py:1627-1655 | `gs://` addresses go under the root, `file://` is taken off, anything else is a path |
| ShardedExport.ObstacleExactly | src/bqemulator/jobs/executor.py:1658-1671 | what blocks a shard and in which order the causes are looked at |
| ShardedExport.DestinationsDistinct | src/bqemulator/jobs/executor.py:1627-1671 | no two shards resolve to one path |
| ShardedExport.DestinationsSort | src/bqemulator/jobs/executor.py:2085-2110 | below 10^12 the paths sort in shard order |
| ShardedExport.PlanExactly | src/bqemulator/jobs/executor.py:2085-2110 | a plan is made exactly when no shard has an obstacle |
| ShardedExport.WrittenExactly | src/bqemulator/jobs/executor.py:2113-2180 | every shard ends up in its own file and no other file changes |
| ShardedExport.ExportIsComplete | src/bqemulator/jobs/executor.py:2113-2180 | reading the destinations of a written export in order returns the table; all other files are as before |
| ShardedExport.ExportRefusedExactly | src/bqemulator/jobs/executor.py:2085-2180 | an export is refused exactly when its size does not fit its address or some shard has an obstacle |
| ShardedExport.RefusalNamesFirst | src/bqemulator/jobs/executor.py:2085-2180 | a refused export names its size error or the obstacle of the first shard that has one |
| ShardedExport.ReportedUris | src/bqemulator/jobs/executor.py:2113-2180 | a written export reports the address of every shard, in order |
| ShardedExport.Bucket.PlanShards | src/bqemulator/jobs/executor.py:2085-2110 | the checking loop is the plan function, first obstacle first |
| ShardedExport.Bucket.WriteExport | src/bqemulator/jobs/executor.py:2113-2180 | a refused export, whichever shard is blocked, writes no file at all |
| ResponseSchema.BuildResponseSchema | src/bqemulator/jobs/executor.py:275-300 | length, order and everything but the name are kept; the k-th repeat of a name gets `_k` |
| ResponseSchema.NewNameExactly | src/bqemulator/jobs/executor.py:275-300 | the first column of a name keeps it, the one with k before it gets `_k` |
| ResponseSchema.SuffixUnique | src/bqemulator/jobs/executor.py:275-300 | a suffixed name determines its base and number |
| ResponseSchema.DistinctExactly | src/bqemulator/jobs/executor.py:275-300 | the new names are pairwise distinct if and only if no original name is another plus `_k` with k below its multiplicity |
| ResponseSchema.LookalikeClashes | src/bqemulator/jobs/executor.py:275-300 | columns a, a, a_1 clash |
| AvroRouting.PreCheckExactly | src/bqemulator/jobs/avro_reader.py:87-252 | for every well-formed nested schema the pre-check says decimal exactly when the converted schema has one or one hides under a multi-branch union or a date or timestamp node |
| AvroRouting.PreCheckFindsAny | src/bqemulator/jobs/avro_reader.py:218-252 | on well-formed schemas the pre-check says decimal exactly when some node, anywhere, is one |
| AvroRouting.RoutingSound | src/bqemulator/jobs/avro_reader.py:87-252 | a file whose converted schema has a decimal is always caught, and only those are when none hides |
| AvroRouting.HiddenInUnion | src/bqemulator/jobs/avro_reader.py:128-141 | a union of string and decimal is caught although it converts without a decimal |
| AvroRouting.PrimitivesExactly | src/bqemulator/jobs/avro_reader.py:198-215 | each primitive name converts to its Arrow type, any other to text |
| AvroRouting.LogicalExactly | src/bqemulator/jobs/avro_reader.py:161-173 | decimals keep precision and scale, with 38 and 9 for absent ones; dates and timestamps win over their base |
| AvroRouting.ComplexExactly | src/bqemulator/jobs/avro_reader.py:176-195 | records keep fields, names and order, arrays and maps their element, other dictionaries are their base |
| AvroRouting.UnionConverts | src/bqemulator/jobs/avro_reader.py:128-141 | a union with one branch besides nulls is that branch, wherever it stands; any other is text |
| CreateModelJobs.RegisterModel | src/bqemulator/jobs/executor.py:2588-2630 | registration updates only a model that is there and was to be replaced; otherwise it creates, or raises and changes nothing |
| CreateModelJobs.CheckAnswers | src/bqemulator/jobs/executor.py:2503-2528 | what a check resolves to from clauses, dataset and model alone: missing dataset, CREATE, REPLACE, SKIP or conflict |
| CreateModelJobs.CommitAnswers | src/bqemulator/jobs/executor.py:2588-2630 | how a registration ends and what the models are afterwards, from the resolved operation and the catalog then |
| CreateModelJobs.OtherwiseAnswers | src/bqemulator/jobs/executor.py:2503-2679 | a failing training query ends a checked job and changes no model; a job that has ended, or not been checked, moves no further |
| CreateModelJobs.AtMostOneCreate | src/bqemulator/jobs/executor.py:2503-2679 | for any number of jobs under any interleaving without deletions: at most one reports CREATE for a model, none if it was there, and REPLACE or SKIP only if it was there or another job created it |
| CreateModelJobs.LosersChangeNothing | src/bqemulator/jobs/executor.py:2588-2630 | a job that raises leaves the models alone |
| CreateModelJobs.SerializableExactly | src/bqemulator/jobs/executor.py:2503-2679 | with models and whole datasets dropped at any time: reports and drops, taken in that order with each job run alone, give the same reports and models if and only if no job registers a replacement for a model that has gone from a dataset that is there |
| CreateModelJobs.Serializable | src/bqemulator/jobs/executor.py:2503-2679 | without drops every interleaving is serializable |
| CreateModelJobs.ReportTrueExactly | src/bqemulator/jobs/executor.py:2503-2679 | in every reachable state, drops included, a report says CREATE exactly of an absent model if and only if the job did not resolve to replace a model that has gone since |
| CreateModelJobs.ReadyOverRuns | src/bqemulator/jobs/executor.py:2503-2528 | what that needs of a state holds in every reachable one |
| CreateModelJobs.DropMakesReplaceFalse | src/bqemulator/jobs/executor.py:2616-2630 | a drop between check and registration is such a case |
| CreateModelJobs.LosesRaceExactly | src/bqemulator/jobs/executor.py:2616-2630 | a checked job fails with a conflict exactly when its model appeared after the check, whatever clause it carries |
| CreateModelJobs.ClausesDoNotHelp | src/bqemulator/jobs/executor.py:2503-2630 | two jobs for one new model, both checked before either registers: CREATE OR REPLACE and CREATE IF NOT EXISTS raise that conflict |
| SeedModel.SeedEntries | src/bqemulator/commands/seed.py:56-184 | seeding any tree into any directory, in any order of the walk, raises exactly when a project, dataset or table id is not one that SQL may see; otherwise the catalog is the old one overlaid with the tree and the counters count its files |
| SeedModel.TableRefusedExactly | src/bqemulator/commands/seed.py:138-175 | a table file is refused exactly for its name, a missing schema or a missing dataset; only the last leaves an empty table behind, and catalog and counters never see it |
| SeedModel.FileExactly | src/bqemulator/commands/export.py:153-195 | a rows file exists exactly for a stored table the engine knows, and holds all its rows, even none |
| SeedModel.OrdinaryIdsAreSafe | src/bqemulator/storage/sql_identifiers.py:38-45 | ids of the whitelist pass |
| SeedModel.OtherIdsAreNotSafe | src/bqemulator/storage/sql_identifiers.py:38-45 | ids outside it do not |
| SeedModel.NameExactly | src/bqemulator/storage/sql_identifiers.py:48-64 | the physical schema of `p.d` is `p__d` |
| SeedRows.SeedExact | src/bqemulator/commands/seed.py:138-175 | every stored table gains exactly the rows of its file after its old ones and no other table changes, if and only if no file with rows shares its physical table with another |
| SeedRows.SeedConserves | src/bqemulator/commands/seed.py:138-175 | row by row, every physical table ends with what it had plus what every file that names it sends, shared names or not, and no other table appears |
| SeedRows.ReportedRowsExactly | src/bqemulator/commands/seed.py:165-175 | the rows reported are never fewer than those in the files, and are exactly those if and only if every file with rows finds its table empty and is the only one to fill it |
| ExportSeed.RoundTripExactly | src/bqemulator/commands/export.py:84-195 | export then seed into an empty directory is the identity on datasets, tables, routines and rows, with equal counts, if and only if every id is one SQL may see and no physical table with rows belongs to two catalog tables |
| ExportSeed.SeedTwice | src/bqemulator/commands/seed.py:105-175 | a second seed, in whatever order, leaves the catalog unchanged, adds exactly one more copy of each row, and reports the rows it loaded if and only if there were none |
| ExportSeed.SeedTwiceInOrder | src/bqemulator/commands/seed.py:138-175 | where names are not shared the second copy follows the first in order and twice the rows are reported |
| ExportSeed.NamesApart | src/bqemulator/storage/sql_identifiers.py:48-64 | projects without a doubled or final underscore never share a physical table |
| ExportSeed.NamesCanMeet | src/bqemulator/storage/sql_identifiers.py:48-64 | `a.b__c.t` and `a__b.c.t` do |
| SeedCommands.ExportTableRows | src/bqemulator/commands/export.py:153-195 | no file for a table the engine does not know, an empty one for no rows, else all rows; the count is that of the file |
| SeedCommands.ExportTables | src/bqemulator/commands/export.py:101-113 | the tables of one dataset join the tree, with the counters kept exact |
| SeedCommands.ExportRoutines | src/bqemulator/commands/export.py:115-120 | the routines of one dataset join the tree |
| SeedCommands.ExportDataset | src/bqemulator/commands/export.py:97-120 | one turn of the outer loop: what is written is exactly the part of the finished tree for the datasets done |
| SeedCommands.ExportAll | src/bqemulator/commands/export.py:84-132 | the nested loops write the whole tree with its counts, or stop exactly when a stored table has an unsafe name |
| SeedCommands.DataDirectory.Export | src/bqemulator/commands/export.py:84-132 | the same on the live directory, which it does not change |
| SeedCommands.DataDirectory.SeedDataset | src/bqemulator/commands/seed.py:105-124 | schema, then create or update |
| SeedCommands.DataDirectory.SeedTable | src/bqemulator/commands/seed.py:138-175 | create, register, copy and count are the value-level step |
| SeedCommands.DataDirectory.SeedRoutine | src/bqemulator/commands/seed.py:178-184 | create, and on a domain error update |
| SeedCommands.DataDirectory.SeedTables | src/bqemulator/commands/seed.py:124-129 | every table file of the directory once, stopping at the first that raises |
| SeedCommands.DataDirectory.SeedRoutines | src/bqemulator/commands/seed.py:131-135 | every routine file of the directory once |
| SeedCommands.DataDirectory.SeedFolder | src/bqemulator/commands/seed.py:105-135 | dataset, then tables, then routines: the walk so far is a walk of what it has met |
| SeedCommands.DataDirectory.Seed | src/bqemulator/commands/seed.py:56-135 | the nested loops visit every file of the tree once, datasets first; without a manifest of version 1 nothing is touched |
| SeedCommands.CopyDirectory | src/bqemulator/commands/export.py:84-132 | the two commands composed: exporting one directory and seeding a new one succeeds exactly when every id is safe, and is then faithful exactly when no names are shared |
| DdlSync.SameEmptiness | src/bqemulator/catalog/ddl_sync.py:218-252 | while catalog and storage agree, the guard's table listing and the engine's dependency check are the same test |
| DdlSync.AgreementExactly | src/bqemulator/jobs/executor.py:667-722 | from agreeing key sets every statement, however it ends, leaves agreeing key sets if and only if `Keeps`, a condition on the state before it; the exceptions are a new table or view that cannot be quoted or read back, a bare DROP SCHEMA of a dataset with models only, a change in a physical schema that another dataset has as well, and a change of the catalog through a reserved schema. The sync fails exactly in the first two |
| DdlSync.AgreementOverRuns | src/bqemulator/catalog/ddl_sync.py:69-321 | over every run of statements the catalog is an exact index of storage all the way if and only if each statement keeps it where it comes; the first that does not always disagrees |
| DdlSync.RelationOperationExactly | src/bqemulator/jobs/ddl_result.py:130-222 | the operation resolved before a table or view statement that then reports is the change seen, CREATE, REPLACE, SKIP or DROP, and no other is, unless the statement goes to a reserved schema and is not skipped |
| DdlSync.SchemaOperationExactly | src/bqemulator/jobs/ddl_result.py:130-222 | the same for schemas |
| DdlSync.TwoPartsAreThree | src/bqemulator/catalog/ddl_sync.py:470-477 | a relation named by dataset and table is the one of the job's project: the whole job is the same |
| DdlSync.SchemaNamesResolve | src/bqemulator/catalog/ddl_sync.py:331-381 | a bare dataset name means the job's project, and a name quoted as a whole means its two parts: the whole job is the same |
| DdlSync.CreateAnswers | src/bqemulator/catalog/ddl_sync.py:69-166 | CREATE of `p.d.t` while catalog and storage agree: its result from the catalog before, and exactly what it leaves, the entry listed and `p__d`.`t` there |
| DdlSync.DropAnswers | src/bqemulator/catalog/ddl_sync.py:278-293 | the same for DROP: entry, view row and relation go, and nothing else but snapshots |
| DdlSync.DropSparesSnapshots | src/bqemulator/catalog/ddl_sync.py:278-293 | a reported drop takes exactly the automatic snapshots of that table |
| DdlSync.SchemaAnswers | src/bqemulator/catalog/ddl_sync.py:169-252 | the same for CREATE and DROP SCHEMA, the guard included |
| DdlSync.ReportedFromCatalog | src/bqemulator/jobs/ddl_result.py:130-222 | whatever the storage holds, the reported operation follows from clauses and catalog before the statement |
| DdlSync.RelationsBlockDrop | src/bqemulator/catalog/ddl_sync.py:218-252 | a bare DROP SCHEMA changes nothing while the engine holds relations there, listed or not |
| DdlSync.EmptyIdCreatesNothing | src/bqemulator/catalog/ddl_sync.py:169-186 | CREATE SCHEMA with an empty dataset id changes neither catalog nor storage |
| DdlSync.ModelsStrand | src/bqemulator/catalog/ddl_sync.py:296-321 | with models only, the guard passes, the schema goes and the catalog entry stays |
| DdlSync.SharedSchemaCollides | src/bqemulator/storage/sql_identifiers.py:48-55 | while two datasets share a physical schema, creating one reports CREATE and makes key sets disagree |
| DdlSync.UnquotableTableIsUnlisted | src/bqemulator/catalog/ddl_sync.py:93-114 | a table named `a b`: the engine makes it, reading it back is refused by the identifier whitelist, the job fails and the catalog never lists it |
| DdlSync.ReservedSchemaIsRegistered | src/bqemulator/sql/table_rewriter.py:84-85 | CREATE SCHEMA IF NOT EXISTS of a reserved name is reported as CREATE and registers a dataset that has no schema |
| DdlSync.EnsureDataset | src/bqemulator/catalog/ddl_sync.py:384-404 | an existing dataset is left alone, a missing one registered |
| DdlSync.SyncCreatedRelation | src/bqemulator/catalog/ddl_sync.py:69-166 | dataset ensured, then the relation read back, which refuses names SQL may not see and raises before the entry is written, then the entry updated or created; a target without a dataset is ignored |
| DdlSync.SyncCreatedSchema | src/bqemulator/catalog/ddl_sync.py:169-186 | the dataset of a bare, qualified or wholly quoted target is registered |
| DdlSync.DropAutoSnapshots | src/bqemulator/versioning/snapshots.py:218-240 | exactly the automatic snapshots of the table go |
| DdlSync.SyncDroppedRelation | src/bqemulator/catalog/ddl_sync.py:278-293 | the entry, its automatic snapshots and its view row go; user snapshots stay |
| DdlSync.SyncDroppedSchema | src/bqemulator/catalog/ddl_sync.py:296-321 | the delete is passed on with its cascade flag, and may be refused |
| DdlSync.SyncStatement | src/bqemulator/jobs/executor.py:685-722 | the four sync calls in a row are the one that applies |

## Left out

- SQL parsing, translation, rewriting and scripting: statements enter already parsed.
- DuckDB itself, Arrow, Parquet, ORC and protobuf bytes: tables are sequences of rows and decoders are parameters.
- Case folding of physical names by the engine: names are compared as they are.
- SeedCommands.DataDirectory.Seed: takes a tree as export writes it, because the command asks for a directory produced by an earlier export; files placed by hand under other names are not covered.
- The order of listings, and which jobs a truncated job list shows.
- Rows that hydration skips because their JSON no longer validates.
- Stream names as strings: they enter as parsed or malformed.
- GetWriteStream, and the caller, metric and log side of every call.
- Path normalisation, `..` segments, symbolic links and disk failures; file names stand for the ids they spell.
- Header characters beyond Latin-1, and thread races inside one upload session.
- Conversion of result types to StandardSQL, the split into feature and label columns, and the columns that a DDL job reports: case-by-case tables that would add only easy members.
- The REST app, gRPC wiring, configuration, row-access matching, error wording and metrics export: plumbing.
- CatalogModel.IntegrityOverRuns: says nothing about policies, views and snapshots having a dataset, because the code does not ask for one.
- DdlSync.AgreementOverRuns: claims agreement of key sets, not of contents, because the sync refreshes the entry also after a skipped CREATE IF NOT EXISTS.
- DdlSync.RelationOperationExactly: says nothing of a target without a dataset, which the sync ignores.
- CreateModelJobs.SerializableExactly: covers the jobs that report; one that raises has no place in the order and changes nothing.
