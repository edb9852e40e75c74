# Verification of the agent memory runtime

A Dafny 4.11 model of the durable parts of the C++ agent memory runtime, with proofs. Check it with
`dafny verify dfyconfig.toml`.

The model covers four connected pieces:

- **Consolidation.** Events get increasing ids. A run loads the cursor of its (agent, session) scope, loads
  the events after it, builds a bounded batch and commits memory rows and the new cursor in one transaction,
  while other threads append. `BatchBuilder`, `EventLog` and `FilterLayers` describe one run, `Delivery` and
  `Drain` all histories of runs, `Consolidation` the writer and the service, `SessionRows` what a committed run
  leaves in the tables, and `Runtime` ties the methods to the histories: the class records a trace of protocol
  states, every method extends it by protocol steps, and its session rows record the batches committed.
- **The long-term store.** `Kernel` gives the effect of each statement on the tables, `FullText` the indexes
  kept by triggers, and `SqliteStore` the store as a class whose statements may each fail. `Supersession`
  treats `superseded_by` chains, `MemoryUpdate`, `UpdateRows` and `Reapply` the writing of a whole update.
- **Search.** `LikePattern`, `FtsQuery`, `Ranking` and `Search`: escaping, sanitising, scoring, merging;
  `StoreSearch` puts them together over the tables of a store.
- **Payload offload and the JSON codec.** `Paths`, `PayloadProtocol` (all histories, with crashes and the
  cleaner) and `PayloadService` (the class, tied to the histories as the runtime is); `Json` and `ContextCodec`.

Code that works by changing state is modelled by classes and loops proved against functions on values; the
properties are then lemmas about those functions and about the histories of states. Every operation that can
fail does so arbitrarily: `Step` in the store and in the payload service returns any outcome, and a search takes the
outcomes of its queries as parameters.

## Where code and documentation differ

- "Values <= 0 mean no batch truncation" (include/agent_memory/long_term_memory.h:76) is false of the code: a
  non-forced request with `maxEvents <= 0` does nothing (src/consolidation/consolidation_batch_builder.cpp:14-16).
  `BatchBuilder.UnlimitedReadsNothing` is the input, `BatchBuilder.NoTruncationIff` says when it is true, for all
  inputs. Forced requests can fail it too, beyond 2^32 events: `BatchBuilder.HugeListIsTruncated`.
- Excluded sessions are said to advance the cursor (include/agent_memory/long_term_memory.h:80-85). The
  store's query drops them first, so trailing excluded events do not: `FilterLayers.TrailingExcludedIsNotRead` is
  the input, `FilterLayers.CursorsAgreeIff` the exact condition, `FilterLayers.LayersAgree` what holds regardless.
- Runs that are not forced deliver at most once and in order, whatever they exclude (`Delivery.AtMostOnce`). Delivery
  is exactly once as long as they also share one exclusion set (`Delivery.ExactlyOnce`). For any history
  `Delivery.ExactThroughoutIff`, and for any single commit `Delivery.CommitIsExactIff`, say exactly when, with simpler
  forms for forced runs (`Delivery.ForcedRunIsExactIff`) and for another exclusion list
  (`Delivery.OtherExclusionIsExactIff`); `Delivery.OtherExclusionLosesIff` says when nothing is lost.
  `Drain.ForcedRunRepeats`, `Drain.ExcludingRunLoses` and
  `Drain.IncludingRunOverdelivers` are histories that end in a repeat, in a loss and in an event that was not due.
- Entities are not isolated per agent, although searches are: ids are one global key and obsoleting has no agent
  filter (src/storage/sqlite_store.cpp:419, 1341-1342, 1472-1473). `Kernel.OtherAgentsRowChangesIff` says exactly
  when a save changes a row of another agent, `Kernel.AgentsShareIds` gives the two ways.
- The queries break ties by time and by id descending, the merge by id ascending, so cutting each type first can
  change which of several hits with one score is returned: `Ranking.TiedSummariesDisagree` is the input,
  `Ranking.MergedKeysAgreeIff` and `Ranking.OnlyTiesAreMissed` the exact condition.
- "supersedes" relations can leave entities without an active successor: `Supersession.OppositeSupersedesCycle`
  is the witness, `Supersession.MarkObsoleteIff` the exact condition.
- An unsigned JSON integer just below 2^64 wraps to a small negative number instead of being rejected as out
  of range (src/serialization/json_helpers.h:35-40). `Json.IntegersRead` says what every integer literal reads as.

## Model

| member | source | states |
|---|---|---|
| CursorText.CursorRoundTrip | src/storage/sqlite_store.cpp:179-189 | printing any integer and parsing it gives it back inside the 64-bit range and zero outside |
| CursorText.CursorOrder | src/storage/sqlite_store.cpp:1499-1502 | the text cursor keeps the order of ids |
| CursorText.CursorReads | src/storage/sqlite_store.cpp:179-189 | white space, a sign, digits and anything after them read as the number, or as zero beyond 64 bits |
| CursorText.NoDigitsReadZero | src/storage/sqlite_store.cpp:179-189 | a text without digits, the empty one included, reads as zero |
| CursorText.DecimalHead | src/consolidation/consolidation_batch_builder.cpp:27 | numbers print without leading zeros |
| Integers.AsInt32Wraps | src/consolidation/consolidation_batch_builder.cpp:18-21 | the 32-bit cast keeps a size modulo 2^32, hence every size below 2^31 |
| BatchBuilder.Build | src/consolidation/consolidation_batch_builder.cpp:8-53 | the scan returns the eligible events of the shortest prefix that fills the limit, their references and transcript, and the cursor of the last event read |
| BatchBuilder.BuildFacts | src/consolidation/consolidation_batch_builder.cpp:8-53 | field by field: the batch holds exactly the messages read that are of the session asked for and not of an excluded one; the cursor is that of the last event read, or its position; nothing is read without limit and force |
| BatchBuilder.ReadCountUnique | src/consolidation/consolidation_batch_builder.cpp:25-48 | the stopping rule determines how many events are read |
| BatchBuilder.PickedGrows | src/consolidation/consolidation_batch_builder.cpp:29-47 | reading one more eligible event strictly grows the batch |
| BatchBuilder.BatchIsHead | src/consolidation/consolidation_batch_builder.cpp:18-48 | a batch is the head of the eligible events, cut only by a positive limit |
| BatchBuilder.NoTruncationIff | include/agent_memory/long_term_memory.h:76 | a request without a limit gets every eligible event iff there is none, or it is forced and the 32-bit size of the list does not cut |
| BatchBuilder.UnlimitedReadsNothing | src/consolidation/consolidation_batch_builder.cpp:14-16 | one message, no limit, not forced: the batch is empty and nothing is read |
| BatchBuilder.HugeListIsTruncated | src/consolidation/consolidation_batch_builder.cpp:18-21 | 2^32 + 1 messages, no limit, forced: a batch of one |
| BatchBuilder.RefsNameTheirEvents | src/consolidation/consolidation_batch_builder.cpp:41-43 | the i-th source reference is "session://", the session, "#event:" and the stored cursor of the i-th event of the batch |
| BatchBuilder.TranscriptLast | src/consolidation/consolidation_batch_builder.cpp:41 | each event adds the line "role: content" to the transcript |
| BatchBuilder.TranscriptConcat | src/consolidation/consolidation_batch_builder.cpp:41-50 | transcripts of successive batches join to the transcript of all their events, so cutting loses no text |
| EventLog.LoadedFacts | src/storage/sqlite_store.cpp:719-759 | a load is an ordered part of the log, within the bounds of the log |
| EventLog.LoadedIff | src/storage/sqlite_store.cpp:719-736 | an event is loaded iff it is the agent's, beyond the cursor, and of the session given, or, without one, of a session that is not excluded |
| EventLog.LoadThenBuildIsStretch | src/storage/sqlite_store.cpp:722-732 | query, cursor and builder filters in a row select one stretch of the log |
| EventLog.StretchIgnoresAppends | src/core/builtin_memory_runtime.cpp:109-120 | rows appended after a load lie beyond every cursor taken from it |
| EventLog.BatchIsStretch | src/core/builtin_memory_runtime.cpp:90-98 | the batch is exactly the wanted events of the whole log between the start cursor and the saved one, even if the log grew meanwhile |
| FilterLayers.LayersAgree | src/consolidation/consolidation_batch_builder.cpp:29-36 | with or without the query's exclusion the batches agree iff the limits let through equally many events; then references and transcript agree and no eligible event lies between the two cursors; the prefiltered cursor is no larger iff the limits allow; both hold unless a list size wraps |
| FilterLayers.CursorsAgreeIff | include/agent_memory/long_term_memory.h:80-85 | the cursors agree iff nothing is read or both builds end on the same event; unless a list size wraps, iff the limit is reached or the last event is not excluded |
| FilterLayers.TrailingExcludedIsNotRead | src/storage/sqlite_store.cpp:724-731 | a message and then an excluded one: the runtime's cursor stays at the first |
| FilterLayers.WrappedSizesDisagree | src/consolidation/consolidation_batch_builder.cpp:18-21 | lists of 2^32 + 2 and 2^32 + 1 events for which the two layers build different batches |
| FilterLayers.LoadIsPrefiltered | src/storage/sqlite_store.cpp:724-731 | an agent-level load is exactly the unexcluded part of the load without the exclusion list |
| FilterLayers.ReadsSamePart | src/storage/sqlite_store.cpp:724-731 | the prefiltered build reads the prefiltered part of what the other reads |
| Delivery.StepKeepsConsistent | src/core/builtin_memory_runtime.cpp:78-98 | every step keeps cursors within the log and in-flight runs started from the stored cursor |
| Delivery.CommitDelivers | src/consolidation/consolidation_service.cpp:66-90 | a commit appends to its scope's deliveries the wanted events between start and new cursor |
| Delivery.ExactlyOnce | src/core/builtin_memory_runtime.cpp:78-98 | in every state of every unforced history with one exclusion set, the committed batches of a scope concatenate to the wanted events at or below its cursor, in order |
| Delivery.DeliveredIff | src/core/builtin_memory_runtime.cpp:78-98 | so an event has been delivered to a scope iff it is a message of its agent and session, not of an excluded session, with an id at or below the scope's cursor |
| Delivery.AtMostOnce | src/core/builtin_memory_runtime.cpp:78-98 | in every state of every unforced history, whatever the exclusion lists, the deliveries of a scope strictly increase and stay at or below its cursor |
| Delivery.CutsDoNotMatter | src/consolidation/consolidation_batch_builder.cpp:44-47 | histories that reach the same cursor delivered the same events however batches were cut |
| Delivery.NoLoss | src/core/builtin_memory_runtime.cpp:79-89 | forced runs included, every wanted event at or below the cursor is in some committed batch |
| Delivery.ExactThroughoutIff | src/core/builtin_memory_runtime.cpp:78-98 | any history, whatever its runs exclude and whichever are forced, delivers exactly once in every state iff each commit's batch fits between the old and the new cursor |
| Delivery.CommitIsExactIff | src/consolidation/consolidation_service.cpp:66-90 | a commit of any run keeps exactly-once delivery iff its batch is what was wanted between the old and the new cursor and the cursor moves back over nothing wanted |
| Delivery.ForcedRunIsExactIff | src/core/builtin_memory_runtime.cpp:80-89 | a forced run keeps exactly-once delivery iff it found no events or nothing had been delivered |
| Delivery.OtherExclusionIsExactIff | src/consolidation/consolidation_batch_builder.cpp:32-36 | an unforced run with another exclusion list keeps exactly-once delivery iff both lists want the same of the events it moves the cursor over |
| Delivery.OtherExclusionLosesIff | src/consolidation/consolidation_batch_builder.cpp:32-36 | a run with another exclusion list keeps the no-loss property iff it excludes no undelivered wanted event of its stretch |
| Drain.RunIsThreeSteps | src/core/builtin_memory_runtime.cpp:78-98 | an uninterrupted run is three protocol steps |
| Drain.RunTakes | src/consolidation/consolidation_service.cpp:22-47 | a run with limit k delivers the first k remaining events or all; a short one leaves nothing to load; with nothing to load it changes nothing |
| Drain.DrainProgress | src/consolidation/consolidation_batch_builder.cpp:44-47 | after j runs exactly the first j * k remaining events have been delivered |
| Drain.DrainBound | src/consolidation/consolidation_batch_builder.cpp:25-48 | m remaining events are delivered after floor(m / k) + 1 runs, then nothing is loadable and runs change nothing |
| Drain.RunsInARowDrain | src/core/builtin_memory_runtime.cpp:78-98 | the bound for any succession of runs, such as successful calls of the runtime without appends |
| Drain.LoadableShrinks | src/consolidation/consolidation_service.cpp:27-47 | while events are loadable each run strictly reduces them |
| Drain.ForcedRunRepeats | src/core/builtin_memory_runtime.cpp:80-89 | a reachable state in which a message has been delivered twice: appended, consolidated, consolidated by force |
| Drain.ExcludingRunLoses | src/consolidation/consolidation_batch_builder.cpp:29-36 | a reachable state in which a wanted message below the cursor was never delivered: appended, then passed over by a run that excludes its session |
| Drain.IncludingRunOverdelivers | src/consolidation/consolidation_batch_builder.cpp:32-36 | a reachable state in which a message was delivered that was never due: its session is excluded, but not by the run that consolidated it |
| Kernel.SaveEntityEffect | src/storage/sqlite_store.cpp:1327-1385 | the saved id holds the given fields, metadata that is no object replaced by an empty one; another row changes only its link, to the saved id, exactly if it was an active duplicate of a complete key or the superseded entity |
| Kernel.OtherAgentsRowChangesIff | src/storage/sqlite_store.cpp:1338-1376 | a save changes a row of another agent iff it has that row's id or newly obsoletes it by name |
| Kernel.AgentsShareIds | src/storage/sqlite_store.cpp:1470-1487 | two saves after which an entity of one agent belongs to, or is obsoleted by, another |
| Kernel.SaveRelationEffect | src/storage/sqlite_store.cpp:1387-1435 | a new active row with the next id and the given fields comes last, its metadata marked if it is a contradiction; an older row only becomes inactive, exactly if it is the same relation |
| Kernel.ContradictionIsRecorded | src/storage/sqlite_store.cpp:1390-1395 | only contradictions touch a relation's metadata, and only two of its fields |
| Kernel.SaveRelationObsoletes | src/storage/sqlite_store.cpp:1437-1441 | a "supersedes" relation obsoletes exactly the entity it points to, in favour of the one it comes from |
| Kernel.MarkObsoleteEffect | src/storage/sqlite_store.cpp:1470-1487 | marking makes one entity inactive and links it to its successor, and changes nothing else |
| Kernel.SaveKeepsEntitiesUnique | src/storage/sqlite_store.cpp:1446-1468 | at most one active entity with an id per complete (agent, type, name), even when an upsert moves a row to another key |
| Kernel.MarkKeepsEntitiesUnique | src/storage/sqlite_store.cpp:1470-1487 | explicit obsoleting keeps that |
| Kernel.SaveKeepsRelationsUnique | src/storage/sqlite_store.cpp:1397-1413 | at most one active relation per (agent, from, type, to) |
| Kernel.SaveKeepsRowIds | src/storage/sqlite_store.cpp:1338-1351 | a save adds at most one row and moves no row id |
| Supersession.NoCycle | src/storage/sqlite_store.cpp:1452-1453 | in a well-founded table links never return to where they started |
| Supersession.RedirectIff | src/storage/sqlite_store.cpp:1472-1473 | a rewrite of links keeps all chains ending at active rows iff its target exists and the target's chain meets no rewritten row |
| Supersession.MarkObsoleteIff | src/storage/sqlite_store.cpp:1470-1487 | marking keeps chains iff the marked entity is absent, or the successor exists and does not lead back to it |
| Supersession.SaveEntityIff | src/storage/sqlite_store.cpp:1327-1385 | an active save keeps chains iff it does not supersede itself; an inactive one iff, besides, its named successor exists and leads past every rewritten row |
| Supersession.SaveHistoriesAreWellFounded | src/storage/sqlite_store.cpp:1327-1385 | any sequence of active saves, none superseding itself, leaves existing targets, no cycles and chains that end at active rows |
| Supersession.UpdateKeepsChains | src/consolidation/memory_update_writer.cpp:61-88 | so does a consolidation update of such entities without "supersedes" relations |
| Supersession.OppositeSupersedesCycle | src/storage/sqlite_store.cpp:1437-1441 | two opposite "supersedes" relations leave a cycle |
| MemoryUpdate.UpdateCounted | src/consolidation/memory_update_writer.cpp:42-90 | an update adds one summary row per text, one relation row per relation, at most one entity row per entity |
| MemoryUpdate.SecondMarkIsRedundant | src/consolidation/memory_update_writer.cpp:71-76 | the writer's repeated obsoleting changes nothing |
| UpdateRows.SummaryRowsWritten | src/consolidation/memory_update_writer.cpp:46-60 | row by row: topics as "topic", "auto" with confidence 0.5, then profiles as "profile", "user" with 0.6, each with its text, agent, session and references |
| UpdateRows.SavedInOrder | src/consolidation/memory_update_writer.cpp:61-88 | an update is its saves one after the other, records without an agent saved for the agent being consolidated |
| UpdateRows.UpdateRecords | src/consolidation/memory_update_writer.cpp:61-88 | the last entity with an id fills that id's row; rows of other ids keep all but their link; relations come last in order; older ones keep all but their activity |
| MemoryUpdate.EntitiesStayUnique | src/consolidation/memory_update_writer.cpp:61-77 | writing entities keeps active entities unique |
| MemoryUpdate.RelationsStayUnique | src/consolidation/memory_update_writer.cpp:78-88 | writing relations keeps active entities and relations unique |
| Reapply.StepsTwice | src/storage/sqlite_store.cpp:1446-1487 | a second pass of any list of entity statements changes no row |
| Reapply.OpsTwice | src/storage/sqlite_store.cpp:1327-1385 | nor the table, row ids included |
| Reapply.WriteRelationsView | src/storage/sqlite_store.cpp:1397-1441 | a batch leaves one active row per relation it mentions, the last it gave, and the others as they were |
| Reapply.ReapplyIsHarmless | src/consolidation/memory_update_writer.cpp:61-88 | writing an update twice leaves the entity table and the active relations of writing it once |
| FullText.UpdateKeepsEntitiesIndexed | src/storage/sqlite_store.cpp:499-504 | the update trigger keeps the entity index equal to the table: each term at exactly the rows, columns and positions where it occurs |
| FullText.InsertKeepsEntitiesIndexed | src/storage/sqlite_store.cpp:491-494 | so does the insert trigger |
| FullText.AppendKeepsIndexed | src/storage/sqlite_store.cpp:472-475 | the insert trigger keeps a numbered table's index equal to it |
| FullText.TouchKeepsIndexed | src/storage/sqlite_store.cpp:518-523 | an update of other columns re-indexes the row to where it was |
| FullText.PhraseIsSublist | src/storage/sqlite_store.cpp:932-937 | what the index records decides phrases: a row matches iff the phrase runs without a gap through one of its columns |
| FullText.PhraseSeesOrder | src/storage/sqlite_store.cpp:932-937 | two texts with the same terms in another order, of which a phrase matches one |
| FullText.SearchedFields | src/storage/sqlite_store.cpp:466-523 | what a query can see of a row: the words of an entity's type, name and summary, of a relation's ends and type, of a summary's level, topic and text, each in its column |
| FullText.EntityPhraseSearch | src/storage/sqlite_store.cpp:963-968 | a phrase finds an entity iff it is active, the agent's, and the phrase runs through its type, name or summary |
| FullText.RelationPhraseSearch | src/storage/sqlite_store.cpp:998-1003 | a phrase finds a relation iff it is active, the agent's, and the phrase runs through one of its ends or its type |
| FullText.SummaryPhraseSearch | src/storage/sqlite_store.cpp:927-932 | a phrase finds a summary iff it is the agent's, of the session if one is given, and the phrase runs through its level, topic or text |
| SqliteStore.SearchIsScan | src/storage/sqlite_store.cpp:927-1003 | in every store state, each full-text query over terms, columns and positions returns, with its filters, the rows a scan would |
| SqliteStore.MemorySqliteStore.constructor | src/storage/sqlite_store.cpp:382-523 | a fresh store satisfies the invariants and has an empty history |
| SqliteStore.MemorySqliteStore.SaveEvent | src/storage/sqlite_store.cpp:1237-1263 | on success the loaders see one more event: the given one with the next id as its cursor, and an empty object for metadata that is no object; else nothing changes |
| SqliteStore.MemorySqliteStore.SavePayload | src/storage/sqlite_store.cpp:1265-1295 | upserts the row of the uri, or nothing |
| SqliteStore.MemorySqliteStore.LoadConsolidationCursor | src/storage/sqlite_store.cpp:654-681 | the stored cursor as text, empty without a row |
| SqliteStore.MemorySqliteStore.SaveConsolidationCursor | src/storage/sqlite_store.cpp:1489-1509 | sets the cursor of exactly its scope, or nothing |
| SqliteStore.MemorySqliteStore.LoadEventsAfterCursor | src/storage/sqlite_store.cpp:693-761 | the log's events beyond the cursor within the query's namespace, in id order |
| SqliteStore.MemorySqliteStore.SaveSummary | src/storage/sqlite_store.cpp:1297-1325 | appends one row, indexed, or nothing |
| SqliteStore.MemorySqliteStore.MarkDuplicateEntitiesObsolete | src/storage/sqlite_store.cpp:1446-1468 | the multi-row update with its triggers, all or nothing, invariants kept |
| SqliteStore.MemorySqliteStore.UpsertEntity | src/storage/sqlite_store.cpp:1338-1376 | inserts or rewrites one row, keeping its row id, index in step |
| SqliteStore.MemorySqliteStore.MarkEntityObsolete | src/storage/sqlite_store.cpp:1470-1487 | rewrites the link of one entity of any agent, or nothing |
| SqliteStore.MemorySqliteStore.SaveEntity | src/storage/sqlite_store.cpp:1327-1385 | the whole save, or after a failure exactly the statements before it; invariants kept either way |
| SqliteStore.MemorySqliteStore.SaveRelation | src/storage/sqlite_store.cpp:1387-1444 | the whole save including the obsoleted entity, or the statements before a failure |
| SqliteStore.MemorySqliteStore.Rollback | src/storage/sqlite_store.cpp:633-642 | every table, index and cursor is what it was at the beginning of the transaction |
| Consolidation.WrittenCounts | src/consolidation/consolidation_service.cpp:93-97 | a committed consolidation adds 1 + topics + profiles summaries, one row per relation, at most one per entity |
| Consolidation.BatchSummaries | src/consolidation/memory_update_writer.cpp:30-60 | the summary rows of a batch field by field: its session row ("session", "conversation", 0.5, the transcript), then topics, then profiles |
| Consolidation.BatchRecords | src/consolidation/memory_update_writer.cpp:61-90 | the entity and relation rows of a batch hold what its update gives |
| Consolidation.ConsolidationService.Extract | src/consolidation/consolidation_service.cpp:49-60 | the model is asked first, the fallback only if the model gave no records |
| Consolidation.ExtractionDecides | src/consolidation/consolidation_service.cpp:49-79 | a run with a batch writes the model's records if it gave any, else the fallback's, else only the session row |
| Consolidation.ReportMatchesTables | src/consolidation/consolidation_service.cpp:54-97 | reported summaries and relations are the rows added, reported entities those of the records written and a bound on the rows added, and the fallback is reported iff its records were written |
| Consolidation.MemoryUpdateWriter.SaveUpdate | src/consolidation/memory_update_writer.cpp:42-90 | on success the tables are the written update and the counts its sizes |
| Consolidation.ConsolidationService.SaveCursorOnly | src/consolidation/consolidation_service.cpp:32-46 | only the scope's cursor moves, or nothing changes |
| Consolidation.ConsolidationService.WriteBatch | src/consolidation/consolidation_service.cpp:64-90 | all rows and the cursor, or nothing at all |
| Consolidation.ConsolidationService.Consolidate | src/consolidation/consolidation_service.cpp:16-103 | failure changes nothing; success leaves events and payloads alone, writes one batch with the records of the model, else of the fallback, moves one cursor and reports exact counts |
| SessionRows.WrittenTexts | src/consolidation/memory_update_writer.cpp:30-60 | a written batch adds its transcript to its own scope's session rows and touches no other scope's |
| SessionRows.CommitRecords | src/consolidation/consolidation_service.cpp:66-90 | a committed run keeps the session rows of every scope equal to the transcripts of its committed batches, in order |
| SessionRows.RecordJoins | src/consolidation/consolidation_batch_builder.cpp:41-50 | the texts on record join to the transcript of everything delivered |
| Runtime.BuiltinMemoryRuntime.AppendEvent | src/core/builtin_memory_runtime.cpp:109-120 | appending is a protocol step, allowed in the middle of a run, and adds to the history exactly the given event with the next id as its cursor |
| Runtime.BuiltinMemoryRuntime.LoadForRun | src/core/builtin_memory_runtime.cpp:79-97 | loading cursor and events are protocol steps with appends in between |
| Runtime.BuiltinMemoryRuntime.ConsolidateWithModel | src/core/builtin_memory_runtime.cpp:60-99 | a run extends the trace by protocol steps of its own request and leaves payload rows alone; a failed one changes nothing; a successful one moves cursor, tables, deliveries and report exactly as the batch of what it saw demands, and is one run of the protocol when nothing was appended |
| Runtime.RuntimeDeliversExactlyOnce | src/core/builtin_memory_runtime.cpp:60-99 | so the runtime itself delivers exactly once, whatever was interleaved, and the session rows in its tables join to the transcript of exactly the wanted events at or below the cursor |
| Runtime.RuntimeLosesNothing | src/core/builtin_memory_runtime.cpp:79-98 | forced runs included, every wanted event at or below the cursor is in a batch whose transcript the tables hold |
| LikePattern.EscapeLikePattern | src/storage/sqlite_store.cpp:191-202 | the loop computes the escaped text |
| LikePattern.SingleMatches | src/storage/sqlite_store.cpp:1035-1037 | what LIKE makes of a wildcard, a plain and an escaped character; letters match in either case |
| LikePattern.EscapedMatchesLiterally | src/storage/sqlite_store.cpp:191-202 | an escaped text consumes exactly itself, up to case |
| LikePattern.SearchPatternIsSubstring | src/storage/sqlite_store.cpp:1032-1037 | the search pattern matches exactly the texts that contain the query, up to case |
| FtsQuery.Fts5EscapeQuery | src/storage/sqlite_store.cpp:274-302 | the two loops compute the sanitised text; the second never adds a character |
| FtsQuery.SanitisedOneMore | src/storage/sqlite_store.cpp:276-293 | character by character: letters, digits, '_', white space and non-ASCII bytes are kept, a star only after a letter, digit or '_' that was kept |
| FtsQuery.SanitisedIsClean | src/storage/sqlite_store.cpp:279-292 | only plain characters remain, and stars directly after a word character |
| FtsQuery.SanitisedFixpoints | src/storage/sqlite_store.cpp:274-302 | exactly the clean texts are left unchanged; sanitising is idempotent |
| FtsQuery.SanitisedOnlyDeletes | src/storage/sqlite_store.cpp:276-293 | the output is a subsequence of the query and keeps every plain character |
| Ranking.ScoreRange | src/storage/sqlite_store.cpp:204-253 | scores lie in [0, weight), are r / (r + 1) times the weight for r = -rank, and never drop for a better rank; summaries weigh 1, entities 0.95, relations 0.90 |
| Ranking.SortAndLimitSearchResults | src/storage/sqlite_store.cpp:261-272 | the best hits, score descending and then id ascending, as many as the limit allows, all from the input |
| Ranking.LexByFirstDifference | src/storage/sqlite_store.cpp:267 | ids compare at their first difference, a prefix first |
| Ranking.MergedTopIsGlobalTop | src/storage/sqlite_store.cpp:1134-1136 | merging three lists already cut to the limit gives the scores of the global top |
| Ranking.MergedKeysAgreeIff | src/storage/sqlite_store.cpp:261-272 | the merged list has the scores and ids of the global one iff no hit dropped by a per-type cut precedes the last merged hit |
| Ranking.MergedHitsAgreeIff | src/storage/sqlite_store.cpp:261-272 | the same for whole hits, where an id belongs to one hit |
| Ranking.OnlyTiesAreMissed | src/storage/sqlite_store.cpp:932-1003 | for lists in score order that means: no dropped hit ties with the last merged one and has a smaller id |
| Ranking.OrderedCutsMissNothing | src/storage/sqlite_store.cpp:261-272 | cuts that keep the smaller ids among equal scores would always agree with the global list |
| Ranking.TiedSummariesDisagree | src/storage/sqlite_store.cpp:932-937 | two summaries of one rank and a limit of one: merge and global order return different ones |
| Ranking.MergedTopIsGlobalTopWithoutTies | src/storage/sqlite_store.cpp:261-272 | and the same hits when no two different matches share a score |
| Search.SearchLongTermMemory | src/storage/sqlite_store.cpp:908-1137 | an answer is wholly full-text or wholly LIKE, even after a failing stage; when it succeeds and what it returns |
| Search.SearchScoresAreGlobalTop | src/storage/sqlite_store.cpp:932-1003 | per-type limits do not change the scores of the best results, for any monotone rounding of scores |
| StoreSearch.LikeMatchesContain | src/storage/sqlite_store.cpp:1034-1112 | the LIKE queries match exactly the rows of the agent that contain the text, up to case, in one of the searched columns |
| StoreSearch.RunQuery | src/storage/sqlite_store.cpp:932-965 | a query that runs to its end gives the matching rows best rank first, cut to the limit |
| StoreSearch.FoundShowsRow | src/storage/sqlite_store.cpp:944-954 | what a full-text query returns of a summary, entity or relation row: its name, its text and its references |
| StoreSearch.LikeFindsTheSame | src/storage/sqlite_store.cpp:1050-1058 | a fallback query returns the same of a row |
| StoreSearch.HitsShowRows | src/storage/sqlite_store.cpp:244-259 | a hit is its row with the score of its rank and type, or with 0.30, 0.25 or 0.20 from the fallback |
| StoreSearch.SearchIsBestOfScan | src/storage/sqlite_store.cpp:908-1137 | a search of a valid store returns, for every score threshold, as many hits as rows a scan finds, up to the limit, the hits standing for different rows among them; the full-text queries give nothing iff a scan finds nothing |
| StoreSearch.SearchStore | src/storage/sqlite_store.cpp:908-1137 | for every way its six queries may fare: when the search succeeds; its answer is the best full-text rows iff those queries ran and a scan finds any, else the best LIKE rows; at most the limit, ten by default |
| Paths.NameIsOneComponent | src/core/payload_service.cpp:77-78 | a plain name under any directory text resolves to one component below it |
| Paths.CanonicalByParts | src/utils/path_util.cpp:10-18 | a path resolves part by part: from the root or the working directory, "." and empty parts stay, ".." goes up, other parts down |
| Paths.IsPathInsideDirectory | src/utils/path_util.cpp:20-49 | true exactly for the paths strictly below the directory |
| PayloadProtocol.FinalNeverMarked | src/core/payload_service.cpp:230-235 | a payload file name never contains the temp mark |
| PayloadProtocol.StepKeepsSafe | src/core/payload_service.cpp:168-218 | every step of writer, cleaner or crash keeps each row's file intact |
| PayloadProtocol.AlwaysSafe | src/core/payload_service.cpp:53-113 | in every reachable state each row's file holds exactly the offloaded content, of the recorded length |
| PayloadProtocol.ReferencedFilesStay | src/core/payload_service.cpp:168-241 | once referenced, a file and its row are never altered or removed |
| PayloadService.UriResolves | src/core/payload_service.cpp:78-87 | the uri of a payload resolves to its file below the payload directory |
| PayloadService.PayloadDirectory | src/core/payload_service.cpp:243-246 | the payload directory is memory_runtime/payloads below the resolved data path |
| PayloadService.CleanedChars | src/core/payload_service.cpp:149-153 | letters, digits, '_' and '-' of a reference are kept, every other character becomes '_' |
| PayloadService.StoredPayloadReadsBack | src/core/payload_service.cpp:115-138 | reading any stored uri in any reachable state gives the content that was offloaded |
| PayloadService.PayloadService.BuildPayloadRef | src/core/payload_service.cpp:140-155 | the reference is session, tool call and random hex digits, with exactly the characters other than letters, digits, '_' and '-' replaced |
| PayloadService.PayloadService.Cleaner | src/core/payload_service.cpp:220-241 | the cleaner is a sequence of protocol steps |
| PayloadService.PayloadService.WritePayloadFileAtomically | src/core/payload_service.cpp:168-218 | ends with the final file renamed into place, or with nothing in flight |
| PayloadService.PayloadService.SaveRow | src/core/payload_service.cpp:94-111 | adds a row for a new uri; or adds none and removes the file, reporting it when the removal fails too |
| PayloadService.PayloadService.WritePayload | src/core/payload_service.cpp:53-113 | an offloaded content gets one new row, given field by field, with a uri below the payload directory made of session, tool call and hex digits; it is replaced by a reference to the row and reads back; otherwise the content is handed back and no row added; exactly when it stays inline |
| PayloadService.PayloadService.ReadPayload | src/core/payload_service.cpp:115-138 | gives a content iff the reference has the file scheme, its path lies below memory_runtime/payloads of the data path, and a readable, non-empty file is there; then its content |
| Json.StringVectorFromJson | src/serialization/json_helpers.h:113-126 | the strings of an array, dropping other items |
| Json.IntegersRead | src/serialization/json_helpers.h:29-48 | signed literals within 32 bits are kept, unsigned ones also just below 2^64, where they turn negative; the rest read as zero |
| Json.FloatsRead | src/serialization/json_helpers.h:50-56 | integer literals of both kinds and floats are converted; anything else reads as zero |
| Json.FieldsRead | src/serialization/json_helpers.h:12-27 | texts and objects of another kind, or absent, read as empty |
| Json.StringsOneMore | src/serialization/json_helpers.h:113-126 | an array's strings item by item; a non-array has none |
| ContextCodec.ContextPackageToJson | src/serialization/json_memory_codec.cpp:445-470 | the loops build the encoding |
| ContextCodec.ContextPackageFromJson | src/serialization/json_memory_codec.cpp:472-503 | the loops build the decoding, dropping items that are not objects |
| ContextCodec.DecodedOneMore | src/serialization/json_memory_codec.cpp:472-503 | an array's object items are decoded in order, other items dropped |
| ContextCodec.PackageNames | src/serialization/json_memory_codec.cpp:445-470 | an encoded package has exactly eight fields: its lists item by item under their names, and schema version 1 |
| ContextCodec.MessageNames | src/serialization/json_memory_codec.cpp:319-326 | a reader finds the fields of a message under exactly these names |
| ContextCodec.PayloadRefNames | src/serialization/json_memory_codec.cpp:339-350 | likewise of a payload reference |
| ContextCodec.EntityNames | src/serialization/json_memory_codec.cpp:367-378 | likewise of an entity |
| ContextCodec.RelationNames | src/serialization/json_memory_codec.cpp:395-406 | likewise of a relation |
| ContextCodec.EntityRoundTrip | src/serialization/json_memory_codec.cpp:367-393 | an entity survives encoding iff it has nothing the encoding drops |
| ContextCodec.RelationRoundTrip | src/serialization/json_memory_codec.cpp:395-421 | likewise a relation |
| ContextCodec.PayloadRefRoundTrip | src/serialization/json_memory_codec.cpp:339-365 | likewise a payload reference |
| ContextCodec.EncodeThenDecodeIff | src/serialization/json_memory_codec.cpp:445-503 | a package is restored by decoding its encoding iff it holds nothing the encoding drops |
| ContextCodec.DecodeIsRetraction | src/serialization/json_memory_codec.cpp:472-503 | for every JSON value, decode, encode, decode gives the first decoding |

## Left out

- SqliteStore.MemorySqliteStore.Rollback: takes for granted that SQLite's ROLLBACK restores the state at BEGIN; the source ignores its outcome too.
- SqliteStore.SearchIsScan: the tokenizer and the reading of query text are arbitrary functions; what a query may look at is which terms a row holds at which columns and positions. Stores created before the indexes existed are not covered.
- Search.SearchLongTermMemory: takes the rows of its six queries as given; `StoreSearch.SearchStore` supplies them from the tables of a store.
- StoreSearch.SearchIsBestOfScan: ranks are an arbitrary function of row ids, and the order among equal ranks is left open.
- StoreSearch.FoundShowsRow: the entity metadata, raw rank and weight that the source puts into a hit's metadata are not modelled.
- Reapply.ReapplyIsHarmless: timestamps are not part of the rows; summary rows are appended anew by each application and are not claimed to be equal.
- Ranking.SortAndLimitSearchResults: the library sort is an insertion sort here.
- PayloadService.PayloadService.ReadPayload: paths are resolved lexically against a fixed working directory; symbolic links and resolution errors are not modelled, and `readable` stands for the operating system's answer.
- PayloadService.PayloadService.BuildPayloadRef: randomness is an arbitrary string of hex digits; collisions are caught by the existence check, and uniqueness is not claimed.
- PayloadProtocol.AlwaysSafe: one service per directory; existence checks are taken to be accurate, and a crash is one of the process, after which renames and writes that happened are on the disk.
- Cleaner expiry: the age limit is dropped, so the cleaner may remove any temp file at any time.
- Delivery: one runtime per database; cursors written directly through the store are not part of a history.
- Events: timestamps are not modelled.
- Scores and confidence values are real numbers in the tables and in score arithmetic; the codec treats conversion to `float` as any rounding that settles after one application.
- SQLite, JSON text parsing, HTTP, MCP, model clients, prompts, rule-based extraction, context rendering and schema migration.
- `LoadRecentEvents`, `LoadRecentPayloads`, `LoadLongTermMemory` and `GetStoreStats`: plain reads that would only add easy members.
