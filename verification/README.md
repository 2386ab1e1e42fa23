# AILooM memory layer: a verified model

AILooM writes memory records, extracts time-stamped facts from them, retrieves by fused ranking, and
runs background lifecycle sweeps. This project models the parts where order, concurrency, crashes or
arithmetic decide whether the promises hold, and proves what they guarantee, for all inputs, all runs
and all reachable states.

| module | what it models |
|---|---|
| `Domain`, `Runs`, `Sql` | shared types; runs and paths of a transition system and induction over them; ORDER BY ... DESC LIMIT |
| `PostgresFacts`, `Extraction` | the Postgres fact table and the extraction service as classes |
| `ExtractedFacts` | what an extraction leaves in that table, element by element of the answer |
| `ExtractionProtocol`, `FactTimeline`, `FactAccounting` | extractions interleaving at every await; the timeline they leave; counting open facts |
| `SqliteFacts`, `SqliteFactRaces` | the transactional SQLite fact table and the same engine on it, one extraction after another and interleaved |
| `Records`, `Ingestion`, `WriteProtocol`, `WriteGuarantees`, `WriteRefinement` | both record tables; the write service; writers and enrichments interleaving; the service as one of those interleavings |
| `LifecycleProtocol`, `Consolidation`, `Summaries`, `Decay`, `LifecycleRefinement` | passes, sweeps and writes interleaving with crashes; the sequential services, their measure and what a summary says; the services as interleavings |
| `Sorting`, `Fusion`, `Planner`, `OverFetch`, `Retrieval`, `SearchResults`, `FusedPlaces`, `ReturnedBest`, `ReturnedExactly`, `Recall` | the ranking pipeline from plan to token budget |
| `Scheduler` | the task registry under interleaved start, stop and stop_all |
| `SqliteMigrations`, `PostgresMigrations` | the two migration runners over runs and crashes |
| `Timestamps`, `AuditLog`, `VectorIndex` | timestamps stored and sorted as text; the audit trail; shared Chroma collections |

Code that works step by step is a class with methods, each proved against a function or relation on
tables; the theorems are about those. Code that interleaves at `await` is also a transition system
with one action per stretch between awaits and any number of processes, and the uninterrupted service
is proved to be one of its runs. A crash is a process that
takes no further step; in the migration runners it is a number of durable actions after which the
process dies. Dafny's `seq` of rows in `PostgresFacts` is in the order of saving. What the outside
supplies (fresh ids, clocks, LLM answers, index rankings, the choice among unordered query results)
is a parameter or an arbitrary choice of the transition system.

## Where the code and its documentation differ

The model follows the code. Each difference is a lemma, with the exact condition where there is one.

- README.md:142 promises that duplicate idempotency keys never create duplicate records, and
  README.md:140 that a write is acknowledged once it is durable. No table ever holds two records of a
  key (`AtMostOneRecordPerKey`), but on SQLite `INSERT OR REPLACE` can delete a record whose write was
  acknowledged (`SqliteLosesAnAcknowledgedWrite`); a save loses nothing exactly when the key is still
  unused at that moment (`SqliteSaveLosesNothingIff`). On Postgres all acknowledgements agree.
- prd/adr_companion.md:171-184 lets a new fact supersede the old one. The engine closes before it saves;
  the SQLite adapter refuses a successor that is not stored, so there superseding fails exactly when it
  is due (`SupersedingAlwaysFails`). Racing extractions can leave a key with two current facts there,
  exactly when one saves after another has done so since it read (`SqliteFactRaces.AtMostOneIff`).
- The same text sets the old fact's end to the new fact's start. The code uses the clock of the
  decision: the promise holds exactly when that clock reads the candidate's start, and the facts share
  an instant exactly when both start before it (`OverlapIsDecidedAtClose`, with the run
  `IntervalsMayOverlap`). There is no gap either (`NoGapInTimeline`), unless an extraction stops between
  its close and its save (`CrashInWindowLosesTruth`).
- On Postgres both directions of the supersession link share the column `superseded_by`, so a closed
  fact reads back as superseding its successor (`ClosedRowReadsBackwards`). The scope and recorded_at
  have no column at all (`RowRoundTrip`).
- A stop between close and save leaves a key without an open fact (`CrashInWindowLosesTruth`); this is the
  only way (`TruthLostIffSuccessorMissing`).
- src/memory_layer/engine/planner.py:85-86 says that max(3K, 20) hits per index are sufficient. They hold
  the K best exactly under the bound of `OverFetchSufficesIff`, with the default weights from K = 15 on.
  The K items returned can still miss one of the K best: a document loses what a list would have given
  it beyond the fetched places. They are the K best for all rankings exactly if no fetched place of the
  light ranking overtakes (`ReturnsTheBestIff`); up to K = 1240 that means that one weight is at least
  (60+K)(61+K)/61 times the other (`ReturnsTheBestClosedForm`), which is more than is necessary from
  K = 1241 on (`ClosedFormEndsAt1241`). Weights within a factor of 62, such as the default ones, fail
  for every K (`SimilarWeightsAreNeverExact`, `DefaultWeightsAreNeverExact`).
- README.md:44 promises fusion over semantic, keyword, entity and temporal signals. Only the vector and the
  full-text list are fused: a temporal or quality search returns what a hybrid one does
  (`FusingModesAgree`), and a graph search returns nothing (`GraphSearchIsEmpty`).
- src/memory_layer/storage/sqlite/migration_runner.py:8-9 claims one transaction per migration. Script
  and version row are separate. A death between them (`DeathLeavesHalfDoneIff`) makes the next run that
  does anything execute the script again, and nothing else does (`RunRepeatsIff`, with the run
  `CrashRepeatsScript`). A file with version 0 is never applied (`FirstRunRecordsAllIff`), and one that
  arrives below the highest recorded version is passed over for good (`CompletedRunRecordsAllIff`,
  `SkippedForGood`).
- A stop does not reach a start parked at its policy read (`StopSticksIff`), and does not wait for a
  task that a second start replaced (`StopReturnsCleanIff`).
- The scheduler runs consolidation without a scope, which on SQLite selects the principal called "None"
  (`UnscopedPassIsNoopIff`), and the default threshold of 500 exceeds the listing limit of 100
  (`LargeThresholdIsNoop`).
- The audit call at src/memory_layer/engine/consolidation.py:170-175 does not fit the port. A run in which
  it raises has stored its summary and marked one source more than it audited (`EveryMarkIsAuditedIff`); a
  scope of another tenant stores the summary and marks nothing.
- prd/framework_agnostic_ai_memory_layer_prd_final.md:168 forbids deleting evidence silently. Consolidation
  and decay never do; a racing write on SQLite does, exactly when it replaces the record of its
  idempotency key (`EvidenceIsLostIff`).
- Text order is time order only among datetimes of one UTC offset (`OrdersAgreeIff`).
- Collections are shared by tenants with the same first eight alphanumerics and by models of one slug
  (`CollectionsCoincideIff`); documents stored there under one id overwrite each other
  (`UpsertAgreesIff`).

## Model

| member | source | states |
|---|---|---|
| `PostgresFacts.OpenOf` | src/memory_layer/adapters/postgres/fact_repo.py:161-181 | exactly the rows of the key whose effective_to is null, in any lifecycle state, each once |
| `PostgresFacts.RowRoundTrip` | src/memory_layer/adapters/postgres/fact_repo.py:57-79 | a fact reads back from its row as itself if and only if its link is not the empty text, its scope is the system agent's and it is read at its own recorded_at (neither has a column) |
| `PostgresFacts.ClosedRowReadsBackwards` | src/memory_layer/adapters/postgres/fact_repo.py:140-159 | because both directions of the link share one column, a closed fact reads back as superseding its own successor |
| `PostgresFacts.PostgresFactRepository.Save` | src/memory_layer/adapters/postgres/fact_repo.py:96-122 | the row is appended unless (fact_id, tenant_id) exists, in which case nothing changes |
| `PostgresFacts.PostgresFactRepository.CloseFact` | src/memory_layer/adapters/postgres/fact_repo.py:140-159 | the row with that id and tenant gets its end and successor and keeps every other column, every other row stays; an unknown id changes nothing |
| `PostgresFacts.PostgresFactRepository.GetActiveFacts` | src/memory_layer/adapters/postgres/fact_repo.py:161-181 | every open row of the key exactly once, in no promised order |
| `Extraction.EntitiesOf` | src/memory_layer/engine/extraction.py:97-123 | the reported entities are exactly those of the saved facts, without repetition |
| `Extraction.EntitiesAreInOrder` | src/memory_layer/engine/extraction.py:101-103 | they come in the order in which they were first mentioned |
| `Extraction.LLMExtractionService.ResolveContradiction` | src/memory_layer/engine/extraction.py:125-166 | closing and then saving what it returns is the abstract processing step, whichever open row the unordered query put first |
| `Extraction.LLMExtractionService.Process` | src/memory_layer/engine/extraction.py:97-103 | read, close if at or above the threshold, save: the table moves by the abstract processing step |
| `Extraction.LLMExtractionService.Extract` | src/memory_layer/engine/extraction.py:66-123 | every saved fact carries its element's entity, predicate, group and object (no text if missing), its number as confidence (1 if missing), the sector it names (SEMANTIC if missing or unknown) and the record's id, tenant, scope and time; the table moves by processing the candidates in order and what is reported is what was saved; an element that is no object or whose confidence is no number stops the loop there and keeps what was saved before |
| `ExtractedFacts.CandidateSettles` | src/memory_layer/engine/extraction.py:97-166 | a new candidate is stored as an ACTIVE fact if its key has no open one, as a PROPOSED one below the threshold, and else as an ACTIVE one in whose favour exactly one open fact of the key ends at the clock; nothing else changes |
| `ExtractedFacts.ExtractionStores` | src/memory_layer/engine/extraction.py:97-123 | an extraction with new ids adds one row per saved fact in the order of the answer, with its element's texts in their columns; of the earlier rows only ends and links change |
| `ExtractedFacts.ElementSettles` | src/memory_layer/engine/extraction.py:97-166 | the n-th element settles in that way against the table the earlier ones left, and its row is the fact that is reported |
| `ExtractedFacts.MissingConfidenceSupersedes` | src/memory_layer/engine/extraction.py:136-155 | with a threshold of at most 1 an element without confidence that meets an open fact of its key supersedes it |
| `ExtractionProtocol.BuiltCandidateIsFresh` | src/memory_layer/engine/extraction.py:168-188 | a built candidate of the record's tenant starts at the record's recorded_at, has no end and may enter the protocol; an element that is no object or has an unparsable confidence is not built, every other one is |
| `ExtractionProtocol.CloseTouchesOneRow` | src/memory_layer/engine/extraction.py:138-145 | whatever happened since the read, a close changes exactly the end and the successor of the row that was chosen, to the clock of the decision and the id of the candidate |
| `ExtractionProtocol.CloseKeepsInv` | src/memory_layer/engine/extraction.py:138-145 | a close, also a second close of the same fact by a racing extraction, keeps the timeline invariant |
| `ExtractionProtocol.SaveKeepsInv` | src/memory_layer/engine/extraction.py:99-103 | storing the successor keeps the timeline invariant and redeems the link that names it |
| `ExtractionProtocol.InvIsInductive` | src/memory_layer/engine/extraction.py:66-166 | the timeline invariant holds in every state of every interleaving of any number of extractions |
| `FactTimeline.TruthIsNeverLost` | src/memory_layer/engine/extraction.py:125-166 | in every interleaving the newest fact of a key is open unless some extraction of that key stands between its close and its save |
| `FactTimeline.TruthLostIffSuccessorMissing` | src/memory_layer/adapters/postgres/fact_repo.py:140-159 | the newest fact of a key is closed if and only if the successor it names is not stored |
| `FactTimeline.HistoryIsPreserved` | src/memory_layer/adapters/postgres/fact_repo.py:96-159 | between any two points of any run closed facts stay closed and no other column of a saved fact changes |
| `FactTimeline.Chain` | src/memory_layer/adapters/postgres/fact_repo.py:140-159 | a chain along superseded_by through later facts of the same key that ends at an open fact |
| `FactTimeline.SuccessorIsUnique` | src/memory_layer/adapters/postgres/fact_repo.py:140-159 | a closed fact names one successor only, so the chain is the one the column spells out |
| `FactTimeline.SupersessionChainTerminates` | src/memory_layer/adapters/postgres/fact_repo.py:140-159 | from any fact the column reaches an open fact of its key in no more steps than there are later rows, in every interleaving, unless an extraction of that key stands between close and save |
| `FactTimeline.NoGapInTimeline` | src/memory_layer/engine/extraction.py:138-145 | every instant from the start of any fact of a key onward lies in the interval of some fact of that key, unless an extraction of that key stands between close and save |
| `FactTimeline.CoveringRow` | src/memory_layer/engine/extraction.py:138-145 | which fact covers the instant: walk the chain until an interval holds it |
| `FactTimeline.QuietIsNotInWindow` | src/memory_layer/engine/extraction.py:97-103 | with no extraction of the key in flight none stands between close and save |
| `FactTimeline.CrashInWindowLosesTruth` | src/memory_layer/engine/extraction.py:138-145 | a run in which a process stops between close and save leaves a key with no open fact |
| `FactTimeline.IntervalsMayOverlap` | src/memory_layer/engine/extraction.py:138-145 | a run after which two facts of one key hold at one instant |
| `FactTimeline.OverlapIff` | src/memory_layer/adapters/postgres/fact_repo.py:140-159 | two facts share an instant if and only if neither interval is empty and each starts before the other ends |
| `FactTimeline.OverlapIsDecidedAtClose` | src/memory_layer/engine/extraction.py:138-145 | in every run, whatever happens between the decision to close and a later state in which the old fact names its successor: the old fact ends at the clock of the decision; it ends where the successor starts if and only if that clock reads the candidate's start; an open successor overlaps it if and only if both facts start before that clock |
| `FactAccounting.ClosingCounts` | src/memory_layer/adapters/postgres/fact_repo.py:140-159 | closing an open row costs its own key one open row and every other key none |
| `FactAccounting.ProcessedCounts` | src/memory_layer/engine/extraction.py:97-166 | one candidate changes the number of open facts of its key by +1 if it is the first or below the threshold, by 0 otherwise, and of other keys by 0 |
| `FactAccounting.OpenFactAccounting` | src/memory_layer/engine/extraction.py:97-166 | after any sequence of completed extractions the open facts of a key number one plus the below-threshold candidates that came after its first fact, and none if it had no candidate |
| `FactAccounting.SequentialIsAnInterleaving` | src/memory_layer/engine/extraction.py:97-103 | an uninterrupted extraction is a run of the interleaving protocol, so the protocol theorems apply to the sequential service |
| `SqliteFacts.SqliteFactRepository.Save` | src/memory_layer/storage/sqlite/fact_repo.py:122-150 | the row of this id becomes the fact, every other row stays |
| `SqliteFacts.SqliteFactRepository.CloseFact` | src/memory_layer/storage/sqlite/fact_repo.py:189-267 | an unknown fact, another tenant's fact and an unsaved successor each raise their error and leave the table exactly as it was; otherwise the old fact gets its end, the new one its link, and no other column or row changes |
| `SqliteFacts.SqliteFactRepository.GetActiveFacts` | src/memory_layer/storage/sqlite/fact_repo.py:269-307 | the ACTIVE open facts of the key, each once, newest first |
| `SqliteFacts.SqliteExtraction.Process` | src/memory_layer/engine/extraction.py:97-166 | the engine on this store: either the abstract step, or a raised error and an unchanged table |
| `SqliteFacts.SupersedingAlwaysFails` | src/memory_layer/storage/sqlite/fact_repo.py:249-253 | for a candidate with a fresh id the engine raises if and only if there is a current fact and the candidate reaches the threshold |
| `SqliteFacts.AtMostOneCurrentFact` | src/memory_layer/storage/sqlite/fact_repo.py:285-293 | after any sequence of attempts, failed ones included, a key has at most one ACTIVE open fact and no fact is closed |
| `SqliteFacts.FirstFactStands` | src/memory_layer/storage/sqlite/fact_repo.py:236-262 | the first current fact of a key stays its current fact, unchanged, for the rest of any run |
| `SqliteFactRaces.InvIsInductive` | src/memory_layer/engine/extraction.py:97-166 | in every interleaving of any number of extractions over this store carried ids stay unstored and distinct, and no stored fact is closed |
| `SqliteFactRaces.EveryCloseRaises` | src/memory_layer/storage/sqlite/fact_repo.py:249-253 | in every interleaving a close names an unsaved successor, so it raises and changes nothing |
| `SqliteFactRaces.AtMostOneIff` | src/memory_layer/engine/extraction.py:97-166 | in every interleaving a key has at most one ACTIVE open fact if and only if no extraction saved an ACTIVE fact of it when it already had a current one |
| `SqliteFactRaces.FactsAreOnlyAdded` | src/memory_layer/storage/sqlite/fact_repo.py:122-150 | between any two points of any interleaving stored facts stay, unchanged |
| `SqliteFactRaces.BothReadFirst` | src/memory_layer/engine/extraction.py:97-103 | a run in which two extractions of a key read before either saves leaves it with two ACTIVE open facts |
| `SqliteFactRaces.AttemptIsAnInterleaving` | src/memory_layer/engine/extraction.py:97-166 | an extraction that nothing interrupts is a run of one process that leaves the table the sequential engine leaves |
| `Records.SqliteSaveKeepsKeysUnique` | src/memory_layer/storage/sqlite/record_repo.py:130-162 | REPLACE keeps at most one row per tenant and non-null idempotency key |
| `Records.PostgresSaveKeepsKeysUnique` | src/memory_layer/adapters/postgres/record_repo.py:97-122 | a save that does not raise keeps at most one row per tenant and non-null idempotency key |
| `Records.SqliteSaveLosesNothingIff` | src/memory_layer/storage/sqlite/record_repo.py:140-160 | saving a record with a new id keeps every stored row if and only if it has no key or a lookup of the key finds nothing at that moment |
| `Records.SqliteRecordRepository.Save` | src/memory_layer/storage/sqlite/record_repo.py:130-162 | row by row: the record is stored, every other row stays exactly if it does not hold the same tenant and key |
| `Records.SqliteRecordRepository.UpdateLifecycle` | src/memory_layer/storage/sqlite/record_repo.py:201-232 | a missing row or a foreign tenant raises and changes nothing; otherwise only the state of that row changes |
| `Records.SqliteRecordRepository.UpdatePipelineStatus` | src/memory_layer/storage/sqlite/record_repo.py:234-263 | the same for the pipeline status |
| `Records.SqliteRecordRepository.ListByScope` | src/memory_layer/storage/sqlite/record_repo.py:265-309 | at most limit records of tenant, principal and states, newest first, none newer left out |
| `Records.SqliteRecordRepository.GetByIdempotencyKey` | src/memory_layer/storage/sqlite/record_repo.py:311-343 | a stored record of the tenant and key, or nothing when there is none |
| `Records.PostgresRecordRepository.Save` | src/memory_layer/adapters/postgres/record_repo.py:97-122 | a repeated id changes nothing, a repeated (tenant, key) raises and changes nothing, otherwise the row is added |
| `Records.PostgresRecordRepository.UpdateLifecycle` | src/memory_layer/adapters/postgres/record_repo.py:140-160 | only the state of the row with id and tenant changes; without such a row nothing does and nothing is raised |
| `Records.PostgresRecordRepository.UpdatePipelineStatus` | src/memory_layer/adapters/postgres/record_repo.py:162-178 | the same for the pipeline status |
| `Records.PostgresRecordRepository.ListByScope` | src/memory_layer/adapters/postgres/record_repo.py:180-200 | as on SQLite, but the principal is not part of the filter |
| `Sql.NewestFirst` | src/memory_layer/storage/sqlite/record_repo.py:284-306 | ORDER BY recorded_at DESC LIMIT n: distinct selected ids, newest first, and none left out that is newer than one listed |
| `Sql.ListingCovers` | src/memory_layer/storage/sqlite/record_repo.py:284-306 | a listing whose limit is not exceeded holds every selected id |
| `Ingestion.WriteMemoryService.Enrich` | src/memory_layer/engine/ingestion.py:167-195 | the row turns ENRICHED if neither the extraction nor the event raised and PARTIAL_ENRICHMENT_FAILED otherwise, and no other row changes; if its row is gone the call raises and changes nothing |
| `Ingestion.WriteMemoryService.Execute` | src/memory_layer/engine/ingestion.py:74-165 | a known key returns the stored record and writes nothing; anything else adds exactly one record with the request's tenant, principal, payload, sector and key, ACTIVE, and ENRICHMENT_SKIPPED, PENDING, ENRICHED or PARTIAL_ENRICHMENT_FAILED as port, wait and raises decide; the answer is the initial status; a raise after the save leaves the record stored, and with it the audit entry unless that is what raised |
| `Ingestion.WriteMemoryService.Follow` | src/memory_layer/engine/ingestion.py:126-151 | which of the calls after the save keeps the write from being acknowledged, and what it leaves behind |
| `Ingestion.RetryFindsTheRecord` | src/memory_layer/engine/ingestion.py:83-99 | after a save the record is the only one of its key, so a retry of a write that raised afterwards returns it |
| `WriteRefinement.ExecutionIsAnInterleaving` | src/memory_layer/engine/ingestion.py:74-195 | a completed call is a run of one process of the write protocol with the same table and the same acknowledgement or failure; an enrichment that is not waited for stands at its start |
| `WriteRefinement.EnrichmentRuns` | src/memory_layer/engine/ingestion.py:167-195 | so is the enrichment alone, with the status it leaves and the failure it reports |
| `WriteProtocol.InvIsInductive` | src/memory_layer/engine/ingestion.py:83-151 | store, ownership and acknowledgement invariants hold in every interleaving of any number of writers and enrichments, on either store, with a raise possible at every await |
| `WriteGuarantees.AtMostOneRecordPerKey` | tests/storage/test_migration_runner.py:107-145 | every reachable table of either store holds at most one record per tenant and key |
| `WriteGuarantees.AcknowledgedWritesAgree` | src/memory_layer/adapters/postgres/record_repo.py:97-122 | on Postgres any two acknowledged writes for one key carry the same memory id, whose record is still stored under that key |
| `WriteGuarantees.SqliteLosesAnAcknowledgedWrite` | src/memory_layer/storage/sqlite/record_repo.py:140-160 | a run on SQLite in which two writers of one key are both acknowledged with different ids and only the second one's record is left |
| `WriteGuarantees.EnrichmentNeverTouchesLifecycle` | src/memory_layer/engine/ingestion.py:167-195 | between any two points of any run a record that is still stored is ACTIVE, unchanged but for its status, and the status only moved forward; ENRICHMENT_SKIPPED never moves |
| `WriteGuarantees.StepMovesForward` | src/memory_layer/engine/ingestion.py:74-195 | the same for one step of any process, and a saved record that is gone does not come back |
| `Consolidation.ConsolidationService.MergeBatch` | src/memory_layer/engine/consolidation.py:144-181 | the summary is stored and the sources turn CONSOLIDATED in order until something raises: none for a scope of another tenant, one more than the audit calls that succeed, or all; the audit log gains exactly the sources whose audit call succeeded |
| `Consolidation.ConsolidationService.MarkSource` | src/memory_layer/engine/consolidation.py:163-175 | one source: a source of another tenant is left alone and raises, otherwise it turns CONSOLIDATED before its audit entry, which may raise |
| `Consolidation.ConsolidationService.Records` | src/memory_layer/engine/consolidation.py:118-129 | the records of the sector among the 100 newest ACTIVE ones in scope, in listing order |
| `Consolidation.ConsolidationService.RunSector` | src/memory_layer/engine/consolidation.py:110-190 | below the threshold nothing happens, an empty batch raises, else the batch is merged; the audit log gains exactly the first sources of the batch, as many as audit calls succeeded |
| `Summaries.SectorRunTells` | src/memory_layer/engine/consolidation.py:118-161 | the batch is the first max_items records of the sector in listing order, as soon as there are threshold of them; the stored summary has the job's tenant, the first source's principal and the LLM's answer, or without one a text whose lines are those of all the payloads in batch order |
| `Summaries.JoinedLines` | src/memory_layer/engine/consolidation.py:192-201 | splitting the joined text at newlines gives the lines of every text in order, so each text itself if none holds a newline |
| `Summaries.BatchIsFirst` | src/memory_layer/engine/consolidation.py:128-136 | filtering by sector and cutting keeps the order of the listing, and whoever is left out comes later |
| `Consolidation.ConsolidationService.Execute` | src/memory_layer/engine/consolidation.py:67-104 | a pass chains one sector run per policy sector, for any thresholds and any scope, and returns the sum of their counts; the first one that raises ends it; the audit log gains the total and what the raising run audited; a disabled policy does nothing |
| `Consolidation.SectorRunCounts` | src/memory_layer/engine/consolidation.py:160-190 | a sector run, completed or not, takes exactly the sources it marked out of ACTIVE and adds one CONSOLIDATED record if it had a batch; a completed one reports their number |
| `Consolidation.EveryMarkIsAuditedIff` | src/memory_layer/engine/consolidation.py:163-175 | in a sector run, completed or not, the audited records are the first of the batch, as many as audit calls succeeded, and all CONSOLIDATED; every record that left ACTIVE is audited if and only if no audit call raised, and otherwise exactly one is not |
| `Consolidation.ConsolidationService.MarkSources` | src/memory_layer/engine/consolidation.py:163-181 | the loop marks and audits exactly the stated prefixes of the batch |
| `Consolidation.PassCounts` | src/memory_layer/engine/consolidation.py:85-94 | a completed pass returns exactly the drop in ACTIVE records, adds one record per sector that fired, and changed nothing if it returned 0 |
| `Consolidation.PassesReachFixpoint` | src/memory_layer/engine/consolidation.py:85-94 | there are at most as many productive passes in a row as there were ACTIVE records |
| `Consolidation.CountIsZeroIff` | src/memory_layer/engine/consolidation.py:131-133 | a completed sector run reports 0 if and only if its listing held fewer than threshold records of the sector |
| `Consolidation.PassIsZeroIff` | src/memory_layer/engine/consolidation.py:118-136 | a completed pass returns 0 if and only if every sector has fewer than threshold records in what its run read of the table the pass began with |
| `Consolidation.SmallScopePassIsZeroIff` | src/memory_layer/engine/consolidation.py:118-136 | with at most 100 ACTIVE records in scope it does if and only if every sector has fewer than threshold of them |
| `Consolidation.UnscopedPassIsNoopIff` | src/memory_layer/storage/sqlite/record_repo.py:265-309 | a pass without a scope consolidates nothing on SQLite if and only if every sector has fewer than threshold ACTIVE records of the principal called "None" (with at most 100 of those; PassIsZeroIff covers the rest) |
| `Consolidation.LargeThresholdIsNoop` | src/memory_layer/ports/outbound.py:111-116 | a threshold above the listing limit of 100 makes every pass a no-op |
| `LifecycleProtocol.InvIsInductive` | src/memory_layer/engine/consolidation.py:144-181 | the lineage invariant holds in every interleaving of passes for any scope, sweeps and writes on either store, with an abort or a stop after any await |
| `LifecycleProtocol.LineageSurvives` | src/memory_layer/engine/consolidation.py:144-181 | in every reachable state a stored CONSOLIDATED record is a saved summary or belongs to the batch of one, of its tenant and sector, even if writes replace rows meanwhile |
| `LifecycleProtocol.RecordsAreKept` | src/memory_layer/engine/decay.py:47-63 | between any two points of any run a record that is still stored changed nothing but its lifecycle state and did not return to ACTIVE, one that is gone stays gone, and summaries and their lineage are permanent |
| `LifecycleProtocol.EvidenceIsLostIff` | prd/framework_agnostic_ai_memory_layer_prd_final.md:168-177 | a record disappears between two points of a run if and only if in between, on SQLite, a write of its own idempotency key replaced it; passes, sweeps, crashes and Postgres lose nothing |
| `LifecycleRefinement.SectorRunIsAnInterleaving` | src/memory_layer/engine/consolidation.py:110-190 | a sector run that had a batch, completed or not, is a run of one process of the lifecycle protocol with the same table and the batch as the summary's lineage |
| `LifecycleRefinement.SweepIsAnInterleaving` | src/memory_layer/engine/decay.py:47-63 | so is a decay sweep |
| `Decay.DecayService.Sweep` | src/memory_layer/engine/decay.py:47-63 | every record of the batch is DECAYED, no other changes, one audit entry each, and the count is their number |
| `Decay.DecayService.Execute` | src/memory_layer/engine/decay.py:36-68 | a record decays if and only if it is the tenant's, ACTIVE and more than decay_days days of 24 hours old; nothing else changes, each one is audited and their number is returned |
| `Decay.SweepIsIdempotent` | src/memory_layer/engine/decay.py:36-68 | a second sweep with the same cutoff finds nothing and changes nothing |
| `Sorting.SortOrder` | src/memory_layer/engine/retrieval.py:50 | in the sorted list one item precedes another if and only if it scores higher, or equally and stood before it |
| `Sorting.SortIsPermutation` | src/memory_layer/engine/retrieval.py:50 | sorting keeps every item with its multiplicity |
| `Fusion.ReciprocalRankFusion` | src/memory_layer/engine/retrieval.py:23-50 | the nested dict-updating loops compute the fusion defined by sums over occurrences; the longer of lists and weights is cut |
| `Fusion.FusedMembers` | src/memory_layer/engine/retrieval.py:39-50 | the result holds exactly the ids that occur, each once, with the sum of weight / (k + rank + 1) over its occurrences |
| `Fusion.FusedOrder` | src/memory_layer/engine/retrieval.py:50 | an id precedes another if and only if it scores higher, or equally and was seen first |
| `Fusion.DominanceIsPreserved` | src/memory_layer/engine/retrieval.py:45-50 | a document that precedes another in every list that holds the other precedes it in the result |
| `OverFetch.BoundSuffices` | src/memory_layer/engine/planner.py:85-104 | under max(a,b)(61+P) > (a+b)(60+K) a document that both truncated lists miss has at least K documents strictly above it in the full fusion |
| `OverFetch.BoundIsNeeded` | src/memory_layer/engine/planner.py:85-104 | without the bound there are rankings whose missed document has fewer than K above it |
| `OverFetch.OverFetchSufficesIff` | src/memory_layer/engine/planner.py:103-104 | fetching max(3K, 20) per index suffices for all rankings if and only if the bound holds |
| `OverFetch.DefaultWeightsNeedFifteen` | src/memory_layer/domain/policies.py:82-85 | with the default weights it suffices if and only if K is at least 15, so not at the default K of 10 |
| `OverFetch.TopKAreFetched` | src/memory_layer/engine/planner.py:85-104 | under the bound each of the K best of the full fusion was fetched by some index |
| `ReturnedBest.ItemsAreTop` | src/memory_layer/engine/retrieval.py:111-153 | the items of a hybrid search are exactly the first final_k of the fusion of what was fetched |
| `ReturnedBest.OvertakingDropsABest` | src/memory_layer/engine/retrieval.py:133-141 | for every K and all weights: if a document at heavy place K+1 and some fetched light place gains on the one at heavy place K more than their heavy contributions differ, but no more than the light contribution cut off adds, there are rankings whose K returned items miss a document that was fetched and is one of the K best |
| `ReturnedExactly.ReturnsTheBestIff` | src/memory_layer/engine/retrieval.py:133-141 | for K up to 4819 and all weights, and for every K if two heavy places outweigh the first light one: the K returned items are the K best of the complete fusion, for all rankings, if and only if no fetched light place overtakes; ties are included |
| `ReturnedExactly.ReturnsTheBestClosedForm` | src/memory_layer/engine/planner.py:103-104 | for K up to 1240 and all weights wa of the vector and wb of the full-text ranking: they are if and only if 61 wa >= wb(60+K)(61+K) or 61 wb > wa(60+K)(61+K) |
| `ReturnedExactly.DominantIsExact` | src/memory_layer/engine/retrieval.py:133-141 | for every K that condition suffices |
| `ReturnedExactly.ClosedFormEndsAt1241` | src/memory_layer/engine/retrieval.py:133-141 | at K = 1241 it is not necessary: weights that fail it and still return the K best for all rankings |
| `ReturnedExactly.SimilarWeightsAreNeverExact` | src/memory_layer/engine/planner.py:103-104 | weights within a factor of 62 make the returned set inexact for every K |
| `ReturnedExactly.DefaultWeightsAreNeverExact` | src/memory_layer/domain/policies.py:82-85 | at the default weights the returned set is not exact for any K |
| `FusedPlaces.WinnersComeFirst` | src/memory_layer/engine/retrieval.py:45-50 | the documents before a place of the fusion of two rankings are exactly those with a higher score or an equal score and an earlier first sight |
| `FusedPlaces.SeenFirstIff` | src/memory_layer/engine/retrieval.py:39-50 | of two documents the fusion saw first the one with the earlier place, the first ranking before the second |
| `Retrieval.BuildMap` | src/memory_layer/engine/retrieval.py:117-131 | content and score of an id come from the last vector hit of it, or else from the first full-text hit |
| `Retrieval.Merge` | src/memory_layer/engine/retrieval.py:133-139 | two lists are fused, a single one keeps its own scores, none gives nothing |
| `Retrieval.Retrieve` | src/memory_layer/engine/retrieval.py:73-155 | the trimmed merged list with contents, or the error if a graph is asked for and absent |
| `Retrieval.ItemsComeFromHits` | src/memory_layer/engine/retrieval.py:141-153 | at most final_k items, each with the id and content of a hit of an index the plan targets |
| `SearchResults.OneIndexKeepsItsOrder` | src/memory_layer/engine/retrieval.py:136-141 | a search of one index returns min(final_k, hits) items; item i has the id of hit i, with score and content of the last vector hit or the first full-text hit of that id |
| `SearchResults.TwoIndexesAreFused` | src/memory_layer/engine/retrieval.py:111-153 | a search of both returns items in fused order: item n has the sum of its contributions under the plan's weights and the content of the hit that counts, and a document leads it if and only if it is one of the items before |
| `SearchResults.OnlyTheLimitLeavesOut` | src/memory_layer/engine/retrieval.py:134-141 | a document of either index is missing only if final_k items are returned |
| `SearchResults.RequestedKBounds` | src/memory_layer/engine/planner.py:103-134 | at most the requested number is returned, ten for none; each index is asked for three times that and at least twenty; only a graph search without a graph is refused |
| `SearchResults.SingleIndexModes` | src/memory_layer/engine/planner.py:106-122 | a semantic search depends on the vector index alone and a keyword search on the full-text index alone |
| `SearchResults.FusingModesAgree` | src/memory_layer/engine/planner.py:124-173 | temporal and quality searches return the items of a hybrid search |
| `SearchResults.GraphSearchIsEmpty` | src/memory_layer/engine/retrieval.py:82-139 | a graph search that is not refused returns nothing |
| `Retrieval.HybridSearchSeesTheBest` | src/memory_layer/engine/planner.py:103-134 | for any requested k a hybrid plan under the bound sees every document of the K best of the two complete rankings |
| `Retrieval.FusedScoreIsExactIff` | src/memory_layer/engine/retrieval.py:111-135 | a fused score never exceeds the score in the fusion of the complete rankings and equals it if and only if no consulted index holds the document beyond what was fetched |
| `Recall.Execute` | src/memory_layer/engine/recall.py:88-170 | at most max_items items, a prefix of the hits within the budget that the next hit would exceed, the longest such prefix; the total is its token sum, the status says whether all, some or none fit |
| `Recall.RaisingTheBudgetExtends` | src/memory_layer/engine/recall.py:122-142 | a larger budget returns an extension of the same prefix |
| `Recall.LongestFitIsUnique` | src/memory_layer/engine/recall.py:122-142 | that prefix is determined by the hits and the budget |
| `Recall.EstimateTokens` | src/memory_layer/engine/recall.py:172-174 | n tokens for a text of 4n to 4n+3 characters, one for a shorter text |
| `Recall.TotalIsAQuarter` | src/memory_layer/engine/recall.py:122-142 | four times the total is more than the characters less four per item, and no more than the characters unless a text is shorter than four; there is at least one token per item |
| `Scheduler.LifecycleScheduler.EnsureTask` | src/memory_layer/engine/scheduler.py:138-150 | the key gets a new task and an unfinished earlier one is asked to stop |
| `Scheduler.LifecycleScheduler.StartBegin` | src/memory_layer/engine/scheduler.py:54-71 | up to its await a start registers the decay loop |
| `Scheduler.LifecycleScheduler.StartResume` | src/memory_layer/engine/scheduler.py:71-82 | after its await a start registers the consolidation loop if the policy is scheduled |
| `Scheduler.LifecycleScheduler.CancelKeys` | src/memory_layer/engine/scheduler.py:152-161 | exactly the unfinished tasks of the keys are asked to stop and awaited, and the keys leave the registry |
| `Scheduler.LifecycleScheduler.Stop` | src/memory_layer/engine/scheduler.py:84-89 | the same for the keys of one tenant |
| `Scheduler.LifecycleScheduler.StopAll` | src/memory_layer/engine/scheduler.py:91-93 | the same for every key |
| `Scheduler.InvIsInductive` | src/memory_layer/engine/scheduler.py:54-161 | the registry invariant holds in every interleaving of starts, stops, stop_alls and ending tasks |
| `Scheduler.NoLoopLeaks` | src/memory_layer/engine/scheduler.py:138-161 | a task that is neither done nor asked to stop is the registry entry of its own key, in every interleaving |
| `Scheduler.StartSparesOthers` | src/memory_layer/engine/scheduler.py:138-150 | registering a loop gives its key one new live task instead of those it had, and leaves the entries and tasks of every other key alone |
| `Scheduler.AtMostOneLoopPerKey` | src/memory_layer/engine/scheduler.py:138-150 | two live loops of one key are the same task |
| `Scheduler.StopSparesOthers` | src/memory_layer/engine/scheduler.py:84-89 | stopping a tenant leaves the entries and tasks of every other tenant untouched |
| `Scheduler.StopSticksIff` | src/memory_layer/engine/scheduler.py:54-93 | after a stop the tenant is not running in any continuation without a new start if and only if no start of it was parked at its policy read |
| `Scheduler.ParkedStartRevives` | src/memory_layer/engine/scheduler.py:66-82 | a parked start brings a stopped tenant back |
| `Scheduler.QuietForGood` | src/memory_layer/engine/scheduler.py:95-100 | a tenant with neither entries nor a start in flight stays so until a new start |
| `Scheduler.QuietMeansNoLiveLoop` | src/memory_layer/engine/scheduler.py:95-100 | such a tenant has no live loop |
| `Scheduler.StopAllQuietsEveryTenant` | src/memory_layer/engine/scheduler.py:91-93 | stop_all quiets every tenant without a start in flight |
| `Scheduler.StopReturnsCleanIff` | src/memory_layer/engine/scheduler.py:138-161 | whenever a stop gets to return all tasks the tenant had are done, in every continuation, if and only if no task that was replaced in the registry was still unfinished at the call |
| `SqliteMigrations.Database.RunMigrations` | src/memory_layer/storage/sqlite/migration_runner.py:69-133 | a run with a death after any durable action is the recursive model of a run; it raises SchemaVersionError, with the database as it was, if and only if some recorded version other than 0 is above the version of every shipped file |
| `SqliteMigrations.RefusedIffAhead` | src/memory_layer/storage/sqlite/migration_runner.py:103-107 | the same of the model of a run, for any files, repeated versions included |
| `SqliteMigrations.SortedVersions` | src/memory_layer/storage/sqlite/migration_runner.py:93-112 | sorting files with distinct versions gives their versions strictly ascending, none lost or invented |
| `SqliteMigrations.RunKeepsPrefix` | src/memory_layer/storage/sqlite/migration_runner.py:112-133 | one run, completed or not, keeps the recorded versions a prefix of the known ones |
| `SqliteMigrations.RecordedIsAlwaysPrefix` | src/memory_layer/storage/sqlite/migration_runner.py:93-133 | over any sequence of runs and crashes with these files, from a fresh database, the same |
| `SqliteMigrations.OnlyFirstUnrecordedRepeats` | src/memory_layer/storage/sqlite/migration_runner.py:112-133 | a script that a run executes again was the first unrecorded one when the run began |
| `SqliteMigrations.CrashRepeatsScript` | src/memory_layer/storage/sqlite/migration_runner.py:112-133 | a first run that dies right after the script of its only file, and a second run that executes it again |
| `SqliteMigrations.RunRepeatsIff` | src/memory_layer/storage/sqlite/migration_runner.py:112-133 | after any history a run executes some script for a second time if and only if it gets to do anything and the first unrecorded script was executed before |
| `SqliteMigrations.DeathLeavesHalfDoneIff` | src/memory_layer/storage/sqlite/migration_runner.py:112-133 | a run leaves a script executed and not recorded if and only if it dies after an odd number of durable actions, or before any in a database that was in that state |
| `SqliteMigrations.CompletedRunIsFinal` | src/memory_layer/storage/sqlite/migration_runner.py:55-66 | a completed run records every known version and the next run returns [] |
| `SqliteMigrations.FirstRunRecordsAllIff` | src/memory_layer/storage/sqlite/migration_runner.py:55-66 | an undisturbed first run records every file if and only if no file has version 0 |
| `SqliteMigrations.CompletedRunRecordsAllIff` | src/memory_layer/storage/sqlite/migration_runner.py:112-115 | on any database, whatever files it saw before, a completed run records every file it ships if and only if each unrecorded one lies above the highest recorded version |
| `SqliteMigrations.SkippedForGood` | src/memory_layer/storage/sqlite/migration_runner.py:112-115 | a version below the highest recorded one is never recorded by any later runs, whatever files they ship |
| `PostgresMigrations.SchemaMigrator.Run` | src/memory_layer/adapters/postgres/migrator.py:96-121 | the loop with its two reports is the recursive model of a run |
| `PostgresMigrations.MigrationsAreExactlyOnce` | src/memory_layer/adapters/postgres/migrator.py:96-150 | over any runs and crashes the DDL of a version is committed at most once and exactly when its row exists; no version is reported twice |
| `PostgresMigrations.CompletedRunSplits` | src/memory_layer/adapters/postgres/migrator.py:96-121 | applied and skipped of a completed run split MIGRATIONS in order, all versions are recorded, one event per applied version is emitted in order |
| `PostgresMigrations.EnoughFuelCompletes` | src/memory_layer/adapters/postgres/migrator.py:96-121 | a run that is not cut short completes |
| `PostgresMigrations.SettledRunSkipsAll` | src/memory_layer/adapters/postgres/migrator.py:132-140 | once everything is recorded a run changes nothing and skips everything |
| `Timestamps.InstantOrder` | src/memory_layer/storage/sqlite/audit_repo.py:39-49 | at one UTC offset field-by-field order is order on the time line, leap years included |
| `Timestamps.TextOrderIsTimeOrder` | src/memory_layer/storage/sqlite/audit_repo.py:39-49 | the stored texts of two datetimes of one offset compare as their instants do, with or without a fraction |
| `Timestamps.OrdersAgreeIff` | src/memory_layer/storage/sqlite/audit_repo.py:39-49 | text order agrees with time order on all datetimes of two offsets if and only if the offsets are equal |
| `Timestamps.OrderByTextIsChronological` | src/memory_layer/storage/sqlite/audit_repo.py:147-151 | rows in text order are in chronological order |
| `Timestamps.FormatReadsBack` | src/memory_layer/storage/sqlite/record_repo.py:48-60 | parsing the stored text gives back the datetime, offset and microseconds included |
| `Timestamps.StoredDatetimeReadsBack` | src/memory_layer/storage/sqlite/audit_repo.py:39-49 | a naive datetime comes back as the UTC datetime of its fields, an aware one as itself |
| `Timestamps.DateShape` | src/memory_layer/storage/sqlite/audit_repo.py:39-42 | the stored text shows year, month and day in decimal at fixed places, with '-' and 'T' between them |
| `Timestamps.ClockShape` | src/memory_layer/storage/sqlite/audit_repo.py:39-42 | then hour, minute and second, a fraction of six digits if and only if it is not zero, and the offset |
| `Timestamps.OffsetShape` | src/memory_layer/storage/sqlite/audit_repo.py:39-42 | the offset is its sign, hours and minutes |
| `Timestamps.EveryDayCounts` | src/memory_layer/storage/sqlite/audit_repo.py:39-49 | successive dates have successive day numbers over the ends of months, leap years and centuries |
| `AuditLog.SqliteAuditLog.Append` | src/memory_layer/storage/sqlite/audit_repo.py:106-129 | a new id is appended, a repeated one raises and leaves history as it was |
| `AuditLog.SqliteAuditLog.GetByMemoryId` | src/memory_layer/storage/sqlite/audit_repo.py:131-174 | the entries of the memory id, whose rows are exactly those stored for it, in text order (none if there are none), or an error if one of them belongs to another tenant |
| `AuditLog.TrailIsChronological` | src/memory_layer/storage/sqlite/audit_repo.py:147-174 | of two entries in such a trail that share their UTC offset the earlier one comes first |
| `AuditLog.TrailIsTheHistory` | src/memory_layer/storage/sqlite/audit_repo.py:106-174 | after any appends the trail of a memory id holds exactly the entries that were appended for it, as many as there were, or is an error if and only if one of them is another tenant's |
| `VectorIndex.NamesAreInjective` | src/memory_layer/storage/vector/local_vector.py:43-63 | two collection names agree if and only if tenant part and model part both do |
| `VectorIndex.CollectionsCoincideIff` | src/memory_layer/storage/vector/local_vector.py:43-63 | two tenants and models share a collection if and only if the tenants agree in their first eight alphanumerics and the models in their slug |
| `VectorIndex.EightCharactersDecide` | src/memory_layer/storage/vector/local_vector.py:43-63 | eight lower-case letters or digits at the start of a tenant id are its part of the name whatever follows; a shorter id of such characters is the part itself |
| `VectorIndex.SeparatorsDoNotCount` | src/memory_layer/storage/vector/local_vector.py:43-63 | characters that are neither letters nor digits do not count, wherever they stand |
| `VectorIndex.CaseDoesNotCount` | src/memory_layer/storage/vector/local_vector.py:43-63 | a tenant id and its lower-case form have the same part |
| `VectorIndex.SlugsAgreeIff` | src/memory_layer/storage/vector/local_vector.py:43-63 | two models have one slug if and only if they are equally long and agree wherever one of them has a letter or digit |
| `VectorIndex.PrefixMatchesTenantPart` | src/memory_layer/storage/vector/local_vector.py:283-300 | the delete prefix of a tenant matches a collection if and only if it has the same tenant part |
| `VectorIndex.BuildChromaWhere` | src/memory_layer/storage/vector/local_vector.py:66-94 | the clause accepts exactly the documents whose stored tenant is the caller's and that meet every non-routing filter, whatever keys the filters contain |
| `VectorIndex.ChromaVectorIndex.Upsert` | src/memory_layer/storage/vector/local_vector.py:153-188 | the document is in the collection of its tenant and model under its id with the mandatory fields overriding the caller's metadata; every other document of every collection stays |
| `VectorIndex.ChromaVectorIndex.Search` | src/memory_layer/storage/vector/local_vector.py:190-269 | of the tenant's documents that meet the filters in the routed collection the first k of the ranking, in its order, with their stored contents and metadata; none is left out unless k are returned; a model id that is no text raises; a collection that was missing is opened |
| `VectorIndex.RoutedByModel` | src/memory_layer/storage/vector/local_vector.py:226-228 | the filters' model id names the collection, "__unknown__" if there is none |
| `VectorIndex.FilterFindsIff` | src/memory_layer/storage/vector/local_vector.py:165-183 | a filter finds a document that was just upserted if and only if it has that sector, that lifecycle state or that scalar in its metadata; routing keys and a tenant do not filter |
| `VectorIndex.HitsAreExact` | src/memory_layer/storage/vector/local_vector.py:226-264 | the hits are exactly the tenant's documents of the collection that meet every non-routing filter, each once |
| `VectorIndex.ChromaVectorIndex.Delete` | src/memory_layer/storage/vector/local_vector.py:271-307 | exactly the tenant's documents of that id leave the collections with the delete prefix |
| `VectorIndex.RunsAreWellPlaced` | src/memory_layer/storage/vector/local_vector.py:165-183 | in every run each document sits in the collection of its own tenant and model |
| `VectorIndex.DeleteIsComplete` | src/memory_layer/storage/vector/local_vector.py:283-300 | after a delete no collection at all holds the tenant's document of that id |
| `VectorIndex.UpsertAgreesIff` | src/memory_layer/storage/vector/local_vector.py:153-188 | an upsert keeps the index in step with one map per tenant and model if and only if it does not replace the document of another tenant or model |
| `VectorIndex.AgreesThroughoutIff` | src/memory_layer/storage/vector/local_vector.py:43-307 | over any run of upserts, deletes and searches the collections agree with a plain map per tenant and model after every operation if and only if no upsert of the run replaces the document of another tenant or model |
| `VectorIndex.IndexAgreesWithPlainMaps` | src/memory_layer/storage/vector/local_vector.py:43-307 | in particular it does if the tenants and models of one collection share no ids |

## Left out

- Numbers: scores, weights and confidences are exact reals, so float rounding and NaN are not modelled.
- Planner.Plan: recency and entity weights, the rerank flag's use, temporal filters and explanations, which nothing that is modelled reads.
- ReturnedExactly.ReturnsTheBestIff: for K of 4820 and more, weights for which two heavy places do not outweigh the first light one and yet no place overtakes; there a document two or more places down may pass, and `OvertakingDropsABest` and `DominantIsExact` are all that is stated.
- LifecycleProtocol: enrichment, which changes the pipeline status only, runs in `WriteProtocol`.
- Consolidation.ConsolidationService.Execute: negative thresholds and limits; events that raise.
- Consolidation.PassesReachFixpoint: about completed passes with nothing written in between.
- Decay.DecayService.Execute: `list_active_older_than` and `update_lifecycle_state` exist only in the port and get their named meaning.
- Timestamps.FormatReadsBack: UTC offsets in whole minutes, and `fromisoformat` only on texts of isoformat's shape.
- VectorIndex.ChromaVectorIndex.Search: nearest-neighbour ranking is an arbitrary order of ids; the clamp of scores, the handle cache and stored dimensions are not part of this model. Names are taken over ASCII.
- SqliteFacts: the columns a fact loses on its way through the table (principal type, workspace, session, run).
- SqliteMigrations: `_parse_version` and two files of one version; the versions are given as numbers.
- SqliteMigrations.Database.RunMigrations: a script's own statements are one action that may have run in part.
- PostgresMigrations: two migrators at once, and duration_ms.
- Clocks: `recorded_at` and the clock of a close are points of one time line; mixing naive and aware datetimes in one comparison is not modelled.
- Freshness: uuid ids never repeat. On Postgres a record's id stands for the pair of id and tenant.
- Records: workspace, session and metadata fields, payload types and sector inference, foreign keys.
- Extraction.LLMExtractionService.Extract: LLM calls and JSON parsing; the answer is a list of raw facts whose confidence may be unparsable. FLAG_ONLY and MANUAL modes, which the code does not have.
- Observer events except the ones that decide an enrichment's outcome or count migrations; metrics, logging, tracing.
- Retrieval by graph and time beyond their errors and targets; `RetrievalService` over `ChromaVectorIndex`, to which it passes empty filters.
- HTTP, SDK, MCP, CLI, settings, Qdrant, pgvector, embeddings: translation and I/O.
- ExplainRecallService, HealthChecker, SessionEndHandler: each decides one thing from one input.
