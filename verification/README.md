# Verified model of the Cortana knowledge index

This project models, in Dafny, the parts of Cortana where state, concurrency and failure meet, and
proves what those parts keep over every run. `dafny verify dfyconfig.toml` checks all of it.

- **Ingestion** (`Documents`, `Store`, `Flush`, `IngestSpec`, `Ingest`, `IngestLaws`). Documents are
  chunked, embedded by concurrent requests whose responses arrive in any order, and committed in
  document order. A run may be stopped at any check or await, by cancellation, timeout, a provider
  failure or a store fault. A flush is given a schedule: whether the wait starts at all, the answers,
  the order in which requests complete, how far that gets and how it ends. The order is an arbitrary
  sequence of distinct requests, so every order that bounded concurrency allows is included.
- **Source sync** (`SyncSpec`, `Sync`). The filesystem and connector snapshots, their budgets, batching,
  the reconciliation that deletes what a snapshot lacks, and the loop over the configured sources.
- **Embedded import** (`EmbeddedImport`) and **embedding rebuild** (`Paging`, `Alignment`, `Rebuild`). The
  provider of a rebuild answers every request with a list of its own, of any length, or fails.
- **Shared-UI source discovery** (`ModuleGraph`, `ExportResolution`, `Discovery`, `DiscoveryExactness`) and
  the Tailwind directives generated from it (`Directives`).
- **Source-job snapshots** (`SourceJobs`, `JobEviction`), the **search protocol** of the shell (`SearchProtocol`), the
  **chunk comparison** windows (`Chunker`), **theme preferences** over failing storage
  (`ThemePreference`) and the **build progress** summary (`BuildProgress`).

Code that updates state is modelled by classes and loops, each method proved against a function of its
inputs or old state; the properties are lemmas about those functions and about all runs of them.

## Where the code does not do what one would expect

Each of these is stated exactly, with the condition under which the expectation does hold.

- `src/main.rs:4870` checks the clock after `pending` has been emptied. If that check fails, the batch is
  dropped instead of being restored (`Flush.IngestRun.FlushIngestBatch` says when, both ways). The caller
  then fails as a whole, so no stored row depends on it.
- `src/main.rs:4725` looks at the store, not at `pending`. Batching therefore agrees with the plain loop
  for all contents if and only if no key repeats (`IngestLaws.RefinesIffNoRepeats`).
- Documents with empty content or without chunks are written again by every run
  (`IngestSpec.SettledIsSkipped`): `needs_update` asks for content and `needs_structured_update` for a
  structured chunk.
- The documents table is unique in (source, source id), not in (source, project, source id)
  (`crates/core/src/store.rs:445-450`). Two sources with one canonical name and different projects disturb
  each other exactly when they share an id (`SyncSpec.MirrorSurvivesIff`), and an embedded import mirrors its
  input exactly when no document comes under two projects (`EmbeddedImport.ReconcilingImportMirrorsIff`).
- The saturating byte test is exact for all 64-bit operands if and only if the budget is below the largest
  64-bit number (`SyncSpec.SaturatingTestIsExact`).
- The rebuild compares only the page total of vectors (`src/main.rs:4320`). When the totals are right, every
  chunk of every page gets the answer to its own text if and only if each response has its request's length
  (`Alignment.OwnAnswersIff`, `Rebuild.RebuildAlignedIff`); on a page of nine chunks a rebuild succeeds and
  stores a vector of another text (`Rebuild.MisalignedRebuild`).
- The memo key of source discovery joins selected names with commas and shares its space with the selection
  kinds. Discovery is exact on all worlds over given selections if and only if selections with one memo label
  ask for the same exports (`DiscoveryExactness.AlwaysExactIff`); for names without commas that is, no name is
  `execute`, `side-effect` or `all` (`DiscoveryExactness.AlwaysExactOverNamesIff`). For any two selections that
  break the condition there is a world where the program returns without a file in use
  (`DiscoveryExactness.KeyCollisionLosesAFile`).
- A job pushed out of the list of eight is forgotten. A listed job stays listed exactly while fewer than eight
  others are put above it (`JobEviction.ListedIff`, and `JobEviction.FreshListedIff` from the input alone when no
  snapshot is stale). A finished job is shown unfinished again exactly when an unfinished snapshot of it arrives
  after that (`JobEviction.NeverReactivatedIff`), and a merge keeps exactly the first eight of a fresh recovery
  (`JobEviction.MergeKeepsFirstEight`), also when a listed job is newer than all of it
  (`SourceJobs.MergeMayDropNewest`).
- The rollback after a failed cancellation is refused as long as the cancelled job is listed: unless a running
  snapshot of it came in between while it was not, the rollback changes the list if and only if the job is no
  longer listed (`JobEviction.CancelRollbackIff`, which also has the exact condition with such a snapshot).
- The recency comparator is consistent exactly when no unnumbered id stands between two numbered ones of the same
  start (`SourceJobs.ConsistentIff`).
- The effect at `apps/web/src/App.tsx:2107-2115` changes the scope without aborting. It strands `loading`
  exactly when the request in flight is a search whose scope it replaces
  (`SearchProtocol.EvictionStrandsLoadingIff`).
- A theme moved to an id of more than 128 characters is read back only while the page's copy answers
  (`ThemePreference.MoveIsReadBackIff`), and a first write that could not read storage erases the themes of
  other workspaces (`ThemePreference.FirstWriteKeepsOthersIff`).

## Model

| member | source | states |
|---|---|---|
| `Store.DocumentStore.NeedsStructuredUpdate` | crates/core/src/store.rs:1292-1332 | false exactly when the stored row already equals the document, has content and a current parse, and carries structured chunks; a fault is reported and remembered |
| `Store.DocumentStore.UpsertStructured` | crates/core/src/store.rs:1202-1290 | leaves a current row alone and replaces any other row of the same (source, id); answers whether it wrote; a fault writes nothing |
| `Store.DocumentStore.UpsertLegacy` | crates/core/src/store.rs:1068-1140 | the same without looking at the chunking policy |
| `Store.DocumentStore.RefreshTimestamp` | crates/core/src/store.rs:1334-1348 | changes the update time of an existing row and nothing else |
| `Store.DocumentStore.Reconcile` | crates/core/src/store.rs:1350-1398 | removes exactly the rows of one (source, project) whose id was not seen, and counts them |
| `Flush.InputLayout` | src/main.rs:4785-4788 | the flattened input holds the chunk texts of document k exactly at its own offsets |
| `Flush.IngestRun.TakeChunks` | src/main.rs:4835-4846 | moves the vectors of one document out of its slots, paired with its own chunk specs, and touches no other slot |
| `Flush.IngestRun.FillSlots` | src/main.rs:4820-4823 | a response fills the slots of its own request with its answers and leaves every other slot, committed ones included, as it was |
| `Flush.IngestRun.CommitReady` | src/main.rs:4825-4862 | after each response the committed prefix is the longest one whose chunks have all arrived, each with the vectors of its own chunks; the range guard at 4828 never fails |
| `Flush.IngestRun.CommitLeading` | src/main.rs:4811-4819 | leading documents without chunks are committed before any response |
| `Flush.IngestRun.CommitIfReady` | src/main.rs:4826-4861 | one turn of the inner loop: a document is committed exactly when all its vectors have arrived, with its own vectors, and the offset moves to the next document |
| `Flush.IngestRun.EmbedAndCommit` | src/main.rs:4806-4869 | for every completion order and every end of the wait a prefix is committed in order; it is the whole batch exactly when every response arrives, so the guard at 4864 never fails |
| `Flush.IngestRun.FlushIngestBatch` | src/main.rs:4766-4888 | committed prefix and restored `pending` make up the original batch on every exit except a failing check at 4870, which drops it; success means all was committed |
| `Flush.DrainedCommitsAll` | src/main.rs:4864-4867 | when every request has answered, every document is ready, also empty documents anywhere in the batch |
| `Ingest.EmbeddedIsFresh` | src/main.rs:4794-4803 | with one vector per input each document gets the vectors of its own chunks |
| `Ingest.CommitPrefixIsFresh` | src/main.rs:4766-4888 | committing a prefix of a flushed batch equals upserting those documents one by one |
| `Ingest.FlushQueue` | src/main.rs:4737-4746 | a flush inside a run upserts a prefix of the queue and counts exactly the rows written |
| `Ingest.IngestDocument` | src/main.rs:4720-4750 | one iteration follows the reference loop when it completes, and otherwise stops at a point that loop passes through |
| `Ingest.IngestDocumentsControlled` | src/main.rs:4707-4764 | a completed run leaves the batched table with changed + unchanged equal to the number of documents; any other run leaves an interrupted table; without stops, faults or provider failures it completes |
| `IngestSpec.BatchedIsSequential` | src/main.rs:4707-4764 | for distinct keys batching with any flush threshold refines the document-by-document loop |
| `IngestSpec.ChangedCountsStale` | src/main.rs:4714-4762 | for distinct keys `changed` counts exactly the documents that were stale before the run |
| `IngestSpec.InterruptedIsBetween` | src/main.rs:4779-4885 | for distinct keys an interrupted run has settled some documents and left every other row as it was |
| `IngestSpec.StoppedSettles` | src/main.rs:4779-4885 | which ones: stopped at document n with c of the pending ones committed, exactly the documents reached and not among the other pending ones are settled |
| `IngestSpec.QueuedAreStale` | src/main.rs:4725-4739 | for distinct keys the documents a run embeds are exactly those stale before it |
| `IngestSpec.RerunSkipsCommitted` | src/main.rs:4779-4784 | the rerun queues exactly the stale documents that were not settled, or cannot be recognised; none of a committed prefix that can be recognised is embedded again |
| `IngestSpec.Resume` | src/main.rs:4779-4784 | for distinct keys, interrupting anywhere and rerunning the same documents ends in the table of one uninterrupted run |
| `IngestSpec.SettledIsSkipped` | src/main.rs:4725-4732 | a settled document is skipped by the rerun exactly when its row can be recognised as current |
| `IngestLaws.CompletedRunHoldsDocuments` | src/main.rs:4707-4764 | from an index whose rows carry their own vectors, a completed run leaves such an index, holding every document |
| `IngestLaws.CompletedRunRows` | src/main.rs:4720-4762 | for distinct keys every row after a completed run, from what it was before: a current one only gets the document's time, any other is the document's own body, times and chunks, one by one with the vectors of their contents, and rows of other keys stay |
| `IngestLaws.BetweenStaysCoherent` | src/main.rs:4779-4885 | so does every interrupted run |
| `IngestLaws.QueueStaysBelow` | src/main.rs:4737-4746 | the queue is flushed when its chunks reach the threshold and not before, so fewer than that wait between two documents |
| `IngestLaws.BatchedLoads` | src/main.rs:4707-4764 | keys repeated or not, a completed run stores every document, deletes nothing and touches no other row |
| `IngestLaws.InterruptedKeeps` | src/main.rs:4882-4885 | an interrupted run deletes nothing and touches no other row |
| `IngestLaws.RefinesIffNoRepeats` | src/main.rs:4725 | for a list of keys, batching agrees with the plain loop on all tables, thresholds and contents if and only if no key repeats |
| `SyncSpec.SaturatingTestIsExact` | src/main.rs:5087-5096 | the saturating budget test agrees with exact arithmetic on all 64-bit operands if and only if the budget is below the largest |
| `SyncSpec.NormalizeIdempotent` | src/main.rs:5477-5500 | normalizing twice is normalizing once; it sets source and project, and keeps id and content |
| `SyncSpec.NormalizedFields` | src/main.rs:5477-5500 | an own access list survives and only an empty one gets the default, the two origin entries are added where they are missing, every other metadata entry is kept, and no other field changes |
| `SyncSpec.NormalizedScope` | src/main.rs:5477-5500 | normalized documents lie in the configured scope under exactly the ids of the originals |
| `SyncSpec.InBatchesIsSequential` | src/main.rs:5098-5112 | for distinct keys neither batch size nor flush threshold can be observed |
| `SyncSpec.BatchesAreFull` | src/main.rs:5098-5112 | a batch is ingested when it is full and not before |
| `SyncSpec.InBatchesLoads` | src/main.rs:5065-5117 | a whole snapshot run stores every document in its project and deletes nothing |
| `SyncSpec.CutShortKeeps` | src/main.rs:5065-5117 | a snapshot run cut short anywhere deletes nothing and stays within its scope |
| `SyncSpec.ResumeSnapshot` | src/main.rs:5065-5117 | rerunning a snapshot that was cut short, with any batch size, ends like one uninterrupted run |
| `SyncSpec.ReconcileMirrors` | src/main.rs:4938-4942 | reconciling after a complete snapshot leaves exactly the ids of the snapshot in the scope and nothing else changed |
| `SyncSpec.MirrorHoldsDocuments` | src/main.rs:4915-4942 | for distinct ids and a coherent index, a reconciled snapshot leaves in its scope exactly the normalized documents of the snapshot, each with its own chunks and vectors |
| `SyncSpec.MirrorSurvivesIff` | src/main.rs:4915-4967 | a mirror survives another mirror exactly when the sources differ, or the projects differ and share no id, or the scope and ids are the same |
| `Sync.DecisionIsExact` | src/main.rs:5073-5096 | the filesystem loop accepts a document exactly when it keeps both budgets; otherwise a reconciling run fails and any other run stops |
| `Sync.SpoolBound` | src/main.rs:5385-5391 | a spool may hold the byte budget and 64 KiB for every document, as far as 64 bits go |
| `Sync.SnapshotRun.Push` | src/main.rs:5097-5108 | a document goes to `seen` and to the batch, and a full batch is ingested |
| `Sync.SyncFilesystem` | src/main.rs:5038-5118 | ingests exactly what it lists in `seen`; a reconciling run takes the whole iterator within both budgets or fails, any other the longest prefix that fits both |
| `Sync.ValidateConnectorSpool` | src/main.rs:5176-5227 | accepts exactly clean spools within the size bound and both budgets, unless it is stopped |
| `Sync.SyncConnector` | src/main.rs:5126-5167 | nothing is ingested from a spool that is not clean and within budget; success ingests every record |
| `Sync.SyncSourceDocuments` | src/main.rs:5030-5168 | either kind of source: a reconciling success has taken the whole authoritative snapshot, a failure leaves a cut-short run |
| `Sync.SyncOne` | src/main.rs:4915-4968 | success takes the whole snapshot, or when not reconciling the longest prefix that fits, leaves exactly the table of its batches with, when reconciling, the unseen rows of the scope removed, and reports its ids, size and the number of rows gone; unless it is stopped, or the provider or the store fails, it succeeds exactly when there is such a snapshot; each failure names its reason, deletes nothing and leaves a part of the snapshot ingested |
| `Sync.TakesIsUnique` | src/main.rs:5038-5167 | there is at most one list of documents a successful run can take |
| `Sync.SyncConfiguredSources` | src/main.rs:4896-4975 | over all sources: every successful sync has ingested what it took and is reported with its counts; without a store fault every source is reported, and with a reliable provider each one that can be taken and is not stopped succeeds; every mirror of a successful sync stands that no later source disturbs; every row that is gone was deleted by a successful sync of the scope that held it at that moment, whose complete snapshot lacks it; rows out of reach of every source stay as they were; when no source succeeded nothing is deleted; the run is ok exactly when every source succeeded |
| `EmbeddedImport.FinishedMeansAccepted` | src/main.rs:4592-4670 | the reader finishes exactly on valid records, then one completion record with their number, then blank lines |
| `EmbeddedImport.ReconcileSeen` | src/main.rs:4671-4676 | whatever order the hash map yields, the rows left are those whose scope was not seen or whose id was seen in it |
| `EmbeddedImport.ImportRun.ReadLine` | src/main.rs:4592-4666 | every line read keeps counters, seen ids and table those of the records so far; a refused line writes no row |
| `EmbeddedImport.CheckChunks` | src/main.rs:4634-4652 | accepted chunks are handed on one by one, each with its own content and embedding; each has a character that is not white space and the expected dimension |
| `EmbeddedImport.RowsAreGiven` | src/main.rs:4654-4663 | every row after the import is that of the last record written under its key, chunk by chunk, or as it was before when no record of the key differed |
| `EmbeddedImport.ImportedCountsChanged` | src/main.rs:4659-4663 | for keys that do not repeat, the number imported is that of the records whose row was missing or differed |
| `EmbeddedImport.DeletesExactlyUnlisted` | src/main.rs:4671-4676 | a reconciling import deletes exactly the rows of the sources and projects in the input whose id no record there has |
| `EmbeddedImport.ImportEmbeddings` | src/main.rs:4572-4680 | without a store fault the import succeeds exactly on accepted inputs; every row then is a record's own, with each chunk's own content and embedding, or as it was before; deletion happens only then, only when reconciling, and takes exactly the unlisted rows; the counts are those of records written and of rows gone |
| `EmbeddedImport.ReconcilingImportMirrorsIff` | src/main.rs:4654-4676 | the reconciled scopes hold exactly the ids seen in them if and only if no document came under two projects |
| `Rebuild.EmbeddingIndex.Page` | crates/core/src/store.rs:851-868 | the smallest ids above the cursor in ascending order, at most the limit |
| `Rebuild.EmbeddingIndex.Stage` | crates/core/src/store.rs:871-893 | adds a page to the staging table or leaves it as it was; an empty vector is refused |
| `Rebuild.EmbeddingIndex.Commit` | crates/core/src/store.rs:896-945 | replaces every vector by the staged one and adopts the generation, or changes nothing |
| `Paging.SmallestIsPage` | crates/core/src/store.rs:851-868 | taking the smallest id again and again gives the page that the store's query promises |
| `Paging.CursorAdvances` | src/main.rs:4305-4329 | every page leaves strictly fewer chunks above the cursor, and the last one none, so the loop ends with all chunks read |
| `Paging.PageSizes` | src/main.rs:4306 | every page but the last has 256 chunks, and the last one the rest |
| `Alignment.AlignedIffExactCounts` | src/main.rs:4314-4319 | flattened responses follow the places of their requests exactly when every response has its request's length |
| `Alignment.OwnAnswerIsToItem` | src/main.rs:4310-4319 | an item's own answer is the one at its place in the response to the request that held it |
| `Alignment.OwnAnswersIff` | src/main.rs:4314-4328 | when the total is right, every item is paired with its own answer if and only if every response has its request's length |
| `Rebuild.EmbedPage` | src/main.rs:4310-4323 | requests of eight, their responses joined in order; with the right total the page is aligned exactly when every response has its request's length, whatever the provider answers |
| `Rebuild.StageNext` | src/main.rs:4306-4331 | one page: the staging table grows by exactly that page with its joined responses, and a wrong total fails; the page is aligned exactly when every response has its request's length; any failure leaves the table |
| `Rebuild.StageAll` | src/main.rs:4302-4340 | on success every chunk is staged exactly once, with the vector that joining the responses of its page gives it, and processed equals expected |
| `Rebuild.RebuildGeneration` | src/main.rs:4261-4356 | success needs force, the named generation, another target and an answered probe; then every chunk keeps its content and has the vector that its page's responses give it, which from a provider of exact lengths is its own; any failure leaves the live generation as it was and, unless the store fails, nothing staged |
| `Rebuild.RebuildAlignedIff` | src/main.rs:4302-4340 | all pages of a rebuild whose totals fit are aligned if and only if every request of every page has a response of its length |
| `Rebuild.MisalignedRebuild` | src/main.rs:4320-4323 | a rebuild of nine chunks with one page of two requests succeeds and stores a vector that is not that of the chunk's text |
| `ModuleGraph.LabelIsInjective` | apps/web/tooling/ui-tailwind-sources.ts:584-585 | clean selections have different memo labels |
| `ModuleGraph.PublishedMeans` | apps/web/tooling/ui-tailwind-sources.ts:404 | published are the package and the paths below it, and no package whose name only begins like it |
| `ModuleGraph.MemoIdentifiesIff` | apps/web/tooling/ui-tailwind-sources.ts:584-585 | the memo label identifies the selections over any names, commas allowed, exactly when no name is a selection kind and joined lists can be told apart; without commas the first suffices |
| `ModuleGraph.TellsApartIff` | apps/web/tooling/ui-tailwind-sources.ts:584-585 | one label means one set of wanted exports, over any names, exactly when no name is a selection kind and lists with one join hold the same names |
| `ModuleGraph.QuotedCommaCollides` | apps/web/tooling/ui-tailwind-sources.ts:584-585 | a quoted name with a comma whose two parts are names as well breaks that condition |
| `ModuleGraph.StarReachUnfold` | apps/web/tooling/ui-tailwind-sources.ts:434-462 | walks along star re-exports that avoid a chain can be followed one module at a time with the chain grown: the chain cut-off loses nothing |
| `ExportResolution.DeduplicateTargets` | apps/web/tooling/ui-tailwind-sources.ts:621-628 | keeps for every memo key the last target given, in the order in which the keys first occur |
| `ExportResolution.ResolveExportTargets` | apps/web/tooling/ui-tailwind-sources.ts:429-536 | terminates on cyclic star re-exports and returns, up to memo keys, exactly the targets of an export; it throws exactly when one on the way cannot be resolved |
| `ExportResolution.RuntimeExportNames` | apps/web/tooling/ui-tailwind-sources.ts:538-578 | returns exactly the run-time export names, through star re-exports; throws exactly when one of those cannot be resolved |
| `Discovery.UniverseIsClosed` | apps/web/tooling/ui-tailwind-sources.ts:580-611 | finitely many (file, selection) pairs suffice, which bounds the walk |
| `Discovery.Discovery.Visit` | apps/web/tooling/ui-tailwind-sources.ts:580-611 | the memoised walk over a cyclic graph terminates; it visits one node per memo key, each an entry or a dependency of one visited before, and settles every visited node that is not still open |
| `Discovery.VisitedIsLeast` | apps/web/tooling/ui-tailwind-sources.ts:584-611 | where labels identify the selections of the graph, the visited pairs are exactly the least set closed under run-time imports and export targets: the memo loses nothing |
| `Discovery.VisitedIsLeastUpToKeys` | apps/web/tooling/ui-tailwind-sources.ts:584-611 | where one label means one set of wanted exports, that holds up to memo keys, and no pair of the least set fails |
| `Discovery.CleanWorldTellsApart` | apps/web/tooling/ui-tailwind-sources.ts:584-585 | names without commas that are no selection kinds meet both conditions |
| `Discovery.CollectUiSourceFiles` | apps/web/tooling/ui-tailwind-sources.ts:387-619 | returns the shared files of a whole walk, or fails with the reason that applies to some needed module; where one label means one set of wanted exports it succeeds exactly when no needed module fails and some shared file is used, and then returns exactly the used shared files |
| `Discovery.UseFollowsImports` | apps/web/tooling/ui-tailwind-sources.ts:398-427 | in use are code files of the shared UI and the workspace only: every such entry, and every such file that one in use imports, for the selection it imports |
| `Discovery.BlamedIsFault` | apps/web/tooling/ui-tailwind-sources.ts:408-421 | a node is faulty exactly when one of the reasons to fail applies to it |
| `Discovery.ChainsAreFollowed` | apps/web/tooling/ui-tailwind-sources.ts:450-533 | every file that a chain of re-exports passes a wanted export on to, through named lists, imports or star re-exports, is in use |
| `DiscoveryExactness.EveryReturnLosesAFile` | apps/web/tooling/ui-tailwind-sources.ts:584-586 | for any two selections with one label of which the second asks for one more export, there is a world where every possible return lacks a file in use |
| `DiscoveryExactness.KeyCollisionLosesAFile` | apps/web/tooling/ui-tailwind-sources.ts:580-619 | the program on that world: it succeeds without the file |
| `DiscoveryExactness.AlwaysExactIff` | apps/web/tooling/ui-tailwind-sources.ts:387-619 | discovery is exact on all worlds over given selections if and only if selections with one label ask for the same exports |
| `DiscoveryExactness.AlwaysExactOverNamesIff` | apps/web/tooling/ui-tailwind-sources.ts:584-585 | over export names: if and only if no name is a selection kind and lists with one join hold the same names; for names without commas, if and only if no name is a selection kind |
| `Directives.ScannedTreesAreTopmost` | apps/web/tooling/ui-tailwind-sources.ts:661-663 | the scanned trees are an antichain of directories of included files that together hold every included file |
| `Directives.ExcludedMembers` | apps/web/tooling/ui-tailwind-sources.ts:664-667 | negated are exactly the files below the scanned trees that are not included, each once |
| `Directives.DirectivesAreExact` | apps/web/tooling/ui-tailwind-sources.ts:645-672 | what the directives make Tailwind scan is exactly the included set; nothing is both included and negated or emitted twice |
| `Directives.DirectivesAreOrdered` | apps/web/tooling/ui-tailwind-sources.ts:659-671 | discovered files come first, then negated ones, each in ascending order |
| `Directives.InsideMeans` | apps/web/tooling/ui-tailwind-sources.ts:59-65 | inside are the path itself and what continues it after a slash, and no sibling whose name it begins |
| `Directives.DirectoryIsParent` | apps/web/tooling/ui-tailwind-sources.ts:661 | the directory of a path is what stands before its last name |
| `Directives.FailsOnlyOutside` | apps/web/tooling/ui-tailwind-sources.ts:648-650 | generation fails exactly when an included or swept file lies outside the package |
| `SourceJobs.UpsertKeepsShape` | apps/web/src/sourceJobs.ts:28-35 | an upsert keeps ids unique and the list within eight, and the id it was given present |
| `SourceJobs.RegressesIsLowerRank` | apps/web/src/sourceJobs.ts:68-74 | a snapshot is rejected exactly when it ranks below the remembered one by phase, then completion time |
| `SourceJobs.DeliveredIsHighest` | apps/web/src/sourceJobs.ts:28-35 | after any deliveries a never-evicted job shows one of the delivered snapshots, of the highest rank |
| `SourceJobs.Convergence` | apps/web/src/sourceJobs.ts:28-35 | any two orders of the same snapshots leave a never-evicted job in the same phase with the same completion time |
| `SourceJobs.FinishedStaysFinished` | apps/web/src/sourceJobs.ts:30-33 | once a finished snapshot was delivered, no later poll reactivates the job while it is listed |
| `JobEviction.ListedIff` | apps/web/src/sourceJobs.ts:28-35 | after any deliveries an id is listed exactly when fewer than eight others were put above it since it was last put on top, those above it at the start included |
| `JobEviction.NeverEvictedIff` | apps/web/src/sourceJobs.ts:34 | a job is listed throughout exactly when that holds after every delivery |
| `JobEviction.FreshListedIff` | apps/web/src/sourceJobs.ts:28-35 | when no snapshot is stale, a listed job that gets none is still listed exactly when the ids delivered and those above it are fewer than eight |
| `JobEviction.NeverReactivatedIff` | apps/web/src/sourceJobs.ts:30-34 | a finished job is never shown unfinished again exactly when no unfinished snapshot of it arrives after eight others were put above it |
| `JobEviction.StalePollReactivatesIff` | apps/web/src/sourceJobs.ts:30-34 | one stale poll after fresh snapshots of other jobs is shown exactly when those and the jobs above number at least eight |
| `SourceJobs.EvictionForgets` | apps/web/src/sourceJobs.ts:34 | after eight other jobs a stale snapshot of a finished job is shown as running |
| `SourceJobs.CancelRollbackHasNoEffect` | apps/web/src/App.tsx:1933-1950 | with nothing in between, remembering the running snapshot after a failed cancellation changes nothing |
| `JobEviction.CancelRollbackIff` | apps/web/src/App.tsx:1933-1950 | after any polls, removals and merges in between it changes the list exactly when the job is not listed, or is shown running and not just so on top; without a running snapshot of the job that came while it was not listed, exactly when it is not listed |
| `JobEviction.MergeIsEvents` | apps/web/src/sourceJobs.ts:38-49 | a merge is one of those sequences of events |
| `SourceJobs.ConsistentIff` | apps/web/src/sourceJobs.ts:51-66 | the comparator is transitive on a list exactly when no unnumbered id stands between numbered ones of the same start |
| `SourceJobs.SequenceIsNumber` | apps/web/src/sourceJobs.ts:63-66 | an id that is decimal digits, or ends in a dash and decimal digits, has that number, leading zeros or not; any other has none |
| `SourceJobs.OrderedIsRecentFirst` | apps/web/src/sourceJobs.ts:51-61 | ordered by the comparator means: later starts first, and larger numbers first among equal starts |
| `SourceJobs.SortMeetsPromise` | apps/web/src/sourceJobs.ts:48 | a sort with this comparator exists that permutes the list and orders it whenever the comparator is consistent |
| `SourceJobs.MergeSnapshots` | apps/web/src/sourceJobs.ts:38-49 | merging with that sort is one of the merges the laws below cover |
| `SourceJobs.MergeKeepsShape` | apps/web/src/sourceJobs.ts:38-49 | for any such sort a merge keeps ids unique, at most eight, and invents none |
| `SourceJobs.MergeIsRecentFirst` | apps/web/src/sourceJobs.ts:38-49 | however many jobs there are, what a merge keeps has later starts first and larger numbers first among equal starts, if the comparator is consistent |
| `SourceJobs.MergeKeepsAll` | apps/web/src/sourceJobs.ts:38-49 | when all ids fit, a merge keeps them all, each with its highest snapshot, the most recent first if the comparator is consistent |
| `SourceJobs.MergeAgainChangesNothing` | apps/web/src/sourceJobs.ts:38-49 | when all ids fit, merging the same recovery again changes no snapshot |
| `SourceJobs.MergeMayDropNewest` | apps/web/src/sourceJobs.ts:34-48 | a full recovery pushes out a job newer than all of it |
| `JobEviction.MergeKeepsIff` | apps/web/src/sourceJobs.ts:38-49 | whatever the lists and the sort, a merge keeps an id exactly when fewer than eight others were put above it by the recovery, read oldest first |
| `JobEviction.MergeKeepsFirstEight` | apps/web/src/sourceJobs.ts:38-49 | of a recovery without stale snapshots exactly the first eight are kept, and of the other jobs those with fewer than eight recovered or listed above them |
| `SearchProtocol.EveryRunIsSound` | apps/web/src/App.tsx:1196-1332 | in every interleaving at most one request is live and it is the latest; answer and reflection exclude each other; the evidence is that of the shown answer or empty; a live request shows as loading |
| `SearchProtocol.LoadingMeansLive` | apps/web/src/App.tsx:1196-1332 | without the evicting effect, `loading` after the first request means a live request |
| `SearchProtocol.OnlyFreshResponsesShow` | apps/web/src/App.tsx:1273-1296 | only the latest request under its unchanged scope token can change what is shown |
| `SearchProtocol.FreshAnswerIsShown` | apps/web/src/App.tsx:1273-1300 | an answer to the latest request under its unchanged token is shown, with its evidence for a search and in place of the answer for a reflection, and loading ends |
| `SearchProtocol.FailureIsShown` | apps/web/src/App.tsx:1285-1331 | a failure of the latest request shows its message and ends loading; a search under its own token also clears answer, reflection and evidence, a reflection leaves them |
| `SearchProtocol.OtherEndsShowNothing` | apps/web/src/App.tsx:1273-1300 | an aborted call, and a search that ends under another token, change no result and no error |
| `SearchProtocol.StartedIsLatest` | apps/web/src/App.tsx:1242-1265 | a started request is the latest, under its own token and loading, and all earlier ones are aborted |
| `SearchProtocol.ReflectionAsksQuery` | apps/web/src/App.tsx:1301-1320 | a reflection asks the trimmed query in the place shown; a blank query or a loading shell starts none |
| `SearchProtocol.SourceIsChosen` | apps/web/src/App.tsx:1600-1620 | the source chosen is selected in the given project, the present workspace or the first one, or deselected by the toggle; the results are left behind under the new scope |
| `SearchProtocol.WorkspaceIsChosen` | apps/web/src/App.tsx:1621-1636 | the workspace chosen, or the first, is selected without a source, and the results are left behind exactly when that changes something |
| `SearchProtocol.SourceIsDropped` | apps/web/src/App.tsx:2107-2115 | an evicted source changes only source and token, where a source dropped from the settings leaves the results behind as well |
| `SearchProtocol.StatusEndsFirstLoading` | apps/web/src/App.tsx:730-742 | the end of the first status request ends loading only while no search was started |
| `SearchProtocol.StaleResponsesAreSilent` | apps/web/src/App.tsx:1273-1300 | a response to a request that is not the latest, answer or failure, changes nothing but the requests in flight |
| `SearchProtocol.ShownInOrder` | apps/web/src/App.tsx:1254-1332 | responses are shown in the order of their requests, whatever order they arrive in |
| `SearchProtocol.EvictionStrandsLoadingIff` | apps/web/src/App.tsx:2107-2115 | after an eviction `loading` stays on exactly when the request in flight is a search whose scope was replaced |
| `SearchProtocol.LoadingCanBeStranded` | apps/web/src/App.tsx:2107-2115 | a run that ends loading with nothing in flight |
| `SearchProtocol.SearchShell.RunSearch` | apps/web/src/App.tsx:1242-1265 | the assignments of a search start, one by one, have the effect of the protocol's start step |
| `SearchProtocol.SearchShell.CompleteSearch` | apps/web/src/App.tsx:1266-1300 | the continuation after the response, with its catch and finally parts, is the protocol's finish step |
| `SearchProtocol.SearchShell.RunReflection` | apps/web/src/App.tsx:1301-1311 | the start of a reflection, and that blank queries and loading shells start none |
| `SearchProtocol.SearchShell.CompleteReflection` | apps/web/src/App.tsx:1312-1332 | the continuation of a reflection, whose last step does not look at the token |
| `SearchProtocol.SearchShell.AbortSearchRequest` | apps/web/src/App.tsx:1196-1203 | an abort starts a new generation, aborts the controller and stops loading |
| `SearchProtocol.SearchShell.ChooseSource` | apps/web/src/App.tsx:1600-1620 | choosing or toggling a source aborts, clears and rescopes |
| `SearchProtocol.SearchShell.ChooseWorkspace` | apps/web/src/App.tsx:1621-1636 | choosing a workspace aborts, clears and rescopes exactly when the scope changes |
| `SearchProtocol.SearchShell.DropSource` | apps/web/src/App.tsx:2381-2395 | saved settings without the selected source abort, clear and rescope |
| `SearchProtocol.SearchShell.EvictSource` | apps/web/src/App.tsx:2107-2115 | the effect rescopes and drops the source without aborting |
| `Chunker.WindowsTile` | scripts/compare-chunking.py:20-35 | windows reach from start to end, none longer than 1600, consecutive ones sharing exactly 200 characters, each step at least 602 further on |
| `Chunker.EndsAtLastBreak` | scripts/compare-chunking.py:24-28 | every window ends with the text if it reaches that far, else after the last blank line of its second half if there is one, else at full length |
| `Chunker.FewWindows` | scripts/compare-chunking.py:23-34 | at most ⌈n / 602⌉ windows, and fewer for the last full stride |
| `Chunker.WindowsRestoreText` | scripts/compare-chunking.py:20-35 | the first window and every further one without its overlap put the text together again |
| `Chunker.EveryWordIsInAChunk` | scripts/compare-chunking.py:29-31 | every character that is not white space to Python lies in some chunk |
| `Chunker.ChunksAreStretches` | scripts/compare-chunking.py:29-31 | every chunk has 1 to 1600 characters and starts and ends with a character that is not white space |
| `Chunker.ChunksFollowWindows` | scripts/compare-chunking.py:29-31 | the chunks are, in order, the texts without outer white space of exactly the windows that hold a word |
| `Chunker.Bounded` | scripts/compare-chunking.py:20-35 | the chunks returned are, in order, the stripped texts of the windows that hold a word, where the windows tile the text and each ends where it must |
| `Text.TrimKeepsStretch` | scripts/compare-chunking.py:29 | stripping, with the white space of Python, JavaScript or Rust, keeps one stretch of the text and drops only white space around it |
| `ThemePreference.ReadsFollowWrites` | apps/web/src/workspaceThemePreference.ts:26-60 | from the first write on, for any mix of accepted and rejected writes and unreadable storage, every read is the map of all writes, clears and moves |
| `ThemePreference.AcceptedWriteCatchesUp` | apps/web/src/workspaceThemePreference.ts:48-60 | an accepted write stores everything, also what was rejected before it; a rejected one leaves storage as it was |
| `ThemePreference.OperationOnPage` | apps/web/src/workspaceThemePreference.ts:48-143 | each operation either changes nothing, exactly when its ids or the map it reads refuse it, or leaves a copy with its one change, persisted exactly when storage accepted it |
| `ThemePreference.FirstReads` | apps/web/src/workspaceThemePreference.ts:26-46 | a page without a copy reads the stored texts under ids of 1 to 128 characters, and a stored default of that length as the theme it stands for |
| `ThemePreference.ResolutionOrder` | apps/web/src/workspaceThemePreference.ts:131-133 | the override comes first, as the theme its stored id stands for: itself, what replaced a legacy id, or the product default; then the device default, then the product default |
| `ThemePreference.WrittenThemeResolves` | apps/web/src/workspaceThemePreference.ts:83-86 | a written catalogue theme is what its workspace resolves to, and no other workspace changes |
| `ThemePreference.DeviceReadsLastWrite` | apps/web/src/workspaceThemePreference.ts:100-128 | the device default is read back as last written, also when storage refused it or cannot be read |
| `ThemePreference.MoveIsReadBackIff` | apps/web/src/workspaceThemePreference.ts:135-143 | a move is read back exactly when the target has at most 128 characters or the copy still answers |
| `ThemePreference.FirstWriteKeepsOthersIff` | apps/web/src/workspaceThemePreference.ts:83-86 | an accepted first write keeps other stored themes exactly when it could read them or there were none |
| `ThemePreference.ClearRestoresDefault` | apps/web/src/workspaceThemePreference.ts:89-94 | clearing an override restores the device default for that workspace only |
| `ThemePreference.MoveCarriesTheme` | apps/web/src/workspaceThemePreference.ts:135-143 | a move gives the target the origin's theme, the origin the default, and leaves the rest |
| `ThemePreference.Preferences.ReadMap` | apps/web/src/workspaceThemePreference.ts:26-46 | the read's choice between copy and storage |
| `ThemePreference.Preferences.WriteMap` | apps/web/src/workspaceThemePreference.ts:48-60 | copy first, then storage if it accepts |
| `ThemePreference.Preferences.WriteWorkspaceThemePreference` | apps/web/src/workspaceThemePreference.ts:83-86 | refuses ids outside 1 to 128 characters, otherwise writes the map it read with one entry changed |
| `ThemePreference.Preferences.ClearWorkspaceThemePreference` | apps/web/src/workspaceThemePreference.ts:89-94 | writes only when there was an override |
| `ThemePreference.Preferences.MoveWorkspaceThemePreference` | apps/web/src/workspaceThemePreference.ts:135-143 | writes only for two different ids and a theme to move |
| `ThemePreference.Preferences.WriteDeviceThemePreference` | apps/web/src/workspaceThemePreference.ts:118-128 | the device default follows the same write-through rule |
| `ThemePreference.Preferences.ResolveWorkspaceTheme` | apps/web/src/workspaceThemePreference.ts:131-133 | override, then device default, then product default |
| `BuildProgress.Vertices.MergeProgressEvent` | scripts/container_release.py:142-163 | the in-place update of one vertex is the merge step; events without an identifier change nothing |
| `BuildProgress.MergedIsExtreme` | scripts/container_release.py:142-163 | every vertex ends with the earliest start, the latest completion and the OR of `cached` over its events |
| `BuildProgress.OrderDoesNotMatter` | scripts/container_release.py:142-185 | logs with the same events, in any order, nesting or repetition, give every vertex the same bounds and cache flag |
| `BuildProgress.NameAndErrorFollowOrder` | scripts/container_release.py:147-152 | name and error do depend on the order: over any events each vertex keeps the first name that is not empty and the last error given, also a null |
| `BuildProgress.LinesAreEvents` | scripts/container_release.py:166-185 | merging line by line, nested or not, is merging the flattened list of events |
| `BuildProgress.NestingIsFlat` | scripts/container_release.py:166-185 | an object line is one event, and a history line stands for its vertexes and then its statuses, one line each |
| `BuildProgress.OrderIsFirstNamed` | scripts/container_release.py:143-146 | the dictionary lists the vertices in the order in which they are first named |
| `BuildProgress.ProgressVertices` | scripts/container_release.py:166-185 | reads exactly the logs without broken lines, into the merge of all their events |
| `BuildProgress.AddStepTallies` | scripts/container_release.py:212-216 | each row stays the tally of the steps of its own stage |
| `BuildProgress.OutcomeIgnoresOrder` | scripts/container_release.py:192-227 | whether a summary succeeds, how it fails and which vertices it counts do not depend on the order |
| `BuildProgress.SummarizeProgress` | scripts/container_release.py:188-235 | the steps are, in the order of the dictionary, exactly the vertices with both bounds, each with its name, duration, cache flag and error; for every stage of such a vertex `cached` and `executed` count its cached and its other timed vertices, and `work` is the time of the latter; the errors arise exactly in their cases |

## Left out

- Hashing: SHA-256 of the canonical document is taken to be injective, so the hashed fields stand for the hash.
- Code index: whether a row's parse is current is a flag of the row; the parser is not part of this model.
- `chunk_document` is a function of the document's key and hashed fields, the embedder a function of a text; neither is looked into.
- The provider of an ingestion run answers honestly or fails; a response of the wrong length counts as failing, as the check at src/main.rs:4797 makes it.
- Bounded concurrency: `buffer_unordered` limits which completion orders occur; the model allows all of them.
- Clock and signals: `Control` turns false for good after an arbitrary number of checks.
- Progress recording, audit writes, logging, sync run rows other than their status and counts, cache tables, corpus revision and run recovery.
- Connector processes, `filesystem_plan`, spool permissions, symlink checks and locks; a plan passes or fails by a parameter.
- Access control labels beyond the default at src/main.rs:5483.
- The byte length of a text is its number of characters; encoding is not modelled.
- Rebuild: chunk ids enter only through their order and are integers; backups and integrity checks are a single failure point.
- Parsing of TypeScript: shadowing, `.then` callbacks, the `lucide-solid` special case and the order of the returned lists; a module is given as its imports, exports and re-exports, and exported names are followed in any order.
- Directive texts: paths are made relative and quoted elsewhere; only which file is named, and whether negated, is modelled.
- Job numbers are unbounded, where JavaScript rounds long ones; the polling hooks of `useSourceJobs` are left out.
- The search scope is a triple, where the shell joins its parts with NUL characters; a part that itself holds a NUL is not modelled.
- Context bundles, document lists, graph panes, query history and persisted selections of the shell.
- Text is a sequence of Unicode characters; UTF-16 code units of JavaScript are not modelled.
- Theme maps: an id `__proto__` as the target of a move, and stored themes named like members of `Object.prototype`; the change event.
- Build progress: instants and durations are whole numbers, so parsing and rounding of timestamps are left out, and the stage of a name is a parameter instead of the regular expression.
- The provider of a rebuild answers equal requests of one run equally, or fails.
- `SourceJobs.MergeKeepsAll`: order is promised for a consistent comparator only, because the standard leaves the result of sorting with any other open.
