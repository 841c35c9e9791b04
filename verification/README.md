# Verified model of certification replication and its neighbours

A Dafny 4.11 model of the hardest protocols of this repository, with proofs. `dafny verify dfyconfig.toml`
checks everything.

**Replication (`Tables`, `Journal`, `Deltas`, `Paging`, `Cursor`, `Bootstrap`, `Protocol`, `Convergence`,
`BlindRows`, `Reachability`, `Service`, `Certifier`, `ScanClient`).** A source is changed by writers; triggers journal every
change. A certifier builds a replica from keyset pages read at different times and then applies bounded, coalesced
deltas that carry current row values. `Protocol` is the whole system as a state machine: writers, schema changes,
prunes, one certifier with its durable files, and a crash between any two steps. Its invariant says that a copy differs
from the source only on keys journaled past its watermark, on rows ahead of its cursor, and on rows no scan returns.
`Convergence` states what follows for whole runs, and the exact conditions under which it does: the scan starts at
rowid 1, and `INSERT OR REPLACE` removes conflicting rows without firing delete triggers unless recursive triggers are
on. `BlindRows` says exactly which rows a synchronised certifier misses, `Reachability` that it can always become
synchronised again once writers pause. `Service`, `Certifier` and `ScanClient` are the two ends as imperative code,
proved against the same functions.

**Fast forms against simple ones.** `FundingScan`: the chunked, cached funding scan equals a row-by-row scan.
`WeightedBootstrap`: statistics from cluster multiplicities equal those of the sorted, materialised resample.
`PayloadCodec`: the streaming compressor round-trips and falls back to plain JSON.

**Ledger and storage.** `Ledger`: hash-chained append, and chunked verification while writers may commit.
`Rollover`: the crash-safe epoch swap over hard links and one rename.

**Admission, leases, gaps, certificate.** `SlotGovernor`: slots, waiters and three admission rules.
`CheckpointLease`: the generation-stamped timer lease. `GapFetch`: backward paging over a growing history, and when its
answer can be trusted. `ScoutCursor`: the poll loop with its own cursor, the durable cursor and the receipts of poll
and socket. `Certification`: the Wilson bound and what a certified report implies.

Where the code and its description differ the model follows the code. `_checkpoint_matches` also demands an equal
start watermark, which its module docstring omits. The fair slot rule is described as guaranteeing progress to standby
reads; `SlotGovernor.OvertakingIsUnboundedIff` gives the exact condition under which candidates taking turns overtake
without bound a standby read that tries before each of them leaves, and every policy reaches it
(`SlotGovernor.EveryPolicyCanStarveStandby`); without that try no room suffices (`SlotGovernor.HastyTurnsOvertake`).
Fallback receipts are said to commit before the scout cursor advances; the finalization installs only the recorder, so
a covered cycle moves the loop cursor without receipts and the next uncovered one saves past it:
`ScoutCursor.CoveredThenUncovered`. Every restart is said to retry the missing interval from the durable slot; an
exception while that slot is read counts as none, and the head replaces it: `ScoutCursor.CrashThenUnreadable`. The
exact conditions are `ScoutCursor.SaveIsSafeIff` and `ScoutCursor.LostIff`. Cleaning up the alias of a failed rollover
covers exceptions, not crashes: `Rollover.CrashSpendsTheAllowance`. A gap fetch reports completeness after a full page
whose last row has no signature, and after one whose only rows at or below the cursor have unreadable slots:
`GapFetch.TrustworthyIff`.

## Assumptions

- One certifier; journal ids are in commit order; single statements are the writer's steps, which covers every
  transaction made of them.
- A schema change gets a fresh epoch name, never used before.
- A replaced database file does not come back under the active path, and commits change the data version.
- No row has NULL in a column of its declared primary key: such rows share one journal key, and a delta would insert
  them anew.
- The providers of a signature history agree on it, and it grows only at its head. In `ScoutCursor` its rows have
  signatures and slots, and rows confirmed later do not lie in earlier slots than the head's.
- The scout's store is open. A release that finds no durable cursor of its own restarts as one that cannot read it, and a
  release once replaced does not come back.
- Hashing, JSON, UTF-8, zlib, standard base64 and `quote()` are parameters with a stated inverse or injectivity;
  logarithm and square root are parameters over exact reals.

## Model

| member | source | states |
|---|---|---|
| `Convergence.CaughtUpMeansEqual` | src/solana_roi/certification_replica_client.py:362-399 | Over every run with racing writers, schema changes, late prunes and crashes, a certifier that finished a caught-up delta holds the source as that delta read it, minus rows no scan can see; it is an exact copy if and only if there are none |
| `BlindRows.MissedRows` | src/solana_roi/certification_logical_bootstrap.py:345-351 | Exactly which rows it misses, after any run: those that at its manifest lay in a rowid table with rowid zero or less and that nothing journaled before the delta was read |
| `Convergence.DurableWatermarkIsHonest` | src/solana_roi/certification_replica_client.py:313-359 | At every moment of every run, so at every crash, replica and source differ only on keys journaled past the durable watermark or invisible to scans |
| `Convergence.DurableCursorIsHonest` | src/solana_roi/certification_logical_bootstrap_client.py:601-638 | At every moment of every run the durable scan cursor never runs ahead of committed rows: each key agrees, is journaled past the start watermark, is invisible, or is absent and still ahead |
| `Convergence.ResumedScanIsExact` | src/solana_roi/certification_logical_bootstrap_client.py:335-358 | A resumed scan holds no stale row; this needs the equal start watermark the match demands |
| `Convergence.PruneNeverOutruns` | src/solana_roi/certification_incremental_replication.py:367-382 | No prune, however late, deletes an entry above a watermark the certifier can still send |
| `Convergence.IndexFailureNeedsRace` | src/solana_roi/certification_logical_bootstrap_client.py:641-660 | Building the unique indexes over a finished scan fails only if some key was journaled during the scan |
| `Convergence.QuietBootstrapExactIff` | src/solana_roi/certification_logical_bootstrap.py:345-350 | Bootstrapping an idle source gives an exact copy if and only if no rowid table holds a row with rowid zero or less |
| `Convergence.SafeStatementIffTracked` | src/solana_roi/candidate_certification_hotpath_repair.py:40 | Replication survives a statement, whatever tracked statement follows, if and only if it displaces no row silently through INSERT OR REPLACE |
| `Convergence.SilentDisplacementDiverges` | src/solana_roi/candidate_certification_hotpath_repair.py:264 | Every statement that silently displaces a row leads, one delete later, to a caught-up delta that leaves the replica wrong |
| `Convergence.TrackedRecovers` | src/solana_roi/certification_incremental_replication.py:216-242 | Two tracked statements after a synchronised moment are always recovered by a caught-up delta |
| `Reachability.AlwaysRecoverable` | src/solana_roi/certification_replica_client.py:499-527 | From every reachable world, whatever writers and crashes did, and however the service cuts its responses, steps of the certifier alone lead to a certifier holding the source but for rows no scan returns |
| `Reachability.LimitsServe` | src/solana_roi/certification_logical_bootstrap.py:345-371 | Cutting responses by a row limit that differs from request to request is one such way |
| `Reachability.Drained` | src/solana_roi/certification_logical_bootstrap_client.py:484-638 | However the service cuts its responses, every scan of a quiet source, new or resumed at any checkpoint, can be brought to its end |
| `Reachability.Steadied` | src/solana_roi/certification_logical_bootstrap_client.py:484-515 | A scan cut off right after creating a table, which can never continue, is discarded and begun anew |
| `Protocol.RunInv` | src/solana_roi/certification_replica_client.py:402-496 | Every event sequence from an initial world keeps the invariant tying rows, journal, prunes, files and in-flight work together |
| `Protocol.StepInv` | src/solana_roi/certification_replica_client.py:402-496 | One step of any actor, or a crash, keeps that invariant |
| `Protocol.SourceStepInv` | src/solana_roi/certification_incremental_replication.py:245-281 | Writers, schema changes and prunes keep it |
| `Protocol.SourceStepsAct` | src/solana_roi/certification_incremental_replication.py:234-281 | No writer step is lost: an executable tracked statement leaves its row and extends the journal, a schema change replaces rows and configuration, and a prune deletes exactly the entries up to its watermark |
| `Protocol.FilesStepInv` | src/solana_roi/certification_logical_bootstrap_client.py:436-457 | Removing files, requesting a manifest, resuming or resetting a scan keep it |
| `Protocol.ScanStepInv` | src/solana_roi/certification_logical_bootstrap_client.py:484-638 | Creating a table, reading a page, committing it and writing its checkpoint each keep it |
| `Protocol.PageCommittedInv` | src/solana_roi/certification_logical_bootstrap_client.py:601-638 | Between the commit of a page and its checkpoint the older checkpoint still describes the rows |
| `Protocol.InstallStepInv` | src/solana_roi/certification_replica_client.py:402-496 | Finishing the scan, installing the replica and writing its state keep it |
| `Protocol.SyncStepInv` | src/solana_roi/certification_replica_client.py:313-359 | Sending, reading, committing and recording a delta keep it |
| `Protocol.RoundBegins` | src/solana_roi/certification_replica_client.py:362-378 | An idle or synchronised certifier can begin a round, and its request makes exactly its durable watermark prunable |
| `Protocol.FollowingSource` | src/solana_roi/certification_incremental_replication.py:216-242 | When the source moves on within its epoch, every good replica and every good partial scan stays good |
| `Journal.TriggersCover` | src/solana_roi/certification_incremental_replication.py:216-242 | Every key a tracked statement changes is journaled, and no key is left with a delete as its last word while it still exists |
| `Journal.StatementLeaves` | src/solana_roi/certification_incremental_replication.py:234-240 | After every executable statement the written row is under its key, a key given up, displaced or removed holds nothing, and every other row is as before |
| `Journal.ExecutesIff` | src/solana_roi/certification_incremental_replication.py:319-336 | The statements a writer can execute are exactly inserts of new keys without conflict, updates of present rows that neither hit another key nor conflict, removals of present rows, and replacements displacing the conflicting rows; a conflict is an equal position or an equal non-NULL value of a UNIQUE column |
| `Journal.DeletesFire` | src/solana_roi/certification_incremental_replication.py:216-242 | The delete trigger fires for a row if and only if the statement removes it, updates it, or replaces it with recursive triggers on |
| `Journal.LastFiringTells` | src/solana_roi/certification_incremental_replication.py:216-242 | A tracked statement journals only keys it names or displaces, and its last entry for a key says upsert if and only if the key is there afterwards |
| `Journal.StatementKeepsUnique` | src/solana_roi/certification_incremental_replication.py:319-336 | Every executable statement, displacement included, keeps all UNIQUE constraints |
| `Journal.ExecuteFollows` | src/solana_roi/certification_incremental_replication.py:216-242 | A tracked statement keeps the source valid and visible to a client at any watermark |
| `Journal.PruneFollows` | src/solana_roi/certification_incremental_replication.py:367-382 | Pruning up to a watermark hides nothing from clients at or above it |
| `Tables.ReplayReachesTarget` | src/solana_roi/certification_incremental_replication.py:427-443 | Replaying writes whose values are those of a clash-free target leaves the target's value on every written key and never spoils a key that already agreed, whatever rows UNIQUE displaces in between |
| `Tables.ScanWriteDisplaces` | src/solana_roi/certification_logical_bootstrap_client.py:601-620 | In the partial replica a written row displaces exactly those at its position or equal in a UNIQUE column declared with the table |
| `Tables.ReplicaWriteDisplaces` | src/solana_roi/certification_incremental_replication.py:332-336 | In the finished replica it displaces exactly those equal in any UNIQUE column |
| `Deltas.CoalesceIsLast` | src/solana_roi/certification_incremental_replication.py:423-425 | The insertion-ordered dictionary holds exactly the last operation of each key |
| `Deltas.BatchCovers` | src/solana_roi/certification_incremental_replication.py:409-421 | The limited read is exactly the journal between the two watermarks, and an unfinished batch is full and advances |
| `Deltas.StaleDeleteIsDirty` | src/solana_roi/certification_incremental_replication.py:428-438 | A key the batch deletes although the pinned read still has it is journaled again past the new watermark |
| `Deltas.BatchKeepsGood` | src/solana_roi/certification_incremental_replication.py:423-443 | Replaying a batch moves a good copy from the old watermark to the new one |
| `Deltas.DisplacedRowIsAwaited` | src/solana_roi/certification_incremental_replication.py:332-336 | A replica row displaced by a UNIQUE conflict in the middle of a batch still has its own entry coming, later in the batch or past its watermark |
| `Deltas.AgreesOrAwaited` | src/solana_roi/certification_incremental_replication.py:427-443 | At every point of a replay each other key agrees with the source as read or has its own entry still to come |
| `Deltas.DeltaIsIdempotent` | src/solana_roi/certification_replica_client.py:313-350 | Replaying a committed delta once more, after a crash before its state was written, changes nothing |
| `Tables.ReplayIsIdempotent` | src/solana_roi/certification_incremental_replication.py:427-443 | Replaying writes taken from one clash-free state, each key once, a second time changes nothing, displaced rows included |
| `Deltas.GoodFollows` | src/solana_roi/certification_incremental_replication.py:405-409 | A good copy stays good while the source moves on |
| `Deltas.DeltaConverges` | src/solana_roi/certification_incremental_replication.py:385-443 | A delta built from current values keeps the replica good, and a caught-up one makes it equal to the source as read apart from blind keys |
| `Deltas.BatchProgress` | src/solana_roi/certification_incremental_replication.py:418-421 | A batch that does not catch up retires exactly the row bound of pending entries |
| `Service.CoalesceBatch` | src/solana_roi/certification_incremental_replication.py:423-425 | The dictionary loop computes the coalesced operations |
| `Service.Materialize` | src/solana_roi/certification_incremental_replication.py:427-443 | The statement loop yields one resolved change per key, or stops exactly when the byte bound is exceeded |
| `Service.ReadDelta` | src/solana_roi/certification_incremental_replication.py:409-443 | The pinned read computes the reference delta or reports the byte bound |
| `Service.CanonicalStore.Track` | src/solana_roi/certification_incremental_replication.py:245-281 | A schema mismatch clears the journal and starts a new epoch, otherwise nothing changes |
| `Service.CanonicalStore.PruneAcknowledged` | src/solana_roi/certification_incremental_replication.py:367-382 | Under lock contention nothing happens; otherwise exactly the entries up to the watermark go |
| `Service.CanonicalStore.DeltaPayload` | src/solana_roi/certification_incremental_replication.py:385-469 | A request is served if and only if tracking was configured, the epochs are equal, the watermark is at most the head and the changes fit the byte bound; each refusal has exactly its own cause; it prunes only after materialising, only what was acknowledged |
| `Certifier.Replica.ApplyDelta` | src/solana_roi/certification_replica_client.py:313-359 | All changes replay in one transaction; a crash after it leaves new contents under the old watermark |
| `Certifier.Replica.CatchUp` | src/solana_roi/certification_replica_client.py:362-399 | The bounded loop ends with the very contents of the state that answered last, or good at a strictly larger watermark, or at a restart: for another identity if and only if the epochs differ, else only because a delta exceeds the byte bound |
| `Certifier.Round` | src/solana_roi/certification_replica_client.py:378-390 | One round against a source that has moved keeps the replica good and says when it is equal |
| `Paging.StreamPageRecords` | src/solana_roi/certification_logical_bootstrap.py:237-282 | A page is a prefix within row and byte bounds except a lone oversize row, done only if complete, otherwise non-empty with its last position as cursor |
| `Paging.Request` | src/solana_roi/certification_logical_bootstrap.py:311-371 | One keyset request serves a page cut from the rows behind the cursor, or fails exactly when the first such row can never be sent |
| `Paging.PageThrough` | src/solana_roi/certification_logical_bootstrap_client.py:518-638 | Paging an unchanging table yields each row once in order, in at most rows plus one requests of at most 500 rows, and fails exactly when some row is unsendable |
| `Paging.BeyondPrefix` | src/solana_roi/certification_logical_bootstrap.py:345-351 | Restarting at the last position of a prefix continues exactly behind it |
| `Paging.LimitIsInvisible` | src/solana_roi/certification_logical_bootstrap.py:335-336 | The SELECT's limit hides nothing a page needs |
| `Cursor.Base64RoundTrip` | src/solana_roi/certification_logical_bootstrap.py:56-58 | Encoding any bytes as base64url and decoding gives them back |
| `Cursor.PaddingIsRecoverable` | src/solana_roi/certification_logical_bootstrap.py:64-66 | Stripped padding is restored exactly from the length |
| `Cursor.DecodeCursor` | src/solana_roi/certification_logical_bootstrap.py:61-83 | The decoding loop returns the specified values or rejects the first unknown element |
| `Cursor.CursorRoundTrip` | src/solana_roi/certification_logical_bootstrap.py:50-83 | Every issued cursor is non-empty and decodes to the key values it was made from, blobs included |
| `Bootstrap.ScanBegins` | src/solana_roi/certification_logical_bootstrap.py:196-208 | Before the first page everything visible is ahead and the scan invariant holds |
| `Bootstrap.ScanFollows` | src/solana_roi/certification_logical_bootstrap.py:196-208 | Source changes between pages keep the scan invariant |
| `Bootstrap.PageKeepsScanGood` | src/solana_roi/certification_logical_bootstrap_client.py:601-638 | Committing a page, whatever it displaces, makes its own cursor a good checkpoint |
| `Bootstrap.OlderCheckpoint` | src/solana_roi/certification_logical_bootstrap_client.py:601-638 | The previous checkpoint of the same scan stays good after the page is committed |
| `Bootstrap.NotWrittenIsAhead` | src/solana_roi/certification_logical_bootstrap.py:280-281 | Every visible row behind the old cursor is on the page or behind the page's cursor |
| `Bootstrap.FinishedScanGood` | src/solana_roi/certification_logical_bootstrap_client.py:643-644 | With no table left, replica and source differ only on keys journaled past the start watermark or blind |
| `ScanClient.NextRecoveredPageRows` | src/solana_roi/certification_logical_bootstrap_client.py:410-414 | The page grows by a quarter rounded up, at least by one and never past the target |
| `ScanClient.PartialReplica.BackOff` | src/solana_roi/certification_logical_bootstrap_client.py:540-549 | A 503 halves the page, or puts it at the minimum if half would be less, so it strictly shrinks until the minimum |
| `ScanClient.PartialReplica.Turn` | src/solana_roi/certification_logical_bootstrap_client.py:529-620 | One request: a 503 halves the page and starts the count of successes anew, a served page counts and may grow the page, and a rejection changes nothing |
| `ScanClient.PartialReplica.RequestPage` | src/solana_roi/certification_logical_bootstrap_client.py:518-638 | An answered request keeps the checkpoint honest and strictly advances table or cursor; a rejected row changes nothing |
| `ScanClient.PartialReplica.Scan` | src/solana_roi/certification_logical_bootstrap_client.py:484-644 | The page loop over a source that changes before every request keeps the checkpoint honest wherever it stops; a 503 keeps the checkpoint, an answer moves it, and the loop gives up exactly when the rows left begin with one no response can carry; it is complete if and only if no table is left, and then the replica is good at the start watermark |
| `FundingScan.LargestIsFirst` | src/solana_roi/certification_hotpath_repair.py:99-106 | Of equally large qualifying transfers the first is chosen |
| `FundingScan.Largest` | src/solana_roi/certification_hotpath_repair.py:99-106 | The chosen transfer qualifies and is the maximum, and none is chosen only if none qualifies |
| `FundingScan.NewestDecides` | src/solana_roi/certification_hotpath_repair.py:121-128 | A page yields a source or transaction error exactly when its first deciding row carries it, so an older transfer never outranks a newer one |
| `FundingScan.ScanMeans` | src/solana_roi/certification_hotpath_repair.py:170-240 | In terms of the fields of rows and trace alone: the outcome is that of the newest row that cannot be placed, is older than the window, fails to load or funds, and otherwise that of the end of the history |
| `FundingScan.SourceIsNewest` | src/solana_roi/certification_hotpath_repair.py:194-240 | A source is found if and only if a successful signed transaction before the purchase and inside the window brings a qualifying transfer and nothing newer ends the scan; it names the newest such, and a complete outcome without one has read the whole window |
| `FundingScan.Tracer.Lookup` | src/solana_roi/certification_hotpath_repair.py:55-67 | A hit is the provider's answer and becomes the most recent; a miss changes nothing |
| `FundingScan.Tracer.Insert` | src/solana_roi/certification_hotpath_repair.py:73-76 | An arrived transaction becomes the most recent, whoever else brought it, and only the least recent are given up |
| `FundingScan.Tracer.Advance` | src/solana_roi/certification_hotpath_repair.py:53-77 | Between arrival, the gate's second look and the answer of the provider a task ends only with the provider's answer, whatever other tasks did meanwhile |
| `FundingScan.Tracer.ResolveChunk` | src/solana_roi/certification_hotpath_repair.py:133-160 | Hydrating a chunk in any completion order and consuming it in history order equals deciding it one by one |
| `FundingScan.Tracer.ScanPage` | src/solana_roi/certification_hotpath_repair.py:176-245 | A page scanned in chunks of eight decides exactly as row by row |
| `FundingScan.Tracer.FundingSourceResult` | src/solana_roi/certification_hotpath_repair.py:114-252 | The chunked scan returns the serial scan's source, completeness and reason for all histories, page splits and errors, and what that outcome means row by row |
| `WeightedBootstrap.SameMultiset` | src/solana_roi/certification_proof_memory_repair.py:274-281 | Weighted enumeration by cluster and by ordered item are both permutations of the materialised resample |
| `WeightedBootstrap.WeightedMedian` | src/solana_roi/certification_proof_memory_repair.py:195-218 | The rank scan always finds both ranks and returns the median of the sorted expansion |
| `WeightedBootstrap.WeightedShortfall` | src/solana_roi/certification_proof_memory_repair.py:221-236 | The tail loop returns the mean of the smallest values of the sorted expansion |
| `WeightedBootstrap.WeightedMeans` | src/solana_roi/certification_proof_memory_repair.py:185-192 | The streamed mean and log growth are those of the weighted sequence, a total loss giving minus infinity |
| `WeightedBootstrap.SampleIsExact` | src/solana_roi/v51_economic_core.py:87-117 | Statistics of the expansion are the incumbent's for every sorted copy of the draw, and a sorted copy exists |
| `WeightedBootstrap.Sample` | src/solana_roi/certification_proof_memory_repair.py:274-298 | For any clusters and any selection, mean, median, log growth and shortfall from multiplicities equal those of the materialised, sorted resample |
| `Ledger.ChainIsLinks` | src/solana_roi/active_runtime.py:298-316 | The walk accepts exactly the rows whose ids are contiguous and whose links and hashes all hold |
| `Ledger.LatestEngineIsNewest` | src/solana_roi/active_runtime.py:314-315 | The engine id reported is the newest retained engine event, or the sealed one if none is retained |
| `Ledger.EndpointsSuffice` | src/solana_roi/active_runtime.py:324-333 | Equal file identity and data version at both ends rule out any commit or replacement in between |
| `Ledger.VerifyChunk` | src/solana_roi/active_runtime.py:298-315 | One chunk is accepted exactly as far as every row continues the row before it |
| `Ledger.VerifyActiveSnapshot` | src/solana_roi/active_runtime.py:274-338 | Chunked verification with writers between chunks succeeds only if one database version was current throughout and is accepted, and then it succeeds |
| `Ledger.AppendKeepsAccepted` | src/solana_roi/active_runtime.py:210-221 | Appending to a verifying store gives a verifying store with exactly that event added at the next id |
| `Ledger.EventStore.Attach` | src/solana_roi/active_runtime.py:81-98 | Opening is refused exactly for a bad anchor or a historical body, and an empty table then verifies exactly when its sequence was not already past the frontier |
| `Ledger.EventStore.Append` | src/solana_roi/active_runtime.py:210-229 | Append adds one linked event or changes nothing, and on a verifying store fails only on a repeated lineage hash |
| `Ledger.EncodedIsInjective` | src/solana_roi/active_runtime.py:215 | Without bars in previous hash, type and time the hashed text determines all four fields |
| `Ledger.SameHeadSameHistory` | src/solana_roi/active_runtime.py:298-316 | With an injective hash and bar-free fields, two verifying stores with one anchor and one head hold identical events |
| `Ledger.BarsAreAmbiguous` | src/solana_roi/active_runtime.py:215 | With a bar in a type two different stores verify with the same head, whatever the hash |
| `Rollover.Volume.PhysicalInodes` | src/solana_roi/active_storage_epoch_rollover.py:105-135 | The inventory counts each sealed inode once however many links it has |
| `Rollover.Volume.TruncateWal` | src/solana_roi/active_storage_epoch_rollover.py:45-60 | Folding the log changes no content |
| `Rollover.Volume.Seal` | src/solana_roi/active_storage_epoch_rollover.py:346-355 | Linking gives the active inode one more name and keeps the bound |
| `Rollover.Volume.Swap` | src/solana_roi/active_storage_epoch_rollover.py:361-364 | A non-empty log stops the swap; otherwise the rename installs the verified successor and loses nothing |
| `Rollover.Volume.CleanUp` | src/solana_roi/active_storage_epoch_rollover.py:366-387 | The handler removes the second name exactly when both of its unlinks succeed |
| `Rollover.Volume.Replace` | src/solana_roi/active_storage_epoch_rollover.py:305-387 | Whatever step fails or dies, the active path names the whole source or the verified successor, and the outcome says which names remain |
| `Rollover.Volume.RolloverIfNeeded` | src/solana_roi/active_storage_epoch_rollover.py:254-400 | Each attempt keeps content, reachability and the bound, is refused exactly by its guards, and after an exception leaves no alias if and only if the clean-up steps succeed |
| `Rollover.Lifetime` | src/solana_roi/active_storage_epoch_rollover.py:254-400 | Over any life of commits, attempts, exceptions and crashes nothing committed is lost and every inode that was active keeps a name |
| `Rollover.CrashSpendsTheAllowance` | src/solana_roi/active_storage_epoch_rollover.py:138-152 | A crash between link and rename with one predecessor sealed makes every later attempt refused |
| `SlotGovernor.CriticalReserve` | src/solana_roi/candidate_pipeline_throughput_repair.py:150-151 | A critical request is admitted whenever the critical reserve is not used up, under all three rules |
| `SlotGovernor.SomeWaiterMayGo` | src/solana_roi/candidate_completion_continuity_repair.py:199-229 | With spare capacity and a waiting candidate or standby, one of them is admissible |
| `SlotGovernor.CandidateKeepsRoom` | src/solana_roi/candidate_completion_continuity_repair.py:215-229 | While a candidate waits, admitting other noncritical work never lets the others fill the ceiling |
| `SlotGovernor.StandbyKeepsRoomIff` | src/solana_roi/candidate_completion_continuity_repair.py:211-229 | For standby the same holds except exactly when a first candidate takes the last slot while neither class holds one |
| `SlotGovernor.OvertakenAtMostOnce` | src/solana_roi/candidate_completion_continuity_repair.py:211-219 | In every run in which critical and background work leave a slot beside one candidate and the standby task tries before a candidate that overtook it leaves, at most one candidate overtakes it and then its next try is granted |
| `SlotGovernor.OvertakingIsUnboundedIff` | src/solana_roi/candidate_completion_continuity_repair.py:211-219 | For every policy and load, beside one candidate holding a slot, over the runs in which the standby task tries before a candidate that overtook it leaves: overtaking is unbounded if and only if background plus one reaches the ceiling or critical plus background plus one reaches the total; otherwise no such run lets a second candidate overtake |
| `SlotGovernor.HastyTurnsOvertake` | src/solana_roi/candidate_completion_continuity_repair.py:211-219 | Without that try, candidates overtake any number of times whatever room there is, although the standby task tries in every turn |
| `SlotGovernor.EveryPolicyCanStarveStandby` | src/solana_roi/candidate_completion_continuity_repair.py:211-219 | Under every policy an idle endpoint reaches a state in which candidates can overtake a waiting standby task forever |
| `SlotGovernor.TurnOvertakesIff` | src/solana_roi/candidate_completion_continuity_repair.py:211-219 | In one turn standby is refused before and after the candidate's release while the next candidate is admitted if and only if that same condition holds |
| `SlotGovernor.WatchedIsRun` | src/solana_roi/candidate_rpc_priority_repair.py:98-127 | The runs in which overtaking is counted are the runs the endpoint performs |
| `SlotGovernor.UncontendedIsCapacity` | src/solana_roi/candidate_pipeline_throughput_repair.py:150-196 | With nobody waiting a request is admitted exactly when capacity allows, research also needing its own limit and spacing |
| `SlotGovernor.FairRefusesIff` | src/solana_roi/candidate_completion_continuity_repair.py:199-229 | With room, the fair rule refuses background work if and only if it would leave fewer free slots than classes that wait and hold nothing, or by the research limits; standby if and only if a candidate is starved; a candidate if and only if standby is starved and a candidate holds a slot |
| `SlotGovernor.PriorityRefusesIff` | src/solana_roi/candidate_rpc_priority_repair.py:60-96 | With room, the oldest rule refuses others if and only if a candidate waits and one slot is free, or by the research limits |
| `SlotGovernor.FirstRefusesIff` | src/solana_roi/candidate_pipeline_throughput_repair.py:150-196 | With room, candidate-first refuses others if and only if a candidate waits, or the last free slot is kept from background work for starved standby, or by the research limits |
| `SlotGovernor.NoRoomNoGrant` | src/solana_roi/candidate_pipeline_throughput_repair.py:150-155 | Critical work is admitted if and only if the total is not used up, and nothing else without room |
| `SlotGovernor.SaneIffConfigured` | src/solana_roi/rpc_workload_governor.py:82-111 | Whatever the settings, the limits derived from them are the sane ones that leave research less than the ceiling, and all of these arise |
| `SlotGovernor.SoundMeans` | src/solana_roi/candidate_rpc_priority_repair.py:98-127 | Sound books count exactly the tasks holding slots and the registered waiters, and keep total, ceiling and research limit |
| `SlotGovernor.CandidateOutranks` | src/solana_roi/candidate_pipeline_throughput_repair.py:169-171 | Under the candidate-first rule only critical and candidate work is admitted while a candidate waits |
| `SlotGovernor.GrantKeepsBounds` | src/solana_roi/candidate_pipeline_throughput_repair.py:132-196 | Every grant under every rule keeps the total, ceiling, research and sum bounds |
| `SlotGovernor.Endpoint.Enter` | src/solana_roi/candidate_pipeline_throughput_repair.py:199-206 | Arrival registers exactly one waiter of its class |
| `SlotGovernor.Endpoint.TryAcquire` | src/solana_roi/candidate_pipeline_throughput_repair.py:212-247 | A lock pass grants exactly when the rule allows, and moves one task from waiting to holding |
| `SlotGovernor.Endpoint.Cancel` | src/solana_roi/candidate_pipeline_throughput_repair.py:260-264 | Cancellation takes back exactly its own registration |
| `SlotGovernor.Endpoint.Release` | src/solana_roi/candidate_pipeline_throughput_repair.py:267-274 | Release takes one off total and class; the clamps never fire |
| `SlotGovernor.MoveKeepsSound` | src/solana_roi/candidate_rpc_priority_repair.py:98-127 | Every step of every task under every rule keeps counters equal to the tasks and all bounds |
| `SlotGovernor.CandidateRoomStays` | src/solana_roi/candidate_completion_continuity_repair.py:215-229 | While a candidate waits with room, no step of another task takes the last slot it could use |
| `SlotGovernor.Interleave` | src/solana_roi/candidate_rpc_priority_repair.py:98-127 | From any state of an endpoint, any interleaving of arrivals, tries, cancellations and releases computes the run of the books, keeps counters exact and bounds, and then admits critical work within its reserve; a candidate waiting with room keeps it while others move |
| `GapFetch.PagesDoNotShift` | src/solana_roi/all_regime_runtime_boundary_repair.py:48-60 | Growth at the head does not move the page behind a known signature |
| `GapFetch.FetchPages` | src/solana_roi/all_regime_runtime_boundary_repair.py:48-76 | The page loop reads the history of its first page front to back however the head grows |
| `GapFetch.Collect` | src/solana_roi/all_regime_runtime_boundary_repair.py:78-88 | Reversed pages with duplicates skipped give the wanted rows oldest first |
| `GapFetch.GapFetch` | src/solana_roi/all_regime_runtime_boundary_repair.py:32-106 | A completed fetch returns the wanted rows of what it read and an incomplete one none |
| `GapFetch.OldestFirstMembers` | src/solana_roi/batch9_continuity_frontier_proof_repair.py:192-203 | The result holds exactly the wanted rows |
| `GapFetch.OldestFirstInOrder` | src/solana_roi/batch9_continuity_frontier_proof_repair.py:192-203 | The result is in slot order without repeated signatures |
| `GapFetch.CompleteMeansAll` | src/solana_roi/batch9_continuity_frontier_proof_repair.py:177-190 | A completed fetch whose last page is short, or has a readable row at or below the cursor, has every wanted row of a well-formed history, unreadable rows included |
| `GapFetch.TrustworthyIff` | src/solana_roi/all_regime_runtime_boundary_repair.py:61-76 | A fetch reporting completeness can be trusted, for every history that gives the same pages, if and only if its last page is short or has a row with slot between one and the cursor |
| `GapFetch.InconclusiveKinds` | src/solana_roi/all_regime_runtime_boundary_repair.py:66-76 | The pages that fail this are exactly the full ones that end on a missing signature, or that seem to reach the cursor only through unreadable slots |
| `GapFetch.InconclusivePageLosesRows` | src/solana_roi/all_regime_runtime_boundary_repair.py:66-76 | After such a page one more wanted row makes a history from which the same pages are read, reported complete, and the row is dropped |
| `ScoutCursor.AdvanceIsSafeIff` | src/solana_roi/batch9_scout_checkpoint_commit_repair.py:50-59 | Everything up to the newest fetched row has its receipt if and only if everything up to the cursor it was fetched at, every fetched row, and every row confirmed since in a slot passed has |
| `ScoutCursor.SaveIsSafeIff` | src/solana_roi/batch9_scout_checkpoint_commit_repair.py:18-60 | Whatever the state, a save leaves the durable cursor behind every row without receipt if and only if everything up to the cursor of the fetch has its receipt and so have rows confirmed late and the fetched rows, unless this step records them; a save of the head needs every row to have one |
| `ScoutCursor.ConfirmIsSafeIff` | src/solana_roi/batch9_continuity_frontier_proof_repair.py:196-200 | New rows leave the durable cursor safe if and only if it was and those in slots it has passed, the head's own slot included, have their receipts |
| `ScoutCursor.UnreadableRestartIff` | src/solana_roi/batch9_continuity_frontier_proof_repair.py:81-97 | From every state, a restart that cannot read the durable cursor puts the head, if there is any row, in its place, which is safe if and only if every row has its receipt or was there at the first start |
| `ScoutCursor.CrashThenUnreadable` | src/solana_roi/batch9_continuity_frontier_proof_repair.py:261-272 | A crash, one more row and such a restart, with or without a journal, end past that row: safe if and only if the socket had delivered it |
| `ScoutCursor.GapBetweenCursors` | src/solana_roi/poll_recoverability_lease.py:226-240 | For a durable cursor that was safe, the first half of that guard says that every row between it and the loop cursor has its receipt |
| `ScoutCursor.NeverAheadIff` | src/solana_roi/batch9_scout_checkpoint_commit_repair.py:18-60 | Over every run of new rows, early or late, socket receipts, polls, rearms, crashes and restarts, readable or not, the durable cursor never passes a row without receipt if and only if it starts so and the guard holds before each save and each confirmation |
| `ScoutCursor.BothStayIff` | src/solana_roi/poll_recoverability_lease.py:226-240 | A step keeps both cursors behind every row without receipt if and only if each row it passes over unrecorded has its receipt |
| `ScoutCursor.BothNeverAheadIff` | src/solana_roi/poll_recoverability_lease.py:226-301 | Over every run neither cursor passes a row without receipt if and only if whatever is passed over unrecorded already had one |
| `ScoutCursor.UncoveredRunsAreSafe` | src/solana_roi/batch9_finalization_repair.py:189-196 | Once a durable cursor exists and both cursors are safe, while no socket covers the scout, no row is confirmed late and every restart reads the durable cursor and has a journal, incomplete fetches, failing recorders and crashes never put it past a row without receipt |
| `ScoutCursor.CoveredThenUncovered` | src/solana_roi/poll_recoverability_lease.py:234-240 | From every caught-up state, a covered cycle and then an uncovered one save past the first cycle's row: safe if and only if the socket had delivered it |
| `ScoutCursor.MoveKeepsValid` | src/solana_roi/poll_recoverability_lease.py:226-301 | Every step keeps rows and receipts, both cursors at or above the rows of the first start, and a pending fetch one of rows above the loop cursor |
| `ScoutCursor.LostIff` | src/solana_roi/poll_chain_head_rearm.py:11-46 | No run without the socket's delivery and with readable restarts gives a row its receipt if and only if the durable cursor, if there is one, has passed it and so has the loop's, if it runs: exactly then a row confirmed late, in the head's slot or below a rearmed cursor, is lost |
| `ScoutCursor.FetchedRows` | src/solana_roi/batch9_continuity_frontier_proof_repair.py:170-203 | With readable rows a completed fetch holds exactly the rows above its cursor |
| `ScoutCursor.Live` | src/solana_roi/poll_recoverability_lease.py:226-301 | A scout driven through any possible steps, its fetches paging while rows are confirmed, ends where the run of those steps does |
| `ScoutCursor.Scout.RecordRows` | src/solana_roi/live_poll_redundancy.py:153-201 | A raising journal stops the loop after the receipts before it; otherwise every row with signature and slot has its receipt |
| `ScoutCursor.Scout.Fetch` | src/solana_roi/batch9_scout_checkpoint_commit_repair.py:18-40 | The page loop at the loop cursor, while the head grows, is the fetch step; only the covered wrapper saves |
| `ScoutCursor.Scout.Record` | src/solana_roi/batch9_scout_checkpoint_commit_repair.py:43-60 | Covered rows are passed over; others are recorded, then saved, then passed over, and a failure moves no cursor |
| `ScoutCursor.Scout.Begin` | src/solana_roi/batch9_continuity_frontier_proof_repair.py:261-272 | Without a durable cursor the slot of the newest row is saved and taken, with nothing recorded |
| `ScoutCursor.Scout.Resume` | src/solana_roi/batch9_continuity_frontier_proof_repair.py:274-285 | From the durable cursor a restart fetches, records and saves, or stops with no cursor moved |
| `ScoutCursor.Scout.Restart` | src/solana_roi/batch9_continuity_frontier_proof_repair.py:81-97 | An exception while reading the durable cursor is taken for its absence, so an existing cursor is replaced by the head |
| `CheckpointLease.Lease.Restore` | src/solana_roi/certification_bootstrap_autocheckpoint_lease.py:182-209 | Ending a lease restores the original setting, and fails to keep the setting right exactly when the write fails on a non-zero original |
| `CheckpointLease.Lease.Schedule` | src/solana_roi/certification_bootstrap_autocheckpoint_lease.py:288-309 | Acquiring or extending starts a new generation and timer with the setting at zero; a failing acquisition changes nothing |
| `CheckpointLease.Lease.RefreshBegin` | src/solana_roi/certification_bootstrap_autocheckpoint_lease.py:321-329 | Below the ceiling the lease is extended, at the ceiling it is given up |
| `CheckpointLease.Lease.RefreshEnd` | src/solana_roi/certification_bootstrap_autocheckpoint_lease.py:352-365 | After maintenance the lease is taken exactly when the log recovered and stayed small |
| `CheckpointLease.Lease.Expire` | src/solana_roi/certification_bootstrap_autocheckpoint_lease.py:212-228 | A timer ends the lease exactly when its generation is the current one |
| `CheckpointLease.Lease.FinishIfComplete` | src/solana_roi/certification_bootstrap_autocheckpoint_lease.py:422-436 | Only the final page of the final table of an active lease marks completion |
| `CheckpointLease.Take` | src/solana_roi/certification_bootstrap_autocheckpoint_lease.py:212-228 | No step raises completion but the final page, and an older timer changes nothing |
| `CheckpointLease.Interleave` | src/solana_roi/certification_bootstrap_autocheckpoint_lease.py:450-460 | Over any interleaving the setting is zero exactly while a lease is active, and completion implies a final page of the manifest then in force |
| `PayloadCodec.FeedPiece` | src/solana_roi/active_storage.py:54-63 | After each piece compressed parts and pending bytes hold exactly the text so far |
| `PayloadCodec.EnvelopeRoundTrip` | src/solana_roi/active_storage.py:79-103 | The compressed envelope decodes to the value |
| `PayloadCodec.PayloadHash` | src/solana_roi/active_storage.py:32-40 | Hashing fragment by fragment hashes exactly the canonical encoding |
| `PayloadCodec.ReservedPlainFails` | src/solana_roi/active_storage.py:64 | A value using the reserved tag, unless its fields are exactly those of an envelope, would be rejected if it were stored plainly |
| `PayloadCodec.OnlyEnvelopesOpen` | src/solana_roi/active_storage.py:79-103 | A body using the reserved tag decodes if and only if it is an envelope whose stream ends cleanly after exactly the announced number of bytes |
| `PayloadCodec.Encode` | src/solana_roi/active_storage.py:43-76 | For all sizes, fragmentations and ratios the body decodes to the value; small ordinary values stay plain, a larger one is the envelope of a stream of exactly its bytes unless that is not shorter, and failure is exactly the size limit |
| `Certification.WilsonInRange` | src/solana_roi/certification.py:26-33 | The bound lies between zero and the hit rate |
| `Certification.WilsonIsScore` | src/solana_roi/certification.py:26-33 | A positive bound q is the rate from which the observed p deviates by exactly Z standard deviations of n trials |
| `Certification.WilsonZeroIff` | src/solana_roi/certification.py:26-33 | The bound is zero if and only if there is no trade or none hit |
| `Certification.RemovingScout` | src/solana_roi/certification.py:52-56 | Profit without one scout is total minus that scout's sum |
| `Certification.BestTrade` | src/solana_roi/certification.py:50-51 | Subtracting the best trade decides every single removal at once |
| `Certification.BestScout` | src/solana_roi/certification.py:52-56 | Subtracting the best scout decides every scout's removal at once |
| `Certification.Evaluate` | src/solana_roi/certification.py:40-66 | A report is certified exactly when size, variety, growth and Wilson bound clear and profit survives removing any trade and any scout; then the raw hit rate clears break-even |

## Left out

- HTTP, tokens, retries, sleeps, SQL text, PRAGMA mechanics, status payloads and the `install_*` wiring.
- Page and delta sizes in bytes are an arbitrary function of the row; column layout, hidden and generated columns and column types are not modelled.
- Replica metadata copied after the scan (`sqlite_sequence`, `user_version`), views and user triggers.
- The explicit full-snapshot recovery of the certifier, which bypasses the page protocol.
- Loss of committed SQLite pages at a power failure under `synchronous=OFF`: crashes here are process crashes.
- IEEE rounding: `ceil(n * 0.20)` and the random cluster selection are inputs of the resampling; certificate arithmetic is over reals.
- Malformed base64 in a cursor: the decoder of the language skips characters outside the alphabet, the model rejects them.
- Same-second bookkeeping, metrics and the number of permits of the funding scan's gate; equal signatures always give equal transactions.
- Waiting times and wake-up events of the slot governor, and its older rule for endpoints without candidates.
- Convergence.CaughtUpMeansEqual: holds for tracked statements only, because untracked displacement breaks it, as Convergence.SafeStatementIffTracked proves.
- Reachability.AlwaysRecoverable: a row too large for any response stops the scan, as Paging.PageThrough states; sizes are not part of the state machine.
- GapFetch.TrustworthyIff: a row whose own slot or signature cannot be read is not wanted, so losing it is not counted.
- ScoutCursor.LostIff: a run may use as many pages as it needs; a gap beyond a fixed page bound never completes and ends in a rearm.
- ScoutCursor.NeverAheadIff: rows of the first start are owed no receipt; a receipt counts once committed, though it expires later.
- The generations of socket gaps and the lease clock of the poll loop: when it rearms, and to which later slot, is left open.
- CheckpointLease.Interleave: assumes that restoring writes succeed, because a failing one loses the setting, as CheckpointLease.Lease.Restore states.
- Rollover.Lifetime: operator reclamation of sealed epochs is not a step; it would only lower the count.
- Ledger.VerifyActiveSnapshot: file-cache advice, memory samples and exceptions raised by SQLite are not modelled.
- SlotGovernor.Interleave: under the oldest rule there is no standby work, which that rule's module does not know.
- Environment overrides of bounds: the defaults of the write-ahead-log ceiling, page and chunk sizes are used.
- The Robinhood transport, the pipelines around candidates and everything under `diagnostics/` and `scripts/`.
