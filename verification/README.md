# Verified model of the Kami oracle's ingester

A Dafny model of the service that tails the Yominet chain, decodes game transactions into
`raw_tx` and `kami_action` rows, attributes harvests to kamis, and answers queries about them.
`dafny verify dfyconfig.toml` checks the whole project.

| file | what it models |
|---|---|
| `Pipeline.dfy` | the service as a state machine: three separately committed writes per block, faults between any two steps, retry, resume, restart, a concurrent prune thread |
| `Service.dfy` | the loops themselves, over a mutable store and resolver, shown to do only steps of that machine |
| `Convergence.dfy`, `Recovery.dfy`, `Durability.dfy` | what holds over whole runs: coverage, no orphans, convergence, recovery from every state, rows never rewritten, and exactly when the cursor steps back |
| `Storage.dfy`, `Ingest.dfy`, `FailedFetch.dfy`, `Musu.dfy` | the tables, the per-block work, exactly when a failed receipt fetch leaves a wrong row, bounty drains |
| `Decoder.dfy`, `DecoderTables.dfy`, `CalldataRows.dfy` | calldata decoding and batch fan-out, the tables it is loaded with, and what a whole call becomes |
| `HarvestRows.dfy` | harvest calls all the way from calldata and receipt logs to stored rows |
| `HarvestResolver.dfy`, `Migration002.dfy`, `Canonical.dfy` | one stitch of kami ids, online (a mutable map) and offline (SQL updates), and why they agree to the letter on reachable databases |
| `LocationView.dfy`, `LocationRuns.dfy`, `MigratedView.dfy` | the location view against a replay of the events, over reachable databases, after the offline stitch and under pruning |
| `Registry.dfy`, `SnapshotTable.dfy`, `ProbeSpacing.dfy` | the address registry as a join kept in memory and in a table, and where it is probed |
| `Backfill.dfy`, `RateLimit.dfy`, `SqlGuard.dfy`, `SqlSplit.dfy`, `Modifiers.dfy`, `Rounding.dfy` | the backfill loop and retention search, the rate limiter, the SQL validator, modifier sums and roundings |
| `Records.dfy`, `Decimal.dfy`, `Text.dfy`, `Wrappers.dfy` | records, decimal and big-endian numbers, `str.strip`, Option and Result |

## How to read it

The chain is a function from block numbers to blocks and never changes; the registry behind the
decoder is fixed during a run. Everything the environment decides (which receipts fail, where a
write stops, which sweeps of the prune thread fall between two storage calls, the chain head) is
an argument or an event, and theorems quantify over all of it. Keccak is a function of which only
injectivity is assumed; ABI decoding is a function that may fail.

`Pipeline.State` has three history components (`span`, `cutoff`, `exact`) that nothing reads: the
least and greatest cursor committed, the largest prune cutoff, and whether every receipt fetch
succeeded.

Where the code does not do what one might expect, the model follows the code and a theorem says
when it does:

* The cursor is not monotone: a failed range is retried from `next_block` and `set_cursor`
  overwrites unconditionally (`Durability.CursorStepsBackIff`). Coverage holds regardless.
* A failed receipt fetch leaves the previous transaction's receipt in the variable that pairs
  drains, and insert-or-ignore then freezes the row (`Ingest.AddTx`, `Durability.RowsFrozen`). The
  rows are right exactly under `FailedFetch.FailedFetchRow` and `FailedFetch.FailedFetchActionsIff`,
  and `FailedFetch.StaleReceiptWitness` is a wrong one. Before the first receipt of a call the code
  raises, exactly under `FailedFetch.ScanRaisesIff`.
* Backfill trusts a cursor left by an earlier run (`Backfill.CoverageIff`).
* The view attributes stops and collects by `kami_id` alone, so it does not see those that are not
  stitched yet (backfill and `poller.py` stitch nothing), and it does not see a liquidation once the
  victim's start rows are gone: it is right exactly outside `LocationView.Blind`, with
  `LocationView.BlindWitness`, `UnstitchedStopWitness` and `UnstitchedCollectWitness` inside. The
  offline stitch brings every kami with a start row back into sight (`LocationRuns.ViewAfterStitch`,
  `MigratedView.MigratedViewIsReplay`).
* The view ignores the `status` column, so rows of reverted transactions start and end harvests
  like any others; so does the replay it is compared with (`LocationView.ViewIgnoresStatus`).
* Merging registries commutes only if no address has two owners (`Registry.MergeCommutesIff`).
* Retry-After is rounded down, so it may send a client back too early (`RateLimit.RetryAfterIff`).
* Comment stripping does not know string literals (`SqlGuard.StripCommentsIff`).
* `_scale_value` documents rounding half away from zero, but Python's `round` rounds half to even
  (`Modifiers.ScaleValueIff`, `Modifiers.ScaleValueWitness`).
* Probing at evenly spaced heights finds a short-lived deployment only if it lived long enough
  (`ProbeSpacing.StretchesHitIff`).
* Offline and online stitching may spell one kami id differently if the table holds two spellings
  (`Migration002.TwoSpellingsDiffer`, `MigratedView.OtherSpellingWitness`), which no reachable database
  does for integer kami arguments (`CanonicalKamis.ReachableCanonical`).

## Model

| member | source | states |
|---|---|---|
| Convergence.PrefixCoverage | ingester/serve.py:116-200 | In every reachable state each block from the first committed cursor through the largest one ever committed, hence through the cursor, has all its raw_tx and kami_action rows, except rows older than some prune cutoff so far; next_block never exceeds cursor + 1 |
| Convergence.CommittedPrefixGrows | ingester/storage.py:202-225 | No event shrinks the committed prefix or moves its first block, although the cursor itself may step back |
| Convergence.NoOrphanActions | ingester/ingest.py:199-201 | After every single step, partial writes included, a kami_action row that no prune cutoff has passed has its raw_tx row |
| Convergence.ReachablePairs | ingester/harvest_resolver.py:105-141 | In every reachable state every start, stop or collect row with both ids pairs them as harvest_id = H(kami_id) |
| Convergence.AnyTwoRuns | ingester/ingest.py:189-208 | Any two runs, whatever failed, was retried, restarted or pruned in either: a row that both databases hold is the same row, except for its receipt columns if a receipt fetch failed in either run and except that a stop or collect kami_id may be missing, or spelled differently, where it is the kami of the row's harvest id; and a row of a block that the other run has committed is missing there only if it was pruned |
| Convergence.Converges | ingester/ingest.py:189-208 | Two runs with successful receipts and no prune hold equal raw_tx rows and equal kami_action rows for all blocks both have committed, except that a stop or collect kami_id may be NULL in one or spelled differently; every kami_id of a harvest row is the kami of its harvest id |
| Convergence.ExactlyOnce | ingester/storage.py:231-300 | That common value: every row of every block is there under its key with the decoder's contents, and every stored row of those blocks is one of them |
| Convergence.OfflineKeepsFaithful | migrations/002_add_harvest_id_column.py:137-219 | Running the offline stitch on any reachable database leaves every row that has a kami id exactly as it was, and every row a faithful copy of what the chain implies |
| Convergence.OfflineConverges | migrations/002_add_harvest_id_column.py:137-219 | The migrated table still equals that of any other such run on all blocks both have committed, up to kami ids not yet stitched |
| Pipeline.Safety | ingester/serve.py:104-202 | The full invariant (stored rows are the chain's rows under their keys, no orphans, coverage, next_block in the span, sound resolver map, per-program-counter facts) holds after every run of events from the empty database |
| Recovery.PollerRecovers | ingester/serve.py:104-202 | The loops themselves, over the mutable store: a process that starts after any history and meets no more faults reaches the chain head at fifty blocks a turn, with sweeps of the prune thread in between, and then everything from the first block ever committed through the head is stored except for what was pruned |
| Recovery.Recovers | ingester/serve.py:116-200 | From every reachable state, whatever failed before, a restart and one range without faults reach any block ahead of the cursor, and then every block from the first committed one through it is stored except for earlier prunes |
| Recovery.CleanRange | ingester/ingest.py:87-213 | An undisturbed range runs to its end, its log line included, and leaves the cursor there |
| Recovery.CleanBlock | ingester/ingest.py:87-208 | An undisturbed block always completes all its storage calls |
| Recovery.Restart | ingester/serve.py:116-121 | A fresh process starts one past the cursor, or at the head without one |
| Pipeline.StepInv | ingester/ingest.py:87-208 | Each event keeps the invariant: start, fetch, the three writes with any fault, retry, resume, crash, prune |
| Pipeline.WriteTxsInv | ingester/storage.py:231-262 | The raw_tx write keeps the invariant wherever in its rows it fails |
| Pipeline.WriteActionsInv | ingester/storage.py:264-300 | The kami_action write keeps it likewise: its rows' transactions are already stored or already pruned |
| Pipeline.WriteCursorInv | ingester/storage.py:202-225 | Committing a cursor extends the covered span by a covered block, also when it steps back |
| Pipeline.PruneInv | ingester/storage.py:361-388 | A prune of any cutoff, between any two writes, keeps the invariant; it never deletes a transaction row and spares one of its actions |
| Pipeline.FetchInv | ingester/ingest.py:87-197 | Fetching, decoding and stitching with any set of failed receipt fetches hands the writers a batch that agrees with the chain |
| Pipeline.SameAction | ingester/storage.py:267 | An action key determines its block and position, so a re-scan can only meet its own rows |
| Pipeline.StoredPairs | ingester/harvest_resolver.py:68-103 | A faithful table satisfies the pair invariant that bootstrap relies on |
| Service.PollerLoop | ingester/serve.py:104-202 | A whole process (bootstrap, cursor read, polling turns, prune sweeps in between) started in any reachable state does only steps of the state machine, so its store ends in a reachable state that satisfies the invariant; next_block and the cursor end up exactly where the turns put them |
| Service.ProcessBlockRange | ingester/ingest.py:87-213 | Under every fault schedule and every placement of prune sweeps the call commits one cursor for each block before the first that fails, in order, and none after; it returns if and only if no block fails and the log line is written; it does only steps of the machine |
| Service.ProcessBlock | ingester/ingest.py:87-208 | One block is committed if and only if its fetch and scan succeed, every row fits and set_cursor does not fail; otherwise the cursor stays |
| Service.FetchBlock | ingester/ingest.py:87-197 | One block's fetch, decode, observe-then-stitch on the mutable resolver and batch is the Fetch step with the given receipts, or FetchFails when it raises; a batch comes back if and only if the scan does not raise |
| Service.WriteBlock | ingester/ingest.py:199-208 | The storage calls in order, skipped for an empty batch, with prunes between them: they succeed if and only if every row fits and set_cursor does not fail, and are exactly the machine's write steps up to the first failure |
| Service.WriteTxsCall | ingester/ingest.py:199-201 | upsert_raw_txs after the given sweeps is their committed prunes followed by one WriteTxs step; it succeeds if and only if all rows fit the budget |
| Service.WriteActionsCall | ingester/ingest.py:199-201 | upsert_actions likewise |
| Service.WriteCursorCall | ingester/ingest.py:203-208 | set_cursor likewise: on success the cursor is the block and the poller moves on, on failure the cursor stays and the range is abandoned |
| Service.TakeTurn | ingester/serve.py:125-200 | One turn of the loop: next_block stays on failure, moves past the range of at most 50 blocks on success, and catches up with the cursor after an escape; the cursor is the last block before the first failing one |
| Service.CleanTurnAdvances | ingester/serve.py:143-176 | A turn without faults commits up to fifty blocks and moves next_block past them |
| Service.CatchesUp | ingester/serve.py:125-200 | k turns without faults pass the head or gain fifty blocks each, with the cursor right behind |
| Service.NeverBack | ingester/serve.py:125-200 | next_block never decreases within a process, whatever fails |
| Service.PruneSweeps | ingester/serve.py:258-272 | The prune thread's sweeps are exactly the prunes of those that committed, in order; a failed one leaves no trace |
| Durability.RowsFrozen | ingester/storage.py:258-296 | No run of events rewrites a stored row of either table: it keeps every column until a prune cutoff passes its time |
| FailedFetch.FailedFetchRow | ingester/ingest.py:123-129 | A transaction row written after a failed receipt fetch is the right one if and only if the receipt's status is absent or 1 and its gas absent or 0 |
| FailedFetch.FailedFetchActionsIff | ingester/ingest.py:123-174 | After a failed fetch the action rows, paid out of an earlier transaction's receipt, are the transaction's own if and only if its receipt has status absent or 1 and the two receipts pay every row alike |
| FailedFetch.PaysAlikeIff | ingester/ingest.py:166-174 | For a payout row of harvest e that means: both receipts drained the same amount from e, or neither drained anything |
| FailedFetch.ScanRaisesIff | ingester/ingest.py:123-166 | The scan raises if and only if it starts without a receipt and some matched transaction decodes to rows before any matched transaction had its receipt fetched |
| FailedFetch.StaleReceiptWitness | ingester/ingest.py:123-174 | Two transactions collect one harvest and the second fetch fails: the second row is written with the amount of the first |
| FailedFetch.DrainReceiptDrains | ingester/musu.py:66-125 | Such receipts exist for any two positive amounts: the two log writes that drain an amount |
| Durability.CursorStepsBackIff | ingester/storage.py:217-222 | The cursor steps back exactly when set_cursor commits the first block of a range that an earlier failed attempt had committed past |
| Durability.CursorStepsBackWitness | ingester/poller.py:148-151 | It happens: a concrete run that commits n + 1, fails, retries and commits n |
| Storage.Store.UpsertRawTxs | ingester/storage.py:231-262 | The table becomes keyed insert-or-ignore of the rows written before the fault, in order |
| Storage.Store.UpsertActions | ingester/storage.py:264-300 | Likewise for actions, keyed by tx hash and sub index |
| Storage.Store.SetCursor | ingester/storage.py:202-225 | Overwrites the cursor unconditionally, or leaves it on failure |
| Storage.Store.PruneOlderThan | ingester/storage.py:361-388 | All-or-nothing at every fault point; the returned counts are the numbers of rows that disappeared |
| Storage.InsertOrIgnore | ingester/storage.py:258 | Insert-or-ignore keeps every old row, makes every key present and adds only offered rows |
| Ingest.CollectRows | ingester/ingest.py:95-187 | The transaction loop with its mutable counters and receipt variable equals the recursive specification and raises exactly where it does |
| Ingest.StatsMeaning | ingester/ingest.py:95-187 | Its counters count the matched transactions of each decode outcome and the rows built |
| Ingest.PairDrains | ingester/ingest.py:165-174 | The payout loop equals the row-by-row specification |
| Ingest.PayoutsConserveDrains | ingester/ingest.py:165-174 | Payout rows of one transaction with distinct harvest ids receive, in total, exactly what the receipt drained from those harvests |
| Ingest.PayoutIsDrain | ingester/ingest.py:165-174 | A stop, collect or liquidate row of harvest e leaves with amount v if and only if v is what the receipt drained from e, and with NULL if and only if nothing was |
| Ingest.PayoutByVictim | ingester/ingest.py:170-174 | Such a row without a harvest id is paid in the same way by the victim id in its metadata, text or number |
| Ingest.PayoutUnknown | ingester/musu.py:148-164 | With neither id, or with ids that are no numbers, it is paid nothing |
| Ingest.OthersUnpaid | ingester/ingest.py:31-35 | A row of any other type keeps every column, its amount included |
| HarvestRows.StoredDrain | ingester/ingest.py:87-208 | From the chain to the database: in every undisturbed reachable state a harvest stop, collect or liquidation in a committed block, batched or not, is stored under its key with its type, its harvest id, its header and exactly what its own receipt drained from that harvest |
| HarvestRows.TxRowsOfScan | ingester/ingest.py:99-148 | A scan makes one raw_tx row for each transaction sent to a system address and no others, each column being that of the transaction, the block or the fetched receipt |
| HarvestRows.ActionRowsOfBlock | ingester/ingest.py:95-176 | A block's kami_action rows are exactly the decoded rows of its transactions to systems, paid out of their own receipts |
| Ingest.ScanAgrees | ingester/ingest.py:123-174 | Whatever receipt fetches fail, a block's rows agree with the clean rows up to the receipt-dependent columns, and equal them if none fails |
| Ingest.StatusOnlyInColumn | ingester/decoder.py:410-460 | The receipt status reaches the decoded rows only as their status column |
| Ingest.ScanSucceeds | ingester/ingest.py:123-166 | With successful fetches the loop never raises |
| Ingest.CleanWellKeyed | ingester/ingest.py:132-176 | A block's rows carry its number and time, every action has a transaction row of the same block, keys do not repeat, start rows pair their ids and stop or collect rows have no kami id yet |
| HarvestResolver.StitchExactOverRun | ingester/ingest.py:189-197 | Over any run of blocks an unattributed stop or collect row gets a kami exactly when its harvest id was known at start-up or belongs to a kami shown anywhere up to and including its block, and then it gets that kami |
| HarvestResolver.ObserveAllMeaning | ingester/harvest_resolver.py:105-115 | The map's keys over a run are exactly those, and it stays sound |
| HarvestResolver.ObserveAnyOrder | ingester/ingest.py:190-193 | The order of rows inside a block does not change which ids are known |
| HarvestResolver.ObserveKeys | ingester/harvest_resolver.py:105-115 | Observing a batch adds exactly the harvest ids of its kamis |
| HarvestResolver.ObserveSound | ingester/harvest_resolver.py:58-66 | Every entry the resolver adds maps H(k) to k |
| HarvestResolver.BootstrapSound | ingester/harvest_resolver.py:68-103 | A bootstrap from a table with correct pairs is sound, whatever order the queries return rows in |
| HarvestResolver.StitchRowFrame | ingester/harvest_resolver.py:126-141 | Stitching changes no column but kami_id, and never a kami_id that is set |
| HarvestResolver.Resolver.BootstrapFromDb | ingester/harvest_resolver.py:68-103 | Both queries together give a bootstrap map: every queried pair and every kami of the table, and nothing else |
| HarvestResolver.Resolver.BootstrapPairs | ingester/harvest_resolver.py:75-85 | The first query's loop gives exactly keys and values of queried pairs |
| HarvestResolver.Resolver.ObserveActions | ingester/harvest_resolver.py:105-115 | The loop over the batch equals the recursive specification |
| HarvestResolver.Resolver.StitchBatch | ingester/harvest_resolver.py:126-141 | The in-place loop stitches every row and returns the number of rows changed |
| HarvestResolver.CountMeaning | ingester/harvest_resolver.py:126-141 | That count is the number of positions whose row differs afterwards |
| HarvestResolver.Resolver.AddKami | ingester/harvest_resolver.py:58-66 | Registers the computed harvest id, or nothing for a missing or non-numeric kami id |
| HarvestResolver.Resolver.Register | ingester/harvest_resolver.py:49-56 | Last writer wins; empty ids are ignored |
| Records.HarvestIdReads | ingester/harvest_resolver.py:35-47 | The harvest_id of a kami reads back as its hash, the entity under which the World records its drains |
| Migration002.OfflineIsOnline | migrations/002_add_harvest_id_column.py:137-219 | On any table with correct pairs the two SQL passes give the table a resolver bootstrapped from it gives, whichever matching rows the engine picks: always up to how a kami id is spelled, and to the letter if no waiting row has two spellings to take |
| Migration002.TwoSpellingsDiffer | migrations/002_add_harvest_id_column.py:174-209 | That condition is exact: with two spellings to take, some choices of the two sides give different tables |
| CanonicalKamis.ReachableCanonical | ingester/decoder.py:644-651 | If the ABI declares kami arguments as unsigned integers, every numeric kami id in every reachable database, resolver map and pending batch is written as str() writes it |
| CanonicalKamis.OfflineIsOnlineOnRuns | migrations/002_add_harvest_id_column.py:137-219 | So on every reachable database migration 002 and the resolver agree to the letter |
| CanonicalKamis.ConvergesToTheLetter | ingester/harvest_resolver.py:126-141 | Under the same condition two runs with successful receipts and no prune hold, for all blocks both have committed, the same rows with the same kami ids to the letter, except that the kami_id of a stop or collect row may be NULL in one |
| CanonicalKamis.DecodedPlain | ingester/decoder.py:410-460 | Every decoded row names its kami that way, through batches and execute(bytes) too |
| Migration002.TwoPasses | migrations/002_add_harvest_id_column.py:156-209 | The two passes are one: every waiting row whose harvest id is known anywhere gets a kami with that harvest id, no other row changes |
| Migration002.StitchViaHarvestId | migrations/002_add_harvest_id_column.py:137-219 | The in-place updates do that, and the returned count is the number of rows that found their kami |
| Migration002.FirstPass | migrations/002_add_harvest_id_column.py:156-169 | The first UPDATE, with an arbitrary choice among several matching start rows |
| Migration002.BuildUniverse | migrations/002_add_harvest_id_column.py:174-196 | The universe table holds exactly the harvest ids of the table's kamis, each with a kami that has it |
| Migration002.SecondPass | migrations/002_add_harvest_id_column.py:188-209 | The second UPDATE joins waiting rows with the universe |
| Migration002.BackfillFromKami | migrations/002_add_harvest_id_column.py:78-134 | Every start row with a numeric kami id and no harvest id gets H(kami_id), no other row changes, and the count is the number of kamis |
| Migration002.BackfillFromMetadata | migrations/002_add_harvest_id_column.py:55-67 | Stop and collect rows without a harvest id take the one in their metadata |
| Migration002.BackfillKeepsPairs | migrations/002_add_harvest_id_column.py:55-134 | Backfilling keeps the pair invariant if the metadata respects it, and backfilling twice is backfilling once |
| Migration002.StitchedTwice | migrations/002_add_harvest_id_column.py:137-146 | A second stitch changes nothing and the pair invariant still holds |
| Migration002.Run | migrations/002_add_harvest_id_column.py:233-245 | The whole migration is backfill then stitch, with its counters |
| Migration002.RunTwice | migrations/002_add_harvest_id_column.py:233-245 | Running the whole migration a second time changes nothing |
| LocationView.ViewRefinesReplay | migrations/013_correct_kami_current_location_view.py:74-187 | For every table with correct pairs and every admissible event order: the view's currently_harvesting equals the replay's answer if and only if the kami is not in the blind spot, where the replay attributes a row without a kami id by its harvest id |
| LocationView.ViewIsReplay | migrations/013_correct_kami_current_location_view.py:74-144 | The same for the windowed-maxima answer itself |
| LocationView.ViewRows | migrations/013_correct_kami_current_location_view.py:132-187 | Exactly one row per kami_static row; harvesting iff some active signal is later than every end; node and room shown only then and taken from a latest start |
| LocationView.ActiveMeaning | migrations/013_correct_kami_current_location_view.py:139-144 | The CASE over the two windows says exactly that some active signal is later than every end |
| LocationView.LatestMeaning | migrations/013_correct_kami_current_location_view.py:83-90 | ROW_NUMBER = 1 keeps one row per kami, one with the largest time, for every tie-break |
| LocationView.LeftJoinUnique | migrations/013_correct_kami_current_location_view.py:182-186 | A left join on unique keys keeps the left rows one for one |
| LocationView.EndMarksMeaning | migrations/013_correct_kami_current_location_view.py:111-123 | end_events holds exactly the stops and the liquidations self-joined to a start row |
| LocationView.LastStartMeaning | migrations/013_correct_kami_current_location_view.py:92-106 | last_start holds a latest start row with a node, and nothing iff there is none |
| LocationView.ReplayMeaning | migrations/013_correct_kami_current_location_view.py:137-144 | The replay of an ordered log says harvesting iff some activation is later than every deactivation |
| LocationView.JoinFindsVictims | migrations/013_correct_kami_current_location_view.py:117-122 | The self-join blames exactly the liquidated kamis that still have a start row |
| LocationView.StitchedInSight | migrations/013_correct_kami_current_location_view.py:111-123 | A kami with a start row in the table and no unstitched stop or collect row is never in the blind spot |
| LocationView.BlindWitness | migrations/013_correct_kami_current_location_view.py:117-122 | A collect then a liquidation with the start row gone: the view says harvesting, the replay resting |
| LocationView.UnstitchedStopWitness | migrations/013_correct_kami_current_location_view.py:111-116 | A start then a stop whose kami_id is still NULL: the view says harvesting, the replay resting, the start row being there |
| LocationView.UnstitchedCollectWitness | migrations/013_correct_kami_current_location_view.py:74-82 | A stop then a collect whose kami_id is still NULL: the view says resting, the replay harvesting |
| LocationView.ViewIgnoresStatus | migrations/013_correct_kami_current_location_view.py:74-187 | The view depends on five columns of kami_action, and status is not one of them |
| LocationView.PruningStability | ingester/storage.py:375-383 | Deleting rows older than any cutoff leaves a kami's answer unchanged if and only if its deciding event survives |
| LocationRuns.ViewOfRun | migrations/013_correct_kami_current_location_view.py:74-187 | The view-replay equivalence over every database the service can reach |
| LocationRuns.ViewAfterStitch | migrations/013_correct_kami_current_location_view.py:74-187 | After migration 002 over any reachable database the view answers as the replay does for every kami whose start row is in the table |
| MigratedView.MigratedViewIsReplay | migrations/013_correct_kami_current_location_view.py:74-187 | If the ABI declares kami arguments as unsigned integers: after migration 002 over any reachable database the view answers as the replay of the events before the migration, for every canonically written kami whose start row is in the table |
| MigratedView.StitchKeepsReplay | migrations/002_add_harvest_id_column.py:137-219 | Under the same condition the migration moves no kami: in any admissible order the rows after it replay, for every canonically written kami, as the rows before it did |
| MigratedView.StitchedSignalIff | migrations/002_add_harvest_id_column.py:137-219 | On any table with correct pairs, a row acts on kami k after the stitch as it did before if and only if it was not a row of k waiting for a kami id, or stays unstitched, or got k as it is spelled |
| MigratedView.OtherSpellingWitness | migrations/002_add_harvest_id_column.py:174-209 | Where another row of the kami spells it differently the stitch may take that spelling, and the kami that rested before then replays as harvesting |
| MigratedView.LeadingZeros | ingester/harvest_resolver.py:58-66 | Two such spellings: "7" and "007" are one number to int() and so have one harvest id |
| LocationRuns.PruneOfRun | ingester/storage.py:361-388 | A committed prune changes the view's answer exactly when the deciding event goes |
| Musu.DecodeMusuDrains | ingester/musu.py:66-125 | The accumulated map has entity e at v iff both 0 and a positive value were written to e and v is the largest |
| Musu.LogIgnoredIff | ingester/musu.py:93-117 | A log changes no drain of any receipt if and only if it is from another contract, has fewer than four topics, is another event, names another component, or its content is not one 32-byte word |
| Musu.ValueWriteIff | ingester/musu.py:95-117 | Any other log writes exactly the number of its content to the entity in its fourth topic |
| Musu.GroupByEntity | ingester/musu.py:93-117 | The first loop groups exactly the qualifying writes, in order |
| Musu.DrainsUnique | ingester/musu.py:66-125 | That specification determines the map |
| Musu.DrainsPermutation | ingester/musu.py:66-125 | Any permutation of the logs gives the same drains |
| Musu.DrainsIndependent | ingester/musu.py:93-125 | Writes to other entities do not affect an entity's drain |
| Musu.PayloadRoundTrip | ingester/musu.py:49-63 | The payload decoder inverts the ABI encoding of every uint256 inside bytes |
| Musu.AmountsConserveDrains | ingester/musu.py:148-164 | Over distinct ids the looked-up amounts add up to the drains |
| Musu.AmountOfDecimalId | ingester/musu.py:148-164 | A decimal harvest id finds its own drain, printed back |
| Decoder.ArgsToActions | ingester/decoder.py:501-567 | The fan-out loops equal the specification on every shape of arguments |
| Decoder.OneRow | ingester/decoder.py:569-641 | The row loop equals the specification |
| Decoder.FanOutRoundTrip | ingester/decoder.py:552-567 | Reading an array argument's slot down the rows gives the array back |
| Decoder.FanOutKeepsArguments | ingester/decoder.py:552-567 | Row j holds element j of every array argument and a copy of every scalar, each in its own slot |
| Decoder.FanOutRows | ingester/decoder.py:515-567 | Rows number the batch length (one for any other shape) with sub_index 0 to n-1 and distinct keys |
| Decoder.RowHeader | ingester/decoder.py:584-593 | Each row carries its transaction's header and its position |
| Decoder.DecodedPairs | ingester/decoder.py:631-641 | A decoded start row pairs its ids by H; stop and collect rows come without a kami id |
| Decoder.DecodeTxRows | ingester/decoder.py:410-460 | Status ok iff there are rows; every row carries its transaction's header and position, keys are distinct, and harvest rows pair their ids |
| CalldataRows.RowHoldsInput | ingester/decoder.py:410-460 | For calldata that is a known selector followed by a payload the ABI library reads as given values, directly or inside execute(bytes): there is one row, or one for each array element, and in row j every input's column or metadata key holds the value passed for it, or element j of it |
| CalldataRows.RowHoldsNoMore | ingester/decoder.py:584-641 | Everything else in a row is empty, except the function's name, the batch position and a start row's harvest id |
| CalldataRows.OutcomeIff | ingester/decoder.py:422-448 | Unknown system, unknown selector and decode error, each if and only if by the address, the length, the selector and what the ABI library does |
| CalldataRows.ColumnsHold | ingester/decoder.py:644-659 | A text column holds a number in decimal, bytes as their big-endian number, text unchanged, a flag as True or False; the item index holds numbers and flags only |
| CalldataRows.MetadataHolds | ingester/decoder.py:662-671 | Metadata holds numbers in decimal, bytes in hexadecimal that reads back as the bytes, tuples element by element |
| CalldataRows.UnnamedArgument | ingester/decoder.py:604-607 | An argument without a name is kept in the metadata under its number there |
| HarvestRows.StartRow | ingester/decoder.py:149-156 | A harvest start: row j has the kami and the node passed to it, and the harvest id of that kami |
| HarvestRows.EndRow | ingester/decoder.py:157-164 | A harvest stop or collect: row j has the harvest passed to it, and no kami |
| HarvestRows.LiquidateRow | ingester/decoder.py:165-168 | A liquidation: the killer in kami_id, the victim's harvest in harvest_id |
| Decoder.DeploymentsDecodeAlike | ingester/decoder.py:422-438 | Two addresses of one system decode identically |
| DecoderTables.LoadAll | ingester/decoder.py:390-408 | The loop over the registry, no two entries of one system naming different ABIs, builds in any order exactly the tables of its systems: the ABI's functions with the overlay added and never overriding, and the first executeTyped |
| DecoderTables.TablesUnique | ingester/decoder.py:390-408 | Those tables are determined by the registry, whatever order its entries come in |
| DecoderTables.UnionHasOneAbi | ingester/system_registry.py:347-385 | A registry probed at any heights names one ABI for each system, as the loader needs, if the table of systems does |
| DecoderTables.EntryMeaning | ingester/decoder.py:391-401 | A selector is decoded by the ABI file's last function with it; only if there is none, by the overlay's first |
| DecoderTables.FirstTypedMeaning | ingester/decoder.py:403-408 | execute(bytes) is read as the first function named executeTyped |
| DecoderTables.LateDeployment | ingester/decoder.py:422-438 | A deployment of a known system that the registry learns after the tables were loaded decodes exactly as after a reload; one of a new system gives an unknown selector until then |
| Decoder.SourceTablesAreHarvestTables | ingester/decoder.py:147-168 | The field map's harvest entries have the shape the pair invariant needs |
| Decoder.TablesElsewhere | ingester/decoder.py:95-142 | Outside the harvest systems both tables are the given ones; a system without a name is its own action type and an argument without a rule goes to the metadata |
| Decimal.DecimalRoundTrip | ingester/decoder.py:644-651 | Parsing the printed decimal of a number gives it back |
| Decimal.RowIdInjective | ingester/storage.py:267 | The row key determines tx hash and sub index |
| Registry.ProbeHistoricalSystems | ingester/system_registry.py:347-385 | An empty list is an error; otherwise the result is the union of the snapshots: an address is known iff resolved at a probed height, its entry is that of the least such height with first and last seen the least and greatest, also when addresses change owner |
| Registry.OwnerEverywhere | ingester/system_registry.py:370-385 | If no address changes owner the entry is that of every height the address was seen at |
| Registry.UnionUnique | ingester/system_registry.py:370-385 | Order and duplicates of the heights do not matter |
| Registry.ResolveMeaning | ingester/system_registry.py:310-344 | Resolving at one height gives exactly the addresses that a vendored system resolves to, seen at that height |
| Registry.ResolveFirst | ingester/system_registry.py:312-338 | When several systems resolve to one address the first of the table keeps it |
| Registry.SystemRegistry.Extend | ingester/system_registry.py:177-204 | Contents become the merge, the returned set is the new addresses, the index is rebuilt |
| Registry.SystemRegistry.Absorb | ingester/system_registry.py:185-202 | The dictionary loop computes the merge whatever its iteration order |
| Registry.SystemRegistry.RebuildSystemIdIndex | ingester/system_registry.py:141-151 | Each system points to one of its entries of maximal last_seen, None ranking below every block |
| Registry.MergeIdempotent | ingester/system_registry.py:177-204 | Extending with itself changes nothing |
| Registry.MergeAssociative | ingester/system_registry.py:177-204 | Merging is associative |
| Registry.MergeCommutesIff | ingester/system_registry.py:177-204 | Merging commutes if and only if no address is described differently on the two sides |
| Registry.MinOpt | ingester/system_registry.py:256-258 | Least of the values that are present |
| Registry.MaxOpt | ingester/system_registry.py:261-263 | Greatest of the values that are present |
| SnapshotTable.UpsertLoadIsMerge | ingester/storage.py:306-355 | Upserting one registry's rows over another's table and loading gives the in-memory merge, all NULL cases included |
| SnapshotTable.UpsertKeepsOneSystemIff | ingester/storage.py:325 | The table keeps one system per address if and only if the two registries agree on owners |
| SnapshotTable.LeastIsMinOpt | ingester/storage.py:326-333 | LEAST and GREATEST over COALESCE are _min_opt and _max_opt |
| SnapshotTable.UpsertRowsMeaning | ingester/storage.py:306-338 | What the upsert leaves under every key |
| SnapshotTable.LoadUnique | ingester/storage.py:340-355 | With one system per address, loading has one outcome in any row order |
| SnapshotTable.SnapshotStore.UpsertSystemAddressSnapshot | ingester/storage.py:306-338 | The executemany loop is the fold of single upserts |
| SnapshotTable.SnapshotStore.LoadRegistry | ingester/system_registry.py:213-227 | Every stored address is loaded, with the contents of one of its rows |
| ProbeSpacing.DeploymentFound | ingester/system_registry.py:388-404 | A deployment that resolves throughout [a, b] inside the window with b - a >= step - 1 is in the probed registry |
| ProbeSpacing.ProbesSpread | ingester/system_registry.py:400-404 | Heights run from start to head, never decrease, and leave gaps of at most step + 1 |
| ProbeSpacing.ProbeInside | ingester/system_registry.py:400-404 | Every such stretch holds a probe height |
| ProbeSpacing.StretchesHitIff | ingester/system_registry.py:400-404 | Every stretch of a given length inside the window holds a probe if and only if the length is at least step - 1 |
| Rounding.RoundHalfEven | ingester/system_registry.py:401 | round() is within one half, ties to even |
| Rounding.RoundingsAgreeIff | ingester/skill_catalog.py:94-106 | Rounding half to even and half away from zero agree if and only if the number is not a tie or its neighbour away from zero is even |
| Backfill.EarliestRetainedBlock | ingester/backfill.py:61-89 | For any answers: the result exists or is head, and the block below it does not exist; the least retained block if retained blocks are upward closed; at most 1 + ceil(log2(head - floor)) probes; the floor and empty-range cases |
| Backfill.CeilLog2Meaning | ingester/backfill.py:81-89 | The bound's logarithm is the least exponent that reaches its argument |
| Backfill.WalkBlocks | ingester/backfill.py:197-243 | The nested survival loop equals the step-by-step specification for any sequence of attempts |
| Backfill.WalkChunks | ingester/backfill.py:209-227 | Its inner chunk loop up to the first failure |
| Backfill.AttemptMeaning | ingester/backfill.py:207-243 | One attempt block by block: what it scans, the cursor it leaves and where the loop goes on, after a success or after any number of committed blocks |
| Backfill.CoverageIff | ingester/backfill.py:239-243 | Every schedule of failures leaves no gap if and only if the database had no cursor or one below start (or the range is empty) |
| Backfill.StartSkipped | ingester/backfill.py:239-243 | Otherwise one failure before the first commit skips the start block for good |
| Backfill.Finishes | ingester/backfill.py:207-227 | Each success moves the loop on, whatever fails in between |
| RateLimit.AnyTrace | ingester/ratelimit.py:68-86 | On any trace of any keys with a non-decreasing clock: at most limit admitted per window and at most 2*limit - 1 in any half-open 60 seconds, per key |
| RateLimit.AtMostTwiceLimit | ingester/ratelimit.py:70-74 | The 2*limit - 1 bound for one key |
| RateLimit.BoundIsMet | ingester/ratelimit.py:70-74 | A burst that admits exactly 2*limit - 1 requests in 60 seconds, for every limit |
| RateLimit.AtMostLimitPerWindow | ingester/ratelimit.py:70-76 | At most limit admitted per window; in the current one exactly min(count, limit) |
| RateLimit.WindowsApart | ingester/ratelimit.py:71-72 | A new window starts at least 60 seconds after the one before |
| RateLimit.KeysIndependent | ingester/ratelimit.py:70-74 | What the limiter knows of a key is what it would know if only that key's requests had come |
| RateLimit.BucketKeyIff | ingester/ratelimit.py:30-36 | A request is counted if and only if its header is Bearer and a token, and then under that token's digest whatever white space surrounds it |
| RateLimit.TokensApart | ingester/ratelimit.py:30-36 | Two tokens share a bucket if and only if their digests are equal |
| RateLimit.RejectedChangeNoDecision | ingester/ratelimit.py:73-76 | Dropping all rejected requests from a trace changes no later decision |
| RateLimit.RejectedChangeNothing | ingester/ratelimit.py:71-74 | Rejected requests never prolong the window |
| RateLimit.RetryAfterIff | ingester/ratelimit.py:77 | Waiting exactly Retry-After seconds finds a fresh window if and only if the time left was whole or at most one second |
| RateLimit.RateLimiter.Dispatch | ingester/ratelimit.py:57-86 | Skipped paths and requests without a token pass and count nothing; any other is counted and admitted iff its window count is within the limit |
| RateLimit.RateLimiter.CountHit | ingester/ratelimit.py:69-74 | The locked section updates only this key's window |
| RateLimit.RateLimiter.constructor | ingester/ratelimit.py:51 | limit is max(1, limit_per_min) |
| SqlGuard.ValidatorIsProjection | ingester/sql.py:91-135 | Whatever the validator returns, it returns again unchanged |
| SqlGuard.AcceptedIsClean | ingester/sql.py:91-135 | A returned statement has no semicolon, no line comment, no complete block comment and no writing word in any mix of cases, begins with a reading word, is no longer than the stripped query and is a piece of it once comments are gone |
| SqlGuard.RangeIff | ingester/sql.py:91-135 | The validator's results are exactly the clean statements of admissible length |
| SqlGuard.RefusedIff | ingester/sql.py:117-133 | A single statement is refused if and only if it begins with no word, begins with a word that is not one of the seven reading words, or holds one of the sixteen writing words in any mix of cases |
| SqlGuard.TokenStandsAlone | ingester/sql.py:72-79 | Where letters are word characters, a writing word counts if and only if no word character touches it on either side |
| SqlGuard.AcceptedIff | ingester/sql.py:91-135 | The validator returns b if and only if b is clean and is the core of the comment-free query: all its visible text, once surrounding white space and semicolons are dropped |
| SqlGuard.StackedRejectedIff | ingester/sql.py:110-115 | A query of admissible length is rejected as several statements if and only if, comments removed, a semicolon has visible text on both sides |
| SqlGuard.NothingLeftIff | ingester/sql.py:108-115 | It is rejected as empty without comments if and only if nothing but white space and semicolons is left |
| SqlGuard.RejectedEarly | ingester/sql.py:97-105 | Missing, blank (all white space) and over-long queries get their own errors |
| SqlGuard.StripCommentsIff | ingester/sql.py:87-88 | Stripping leaves no comment, and leaves a text alone if and only if it has none (string literals included) |
| SqlGuard.LineCommentCut | ingester/sql.py:83 | The first double dash and the rest of its line, no more and no less, become one space |
| SqlGuard.BlockCommentCut | ingester/sql.py:84 | The first opener through the first closer after it become one space |
| SqlGuard.LineCommentsFirst | ingester/sql.py:87-88 | Line comments go first, so one inside a block comment takes the closer with it |
| SqlGuard.LineCommentsGone | ingester/sql.py:83 | Leftmost line-comment removal leaves no double dash |
| SqlGuard.BlockCommentsGone | ingester/sql.py:84 | Leftmost non-greedy block-comment removal leaves no complete block comment |
| SqlGuard.BlockKeepsNoLine | ingester/sql.py:88 | Putting a space for each block comment joins no two dashes |
| SqlSplit.ChunksIff | ingester/sql.py:111 | The stripped non-empty parts between semicolons: none iff nothing is visible, several iff a semicolon separates visible text, exactly one iff it is the core |
| Text.StripMeaning | ingester/sql.py:99 | Stripping takes white space from both ends and nothing else |
| Text.StripOf | ingester/sql.py:99 | White space around text that has none at its ends is all that goes |
| Modifiers.ComputeModifiers | ingester/skill_catalog.py:133-188 | Each of the twelve columns is the sum of points times value over skills plus the equipment values; missing lists give zero |
| Modifiers.AddSkills | ingester/skill_catalog.py:160-172 | The skills loop adds exactly the skill sums to every column |
| Modifiers.AddEntries | ingester/skill_catalog.py:182-186 | The entries loop adds exactly the item's values |
| Modifiers.OrderFree | ingester/skill_catalog.py:160-186 | Permuting either list changes no column |
| Modifiers.Additive | ingester/skill_catalog.py:160-186 | Concatenating lists adds the columns |
| Modifiers.InertIgnored | ingester/skill_catalog.py:163-171 | Zero points, unknown indices and the four stat shifts count for nothing |
| Modifiers.ColumnOfIff | ingester/skill_catalog.py:44-57 | Each of the twelve effects feeds its own column, any other none |
| Modifiers.OneSkill | ingester/skill_catalog.py:160-172 | One skill adds its value times its points to the one column of its effect |
| Modifiers.OneItem | ingester/skill_catalog.py:182-186 | One item adds its effect's value to that effect's column |
| Modifiers.PointsAdd | ingester/skill_catalog.py:160-172 | Points of one skill may be split over several lines |
| Modifiers.ScaleValueNear | ingester/skill_catalog.py:94-106 | The stored value is the whole number nearest to the cell for the intensity boost and the cooldown shift, and to a thousand times the cell for the rest |
| Modifiers.ScaleValueIff | ingester/skill_catalog.py:94-106 | A catalog value is rounded half away from zero, as documented, if and only if the scaled number is no tie or its neighbour away from zero is even |
| Modifiers.ScaleValueWitness | ingester/skill_catalog.py:94-106 | A percent cell of 0.0005 is stored as 0 where the documented rounding gives 1 |

## Left out

- RPC transport, web3 types, retries inside the client, sleeps and wall-clock time: network plumbing; the outcome of each call is an input.
- keccak and eth_abi: library code, kept as an injective function and a partial function. A selector is the byte string a function table is keyed with.
- HarvestResolver.Resolver.AddKami: `int()` of a kami or harvest id accepts signs, blanks, underscores and non-ASCII digits; the model accepts ASCII digits only, and registers nothing for everything else. A kami id of 2^256 or more, which would raise, is given a hash like any other.
- Signed ABI integers (values are natural numbers) and the field maps of systems other than the four harvest systems (a parameter).
- `musu_amount_for_harvest` of an integer id is used only for `victim_harvest_id`, inlined in `Ingest.AmountFor`.
- Log addresses, topics and data are already bytes and lower case; hex and HexBytes variants are not distinguished.
- Registry re-probing while the poller runs: the address table is fixed during a run; what a transaction to a late entry decodes to is `DecoderTables.LateDeployment`.
- `poller.py`'s `--start-block`, `--once` and configurable catch-up: its loop is `_poller_loop` without a resolver, covered by the machine's runs with no resolver map. `TakeTurn` is the serve loop with its catch-up of 50; the machine allows any range end.
- Dry-run mode (no storage) and the contents of the unknown-selector log; that writing it may fail after the last commit of a range is a step of the machine.
- WalkBlocks: an attempt is the number of blocks committed before a failure; what a scan of those blocks writes is the business of `Ingest` and `Pipeline`.
- EarliestRetainedBlock: an exception other than "not found" from the node aborts the search and is not modelled.
- Chain reorganisations: the chain is immutable.
- DuckDB beyond keyed insert-or-ignore, keyed upsert, filtered delete, update-from and one atomic transaction; the lock is what makes each storage call one step.
- `ingested_at`, `vendor_sha`, the cursor's timestamp and schema version: bookkeeping that nothing modelled reads.
- The view's `since_ts`, `freshness_seconds` and `is_stale` (wall clock), kami_static's other columns, and the cast of `node_id` to an integer: straight copies. A NULL kami of the self-join matches no row of the outer query and is dropped.
- `ORDER BY` ties in ROW_NUMBER: rows are taken in an arbitrary scan order, over which every theorem quantifies.
- `get_by_address`, `as_dict` and `from_dict`, ABI file loading: lookups and copies.
- EvenlySpacedProbes: over exact rationals, not floats; likewise ScaleValue.
- Rate limiter: the digest of a token is an arbitrary function, so two tokens with one digest share a bucket as they do in the code; `await` and the lock are one step, and the clock is assumed not to step back between requests.
- ValidateReadonlySql: `\w` is a parameter (any predicate on characters), the offending token is not part of the error, and `run_readonly` with its timeouts and interrupts is not modelled.
- CSV catalog loading, migrations 003 to 012, kami_static, the HTTP API, authentication, backup, scripts and the client package: thin I/O or straight-line copying with only easy members.
