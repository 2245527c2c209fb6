# TruthBounty API: a verified model of its stateful cores

This project models, in Dafny 4.11, the parts of the TruthBounty API whose state
evolves over unbounded runs, and proves what those runs keep. `dafny verify
dfyconfig.toml` checks all of it.

| module | models |
|---|---|
| `BlockchainIndexer` | token transfers applied at most once, undone by block on a reorganisation, with a checkpoint |
| `EventIndexer` | the range indexer that scans confirmed blocks batch by batch and survives crashes |
| `BlockchainState`, `ReorgDetector`, `Reconciliation`, `EventIndexing`, `TrackerScenarios` | the in-memory confirmation and reorg tracker, and states it reaches from empty |
| `RealtimeBus`, `RealtimePublisher`, `OutboxProtocol` | the broadcast hub with bounded buffers, one pass of an outbox publisher in front of it, and any number of passes and publishers interleaving |
| `GovernanceTables`, `GovernanceCacheStore`, `Governance`, `GovernanceRecords`, `GovernanceOutages` | proposals and votes read and written through a cache, what each operation leaves in the tables, and what a Redis outage costs |
| `Configuration` | versioned configuration with history, rollback and a cache |
| `ThrottlerStorage`, `ThrottlerShortBlocks` | the in-memory rate limiter, and the policies whose blocks are shorter than a window |
| `WeightedVotes`, `VoteSymmetry` | reputation-weighted claim resolution, and when it treats both sides alike |
| `WalletAge`, `StableHash` | the fixed-point wallet-age score, the rollout hash |
| `Wrappers`, `MapSums`, `RealSums`, `Sorting` | shared datatypes, sums and sorts |

Each service is a class with the source's fields. Its methods are proved against
functions from state to state; the main results are lemmas about those functions
over every run. Tables are maps or sequences, a transaction works on copies that
only its commit installs, and failures of the database, the RPC node, Redis or a
callback are parameters. Calls are serial, as the indexer's queue makes them
(`src/blockchain/utils/sequential-queue.ts:24-43`); the publishers and the bus
are the exception and interleave freely.

## Where the code does not do what it says

These are results about the code as it is, each with the exact condition.

- Rate limiter: the first request after a block counts twice. With a limit of one a
  key that was blocked once is never accepted again (`LimitOneLocksOut`,
  `BlockEndsIffLimitAboveOne`). The block duration is configurable below the window
  (`src/config/throttler.config.ts:33`); twice the limit per window then bounds what is
  accepted only for a limit of one, and for a limit of two with blocks of at least half a
  window (`TwiceLimitIff`).
- Reorg tracker: a reported fork changes nothing exactly when the walk ends where it starts,
  as it does for every block at a new height (`ForkChangesNothingIff`, `ForkAtNewHeight`);
  the range of a replacement is right exactly when as many stored blocks lie below it as
  heights above it were replaced (`RangeIsReplacedHeightsIff`); delivering the last block
  again orphans the whole stored run (`RedeliveryUnwinds`, `RedeliveryOrphansAll`). Events
  are confirmed by depth alone: a block confirms only events of canonical blocks exactly
  when no event that waits deep enough came with another one
  (`ConfirmsOnlyCanonicalIff`), and an event of a replaced block does end up confirmed
  (`OrphanConfirmedOffChain`). The orphaned counter drifts by exactly the orphaned events
  that a block orphans again or confirms (`ProcessBlock`).
- Transfer indexer: `replayFromBlock` is documented to rewind the checkpoint, and moves
  it forward when started further than one block above it (`ReplayRewindsIff`).
- Range indexer: a failure while storing one log is swallowed. A log of a processed block is
  missing exactly when a poll that failed to store it, or a jump past its block, made the
  block count as processed for the last time (`MissingIff`). A backfill of a contract
  reaches all its events exactly when there is one, or all are there already
  (`BackfillMovesAllIff`).
- Publisher: the row locks end with the claim's transaction, so the comment at
  `src/realtime/realtime-publisher.service.ts:23-24` holds exactly for a single publisher
  whose passes never overlap, whose marks never fail and which never crashes
  (`BroadcastsOnceIff`). Passes do overlap when one outlasts the poll interval: lines 35-45
  look at when the last one started, not at whether it has ended. A failed row of a full
  batch is claimed again within the same pass, not on the next one as lines 71-72 say: with
  no rows committed meanwhile, the pass ends exactly when the rows that always fail are
  fewer than a batch
  (`PassEndsIff`), and it gets to a row exactly when fewer than that come before the row
  (`AttemptedIff`).
- Governance: nothing ever sets PASSED, so `execute` always fails and the success rate is
  always zero (`ExecuteNeverSucceeds`). Cancelled proposals stay cancelled in all runs
  exactly when no invalidation of a single proposal can be lost to a Redis outage
  (`FinalIsForeverIff`), and tallies are right exactly when moreover no voted proposal can
  fail to be saved after its vote (`TalliesAlwaysMatchIff`).
- Configuration: the cache key joins environment and key with a colon, and an invalidation
  can be lost silently (`src/redis/redis.service.ts:125-138`), and a write can stop between
  the record, its history row and the invalidation. Reads are right in all runs exactly
  when no environment name continues another after a colon, no invalidation is lost and no
  write stops (`ReadsAreFreshIff`); a rollback finds its history row in all runs exactly
  when no write stops (`RollbackAlwaysFindsIff`).
- Vote resolution: a tie is broken for TRUE. Swapping TRUE and FALSE swaps the verdict for
  all votes exactly when the tie threshold is positive, the confidence threshold is above
  one half, or no user may have any share (`AlwaysSwapsIff`).

## Model

| member | source | states |
|---|---|---|
| `BlockchainIndexer.IndexerService.ProcessEvent` | src/blockchain/blockchain-indexer.service.ts:40-90 | a new event is stored, the tracked rows of its two sides move by its amount and the checkpoint is raised to its block, from zero when there is none, all at once; a duplicate or a fault anywhere in the transaction changes nothing |
| `BlockchainIndexer.IndexerService.ReplayFromBlock` | src/blockchain/blockchain-indexer.service.ts:102-151 | exactly the events below the block are left, the checkpoint is just before it, and reversing the orphaned rows one by one leaves the balances of exactly the remaining events; a fault leaves everything |
| `BlockchainIndexer.IndexerService.FindOrphaned` | src/blockchain/blockchain-indexer.service.ts:112-115 | every stored event from the block on, once, newest first |
| `BlockchainIndexer.ReversalShifts` | src/blockchain/blockchain-indexer.service.ts:117-124 | reversing any stored row, in whatever order it had been applied, takes exactly its contribution out |
| `BlockchainIndexer.RunConsistent` | src/blockchain/blockchain-indexer.service.ts:40-176 | in every run each balance is its initial value plus the deltas of exactly the stored events, and no stored event lies above the checkpoint |
| `BlockchainIndexer.ReorgConverges` | src/blockchain/blockchain-indexer.service.ts:46-53 | rolling back to a block and delivering the canonical events from it, in any order, repeated and with failed attempts, leaves exactly the canonical events, their balances and their highest block |
| `BlockchainIndexer.RecoveryEqualsFromScratch` | src/blockchain/blockchain-indexer.service.ts:92-97 | recovery gives the same events and balances as indexing the canonical chain from scratch in any other order |
| `BlockchainIndexer.RollbackUndoesSuffix` | src/blockchain/blockchain-indexer.service.ts:109-130 | a rollback restores events and balances as they were before anything at or above its block was processed |
| `BlockchainIndexer.ReplayRewindsIff` | src/blockchain/blockchain-indexer.service.ts:132-138 | a replay lowers or keeps the checkpoint exactly when it starts at most one block above it; from further up it only moves the checkpoint forward |
| `BlockchainIndexer.TotalFollowsInflow` | src/blockchain/blockchain-indexer.service.ts:153-164 | the total of a token's rows changes by exactly what crosses the border of the tracked accounts |
| `BlockchainIndexer.RunConservesTotal` | src/blockchain/blockchain-indexer.service.ts:40-176 | in a run whose stored transfers stay on one side of that border the total never changes |
| `ThrottlerStorage.MemoryStorage.Increment` | src/app.module.ts:64-134 | a request changes the record of its own key only; the caller is told whether that record is blocked, its hits, and how long window and block still last, and a request that blocks starts a full block and window |
| `ThrottlerStorage.RunReachable` | src/app.module.ts:111-122 | in every trace a record is blocked exactly when it is one hit above the limit, and no window or block reaches further than its length |
| `ThrottlerStorage.RestOfWindow` | src/app.module.ts:111-122 | a window accepts at most what is left of its limit |
| `ThrottlerStorage.AfterBlock` | src/app.module.ts:95-109 | at most one limit is accepted within one window length after a block ends |
| `ThrottlerStorage.AtMostTwiceLimit` | src/app.module.ts:64-134 | of the requests of a key within any interval of one window length at most twice the limit are answered as not blocked, when blocks last at least a window |
| `ThrottlerStorage.TwiceLimitAttained` | src/app.module.ts:111-116 | for every policy some trace attains that bound |
| `ThrottlerStorage.ShortBlockExceeds` | src/app.module.ts:118-122 | with shorter blocks three limits less two are accepted within one window length |
| `ThrottlerShortBlocks.TwoInterval` | src/app.module.ts:95-122 | with limit two and blocks of at least half a window at most four requests are accepted in any such interval |
| `ThrottlerShortBlocks.VeryShortBlockExceeds` | src/app.module.ts:118-122 | with limit two and still shorter blocks five can be |
| `ThrottlerShortBlocks.TwiceLimitIff` | src/app.module.ts:64-134 | twice the limit per window length holds on all traces exactly for a limit of one, for blocks of at least a window, and for a limit of two with blocks of at least half a window |
| `ThrottlerStorage.LimitOneLocksOut` | src/app.module.ts:95-116 | with limit one a blocked key is never accepted again |
| `ThrottlerStorage.BlockEndsIffLimitAboveOne` | src/app.module.ts:95-116 | a blocked key can be accepted at some later time exactly when the limit is at least two |
| `RealtimeBus.RealtimeBusService.Publish` | src/realtime/realtime-bus.service.ts:50-74 | on an open bus a subscriber whose buffer is below its capacity stays with the envelope buffered last and a drain pending, and one whose buffer is full is gone; a closed bus does nothing |
| `RealtimeBus.RealtimeBusService.Subscribe` | src/realtime/realtime-bus.service.ts:79-102 | an id is used up in any case; an open bus registers it with an empty buffer and the capacity asked for, at least one, 1000 when none is |
| `RealtimeBus.RealtimeBusService.Unsubscribe` | src/realtime/realtime-bus.service.ts:97-101 | the subscriber is gone, and its pending drain finds nothing |
| `RealtimeBus.RealtimeBusService.OnModuleDestroy` | src/realtime/realtime-bus.service.ts:134-138 | the bus is closed for good and has no subscribers |
| `RealtimeBus.RealtimeBusService.RunDrain` | src/realtime/realtime-bus.service.ts:104-125 | the callback receives the whole buffer in order, or up to and including the envelope it throws on, and is then disconnected |
| `RealtimeBus.RealtimeBusService.RunMicrotasks` | src/realtime/realtime-bus.service.ts:109-124 | running the pending drains in any order ends in the same state |
| `RealtimeBus.RunInv` | src/realtime/realtime-bus.service.ts:50-138 | every interleaving keeps the delivery invariant of all subscribers, registered or gone |
| `RealtimeBus.DeliveryInOrder` | src/realtime/realtime-bus.service.ts:28-39 | what a registered subscriber received and has buffered is exactly what was published since it joined, within its capacity and with a drain pending; for one that left or was dropped what it received is a prefix |
| `RealtimeBus.DrainSettles` | src/realtime/realtime-bus.service.ts:104-125 | the order of drains does not matter |
| `RealtimeBus.PacedDropsNobody` | src/realtime/realtime-bus.service.ts:50-74 | with the drains run between envelopes nobody is dropped and everyone receives every envelope, whatever the capacities |
| `RealtimeBus.BurstKeepsIff` | src/realtime/realtime-bus.service.ts:54-58 | over a burst without drains a subscriber is kept exactly when what waits for it and the burst are together within its capacity, and then all of it waits in order with a drain pending |
| `RealtimeBus.TurnsKeepIff` | src/realtime/realtime-bus.service.ts:28-39 | over any run of bursts with the drains between them a subscriber is kept exactly when no burst is larger than its capacity, and has then received every envelope in order |
| `RealtimePublisher.RealtimePublisherService.ClaimUnpublished` | src/realtime/realtime-publisher.service.ts:87-96 | the first unpublished rows by id, up to the maximum |
| `RealtimePublisher.RealtimePublisherService.PublishRow` | src/realtime/realtime-publisher.service.ts:98-119 | the bus gets one envelope with the id, kind, aggregate and payload of the row; a row is marked only after that, and a failure on either side leaves it unpublished |
| `RealtimePublisher.RealtimePublisherService.PublishBatch` | src/realtime/realtime-publisher.service.ts:66-77 | a failed row does not stop the rest of its batch |
| `RealtimePublisher.RealtimePublisherService.PublishOnce` | src/realtime/realtime-publisher.service.ts:55-81 | a pass with finitely many faults ends; what it marks it broadcast with the content of its row, at most one row per fault stays unpublished; without faults it broadcasts exactly the unpublished rows once each in order and leaves none, and on an idle bus drops no subscriber |
| `RealtimePublisher.RealtimePublisherService.PublishWatched` | src/realtime/realtime-publisher.service.ts:59-78 | with rows that fail at every attempt the loop is still running after any number of batches if they fill a batch, and otherwise ends within one batch per unpublished row and leaves only them |
| `RealtimePublisher.PassEndsIff` | src/realtime/realtime-publisher.service.ts:59-78 | the pass ends exactly when the rows that always fail are fewer than a batch |
| `RealtimePublisher.OneBadRowNeverEnds` | src/realtime/realtime-publisher.service.ts:70-78 | one such row and a batch size of one never end |
| `RealtimePublisher.AttemptedIff` | src/realtime/realtime-publisher.service.ts:87-96 | a pass gets to a row exactly when fewer failing rows than a batch holds come before it |
| `RealtimePublisher.BatchMarksWhatItSent` | src/realtime/realtime-publisher.service.ts:66-77 | a batch marks only rows it sent, and without faults all of its rows |
| `RealtimePublisher.BatchProgress` | src/realtime/realtime-publisher.service.ts:59-78 | every batch uses up unpublished rows or faults, and after a short one only failed rows are left |
| `OutboxProtocol.PublishedWasBroadcast` | src/realtime/realtime-publisher.service.ts:14-24 | in every interleaving of publishers, failures and crashes a row marked published was broadcast and no committed row disappears |
| `OutboxProtocol.OnlyBroadcastsAndMarks` | src/realtime/realtime-publisher.service.ts:66-119 | only a broadcast sends, one committed row, and only a mark publishes, one row that was sent; failures and crashes do neither |
| `OutboxProtocol.NoRowIsLost` | src/realtime/realtime-publisher.service.ts:55-119 | after any such history a committed row was broadcast, or one publisher can still claim, broadcast and mark it |
| `OutboxProtocol.BroadcastsOnceIff` | src/realtime/realtime-publisher.service.ts:23-45 | over all histories no row is broadcast twice exactly when there is one publisher, its passes do not overlap, no mark fails and it does not crash |
| `OutboxProtocol.UndisturbedBroadcastsOnce` | src/realtime/realtime-publisher.service.ts:87-119 | such a publisher has one pass at work, which keeps every row it still has to do unsent, and every other sent at most once |
| `OutboxProtocol.TwoPassesRepeat` | src/realtime/realtime-publisher.service.ts:35-45 | any two passes, of two publishers or overlapping ones of the same, can broadcast the same row |
| `OutboxProtocol.LostPlaceRepeats` | src/realtime/realtime-publisher.service.ts:98-119 | a pass that fails to mark a row it has sent, or whose publisher crashes before it does, sends the row again |
| `GovernanceCacheStore.KeysDistinct` | src/governance/governance.cache.ts:17-35 | no two things in the cache share a key, whatever the ids |
| `GovernanceCacheStore.GovernanceCache.InvalidateProposal` | src/governance/governance.cache.ts:122-132 | drops the proposal, its votes and the three lists, each unless its own delete is lost |
| `GovernanceCacheStore.GovernanceCache.InvalidateAll` | src/governance/governance.cache.ts:134-142 | drops the three lists, each unless its own delete is lost |
| `GovernanceRecords.SameWalletIff` | src/governance/governance.service.ts:237-248 | two spellings are one wallet exactly when they differ in the case of letters only, and the stored one has no capitals |
| `GovernanceRecords.CastVoteAccepts` | src/governance/governance.service.ts:228-244 | a vote is accepted exactly on an active proposal on which the wallet, however spelled, has no row; a refused one changes no table and names the first reason that applies |
| `GovernanceRecords.CastVoteRecords` | src/governance/governance.service.ts:246-264 | an accepted vote adds one row with the side, weight, proposal and lower-cased wallet it was cast with; the total and that side's counter rise by one, and no other field or row changes |
| `GovernanceRecords.HalfVoteRecords` | src/governance/governance.service.ts:254-264 | when saving the proposal throws, that row is there and no proposal has changed |
| `GovernanceRecords.UpdateRecords` | src/governance/governance.service.ts:104-161 | a status change succeeds exactly from the statuses that allow it, moves that row to its target with its time stamp, and changes no other field or row; a refused one changes nothing |
| `GovernanceRecords.TrimStrips` | src/governance/governance.service.ts:86-87 | a trimmed text is the text without the blanks at its ends, and neither begins nor ends with one |
| `GovernanceRecords.BlankIff` | src/governance/governance.service.ts:75-83 | blank are exactly the texts of spaces, tabs and line breaks, the empty one among them |
| `GovernanceRecords.CreateRecords` | src/governance/governance.service.ts:75-96 | creating is refused exactly when title, description or proposer is blank; otherwise one pending row without votes is added last, each draft field in its place, title and description trimmed, the proposer in lower case only |
| `GovernanceRecords.ActiveNewestFirst` | src/governance/governance.service.ts:210-213 | the active list is exactly the active rows, each once, the last created first |
| `GovernanceRecords.VotesNewestFirst` | src/governance/governance.service.ts:277-280 | the votes of a proposal are exactly its rows, each once, the last cast first |
| `GovernanceRecords.StatsDescribeRows` | src/governance/governance.service.ts:292-328 | the counts are the numbers of rows with the status, the success rate is passed and executed over all, and each average lies within every range its rows lie in |
| `Governance.GovernanceService.CastVoteOn` | src/governance/governance.service.ts:221-271 | the vote row, the counted proposal and the dropped cache entries; when saving the proposal throws, the vote row alone; or one of the three refusals with only the read cached |
| `Governance.GovernanceService.ActivateProposal` | src/governance/governance.service.ts:104-121 | a pending proposal becomes active and its cache entries go; any other is refused |
| `Governance.GovernanceService.ExecuteProposal` | src/governance/governance.service.ts:123-140 | a passed proposal becomes executed and its cache entries go; any other is refused |
| `Governance.GovernanceService.CancelProposal` | src/governance/governance.service.ts:142-161 | a proposal that is not over becomes cancelled and its cache entries go; any other is refused |
| `Governance.GovernanceService.CreateProposal` | src/governance/governance.service.ts:67-102 | a complete draft becomes a pending row with no votes and the lists go; a blank field is refused |
| `Governance.GovernanceService.FindActiveRows` | src/governance/governance.service.ts:206-217 | the cached list if there is one, else the active rows, cached on the way; while Redis is away the rows |
| `Governance.GovernanceService.GetVotesForProposal` | src/governance/governance.service.ts:273-284 | the same for the vote rows of a proposal |
| `Governance.GovernanceService.GetGovernanceStats` | src/governance/governance.service.ts:288-332 | the same for the statistics |
| `Governance.FindOneIsRow` | src/governance/governance.service.ts:56-65 | a read through the cache returns the database row |
| `Governance.CastVoteInv` | src/governance/governance.service.ts:221-271 | a vote is accepted exactly when the row is active and the lower-cased wallet has not voted, and keeps tables and cache right |
| `Governance.UpdateInv` | src/governance/governance.service.ts:104-161 | status changes are decided on the database row and keep tables and cache right |
| `Governance.CreateInv` | src/governance/governance.service.ts:67-102 | creating a proposal keeps tables and cache right although it drops the lists only |
| `Governance.FindActiveInv` | src/governance/governance.service.ts:206-217 | the active list read is the active rows, newest first |
| `Governance.VotesForProposalInv` | src/governance/governance.service.ts:273-284 | the vote list read is the proposal's vote rows, newest first |
| `Governance.ReadStatsInv` | src/governance/governance.service.ts:288-332 | the statistics read are those of the tables |
| `Governance.RunInv` | src/governance/governance.service.ts:56-332 | over every run with expiries and outages that lose no invalidation of a single proposal and fail no save of a voted one, wallets vote at most once per proposal, every counter is its number of vote rows, and every cache entry whose own invalidations are not lost is what the database would recompute |
| `GovernanceOutages.CastVoteKeepsInvIff` | src/governance/governance.service.ts:243-264 | a vote leaves nothing stale exactly when it is refused or proposal, vote list and active list are each uncached or really dropped; the statistics may survive |
| `GovernanceOutages.UpdateKeepsInvIff` | src/governance/governance.service.ts:104-161 | which entries a status change must really drop, depending on the change and the status before it |
| `GovernanceOutages.CreateKeepsInvIff` | src/governance/governance.service.ts:67-102 | creating a proposal leaves nothing stale exactly when it is refused or the statistics are uncached or really dropped |
| `GovernanceOutages.HalfVoteKeepsInvIff` | src/governance/governance.service.ts:243-254 | a vote whose proposal is not saved, unless refused, leaves one more vote row, the counters as they were and the wallet unable to vote again |
| `GovernanceOutages.OutageLosesVote` | src/governance/governance.cache.ts:122-132 | in any state, two new wallets vote on an active proposal and the first vote's invalidation of it is lost: two more vote rows, a counter one higher |
| `GovernanceOutages.OutageRevivesCancelled` | src/governance/governance.service.ts:142-161 | in any state, a cancellation's lost invalidation and one vote make the cancelled proposal active again |
| `GovernanceOutages.TalliesAlwaysMatchIff` | src/governance/governance.service.ts:243-264 | counters are the vote rows in all runs exactly when no invalidation of a single proposal can be lost and no voted proposal can fail to be saved |
| `GovernanceOutages.FinalIsForeverIff` | src/governance/governance.service.ts:142-161 | executed and cancelled proposals stay as they are in all runs, whatever saves fail, exactly when no invalidation of a single proposal can be lost |
| `Governance.StepMovesForward` | src/governance/governance.service.ts:104-161 | while cached proposals are their rows, a row's status follows its life cycle, only active rows gain votes and final rows stay, whatever the step loses; and unless it loses a proposal's invalidation, cached proposals stay their rows |
| `Governance.FinalStaysFinal` | src/governance/governance.service.ts:142-161 | an executed or cancelled proposal never changes again in any run that loses no invalidation of a single proposal |
| `Governance.ExecuteNeverSucceeds` | src/governance/governance.service.ts:123-130 | in every run from an empty database executing is refused and the reported success rate is zero |
| `EventIndexer.EventIndexerService.IndexEventType` | src/indexer/event-indexer.service.ts:120-181 | the logs of the next confirmed batch are stored in order, and the state row moves only when all were processed |
| `EventIndexer.EventIndexerService.ProcessEvent` | src/indexer/event-indexer.service.ts:226-288 | a log is stored unless its key is held already or storing it fails, and no failure escapes |
| `EventIndexer.EventIndexerService.InitializeIndexingState` | src/indexer/event-indexer.service.ts:346-384 | a restart creates the state row only when it is missing |
| `EventIndexer.EventIndexerService.BackfillFromBlock` | src/indexer/event-indexer.service.ts:409-426 | of a contract with one event, only the state row moves, to the block before the given one; without a row it fails |
| `EventIndexer.ContractStates.BackfillFromBlock` | src/indexer/event-indexer.service.ts:409-426 | of a contract with any number of events, the row of some one event moves and no other; without rows it fails |
| `EventIndexer.BackfillMovesAllIff` | src/indexer/event-indexer.service.ts:409-415 | whichever row the query returns, all events of a contract go back exactly when there is one, or all are there already |
| `EventIndexer.StoredIsChainPrefix` | src/indexer/event-indexer.service.ts:120-181 | with any heads, failed fetches, crashes, restarts and backfills the stored logs are an initial stretch of the chain's logs from the start block, each once, in order, covering all up to the last processed block, and none is ever removed |
| `EventIndexer.SteadyRunIsExact` | src/indexer/event-indexer.service.ts:138-167 | without crashes and backfills they are exactly the logs up to the last processed block |
| `EventIndexer.OnlyFailedLogsMissing` | src/indexer/event-indexer.service.ts:226-288 | with store failures and backfills too, nothing is stored twice and a processed log is missing only if storing it failed |
| `EventIndexer.MissingIff` | src/indexer/event-indexer.service.ts:138-167 | over all runs, backfills in both directions included, a log of a processed block is missing exactly when an operation made its block count as processed for the last time while the log was unstored, and scanned it with a failing store or not at all |
| `EventIndexer.SwallowedFailureLosesLog` | src/indexer/event-indexer.service.ts:282-287 | in any state and on any chain, a poll that completes over a log it fails to store loses it for all later polls and restarts |
| `EventIndexer.BackfillIsSafeIff` | src/indexer/event-indexer.service.ts:421-423 | whatever the chain and the stored logs are, a backfill keeps every processed block covered exactly when it goes at most to the block after the last processed one |
| `EventIndexer.BackfillRepairs` | src/indexer/event-indexer.service.ts:421-424 | after a backfill to its block or before, the next completed poll that reaches a lost log stores it, unless storing it fails again |
| `EventIndexer.RangesTile` | src/indexer/event-indexer.service.ts:138-147 | the scanned ranges follow each other without gap or overlap, none longer than a batch, none past the confirmed chain |
| `EventIndexer.CatchUp` | src/indexer/event-indexer.service.ts:138-147 | at a fixed head the indexer has caught up after k polls exactly when k batches cover the gap |
| `BlockchainState.BlockchainStateService.SaveBlock` | src/blockchain/state.service.ts:51-65 | afterwards the block count is within the limit and no dropped block is above a kept one |
| `BlockchainState.PutBlockKeeps` | src/blockchain/state.service.ts:51-65 | saving a block replaces the record of its height and hash and keeps every other, the other blocks of its height included |
| `BlockchainState.BlockchainStateService.SavePendingEvent` | src/blockchain/state.service.ts:96-102 | eviction follows the save, and the pending counter drifts exactly when a pending event is overwritten |
| `BlockchainState.BlockchainStateService.EvictOldEvents` | src/blockchain/state.service.ts:259-285 | only confirmed events go, earliest first, leaving the larger of the limit and the unconfirmed ones |
| `BlockchainState.EvictsTheEarliest` | src/blockchain/state.service.ts:269-280 | deleting the first ids of the sorted confirmed events is exactly that |
| `BlockchainState.LowestGoFirst` | src/blockchain/state.service.ts:249-254 | deleting the first of the sorted blocks never drops a block above a kept one |
| `BlockchainState.BlockchainStateService.UpdateEventStatus` | src/blockchain/state.service.ts:138-163 | an unknown id fails and changes nothing; otherwise one event changes, and the orphaned counter drifts exactly when an orphaned event is updated |
| `BlockchainState.BlockchainStateService.MarkBlocksNonCanonical` | src/blockchain/state.service.ts:165-171 | exactly the blocks at the given heights lose their flag |
| `BlockchainState.BlockchainStateService.RecordReorg` | src/blockchain/state.service.ts:173-177 | the history keeps its latest entries within the limit |
| `BlockchainState.BlockchainStateService.DeleteEvents` | src/blockchain/state.service.ts:191-203 | exactly the given events go and neither counter drifts |
| `ReorgDetector.ReorgDetectorService.FindDivergencePoint` | src/blockchain/reorg-detector.service.ts:91-134 | the least depth at which the walk stops, or at which it runs out of heights or of its cap |
| `ReorgDetector.ReorgDetectorService.GetAncestorHashAtDepth` | src/blockchain/reorg-detector.service.ts:142-168 | the hash so many parent links up, empty when a link is missing |
| `ReorgDetector.ReorgDetectorService.GetAffectedEvents` | src/blockchain/reorg-detector.service.ts:169-181 | exactly the ids of the stored events at the heights of the range, each once |
| `ReorgDetector.ReorgDetectorService.DetectReorg` | src/blockchain/reorg-detector.service.ts:35-86 | a reorg is reported exactly when the canonical block at the last processed height is not the parent, with the range and events its depth gives |
| `ReorgDetector.ReorgDetectorService.SetConfirmationDepth` | src/blockchain/reorg-detector.service.ts:218-224 | a depth below one is refused and changes nothing |
| `ReorgDetector.DivergenceBounded` | src/blockchain/reorg-detector.service.ts:98-98 | the depth is at most the block number and at most 1001 |
| `ReorgDetector.DivergenceUnique` | src/blockchain/reorg-detector.service.ts:91-134 | there is only one such depth |
| `ReorgDetector.NewBlockStops` | src/blockchain/reorg-detector.service.ts:103-130 | for a block that is not canonical yet the walk stops exactly where nothing canonical is stored or the parent is |
| `ReorgDetector.ReplacementHasDepthOne` | src/blockchain/reorg-detector.service.ts:91-134 | a block replacing a stored one on top of its parent has depth one however far the stored chain goes |
| `ReorgDetector.NewBlockRun` | src/blockchain/reorg-detector.service.ts:98-131 | for a block that is not canonical yet the depth is the run of stored blocks from its height down to its parent |
| `ReorgDetector.RedeliveredRun` | src/blockchain/reorg-detector.service.ts:111-130 | for a block that is canonical already the depth is the whole stored run |
| `Reconciliation.ReconciliationService.HandleReorg` | src/blockchain/reconciliation.service.ts:21-42 | exactly the reorg's events are orphaned and exactly its heights lose their flag, without an unknown-event error; the pending counter does not drift, the orphaned one by exactly the events orphaned again |
| `Reconciliation.ReconciliationService.ReconcileOrphanedEvents` | src/blockchain/reconciliation.service.ts:117-146 | an orphaned event is confirmed exactly when the head is at least the depth above its block, no other event changes, and the orphaned counter drifts by exactly the confirmed ones |
| `Reconciliation.ReconciliationService.VerifyStateConsistency` | src/blockchain/reconciliation.service.ts:75-115 | the check passes exactly when neither counter has drifted |
| `Reconciliation.ForkChangesNothingIff` | src/blockchain/reorg-detector.service.ts:98-127 | a reported fork leaves all events and blocks as they are exactly when the walk ends where it starts |
| `TrackerScenarios.ForkAtNewHeight` | src/blockchain/event-indexing.service.ts:35-44 | from an empty tracker, any block and then a higher one on another parent: reported with depth zero, nothing orphaned or unmarked |
| `TrackerScenarios.RedeliveryOrphansAll` | src/blockchain/event-indexing.service.ts:35-44 | from an empty tracker, any block, its successor, and the successor again: reported as a fork of depth two, every stored event orphaned |
| `Reconciliation.RangeIsReplacedHeightsIff` | src/blockchain/reorg-detector.service.ts:60-62 | for a new block the range is the replaced heights exactly when the stored run from its height down is as long as they are |
| `Reconciliation.OnStoredParentIff` | src/blockchain/reorg-detector.service.ts:60-62 | with the parent stored right below, exactly when the last processed height alone is replaced |
| `Reconciliation.UnknownParentRange` | src/blockchain/reorg-detector.service.ts:60-62 | with a parent that is not stored, the range is the last processed heights, as many as the stored run below the block |
| `Reconciliation.RedeliveryUnwinds` | src/blockchain/reorg-detector.service.ts:43-62 | the last processed block delivered again is reported as a fork whose range is the whole stored run |
| `EventIndexing.EventIndexingService.RollBackFork` | src/blockchain/event-indexing.service.ts:32-44 | exactly a reported fork's heights lose their flag and exactly its events are orphaned, otherwise nothing changes |
| `EventIndexing.EventIndexingService.ProcessBlock` | src/blockchain/event-indexing.service.ts:26-78 | a fork is rolled back and the block saved within its limit; every unconfirmed event the block does not overwrite is confirmed exactly when the block's number is at least the depth above its own, and a pending one is told the difference; every raw event of the block is stored as it came, and nothing else is stored; confirmed ones stay deep enough, no unknown-event error is thrown; while no id comes twice the pending counter does not drift, and the orphaned one by exactly the orphaned events orphaned again or confirmed |
| `EventIndexing.EventIndexingService.ProcessBlocks` | src/blockchain/event-indexing.service.ts:26-140 | over any number of blocks with any forks and no id coming twice, the pending counter stays exact and every event is still stored and waiting unless some later head was deep enough above it |
| `EventIndexing.EventIndexingService.UpdateEventConfirmations` | src/blockchain/event-indexing.service.ts:108-140 | every pending event is told by how many blocks the head is above it, zero if it is not, and is confirmed exactly when those are at least the depth; no other event and no counter drift |
| `EventIndexing.EventIndexingService.IndexEvents` | src/blockchain/event-indexing.service.ts:49-51 | what is stored afterwards was stored before or is new in the block, every event of the block and every earlier unconfirmed one is there, and only ids that come twice add drift to a counter |
| `EventIndexing.FreshStaysFresh` | src/blockchain/event-indexing.service.ts:83-99 | distinct new ids stay new while their block is indexed, through eviction |
| `EventIndexing.ConfirmsOnlyCanonicalIff` | src/blockchain/reconciliation.service.ts:121-142 | a block newly confirms only events of canonical blocks exactly when, after the rollback, no event that waits deep enough came with another block |
| `TrackerScenarios.OrphanConfirmedOffChain` | src/blockchain/reconciliation.service.ts:117-146 | from an empty tracker, a block with an event, a replacement, and a block high enough on top of that: the event of the replaced block is confirmed |
| `WeightedVotes.AggregateVotes` | src/blockchain/weighted-vote-resolution.service.ts:100-127 | the sums per verdict and in total |
| `WeightedVotes.GetMaxIndividualShare` | src/blockchain/weighted-vote-resolution.service.ts:226-238 | the largest share any single user's votes have together |
| `WeightedVotes.ResolveClaim` | src/blockchain/weighted-vote-resolution.service.ts:41-56 | the verdict is the one the votes are clearly for, on the sums of the weights as `ResolvesIff` says, and none otherwise; no votes resolve to nothing |
| `WeightedVotes.Weigh` | src/blockchain/weighted-vote-resolution.service.ts:76-94 | a vote weighs its reputation, held between 1 and 100, and a tenth of the root of a positive stake, and keeps claim, user and verdict |
| `WeightedVotes.ResolvesIff` | src/blockchain/weighted-vote-resolution.service.ts:136-188 | a claim is resolved to a verdict exactly when the total reaches the minimum, no user has more than the allowed share of it, the verdict is first by weight with ties ranked TRUE, FALSE, UNSURE, leads every other by the tie threshold of the total and has the confidence threshold of it |
| `WeightedVotes.ReportsFigures` | src/blockchain/weighted-vote-resolution.service.ts:190-204 | a resolution reports the claim of the first vote and the sums, count, margin and confidence of its votes, all zero when the total is too low or one user dominates |
| `WeightedVotes.GroupsBound` | src/blockchain/weighted-vote-resolution.service.ts:230-236 | users with at most m each have at most m times their number together, however often they vote |
| `WeightedVotes.ResolutionNeedsUsers` | src/blockchain/weighted-vote-resolution.service.ts:157-188 | a verdict takes at least 1/maxReputationShare distinct voters, confidenceThreshold/maxReputationShare of them for it |
| `WeightedVotes.DefaultNeedsThreeVoters` | src/blockchain/weighted-vote-resolution.service.ts:28-33 | under the default configuration three voters, two of them for the verdict |
| `WeightedVotes.VerdictOutweighsOthers` | src/blockchain/weighted-vote-resolution.service.ts:168-188 | with a positive tie threshold the verdict strictly outweighs every other |
| `WeightedVotes.OrderDoesNotMatter` | src/blockchain/weighted-vote-resolution.service.ts:41-219 | any permutation of the votes of one claim gives the same resolution |
| `VoteSymmetry.SwapCommutesIff` | src/blockchain/weighted-vote-resolution.service.ts:151-188 | swapping TRUE and FALSE keeps confidence, margin and total, and swaps the verdict except in an exact top tie with enough weight, no share too large, a tie threshold that is not positive and a confidence threshold the tie meets |
| `VoteSymmetry.AlwaysSwapsIff` | src/blockchain/weighted-vote-resolution.service.ts:151-188 | swapping swaps the verdict for all votes exactly when the tie threshold is positive, the confidence threshold is above one half, or no share is allowed |
| `VoteSymmetry.EvenVotesDoNotSwap` | src/blockchain/weighted-vote-resolution.service.ts:151-155 | for every other configuration, equally many users on both sides resolve to TRUE before and after the swap |
| `Configuration.ConfigurationService.Get` | src/feature-flags/configuration.service.ts:25-47 | the cached value if there is one, else the record's, cached on the way; while Redis is away the record's |
| `Configuration.ConfigurationService.Set` | src/feature-flags/configuration.service.ts:60-115 | the next version of the key's record, or the first, with its history row, and the cache entry gone unless its delete is lost; a write that stops after the record leaves history and cache as they were |
| `Configuration.ConfigurationService.Delete` | src/feature-flags/configuration.service.ts:131-135 | the record goes and its cache entry unless the delete is lost, the history stays; an unknown id fails |
| `Configuration.ConfigurationService.Rollback` | src/feature-flags/configuration.service.ts:159-180 | writes the value of the history row as a new version; fails exactly for an unknown id, a version that is not an earlier one, a missing history row, or a write that stops |
| `Configuration.ConfigurationService.FindVersion` | src/feature-flags/configuration.service.ts:165-171 | the history row of that record and version; where no write has stopped there is one exactly for the versions from one to the current one |
| `Configuration.RollbackRestores` | src/feature-flags/configuration.service.ts:159-180 | rollback restores the old value under the next version, touches no other record, and can itself be rolled back to what it replaced |
| `Configuration.RunUnique` | src/feature-flags/configuration.service.ts:60-135 | in every run, whatever fails, key and environment stay unique and no history row is rewritten |
| `Configuration.RunDocuments` | src/feature-flags/configuration.service.ts:60-135 | in every run in which no write stops, a record's history is its versions one by one, under its key and environment, ending in its value |
| `Configuration.RollbackAlwaysFindsIff` | src/feature-flags/configuration.service.ts:165-171 | the history row of an earlier version is found in all runs exactly when no write can stop before it |
| `Configuration.SetLookup` | src/feature-flags/configuration.service.ts:72-114 | a write changes what its own key and environment read, and no other |
| `Configuration.KeysDistinctIffNotNested` | src/feature-flags/configuration.service.ts:189-191 | cache keys tell configurations apart exactly when no environment in use continues another after a colon |
| `Configuration.NestedReadIsStale` | src/feature-flags/configuration.service.ts:189-191 | otherwise a value set and read in one environment is served for a key never set in the other |
| `Configuration.SetCoherentIff` | src/feature-flags/configuration.service.ts:182-187 | a write leaves the cache right exactly when its delete works, nothing is cached or the cached value is the new one |
| `Configuration.DeleteCoherentIff` | src/feature-flags/configuration.service.ts:131-135 | a deletion exactly when its delete works or nothing is cached |
| `Configuration.RunCoherent` | src/feature-flags/configuration.service.ts:25-47 | with distinct cache keys, no lost delete and no stopped write every cached value is the database's in every run |
| `Configuration.LostInvalidationIsStale` | src/redis/redis.service.ts:125-138 | in any state, a write whose delete is lost, or that stops before it, leaves a cached key reading its old value |
| `Configuration.ReadsAreFreshIff` | src/feature-flags/configuration.service.ts:25-115 | reads equal database reads over all runs exactly when no environment is nested in another, no delete is lost and no write stops |
| `WalletAge.ScoreMonotone` | src/sybil-resistance/sybil-resistance.service.ts:235-241 | the score never falls with age |
| `WalletAge.ScoreRange` | src/sybil-resistance/sybil-resistance.service.ts:235-241 | the score is in [0, 1) and one half at ninety days |
| `WalletAge.FloorsCostLessThanTwo` | src/sybil-resistance/sybil-resistance.service.ts:237-239 | the two floors together never gain and lose less than two units of the scale |
| `WalletAge.ScoreError` | src/sybil-resistance/sybil-resistance.service.ts:238-240 | the score lies below the exact ratio age/(age + threshold) by less than 2/scale |
| `StableHash.Hash` | src/feature-flags/feature-flags.service.ts:17-25 | the loop returns the absolute value of the signed 32-bit representative of the polynomial with base 31 |
| `StableHash.TurnIsHorner` | src/feature-flags/feature-flags.service.ts:20-22 | one turn with its wrap-arounds is one step of Horner's rule modulo 2^32 |
| `StableHash.ShortBucket` | src/feature-flags/feature-flags.service.ts:69-69 | the bucket of every one-character user and key, worked out from the characters; user "a" and key "b" fall into bucket 13 |
| `StableHash.EvaluatePercentage` | src/feature-flags/feature-flags.service.ts:67-72 | a user is enabled exactly when the hash of user, colon and key, modulo one hundred, is below the percentage, so raising it never disables anyone |

## Left out

- PassEndsIff: no rows are committed and no other pass runs while the pass is watched.
- MissingIff: the confirmed part of the chain does not change under the indexer.
- PublishOnce: the list of faults is finite; rows that fail for ever are `PublishWatched` and `PassEndsIff`.
- PublishRow: every subscriber callback returns normally while the update is awaited; one that throws is `RunDrain`.
- ProcessBlock: the confirmation depth is constant during a block; `setConfirmationDepth` between blocks can leave confirmed events below a raised depth.
- EvictOldEvents: which of several events confirmed at the same time goes first.
- Subscriber, throttler and block records, which the source mutates in place, are values in a map or sequence field of their service; no two services share one.
- Reentrant callbacks: a subscriber that publishes or unsubscribes from inside its own callback.
- Database and network drivers, bigint column decoding, decimal overflow of balances; amounts are integers of the smallest unit.
- Concurrent governance, configuration and tracker calls.
- Unicode case folding and white space: `toLowerCase` and `trim` are the ASCII ones.
- Timestamps in results, `toFixed` and other floating-point rounding; weights, rates and scores are reals.
- Authors, reasons and dates of configuration records, proposal metadata, status texts and error messages of the range indexer.
- `detectRollbacks`, `reconcileReorgs` and `retryFailedEvents`: they rewrite flags row by row.
- The composite sybil score, clamping, and flag rules other than percentages.
- The Redis throttler, webhooks, AI providers, health checks, search, controllers and guards.
- `src/claims/evidence.service.ts`, claims and reputation caches, signature checks and nonces.
