/** What the running tracker can reach from empty: forks without effect, forks that are none, events confirmed off the chain. */
module TrackerScenarios {
  import opened Wrappers
  import opened BlockchainState
  import opened ReorgDetector
  import opened Reconciliation
  import opened EventIndexing

  /**
   From an empty tracker: a block with an event, a replacement at the same height, and a block on top of the
   replacement, high enough above it.  The event of the replaced block ends up confirmed.
   */
  method OrphanConfirmedOffChain(first: BlockInfo, raw: RawEvent, replacement: BlockInfo, later: BlockInfo, depth: int,
                                 maxBlocks: nat, maxEvents: nat, maxReorgs: nat, now: int)
    returns (ghost e: PendingEvent, ghost events: seq<PendingEvent>, ghost blocks: seq<BlockRecord>)
    requires 0 < first.number == replacement.number && later.number == first.number + depth && depth >= 1 && maxBlocks >= 2
    requires replacement.hash != first.hash && replacement.parentHash != first.hash
    requires later.parentHash == replacement.hash && later.hash != first.hash
    ensures e in events && e.id == EventId(first, raw) && e.blockHash == first.hash && e.status.Confirmed?
    ensures CanonicalByHash(blocks, first.hash).None?
  {
    var state := new BlockchainStateService(maxBlocks, maxEvents, maxReorgs);
    var detector := new ReorgDetectorService(depth);
    var reconciliation := new ReconciliationService(detector);
    var service := new EventIndexingService(state, reconciliation);
    e := ProcessFirst(service, first, raw, now);
    e := ProcessReplacement(service, first, replacement, e, now);
    ghost var saved := state.blocks;
    var _, quiet, rolled, blocks' := service.ProcessBlock(later, [], now);
    assert quiet.None?;
    e := Concluded(e, later.number, depth, now);
    OffChain(first, replacement, later, saved, state.blocks, maxBlocks);
    events, blocks := state.events, state.blocks;
  }

  method ProcessFirst(service: EventIndexingService, first: BlockInfo, raw: RawEvent, now: int) returns (ghost e: PendingEvent)
    requires service.Wired() && service.state.Valid() && service.state.chainState.lastProcessedBlock == 0
    requires service.state.blocks == [] && service.state.events == [] && service.state.maxBlocksInMemory >= 1
    requires service.detector.confirmationDepth >= 1
    modifies service, service.state
    ensures service.state.Valid() && service.state.chainState.lastProcessedBlock == first.number
    ensures ConfirmedDeep(service.state.events, service.detector.confirmationDepth)
    ensures service.state.blocks == [RecordOf(first)]
    ensures e in service.state.events && e.id == EventId(first, raw) && e.blockHash == first.hash && e.blockNumber == first.number
  {
    var limit, depth := service.state.maxBlocksInMemory, service.detector.confirmationDepth;
    var _, none, rolled, blocks := service.ProcessBlock(first, [raw], now);
    FirstWaits(rolled, service.state.events, first, raw, depth, now);
    OnlyBlock(first, service.state.blocks, limit);
    e := Concluded(AsPending(first, raw), first.number, depth, now);
  }

  method ProcessReplacement(service: EventIndexingService, first: BlockInfo, replacement: BlockInfo, ghost e: PendingEvent, now: int)
    returns (ghost x: PendingEvent)
    requires service.Wired() && service.state.Valid() && service.state.chainState.lastProcessedBlock == first.number
    requires ConfirmedDeep(service.state.events, service.detector.confirmationDepth)
    requires service.state.blocks == [RecordOf(first)] && service.state.maxBlocksInMemory >= 2
    requires service.detector.confirmationDepth >= 1 && e in service.state.events && e.blockNumber == first.number
    requires 0 < first.number == replacement.number && replacement.hash != first.hash && replacement.parentHash != first.hash
    modifies service, service.state
    ensures service.state.Valid() && service.state.chainState.lastProcessedBlock == first.number
    ensures ConfirmedDeep(service.state.events, service.detector.confirmationDepth)
    ensures Replacing(first, replacement, service.state.blocks)
    ensures CanonicalAt(service.state.blocks, first.number) == Some(RecordOf(replacement))
    ensures x in service.state.events && x.status.Orphaned?
    ensures x.id == e.id && x.blockHash == e.blockHash && x.blockNumber == e.blockNumber
  {
    var limit, depth := service.state.maxBlocksInMemory, service.detector.confirmationDepth;
    ghost var events, saved := service.state.events, service.state.blocks;
    var _, fork, rolled, blocks := service.ProcessBlock(replacement, [], now);
    x := ReplacedWaits(events, rolled, service.state.events, saved, blocks, first, replacement, e, fork, depth, now);
    AfterReplacement(first, replacement, saved, blocks, service.state.blocks, events, rolled, fork, limit);
  }

  /** Two records of one height: the replaced one has lost its flag. */
  ghost predicate Replacing(first: BlockInfo, replacement: BlockInfo, blocks: seq<BlockRecord>) {
    var replaced := RecordOf(first).(isCanonical := false);
    blocks == [replaced, RecordOf(replacement)] || blocks == [RecordOf(replacement), replaced]
  }

  lemma FirstWaits(rolled: seq<PendingEvent>, after: seq<PendingEvent>, first: BlockInfo, raw: RawEvent, depth: int, now: int)
    requires NoneLost(rolled, after, first, [raw], depth, now) && depth >= 1
    ensures var e := Concluded(AsPending(first, raw), first.number, depth, now); e in after && e.status.Pending?
  {
    assert LastOfItsId(first, [raw], 0) && [raw][0] == raw;
  }

  /** A replacement at the last processed height has a depth of at least one. */
  lemma ReplacementForks(first: BlockInfo, replacement: BlockInfo, blocks: seq<BlockRecord>, blocks': seq<BlockRecord>,
                         events: seq<PendingEvent>, events': seq<PendingEvent>, reorg: Option<ReorgEvent>)
    requires blocks == [RecordOf(first)] && 0 < first.number == replacement.number && first.hash != replacement.parentHash
    requires RolledBack(blocks, blocks', events, events', replacement, first.number, reorg)
    ensures reorg.Some? && Affected(first.number, reorg.value)
    ensures blocks' == [RecordOf(first).(isCanonical := false)]
  {
    assert blocks[1..] == [];
    assert CanonicalAt(blocks, first.number) == Some(RecordOf(first));
    assert WithinWalk(replacement, 0) && !Stops(blocks, replacement, 0);
  }

  lemma ReplacedWaits(events: seq<PendingEvent>, rolled: seq<PendingEvent>, after: seq<PendingEvent>, blocks: seq<BlockRecord>,
                      blocks': seq<BlockRecord>, first: BlockInfo, replacement: BlockInfo, e: PendingEvent,
                      reorg: Option<ReorgEvent>, depth: int, now: int) returns (x: PendingEvent)
    requires blocks == [RecordOf(first)] && 0 < first.number == replacement.number && first.hash != replacement.parentHash
    requires RolledBack(blocks, blocks', events, rolled, replacement, first.number, reorg)
    requires NoneLost(rolled, after, replacement, [], depth, now) && depth >= 1
    requires e in events && e.blockNumber == first.number
    ensures x in after && x.status.Orphaned? && x.id == e.id && x.blockHash == e.blockHash && x.blockNumber == e.blockNumber
  {
    ReplacementForks(first, replacement, blocks, blocks', events, rolled, reorg);
    var i :| 0 <= i < |events| && events[i] == e;
    assert rolled[i] == e.(status := Orphaned) && rolled[i] in rolled;
    x := Concluded(rolled[i], replacement.number, depth, now);
  }

  lemma AfterReplacement(first: BlockInfo, replacement: BlockInfo, blocks: seq<BlockRecord>, blocks': seq<BlockRecord>,
                         after: seq<BlockRecord>, events: seq<PendingEvent>, rolled: seq<PendingEvent>,
                         reorg: Option<ReorgEvent>, limit: nat)
    requires blocks == [RecordOf(first)] && 0 < first.number == replacement.number
    requires first.hash != replacement.parentHash && first.hash != replacement.hash
    requires RolledBack(blocks, blocks', events, rolled, replacement, first.number, reorg)
    requires SavedWithin(blocks', replacement, after, limit) && limit >= 2 && DistinctBlocks(after)
    ensures Replacing(first, replacement, after)
    ensures CanonicalAt(after, first.number) == Some(RecordOf(replacement))
  {
    ReplacementForks(first, replacement, blocks, blocks', events, rolled, reorg);
    var replaced, saved := RecordOf(first).(isCanonical := false), RecordOf(replacement);
    assert [replaced][1..] == [];
    assert PutBlock([replaced], saved) == [replaced, saved];
    assert after[0] in [replaced, saved] && after[1] in [replaced, saved] && !SameBlock(after[0], after[1]);
    assert after[1..] == [after[1]] && after[1..][1..] == [];
  }

  lemma OffChain(first: BlockInfo, replacement: BlockInfo, later: BlockInfo, blocks: seq<BlockRecord>, after: seq<BlockRecord>, limit: nat)
    requires Replacing(first, replacement, blocks) && SavedWithin(blocks, later, after, limit)
    requires replacement.hash != first.hash && later.hash != first.hash
    ensures CanonicalByHash(after, first.hash).None?
  {
    var put := PutBlock(blocks, RecordOf(later));
    forall r | r in put
      ensures r.isCanonical ==> r.blockHash != first.hash
    {
      assert r == RecordOf(later) || r in blocks;
    }
    assert forall r | r in after :: r in put;
  }

  /**
   From an empty tracker, any block with any events, and then a higher one on top of something else: the fork is
   reported, and nothing is orphaned or unmarked.
   */
  method ForkAtNewHeight(first: BlockInfo, raws: seq<RawEvent>, second: BlockInfo, depth: int,
                         maxBlocks: nat, maxEvents: nat, maxReorgs: nat, now: int)
    returns (reorg: Option<ReorgEvent>, before: seq<PendingEvent>, after: seq<PendingEvent>,
             ghost blocks: seq<BlockRecord>, ghost blocks': seq<BlockRecord>)
    requires 0 < first.number < second.number && second.parentHash != first.hash && maxBlocks >= 1
    ensures reorg.Some? && reorg.value.reorgDepth == 0
    ensures after == before && blocks' == blocks && blocks == [RecordOf(first)]
  {
    var state := new BlockchainStateService(maxBlocks, maxEvents, maxReorgs);
    var detector := new ReorgDetectorService(depth);
    var reconciliation := new ReconciliationService(detector);
    var service := new EventIndexingService(state, reconciliation);
    var _, early, _, rolledBlocks := service.ProcessBlock(first, raws, now);
    assert early.None? && rolledBlocks == [];
    OnlyBlock(first, state.blocks, maxBlocks);
    before, blocks := state.events, state.blocks;
    var _, fork := service.RollBackFork(second, now);
    reorg, after, blocks' := fork, state.events, state.blocks;
    ForkChangesNothingIff(blocks, blocks', before, after, second, first.number, reorg);
  }

  /**
   From an empty tracker, any block, its successor, and the successor once more: a fork of both blocks is reported,
   and every event stored is orphaned.
   */
  method RedeliveryOrphansAll(first: BlockInfo, raws: seq<RawEvent>, second: BlockInfo, raws': seq<RawEvent>, depth: int,
                              maxBlocks: nat, maxEvents: nat, maxReorgs: nat, now: int)
    returns (reorg: Option<ReorgEvent>, after: seq<PendingEvent>)
    requires 0 < first.number && second.number == first.number + 1 && maxBlocks >= 2
    requires second.parentHash == first.hash != second.hash
    ensures reorg.Some? && reorg.value.reorgDepth == 2
    ensures forall i | 0 <= i < |after| :: after[i].status.Orphaned?
  {
    var state := new BlockchainStateService(maxBlocks, maxEvents, maxReorgs);
    var detector := new ReorgDetectorService(depth);
    var reconciliation := new ReconciliationService(detector);
    var service := new EventIndexingService(state, reconciliation);
    ProcessTwo(service, first, raws, second, raws', now);
    ghost var before, blocks := state.events, state.blocks;
    var _, fork := service.RollBackFork(second, now);
    RedeliveryOfTwo(first, second, blocks, state.blocks, before, state.events, fork);
    reorg, after := fork, state.events;
  }

  /** An empty tracker processes a block: it is the only one stored, and every event is of its height. */
  method ProcessOne(service: EventIndexingService, first: BlockInfo, raws: seq<RawEvent>, now: int)
    requires service.Wired() && service.state.Valid() && service.state.chainState.lastProcessedBlock == 0
    requires service.state.blocks == [] && service.state.events == [] && service.state.maxBlocksInMemory >= 1
    modifies service, service.state
    ensures service.state.Valid() && service.state.chainState.lastProcessedBlock == first.number
    ensures ConfirmedDeep(service.state.events, service.detector.confirmationDepth)
    ensures service.state.blocks == [RecordOf(first)]
    ensures forall h :: CanonicalAt(service.state.blocks, h) == if h == first.number then Some(RecordOf(first)) else None
    ensures forall i | 0 <= i < |service.state.events| :: service.state.events[i].blockNumber == first.number
  {
    var limit, depth := service.state.maxBlocksInMemory, service.detector.confirmationDepth;
    var _, early, rolled, rolledBlocks := service.ProcessBlock(first, raws, now);
    OnlyBlock(first, service.state.blocks, limit);
    ConcludedHeights(service.state.events, rolled, first, raws, depth, now, first.number);
  }

  /** An empty tracker processes two linked blocks: both are stored, and every event is of one of them. */
  method ProcessTwo(service: EventIndexingService, first: BlockInfo, raws: seq<RawEvent>,
                    second: BlockInfo, raws': seq<RawEvent>, now: int)
    requires service.Wired() && service.state.Valid() && service.state.chainState.lastProcessedBlock == 0
    requires service.state.blocks == [] && service.state.events == [] && service.state.maxBlocksInMemory >= 2
    requires 0 < first.number && second.number == first.number + 1 && second.parentHash == first.hash
    modifies service, service.state
    ensures service.state.Valid() && service.state.chainState.lastProcessedBlock == second.number
    ensures HasBoth(first, second, service.state.blocks)
    ensures forall i | 0 <= i < |service.state.events| ::
              first.number <= service.state.events[i].blockNumber <= second.number
  {
    var limit, depth := service.state.maxBlocksInMemory, service.detector.confirmationDepth;
    ProcessOne(service, first, raws, now);
    var _, middle, rolled', rolledBlocks' := service.ProcessBlock(second, raws', now);
    TwoBlocks(first, second, service.state.blocks, limit);
    ConcludedHeights(service.state.events, rolled', second, raws', depth, now, first.number);
  }

  lemma RedeliveryOfTwo(first: BlockInfo, second: BlockInfo, blocks: seq<BlockRecord>, blocks': seq<BlockRecord>,
                        events: seq<PendingEvent>, events': seq<PendingEvent>, reorg: Option<ReorgEvent>)
    requires HasBoth(first, second, blocks) && 0 < first.number && second.number == first.number + 1
    requires second.parentHash == first.hash != second.hash
    requires forall i | 0 <= i < |events| :: first.number <= events[i].blockNumber <= second.number
    requires RolledBack(blocks, blocks', events, events', second, second.number, reorg)
    ensures reorg.Some? && reorg.value.reorgDepth == 2
    ensures forall i | 0 <= i < |events'| :: events'[i].status.Orphaned?
  {
    TwoBlocksRun(first, second, blocks);
    RedeliveryUnwinds(blocks, events, second, if reorg.Some? then reorg.value else ReorgEvent(0, 0, 0, []));
    DivergenceBounded(blocks, second, reorg.value.reorgDepth);
    RedeliveredRun(blocks, second, reorg.value.reorgDepth, 0);
  }

  lemma OnlyBlock(b: BlockInfo, after: seq<BlockRecord>, limit: nat)
    requires SavedWithin([], b, after, limit) && limit >= 1
    ensures after == [RecordOf(b)]
    ensures forall h :: CanonicalAt(after, h) == if h == b.number then Some(RecordOf(b)) else None
  {
    assert PutBlock([], RecordOf(b)) == [RecordOf(b)];
    assert after[0] in [RecordOf(b)];
    assert after[1..] == [];
  }

  /** Both blocks are there, in some order. */
  ghost predicate HasBoth(first: BlockInfo, second: BlockInfo, blocks: seq<BlockRecord>) {
    blocks == [RecordOf(first), RecordOf(second)] || blocks == [RecordOf(second), RecordOf(first)]
  }

  lemma TwoBlocks(first: BlockInfo, second: BlockInfo, after: seq<BlockRecord>, limit: nat)
    requires SavedWithin([RecordOf(first)], second, after, limit) && limit >= 2
    requires DistinctBlocks(after) && first.number != second.number
    ensures HasBoth(first, second, after)
  {
    var r, s := RecordOf(first), RecordOf(second);
    assert [r][1..] == [];
    assert PutBlock([r], s) == [r, s];
    assert after[0] in [r, s] && after[1] in [r, s] && !SameBlock(after[0], after[1]);
  }

  lemma TwoBlocksRun(first: BlockInfo, second: BlockInfo, blocks: seq<BlockRecord>)
    requires HasBoth(first, second, blocks) && 0 < first.number && second.number == first.number + 1
    requires second.parentHash == first.hash != second.hash
    ensures Redelivered(blocks, second) && CanonicalAt(blocks, second.number).Some?
    ensures StoredRun(blocks, second.number, None, MAX_WALK + 1) == 2
  {
    BothFound(first, second, blocks);
    assert StoredRun(blocks, first.number - 1, None, MAX_WALK - 1) == 0;
    assert StoredRun(blocks, first.number, None, MAX_WALK) == 1;
  }

  lemma BothFound(first: BlockInfo, second: BlockInfo, blocks: seq<BlockRecord>)
    requires HasBoth(first, second, blocks) && first.number != second.number && first.hash != second.hash
    ensures CanonicalByHash(blocks, second.hash) == Some(RecordOf(second))
    ensures forall h :: CanonicalAt(blocks, h) == if h == first.number then Some(RecordOf(first))
                                                  else if h == second.number then Some(RecordOf(second)) else None
  {
    assert blocks[1..] == [blocks[1]] && blocks[1..][1..] == [];
  }

  /** Events keep their heights: the new ones have the block's. */
  lemma ConcludedHeights(events: seq<PendingEvent>, rolled: seq<PendingEvent>, b: BlockInfo, raws: seq<RawEvent>,
                         depth: int, now: int, low: int)
    requires ConcludedFrom(events, rolled, b, raws, depth, now) && low <= b.number
    requires forall i | 0 <= i < |rolled| :: low <= rolled[i].blockNumber <= b.number
    ensures forall i | 0 <= i < |events| :: low <= events[i].blockNumber <= b.number
  {
    forall i | 0 <= i < |events|
      ensures low <= events[i].blockNumber <= b.number
    {
      assert IsConcluded(events[i], rolled, b, raws, depth, now);
      var e :| Stems(e, rolled, b, raws) && events[i] == Concluded(e, b.number, depth, now);
      if e in rolled {
        var j :| 0 <= j < |rolled| && rolled[j] == e;
      }
    }
  }
}
