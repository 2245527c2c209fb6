/** Processing blocks: the confirmation strategy over the state, the detector and the reconciliation. */
module EventIndexing {
  import opened Wrappers
  import opened BlockchainState
  import opened ReorgDetector
  import opened Reconciliation

  /** A raw event; the id uses its log index as text, present or not. */
  datatype RawEvent = RawEvent(eventType: string, data: string, transactionHash: string, logIndexText: string, logIndex: int)

  function EventId(b: BlockInfo, raw: RawEvent): string {
    b.hash + ":" + raw.transactionHash + ":" + raw.logIndexText
  }

  function AsPending(b: BlockInfo, raw: RawEvent): PendingEvent {
    PendingEvent(EventId(b, raw), b.number, b.hash, raw.eventType, raw.data, raw.transactionHash, raw.logIndex, Pending, 0, None)
  }

  /** Every event is confirmed, or the head is less than the depth above it. */
  ghost predicate Settled(events: seq<PendingEvent>, head: int, depth: int) {
    forall i | 0 <= i < |events| :: events[i].status.Confirmed? || (head - events[i].blockNumber < depth && 0 < depth)
  }

  ghost predicate ConfirmedDeep(events: seq<PendingEvent>, depth: int) {
    forall i | 0 <= i < |events| :: events[i].status.Confirmed? ==> events[i].confirmations >= depth
  }

  function BlockIds(b: BlockInfo, raws: seq<RawEvent>): set<string> {
    set k | 0 <= k < |raws| :: EventId(b, raws[k])
  }

  /** No event id of the block is stored yet or comes twice. */
  ghost predicate FreshIds(events: seq<PendingEvent>, b: BlockInfo, raws: seq<RawEvent>) {
    && (forall i, k | 0 <= i < |events| && 0 <= k < |raws| :: events[i].id != EventId(b, raws[k]))
    && (forall j, k | 0 <= j < k < |raws| :: EventId(b, raws[j]) != EventId(b, raws[k]))
  }

  /** A pending event after the confirmation pass. */
  function Aged(e: PendingEvent, head: int, depth: int, now: int): PendingEvent {
    var c := Confirmations(e.blockNumber, head);
    if !e.status.Pending? then e
    else if c >= depth then Updated(e, Confirmed, Some(c), now) else Updated(e, Pending, Some(c), now)
  }

  ghost predicate AgedExactly(before: seq<PendingEvent>, after: seq<PendingEvent>, head: int, depth: int, now: int) {
    |after| == |before| && forall i | 0 <= i < |before| :: after[i] == Aged(before[i], head, depth, now)
  }

  // ---------- What a block does ----------

  /** Both passes of a block: confirmations for a pending event, and confirmation of an orphaned one by depth. */
  function Concluded(e: PendingEvent, head: int, depth: int, now: int): PendingEvent {
    Reconciled(Aged(e, head, depth, now), head, depth, now)
  }

  ghost predicate ConcludedExactly(before: seq<PendingEvent>, after: seq<PendingEvent>, head: int, depth: int, now: int) {
    |after| == |before| && forall i | 0 <= i < |before| :: after[i] == Concluded(before[i], head, depth, now)
  }

  /** The event was there before, or is new in this block. */
  ghost predicate Stems(e: PendingEvent, before: seq<PendingEvent>, b: BlockInfo, raws: seq<RawEvent>) {
    e in before || exists k :: 0 <= k < |raws| && e == AsPending(b, raws[k])
  }

  ghost predicate AllStem(events: seq<PendingEvent>, before: seq<PendingEvent>, b: BlockInfo, raws: seq<RawEvent>) {
    forall i | 0 <= i < |events| :: Stems(events[i], before, b, raws)
  }

  /** Every event is what the passes make of one that was there after the rollback or came with the block. */
  ghost predicate ConcludedFrom(events: seq<PendingEvent>, rolled: seq<PendingEvent>, b: BlockInfo, raws: seq<RawEvent>,
                                depth: int, now: int) {
    forall i | 0 <= i < |events| :: IsConcluded(events[i], rolled, b, raws, depth, now)
  }

  ghost predicate IsConcluded(after: PendingEvent, rolled: seq<PendingEvent>, b: BlockInfo, raws: seq<RawEvent>,
                              depth: int, now: int) {
    exists e :: Stems(e, rolled, b, raws) && after == Concluded(e, b.number, depth, now)
  }

  /** The last raw event of its id. */
  predicate LastOfItsId(b: BlockInfo, raws: seq<RawEvent>, k: nat)
    requires k < |raws|
  {
    forall j | k < j < |raws| :: EventId(b, raws[j]) != EventId(b, raws[k])
  }

  /** No unconfirmed event is dropped, unless the block overwrites it, and every event of the block is stored. */
  ghost predicate NoneDropped(before: seq<PendingEvent>, after: seq<PendingEvent>, b: BlockInfo, raws: seq<RawEvent>) {
    && (forall e | e in before && !e.status.Confirmed? && e.id !in BlockIds(b, raws) :: e in after)
    && (forall k | 0 <= k < |raws| && LastOfItsId(b, raws, k) :: AsPending(b, raws[k]) in after)
  }

  /** The same, with what the passes of the block make of them. */
  ghost predicate NoneLost(rolled: seq<PendingEvent>, after: seq<PendingEvent>, b: BlockInfo, raws: seq<RawEvent>, depth: int, now: int) {
    && (forall e | e in rolled && !e.status.Confirmed? && e.id !in BlockIds(b, raws) :: Concluded(e, b.number, depth, now) in after)
    && (forall k | 0 <= k < |raws| && LastOfItsId(b, raws, k) :: Concluded(AsPending(b, raws[k]), b.number, depth, now) in after)
  }

  /** The event is the raw event of the block, field by field. */
  predicate CameWith(e: PendingEvent, b: BlockInfo, raw: RawEvent) {
    && e.id == b.hash + ":" + raw.transactionHash + ":" + raw.logIndexText
    && e.blockNumber == b.number && e.blockHash == b.hash && e.eventType == raw.eventType && e.data == raw.data
    && e.transactionHash == raw.transactionHash && e.logIndex == raw.logIndex
  }

  /** An event of the block itself has no block above it: it is confirmed at once only if no depth is asked for. */
  predicate NewWithBlock(e: PendingEvent, b: BlockInfo, raw: RawEvent, depth: int) {
    CameWith(e, b, raw) && e.confirmations == 0 && e.status == if depth <= 0 then Confirmed else Pending
  }

  ghost predicate JudgedIn(e: PendingEvent, after: seq<PendingEvent>, head: int, depth: int, now: int) {
    exists x :: x in after && JudgedByDepth(e, x, head, depth, now)
  }

  ghost predicate NewIn(after: seq<PendingEvent>, b: BlockInfo, raw: RawEvent, depth: int) {
    exists x :: x in after && NewWithBlock(x, b, raw, depth)
  }

  ghost predicate Explained(x: PendingEvent, rolled: seq<PendingEvent>, b: BlockInfo, raws: seq<RawEvent>, depth: int, now: int) {
    || (exists e :: e in rolled && JudgedByDepth(e, x, b.number, depth, now))
    || (exists k :: 0 <= k < |raws| && NewWithBlock(x, b, raws[k], depth))
  }

  /**
   The block in block numbers: every unconfirmed event that it does not overwrite is judged by its depth below the
   head, every raw event of the block is stored as it came, and nothing else is stored.
   */
  ghost predicate JudgedByHeight(rolled: seq<PendingEvent>, after: seq<PendingEvent>, b: BlockInfo, raws: seq<RawEvent>,
                                 depth: int, now: int) {
    && (forall e | e in rolled && !e.status.Confirmed? && e.id !in BlockIds(b, raws) :: JudgedIn(e, after, b.number, depth, now))
    && (forall k | 0 <= k < |raws| && LastOfItsId(b, raws, k) :: NewIn(after, b, raws[k], depth))
    && (forall i | 0 <= i < |after| :: Explained(after[i], rolled, b, raws, depth, now))
  }

  /** How many orphaned events a fork orphans again. */
  function OrphanedAgain(before: seq<PendingEvent>, reorg: Option<ReorgEvent>): nat {
    if reorg.Some? then |OrphansAmong(before, reorg.value.orphanedEvents)| else 0
  }

  /** One call of `processBlock`. */
  datatype Delivery = Delivery(block: BlockInfo, raws: seq<RawEvent>, now: int)

  /** No event id comes twice in the deliveries, or is known before. */
  ghost predicate NoIdTwice(known: set<string>, ds: seq<Delivery>)
    decreases ds
  {
    ds != [] ==>
      && known !! BlockIds(ds[0].block, ds[0].raws)
      && (forall j, k | 0 <= j < k < |ds[0].raws| :: EventId(ds[0].block, ds[0].raws[j]) != EventId(ds[0].block, ds[0].raws[k]))
      && NoIdTwice(known + BlockIds(ds[0].block, ds[0].raws), ds[1..])
  }

  /** From delivery `from` on, no head was deep enough above the height. */
  ghost predicate Shallow(height: int, ds: seq<Delivery>, from: nat, depth: int) {
    forall j | from <= j < |ds| :: ds[j].block.number - height < depth && 0 < depth
  }

  /** The event is stored and waits for confirmation. */
  ghost predicate Waiting(events: seq<PendingEvent>, id: string, height: int) {
    exists e :: e in events && e.id == id && e.blockNumber == height && !e.status.Confirmed?
  }

  /** Every event waits that did at the start or came with a delivery, as long as no head is deep enough above it. */
  ghost predicate AllWait(start: seq<PendingEvent>, events: seq<PendingEvent>, ds: seq<Delivery>, depth: int) {
    && (forall e | e in start && !e.status.Confirmed? && Shallow(e.blockNumber, ds, 0, depth) :: Waiting(events, e.id, e.blockNumber))
    && (forall i, k | 0 <= i < |ds| && 0 <= k < |ds[i].raws| && Shallow(ds[i].block.number, ds, i, depth) ::
          Waiting(events, EventId(ds[i].block, ds[i].raws[k]), ds[i].block.number))
  }

  class EventIndexingService {
    const state: BlockchainStateService
    const detector: ReorgDetectorService
    const reconciliation: ReconciliationService
    var headBlockNumber: int

    constructor (state: BlockchainStateService, reconciliation: ReconciliationService)
      ensures this.state == state && this.reconciliation == reconciliation && detector == reconciliation.detector
    {
      this.state, this.reconciliation, detector, headBlockNumber := state, reconciliation, reconciliation.detector, 0;
    }

    ghost predicate Wired() { detector == reconciliation.detector }

    /**
     One block: a fork is rolled back, the block is saved, and every event afterwards is one that was there or came
     with the block, with its confirmations.  All are then confirmed or not deep enough, confirmed ones stay deep
     enough, and no event is dropped before it is confirmed.  No "event not found" error is ever thrown, and the
     counters stay above what they count: while no event id comes twice the pending one gains nothing, and the
     orphaned one exactly the orphaned events that are orphaned again or confirmed.
     */
    method ProcessBlock(b: BlockInfo, raws: seq<RawEvent>, now: int)
      returns (res: Result<(), Error>, reorg: Option<ReorgEvent>,
               ghost rolled: seq<PendingEvent>, ghost rolledBlocks: seq<BlockRecord>)
      requires state.Valid() && Wired()
      requires ConfirmedDeep(state.events, detector.confirmationDepth)
      modifies this, state
      ensures state.Valid() && res.Success?
      ensures RolledBack(old(state.blocks), rolledBlocks, old(state.events), rolled, b,
                         old(state.chainState.lastProcessedBlock), reorg)
      ensures SavedWithin(rolledBlocks, b, state.blocks, state.maxBlocksInMemory)
      ensures ConcludedFrom(state.events, rolled, b, raws, detector.confirmationDepth, now)
      ensures NoneLost(rolled, state.events, b, raws, detector.confirmationDepth, now)
      ensures JudgedByHeight(rolled, state.events, b, raws, detector.confirmationDepth, now)
      ensures Ids(state.events) <= old(Ids(state.events)) + BlockIds(b, raws)
      ensures Settled(state.events, b.number, detector.confirmationDepth)
      ensures ConfirmedDeep(state.events, detector.confirmationDepth)
      ensures state.PendingDrift() >= old(state.PendingDrift())
      ensures FreshIds(old(state.events), b, raws) ==> state.PendingDrift() == old(state.PendingDrift())
      ensures state.OrphanDrift() >= old(state.OrphanDrift())
      ensures FreshIds(old(state.events), b, raws) ==>
                state.OrphanDrift() == old(state.OrphanDrift()) +
                  OrphanedAgain(old(state.events), reorg) + |DeepOrphans(rolled, b.number, detector.confirmationDepth)|
      ensures state.chainState.lastProcessedBlock == b.number && headBlockNumber == b.number
    {
      res, reorg := RollBackFork(b, now);
      rolled, rolledBlocks := state.events, state.blocks;
      if res.Failure? {
        return;
      }
      RolledBackKeeps(old(state.events), rolled, b, raws, detector.confirmationDepth);
      res := StoreBlock(b, raws, now);
      if res.Failure? {
        return;
      }
      PassesJudge(rolled, state.events, b, raws, detector.confirmationDepth, now);
      state.chainState := state.chainState.(lastProcessedBlock := b.number, lastCanonicalHash := b.hash,
                                            confirmedDepth := detector.confirmationDepth);
    }

    /**
     Any number of blocks at one confirmation depth, with forks wherever they occur, and no event id coming twice: the
     pending counter stays exact, no event is lost before some head was deep enough above it, and everything
     `ProcessBlock` promises holds after the last block.
     */
    method ProcessBlocks(ds: seq<Delivery>) returns (res: Result<(), Error>)
      requires state.Valid() && Wired()
      requires ConfirmedDeep(state.events, detector.confirmationDepth)
      modifies this, state
      ensures state.Valid() && res.Success?
      ensures ConfirmedDeep(state.events, detector.confirmationDepth)
      ensures ds != [] ==> Settled(state.events, ds[|ds| - 1].block.number, detector.confirmationDepth)
      ensures NoIdTwice(old(Ids(state.events)), ds) ==>
                state.PendingDrift() == old(state.PendingDrift())
                && AllWait(old(state.events), state.events, ds, detector.confirmationDepth)
      ensures state.PendingDrift() >= old(state.PendingDrift()) && state.OrphanDrift() >= old(state.OrphanDrift())
    {
      res := Success(());
      ghost var known := Ids(state.events);
      ghost var distinct := NoIdTwice(known, ds);
      ghost var depth := detector.confirmationDepth;
      for i := 0 to |ds|
        invariant state.Valid() && res.Success? && detector.confirmationDepth == depth
        invariant ConfirmedDeep(state.events, depth)
        invariant i > 0 ==> Settled(state.events, ds[i - 1].block.number, depth)
        invariant Ids(state.events) <= known
        invariant distinct ==> NoIdTwice(known, ds[i..]) && state.PendingDrift() == old(state.PendingDrift())
        invariant distinct ==> AllWait(old(state.events), state.events, ds[..i], depth) && AllKnown(old(state.events), ds[..i], known)
        invariant state.PendingDrift() >= old(state.PendingDrift()) && state.OrphanDrift() >= old(state.OrphanDrift())
      {
        assert ds[i..][0] == ds[i] && ds[i..][1..] == ds[i + 1..];
        if distinct {
          UnknownIdsAreFresh(state.events, known, ds[i].block, ds[i].raws);
        }
        ghost var before := state.events;
        var processed, reorg, rolled, _ := ProcessBlock(ds[i].block, ds[i].raws, ds[i].now);
        if distinct {
          WaitOn(old(state.events), before, rolled, state.events, ds, i, known, depth);
        }
        res := processed;
        known := known + BlockIds(ds[i].block, ds[i].raws);
      }
      assert ds[..|ds|] == ds;
    }

    /** Detects a fork against the last processed block and rolls back exactly its range. */
    method RollBackFork(b: BlockInfo, now: int) returns (res: Result<(), Error>, reorg: Option<ReorgEvent>)
      requires state.Valid()
      modifies state
      ensures state.Valid() && res.Success?
      ensures RolledBack(old(state.blocks), state.blocks, old(state.events), state.events, b,
                         old(state.chainState.lastProcessedBlock), reorg)
      ensures state.PendingDrift() == old(state.PendingDrift())
      ensures state.OrphanDrift() == old(state.OrphanDrift()) + OrphanedAgain(old(state.events), reorg)
    {
      reorg := detector.DetectReorg(state, b, state.chainState.lastProcessedBlock);
      if reorg.Some? {
        res := reconciliation.HandleReorg(state, reorg.value, now);
      } else {
        res := Success(());
      }
    }

    /** Saves the block, stores its events and runs both passes. */
    method StoreBlock(b: BlockInfo, raws: seq<RawEvent>, now: int) returns (res: Result<(), Error>)
      requires state.Valid() && Wired() && ConfirmedDeep(state.events, detector.confirmationDepth)
      modifies this, state
      ensures state.Valid() && res.Success? && headBlockNumber == b.number
      ensures SavedWithin(old(state.blocks), b, state.blocks, state.maxBlocksInMemory)
      ensures ConcludedFrom(state.events, old(state.events), b, raws, detector.confirmationDepth, now)
      ensures NoneLost(old(state.events), state.events, b, raws, detector.confirmationDepth, now)
      ensures Ids(state.events) <= old(Ids(state.events)) + BlockIds(b, raws)
      ensures Settled(state.events, b.number, detector.confirmationDepth)
      ensures ConfirmedDeep(state.events, detector.confirmationDepth)
      ensures state.PendingDrift() >= old(state.PendingDrift()) && state.OrphanDrift() >= old(state.OrphanDrift())
      ensures FreshIds(old(state.events), b, raws) ==>
                && state.PendingDrift() == old(state.PendingDrift())
                && state.OrphanDrift() == old(state.OrphanDrift()) +
                     |DeepOrphans(old(state.events), b.number, detector.confirmationDepth)|
    {
      state.SaveBlock(b);
      headBlockNumber := b.number;
      IndexEvents(b, raws);
      ghost var indexed := state.events;
      res := ConfirmEvents(b.number, now);
      PassesConclude(old(state.events), indexed, state.events, b, raws, detector.confirmationDepth, now);
    }

    /** Both passes: pending events get their confirmations, then orphaned ones are reconciled. */
    method ConfirmEvents(head: int, now: int) returns (res: Result<(), Error>)
      requires state.Valid() && Wired() && ConfirmedDeep(state.events, detector.confirmationDepth)
      modifies state`events, state`chainState
      ensures state.Valid() && res.Success?
      ensures ConcludedExactly(old(state.events), state.events, head, detector.confirmationDepth, now)
      ensures Settled(state.events, head, detector.confirmationDepth) && ConfirmedDeep(state.events, detector.confirmationDepth)
      ensures state.PendingDrift() == old(state.PendingDrift())
      ensures state.OrphanDrift() == old(state.OrphanDrift()) + |DeepOrphans(old(state.events), head, detector.confirmationDepth)|
    {
      res := UpdateEventConfirmations(head, now);
      if res.Failure? {
        return;
      }
      ghost var aged := state.events;
      res := reconciliation.ReconcileOrphanedEvents(state, head, now);
      if res.Failure? {
        return;
      }
      PassesInTurn(old(state.events), aged, state.events, head, detector.confirmationDepth, now);
      SettledAfterPasses(aged, state.events, head, detector.confirmationDepth, now);
    }

    method IndexEvents(b: BlockInfo, raws: seq<RawEvent>)
      requires state.Valid() && ConfirmedDeep(state.events, detector.confirmationDepth)
      modifies state`events, state`chainState
      ensures state.Valid() && ConfirmedDeep(state.events, detector.confirmationDepth)
      ensures AllStem(state.events, old(state.events), b, raws) && NoneDropped(old(state.events), state.events, b, raws)
      ensures state.PendingDrift() >= old(state.PendingDrift())
      ensures FreshIds(old(state.events), b, raws) ==> state.PendingDrift() == old(state.PendingDrift())
      ensures state.OrphanDrift() >= old(state.OrphanDrift())
      ensures FreshIds(old(state.events), b, raws) ==> state.OrphanDrift() == old(state.OrphanDrift())
    {
      var depth := detector.confirmationDepth;
      assert raws[..0] == [];
      for k := 0 to |raws|
        invariant state.Valid() && ConfirmedDeep(state.events, depth) && detector.confirmationDepth == depth
        invariant AllStem(state.events, old(state.events), b, raws)
        invariant state.PendingDrift() >= old(state.PendingDrift()) && state.OrphanDrift() >= old(state.OrphanDrift())
        invariant FreshIds(old(state.events), b, raws) ==>
                    && state.PendingDrift() == old(state.PendingDrift()) && state.OrphanDrift() == old(state.OrphanDrift())
                    && FreshIds(state.events, b, raws[k..])
        invariant NoneDropped(old(state.events), state.events, b, raws[..k])
      {
        ghost var before, e := state.events, AsPending(b, raws[k]);
        state.SavePendingEvent(AsPending(b, raws[k]));
        StoredStaysDeep(before, e, state.events, state.maxEventsInMemory, depth);
        StoredStems(old(state.events), before, state.events, state.maxEventsInMemory, b, raws, k);
        NoneDroppedNext(old(state.events), before, state.events, state.maxEventsInMemory, b, raws, k);
        if FreshIds(before, b, raws[k..]) {
          FreshStaysFresh(before, state.events, state.maxEventsInMemory, b, raws[k..]);
          assert raws[k..][1..] == raws[k + 1..];
        }
      }
      assert raws[..|raws|] == raws;
    }

    method UpdateEventConfirmations(head: int, now: int) returns (res: Result<(), Error>)
      requires state.Valid()
      modifies state`events, state`chainState
      ensures state.Valid() && res.Success?
      ensures AgedExactly(old(state.events), state.events, head, detector.confirmationDepth, now)
      ensures forall i | 0 <= i < |state.events| ::
                if old(state.events)[i].status.Pending?
                then JudgedByDepth(old(state.events)[i], state.events[i], head, detector.confirmationDepth, now)
                else state.events[i] == old(state.events)[i]
      ensures old(ConfirmedDeep(state.events, detector.confirmationDepth)) ==> ConfirmedDeep(state.events, detector.confirmationDepth)
      ensures forall i | 0 <= i < |state.events| && state.events[i].status.Pending? ::
                head - state.events[i].blockNumber < detector.confirmationDepth && 0 < detector.confirmationDepth
      ensures state.PendingDrift() == old(state.PendingDrift()) && state.OrphanDrift() == old(state.OrphanDrift())
    {
      var all, depth := state.events, detector.confirmationDepth;
      for k := 0 to |all|
        invariant state.Valid() && |state.events| == |all| && detector.confirmationDepth == depth
        invariant AgedExactly(all[..k], state.events[..k], head, depth, now)
        invariant state.events[k..] == all[k..]
        invariant state.PendingDrift() == old(state.PendingDrift()) && state.OrphanDrift() == old(state.OrphanDrift())
      {
        assert state.events[k] == all[k];
        if all[k].status.Pending? {
          var confirmations := Confirmations(all[k].blockNumber, head);
          OwnPlace(state.events, k);
          var isConfirmed := detector.IsConfirmed(all[k].blockNumber, head);
          res := state.UpdateEventStatus(all[k].id, if isConfirmed then Confirmed else Pending, Some(confirmations), now);
          if res.Failure? {
            return;
          }
        }
        AgedNext(all, state.events, k, head, depth, now);
      }
      assert all[..|all|] == all && state.events[..|all|] == state.events;
      AgedFacts(all, state.events, head, depth, now);
      res := Success(());
    }
  }

  lemma AgedFacts(before: seq<PendingEvent>, after: seq<PendingEvent>, head: int, depth: int, now: int)
    requires AgedExactly(before, after, head, depth, now)
    ensures ConfirmedDeep(before, depth) ==> ConfirmedDeep(after, depth)
    ensures forall i | 0 <= i < |after| && after[i].status.Pending? :: head - after[i].blockNumber < depth && 0 < depth
  {
    assert forall i | 0 <= i < |after| :: after[i] == Aged(before[i], head, depth, now);
  }

  lemma AgedNext(before: seq<PendingEvent>, after: seq<PendingEvent>, k: nat, head: int, depth: int, now: int)
    requires k < |before| == |after| && AgedExactly(before[..k], after[..k], head, depth, now)
    requires after[k] == Aged(before[k], head, depth, now)
    ensures AgedExactly(before[..k + 1], after[..k + 1], head, depth, now)
  {
    assert before[..k + 1] == before[..k] + [before[k]] && after[..k + 1] == after[..k] + [after[k]];
  }

  /** A rollback adds no id and confirms nothing. */
  lemma RolledBackKeeps(before: seq<PendingEvent>, rolled: seq<PendingEvent>, b: BlockInfo, raws: seq<RawEvent>, depth: int)
    requires |rolled| == |before| && ConfirmedDeep(before, depth)
    requires forall i | 0 <= i < |before| :: rolled[i] == before[i] || rolled[i] == before[i].(status := Orphaned)
    ensures Ids(rolled) == Ids(before) && ConfirmedDeep(rolled, depth)
    ensures FreshIds(before, b, raws) ==> FreshIds(rolled, b, raws)
  {
    assert forall i | 0 <= i < |before| :: rolled[i].id == before[i].id;
  }

  lemma StoredStems(start: seq<PendingEvent>, before: seq<PendingEvent>, after: seq<PendingEvent>, limit: nat,
                    b: BlockInfo, raws: seq<RawEvent>, k: nat)
    requires k < |raws| && AllStem(before, start, b, raws) && Evicted(PutEvent(before, AsPending(b, raws[k])), after, limit)
    ensures AllStem(after, start, b, raws)
  {
    PutIn(before, AsPending(b, raws[k]));
    forall i | 0 <= i < |after|
      ensures Stems(after[i], start, b, raws)
    {
      assert after[i] in PutEvent(before, AsPending(b, raws[k]));
      if after[i] in before {
        var j :| 0 <= j < |before| && before[j] == after[i];
      }
    }
  }

  lemma PassesInTurn(before: seq<PendingEvent>, aged: seq<PendingEvent>, after: seq<PendingEvent>, head: int, depth: int, now: int)
    requires AgedExactly(before, aged, head, depth, now) && ReconciledExactly(aged, after, head, depth, now)
    ensures ConcludedExactly(before, after, head, depth, now)
    ensures DeepOrphans(aged, head, depth) == DeepOrphans(before, head, depth)
  {
    assert forall i | 0 <= i < |before| :: aged[i] == Aged(before[i], head, depth, now);
    forall e | e in DeepOrphans(aged, head, depth)
      ensures e in before
    {
      var i :| 0 <= i < |aged| && aged[i] == e;
      assert before[i] == e;
    }
    forall e | e in DeepOrphans(before, head, depth)
      ensures e in aged
    {
      var i :| 0 <= i < |before| && before[i] == e;
      assert aged[i] == e;
    }
  }

  lemma PassesConclude(rolled: seq<PendingEvent>, indexed: seq<PendingEvent>, after: seq<PendingEvent>,
                       b: BlockInfo, raws: seq<RawEvent>, depth: int, now: int)
    requires AllStem(indexed, rolled, b, raws) && NoneDropped(rolled, indexed, b, raws)
    requires ConcludedExactly(indexed, after, b.number, depth, now)
    ensures ConcludedFrom(after, rolled, b, raws, depth, now) && NoneLost(rolled, after, b, raws, depth, now)
    ensures Ids(after) <= Ids(rolled) + BlockIds(b, raws)
    ensures FreshIds(rolled, b, raws) ==> DeepOrphans(indexed, b.number, depth) == DeepOrphans(rolled, b.number, depth)
  {
    forall i | 0 <= i < |after|
      ensures IsConcluded(after[i], rolled, b, raws, depth, now)
      ensures after[i].id in Ids(rolled) + BlockIds(b, raws)
    {
      assert Stems(indexed[i], rolled, b, raws) && after[i] == Concluded(indexed[i], b.number, depth, now);
      StemIds(indexed[i], rolled, b, raws);
    }
    forall e | e in indexed
      ensures Concluded(e, b.number, depth, now) in after
    {
      var i :| 0 <= i < |indexed| && indexed[i] == e;
      assert after[i] == Concluded(indexed[i], b.number, depth, now);
    }
    if FreshIds(rolled, b, raws) {
      SameDeepOrphans(rolled, indexed, b, raws, depth);
    }
  }

  /** The event is stored, and nothing unconfirmed goes but what it overwrites. */
  lemma StoredKeeps(before: seq<PendingEvent>, e: PendingEvent, after: seq<PendingEvent>, limit: nat)
    requires DistinctIds(before) && !e.status.Confirmed? && Evicted(PutEvent(before, e), after, limit)
    ensures e in after
    ensures forall f | f in before && !f.status.Confirmed? && f.id != e.id :: f in after
  {
    var put, place := PutEvent(before, e), PlaceOf(before, e.id);
    assert put[place] == e;
    forall f | f in before && !f.status.Confirmed? && f.id != e.id
      ensures f in after
    {
      var j :| 0 <= j < |before| && before[j] == f;
      assert put[j] == f;
    }
  }

  lemma NoneDroppedNext(start: seq<PendingEvent>, before: seq<PendingEvent>, after: seq<PendingEvent>, limit: nat,
                        b: BlockInfo, raws: seq<RawEvent>, k: nat)
    requires k < |raws| && DistinctIds(before) && NoneDropped(start, before, b, raws[..k])
    requires Evicted(PutEvent(before, AsPending(b, raws[k])), after, limit)
    ensures NoneDropped(start, after, b, raws[..k + 1])
  {
    var now, e := raws[..k + 1], AsPending(b, raws[k]);
    StoredKeeps(before, e, after, limit);
    assert now[k] == raws[k] && EventId(b, now[k]) in BlockIds(b, now);
    forall f | f in start && !f.status.Confirmed? && f.id !in BlockIds(b, now)
      ensures f in after
    {
      assert forall j | 0 <= j < k :: raws[..k][j] == now[j] && EventId(b, now[j]) in BlockIds(b, now);
      assert f in before;
    }
    forall j | 0 <= j < k + 1 && LastOfItsId(b, now, j)
      ensures AsPending(b, now[j]) in after
    {
      if j < k {
        assert now[j] == raws[..k][j] && EventId(b, now[k]) != EventId(b, now[j]);
        assert LastOfItsId(b, raws[..k], j) by {
          assert forall l | j < l < k :: raws[..k][l] == now[l];
        }
      }
    }
  }

  /** Indexing a block with new ids leaves the orphaned events as they are. */
  lemma SameDeepOrphans(rolled: seq<PendingEvent>, indexed: seq<PendingEvent>, b: BlockInfo, raws: seq<RawEvent>, depth: int)
    requires FreshIds(rolled, b, raws) && AllStem(indexed, rolled, b, raws) && NoneDropped(rolled, indexed, b, raws)
    ensures DeepOrphans(indexed, b.number, depth) == DeepOrphans(rolled, b.number, depth)
  {
    forall e | e in DeepOrphans(rolled, b.number, depth)
      ensures e in indexed
    {
      var j :| 0 <= j < |rolled| && rolled[j] == e;
    }
    forall e | e in DeepOrphans(indexed, b.number, depth)
      ensures e in rolled
    {
      var i :| 0 <= i < |indexed| && indexed[i] == e;
      assert Stems(indexed[i], rolled, b, raws);
    }
  }

  // ---------- Waiting for confirmation ----------

  /** All ids of a run so far are known. */
  ghost predicate AllKnown(start: seq<PendingEvent>, ds: seq<Delivery>, known: set<string>) {
    Ids(start) <= known && forall i | 0 <= i < |ds| :: BlockIds(ds[i].block, ds[i].raws) <= known
  }

  /** An event that waits goes on waiting through a block that is not deep enough above it. */
  lemma WaitsOn(before: seq<PendingEvent>, rolled: seq<PendingEvent>, after: seq<PendingEvent>, d: Delivery, depth: int, id: string, height: int)
    requires |rolled| == |before| && NoneLost(rolled, after, d.block, d.raws, depth, d.now)
    requires forall i | 0 <= i < |before| :: rolled[i] == before[i] || rolled[i] == before[i].(status := Orphaned)
    requires Waiting(before, id, height) && id !in BlockIds(d.block, d.raws) && d.block.number - height < depth && 0 < depth
    ensures Waiting(after, id, height)
  {
    var e :| e in before && e.id == id && e.blockNumber == height && !e.status.Confirmed?;
    var i :| 0 <= i < |before| && before[i] == e;
    assert rolled[i] in rolled;
    var kept := Concluded(rolled[i], d.block.number, depth, d.now);
    assert kept in after && kept.id == id && kept.blockNumber == height && !kept.status.Confirmed?;
  }

  /** An event of the block waits, unless the block confirms it itself. */
  lemma NewWaits(rolled: seq<PendingEvent>, after: seq<PendingEvent>, d: Delivery, depth: int, k: nat)
    requires NoneLost(rolled, after, d.block, d.raws, depth, d.now) && k < |d.raws|
    requires forall j, l | 0 <= j < l < |d.raws| :: EventId(d.block, d.raws[j]) != EventId(d.block, d.raws[l])
    requires 0 < depth
    ensures Waiting(after, EventId(d.block, d.raws[k]), d.block.number)
  {
    assert LastOfItsId(d.block, d.raws, k);
    var kept := Concluded(AsPending(d.block, d.raws[k]), d.block.number, depth, d.now);
    assert kept in after && kept.id == EventId(d.block, d.raws[k]) && !kept.status.Confirmed?;
  }

  lemma ShallowShorter(height: int, ds: seq<Delivery>, i: nat, from: nat, depth: int)
    requires i < |ds| && Shallow(height, ds[..i + 1], from, depth)
    ensures Shallow(height, ds[..i], from, depth)
    ensures from <= i ==> ds[i].block.number - height < depth && 0 < depth
  {
    forall j | from <= j < i
      ensures ds[..i][j].block.number - height < depth && 0 < depth
    {
      assert ds[..i][j] == ds[..i + 1][j];
    }
    assert from <= i ==> ds[..i + 1][i] == ds[i];
  }

  /** One more delivery of a run in which no id comes twice. */
  lemma WaitOn(start: seq<PendingEvent>, before: seq<PendingEvent>, rolled: seq<PendingEvent>, after: seq<PendingEvent>,
               ds: seq<Delivery>, i: nat, known: set<string>, depth: int)
    requires i < |ds| && NoIdTwice(known, ds[i..]) && AllKnown(start, ds[..i], known) && AllWait(start, before, ds[..i], depth)
    requires |rolled| == |before| && NoneLost(rolled, after, ds[i].block, ds[i].raws, depth, ds[i].now)
    requires forall j | 0 <= j < |before| :: rolled[j] == before[j] || rolled[j] == before[j].(status := Orphaned)
    ensures AllWait(start, after, ds[..i + 1], depth)
    ensures AllKnown(start, ds[..i + 1], known + BlockIds(ds[i].block, ds[i].raws))
  {
    var d, longer := ds[i], ds[..i + 1];
    assert ds[i..][0] == d;
    assert forall j | 0 <= j < i :: longer[j] == ds[..i][j];
    forall e | e in start && !e.status.Confirmed? && Shallow(e.blockNumber, longer, 0, depth)
      ensures Waiting(after, e.id, e.blockNumber)
    {
      var j :| 0 <= j < |start| && start[j] == e;
      assert e.id in Ids(start);
      ShallowShorter(e.blockNumber, ds, i, 0, depth);
      WaitsOn(before, rolled, after, d, depth, e.id, e.blockNumber);
    }
    forall j, k | 0 <= j < |longer| && 0 <= k < |longer[j].raws| && Shallow(longer[j].block.number, longer, j, depth)
      ensures Waiting(after, EventId(longer[j].block, longer[j].raws[k]), longer[j].block.number)
    {
      ShallowShorter(longer[j].block.number, ds, i, j, depth);
      if j == i {
        NewWaits(rolled, after, d, depth, k);
      } else {
        assert longer[j] == ds[..i][j] && EventId(longer[j].block, longer[j].raws[k]) in BlockIds(longer[j].block, longer[j].raws);
        WaitsOn(before, rolled, after, d, depth, EventId(longer[j].block, longer[j].raws[k]), longer[j].block.number);
      }
    }
  }

  lemma StemIds(e: PendingEvent, before: seq<PendingEvent>, b: BlockInfo, raws: seq<RawEvent>)
    requires Stems(e, before, b, raws)
    ensures e.id in Ids(before) + BlockIds(b, raws)
  {
    if e in before {
      var j :| 0 <= j < |before| && before[j] == e;
    }
  }

  lemma UnknownIdsAreFresh(events: seq<PendingEvent>, known: set<string>, b: BlockInfo, raws: seq<RawEvent>)
    requires Ids(events) <= known && known !! BlockIds(b, raws)
    requires forall j, k | 0 <= j < k < |raws| :: EventId(b, raws[j]) != EventId(b, raws[k])
    ensures FreshIds(events, b, raws)
  {
    forall i, k | 0 <= i < |events| && 0 <= k < |raws|
      ensures events[i].id != EventId(b, raws[k])
    {
      assert events[i].id in Ids(events) && EventId(b, raws[k]) in BlockIds(b, raws);
    }
  }

  /** After the confirmation pass and the reconciliation, only events that are not deep enough are unconfirmed. */
  lemma SettledAfterPasses(aged: seq<PendingEvent>, after: seq<PendingEvent>, head: int, depth: int, now: int)
    requires ReconciledExactly(aged, after, head, depth, now) && ConfirmedDeep(aged, depth)
    requires forall i | 0 <= i < |aged| && aged[i].status.Pending? :: head - aged[i].blockNumber < depth && 0 < depth
    ensures Settled(after, head, depth) && ConfirmedDeep(after, depth)
  {
  }

  lemma PutIn(events: seq<PendingEvent>, e: PendingEvent)
    ensures forall f | f in PutEvent(events, e) :: f == e || f in events
  {
  }

  lemma StoredStaysDeep(before: seq<PendingEvent>, e: PendingEvent, after: seq<PendingEvent>, limit: nat, depth: int)
    requires ConfirmedDeep(before, depth) && !e.status.Confirmed? && Evicted(PutEvent(before, e), after, limit)
    ensures ConfirmedDeep(after, depth)
  {
    PutIn(before, e);
    forall i | 0 <= i < |after|
      ensures after[i].status.Confirmed? ==> after[i].confirmations >= depth
    {
      assert after[i] in PutEvent(before, e);
    }
  }

  lemma FreshStaysFresh(before: seq<PendingEvent>, after: seq<PendingEvent>, limit: nat, b: BlockInfo, raws: seq<RawEvent>)
    requires raws != [] && FreshIds(before, b, raws) && Evicted(PutEvent(before, AsPending(b, raws[0])), after, limit)
    ensures FreshIds(after, b, raws[1..])
  {
    PutIn(before, AsPending(b, raws[0]));
    forall i | 0 <= i < |after|
      ensures after[i].id == EventId(b, raws[0]) || exists j :: 0 <= j < |before| && before[j].id == after[i].id
    {
      assert after[i] in PutEvent(before, AsPending(b, raws[0]));
    }
  }

  // ---------- Confirmed off the canonical chain ----------

  /** The two passes together judge an event by its depth below the head. */
  lemma ConcludedIsJudged(e: PendingEvent, head: int, depth: int, now: int)
    ensures JudgedByDepth(e, Concluded(e, head, depth, now), head, depth, now)
  {
  }

  lemma NewIsConcluded(b: BlockInfo, raw: RawEvent, depth: int, now: int)
    ensures NewWithBlock(Concluded(AsPending(b, raw), b.number, depth, now), b, raw, depth)
  {
  }

  lemma PassesJudge(rolled: seq<PendingEvent>, after: seq<PendingEvent>, b: BlockInfo, raws: seq<RawEvent>, depth: int, now: int)
    requires ConcludedFrom(after, rolled, b, raws, depth, now) && NoneLost(rolled, after, b, raws, depth, now)
    ensures JudgedByHeight(rolled, after, b, raws, depth, now)
  {
    forall e | e in rolled && !e.status.Confirmed? && e.id !in BlockIds(b, raws)
      ensures JudgedIn(e, after, b.number, depth, now)
    {
      ConcludedIsJudged(e, b.number, depth, now);
    }
    forall k | 0 <= k < |raws| && LastOfItsId(b, raws, k)
      ensures NewIn(after, b, raws[k], depth)
    {
      NewIsConcluded(b, raws[k], depth, now);
    }
    forall i | 0 <= i < |after|
      ensures Explained(after[i], rolled, b, raws, depth, now)
    {
      ConcludedIsExplained(after[i], rolled, b, raws, depth, now);
    }
  }

  lemma ConcludedIsExplained(x: PendingEvent, rolled: seq<PendingEvent>, b: BlockInfo, raws: seq<RawEvent>, depth: int, now: int)
    requires IsConcluded(x, rolled, b, raws, depth, now)
    ensures Explained(x, rolled, b, raws, depth, now)
  {
    var e :| Stems(e, rolled, b, raws) && x == Concluded(e, b.number, depth, now);
    if e in rolled {
      ConcludedIsJudged(e, b.number, depth, now);
    } else {
      var k :| 0 <= k < |raws| && e == AsPending(b, raws[k]);
      NewIsConcluded(b, raws[k], depth, now);
    }
  }

  /** Over the two passes an event ends up confirmed exactly when it was confirmed or is deep enough, orphaned or not. */
  lemma ConfirmedIffDeep(e: PendingEvent, head: int, depth: int, now: int)
    ensures Concluded(e, head, depth, now).status.Confirmed? <==> e.status.Confirmed? || head - e.blockNumber >= depth || depth <= 0
    ensures Concluded(e, head, depth, now).status.Orphaned? ==> e.status.Orphaned?
  {
  }

  /** The block the event came with is canonical, as far as the records tell. */
  predicate OnCanonicalBlock(blocks: seq<BlockRecord>, e: PendingEvent) {
    CanonicalByHash(blocks, e.blockHash).Some?
  }

  /** The event is confirmed, and was not before the passes. */
  ghost predicate NewlyConfirmed(x: PendingEvent, rolled: seq<PendingEvent>) {
    x.status.Confirmed? && forall i | 0 <= i < |rolled| && rolled[i].id == x.id :: !rolled[i].status.Confirmed?
  }

  /** Everything a block newly confirms came with a canonical block. */
  ghost predicate ConfirmsOnlyCanonical(rolled: seq<PendingEvent>, after: seq<PendingEvent>, blocks: seq<BlockRecord>) {
    forall i | 0 <= i < |after| && NewlyConfirmed(after[i], rolled) :: OnCanonicalBlock(blocks, after[i])
  }

  /** No event that waits deep enough, pending or orphaned, came with a block that is not canonical. */
  ghost predicate NoDeepStray(rolled: seq<PendingEvent>, blocks: seq<BlockRecord>, head: int, depth: int) {
    forall i | 0 <= i < |rolled| && !rolled[i].status.Confirmed? && head - rolled[i].blockNumber >= depth ::
      OnCanonicalBlock(blocks, rolled[i])
  }

  /**
   A block confirms only events of canonical blocks exactly when none that waits deep enough, once a fork is rolled
   back, came with another block: neither pass looks.
   */
  lemma ConfirmsOnlyCanonicalIff(rolled: seq<PendingEvent>, after: seq<PendingEvent>, blocks: seq<BlockRecord>,
                                 b: BlockInfo, raws: seq<RawEvent>, depth: int, now: int)
    requires DistinctIds(rolled) && FreshIds(rolled, b, raws) && depth >= 1
    requires ConcludedFrom(after, rolled, b, raws, depth, now) && NoneLost(rolled, after, b, raws, depth, now)
    ensures ConfirmsOnlyCanonical(rolled, after, blocks) <==> NoDeepStray(rolled, blocks, b.number, depth)
  {
    if NoDeepStray(rolled, blocks, b.number, depth) {
      forall i | 0 <= i < |after| && NewlyConfirmed(after[i], rolled)
        ensures OnCanonicalBlock(blocks, after[i])
      {
        NewlyConfirmedWasDeep(rolled, after[i], b, raws, depth, now);
      }
    }
    if ConfirmsOnlyCanonical(rolled, after, blocks) {
      forall i | 0 <= i < |rolled| && !rolled[i].status.Confirmed? && b.number - rolled[i].blockNumber >= depth
        ensures OnCanonicalBlock(blocks, rolled[i])
      {
        var j := DeepIsNewlyConfirmed(rolled, after, b, raws, depth, now, i);
        assert OnCanonicalBlock(blocks, after[j]);
      }
    }
  }

  lemma NewlyConfirmedWasDeep(rolled: seq<PendingEvent>, x: PendingEvent, b: BlockInfo, raws: seq<RawEvent>, depth: int, now: int)
    requires IsConcluded(x, rolled, b, raws, depth, now) && NewlyConfirmed(x, rolled) && depth >= 1
    ensures exists i :: 0 <= i < |rolled| && !rolled[i].status.Confirmed? && rolled[i].blockHash == x.blockHash
                        && b.number - rolled[i].blockNumber >= depth
  {
    var e :| Stems(e, rolled, b, raws) && x == Concluded(e, b.number, depth, now);
    ConfirmedIffDeep(e, b.number, depth, now);
    if e in rolled {
      var i :| 0 <= i < |rolled| && rolled[i] == e;
    }
  }

  lemma DeepIsNewlyConfirmed(rolled: seq<PendingEvent>, after: seq<PendingEvent>, b: BlockInfo, raws: seq<RawEvent>,
                             depth: int, now: int, i: nat) returns (j: nat)
    requires DistinctIds(rolled) && FreshIds(rolled, b, raws) && NoneLost(rolled, after, b, raws, depth, now)
    requires i < |rolled| && !rolled[i].status.Confirmed? && b.number - rolled[i].blockNumber >= depth
    ensures j < |after| && NewlyConfirmed(after[j], rolled) && after[j].blockHash == rolled[i].blockHash
  {
    var x := Concluded(rolled[i], b.number, depth, now);
    ConfirmedIffDeep(rolled[i], b.number, depth, now);
    assert rolled[i] in rolled && x in after;
    j :| 0 <= j < |after| && after[j] == x;
    assert forall k | 0 <= k < |rolled| && rolled[k].id == x.id :: k == i;
  }
}
