/**
 The in-memory chain state: block records, indexed events, reorg history and
 the counters kept beside them.

 A JavaScript Map is a sequence of entries with distinct keys, in insertion
 order; setting an existing key keeps its place.
 */
module BlockchainState {
  import opened Wrappers
  import Sorting

  datatype BlockInfo = BlockInfo(number: int, hash: string, parentHash: string, timestamp: int)

  datatype BlockRecord = BlockRecord(blockNumber: int, blockHash: string, parentHash: string, timestamp: int, isCanonical: bool)

  datatype Status = Pending | Confirmed | Orphaned

  datatype PendingEvent = PendingEvent(
    id: string, blockNumber: int, blockHash: string, eventType: string, data: string, transactionHash: string, logIndex: int,
    status: Status, confirmations: int, confirmedAt: Option<int>)

  datatype ReorgEvent = ReorgEvent(reorgDepth: int, affectedBlockStart: int, affectedBlockEnd: int, orphanedEvents: seq<string>)

  datatype ChainState = ChainState(
    lastProcessedBlock: int, lastCanonicalHash: string, confirmedDepth: int, pendingEventCount: int, orphanedEventCount: int)

  datatype Error = EventNotFound

  function Min(a: int, b: int): int { if a < b then a else b }

  function Max(a: int, b: int): int { if a < b then b else a }

  // ---------- Events as a map ----------

  ghost predicate DistinctIds(events: seq<PendingEvent>) {
    forall i, j | 0 <= i < j < |events| :: events[i].id != events[j].id
  }

  function Ids(events: seq<PendingEvent>): set<string> {
    set i | 0 <= i < |events| :: events[i].id
  }

  ghost predicate NoRepeats(ids: seq<string>) {
    forall j, k | 0 <= j < k < |ids| :: ids[j] != ids[k]
  }

  /** The place of an id, or the length when it is missing. */
  function PlaceOf(events: seq<PendingEvent>, id: string): (i: nat)
    ensures i <= |events|
    ensures i < |events| ==> events[i].id == id
    ensures forall j | 0 <= j < i :: events[j].id != id
  {
    if events == [] || events[0].id == id then 0 else 1 + PlaceOf(events[1..], id)
  }

  predicate HasEvent(events: seq<PendingEvent>, id: string) { PlaceOf(events, id) < |events| }

  function PutEvent(events: seq<PendingEvent>, e: PendingEvent): seq<PendingEvent> {
    var i := PlaceOf(events, e.id);
    if i < |events| then events[i := e] else events + [e]
  }

  /** How many events have a status. */
  function Count(events: seq<PendingEvent>, status: Status): nat {
    if events == [] then 0 else (if events[0].status == status then 1 else 0) + Count(events[1..], status)
  }

  lemma {:induction false} CountAppend(events: seq<PendingEvent>, e: PendingEvent, status: Status)
    ensures Count(events + [e], status) == Count(events, status) + if e.status == status then 1 else 0
  {
    if events == [] {
      assert events + [e] == [e];
    } else {
      assert (events + [e])[0] == events[0] && (events + [e])[1..] == events[1..] + [e];
      CountAppend(events[1..], e, status);
    }
  }

  lemma {:induction false} CountUpdate(events: seq<PendingEvent>, i: nat, e: PendingEvent, status: Status)
    requires i < |events|
    ensures Count(events[i := e], status) ==
            Count(events, status) - (if events[i].status == status then 1 else 0) + (if e.status == status then 1 else 0)
  {
    if i == 0 {
      assert events[0 := e][1..] == events[1..];
    } else {
      assert events[i := e][1..] == events[1..][i - 1 := e];
      CountUpdate(events[1..], i - 1, e, status);
    }
  }

  /** The events whose id is not in a set. */
  function Without(events: seq<PendingEvent>, ids: set<string>): seq<PendingEvent> {
    if events == [] then []
    else if events[0].id in ids then Without(events[1..], ids)
    else [events[0]] + Without(events[1..], ids)
  }

  lemma {:induction false} WithoutIn(events: seq<PendingEvent>, ids: set<string>)
    ensures forall e :: e in Without(events, ids) <==> e in events && e.id !in ids
    decreases events
  {
    if events != [] {
      WithoutIn(events[1..], ids);
      assert events == [events[0]] + events[1..];
    }
  }

  lemma {:induction false} WithoutDistinct(events: seq<PendingEvent>, ids: set<string>)
    requires DistinctIds(events)
    ensures DistinctIds(Without(events, ids))
    decreases events
  {
    if events != [] {
      WithoutDistinct(events[1..], ids);
      WithoutIn(events[1..], ids);
      forall i | 0 <= i < |Without(events[1..], ids)|
        ensures Without(events[1..], ids)[i].id != events[0].id
      {
        assert Without(events[1..], ids)[i] in events[1..];
      }
    }
  }

  /** Removing one event with distinct ids removes it from its count and from no other. */
  lemma {:induction false} CountWithoutOne(events: seq<PendingEvent>, i: nat, status: Status)
    requires DistinctIds(events) && i < |events|
    ensures Count(Without(events, {events[i].id}), status) == Count(events, status) - if events[i].status == status then 1 else 0
    ensures |Without(events, {events[i].id})| == |events| - 1
    decreases events
  {
    var rest := events[1..];
    if i == 0 {
      WithoutNone(rest, {events[0].id});
    } else {
      assert rest[i - 1] == events[i];
      CountWithoutOne(rest, i - 1, status);
      assert ([events[0]] + Without(rest, {events[i].id}))[1..] == Without(rest, {events[i].id});
    }
  }

  lemma {:induction false} WithoutNone(events: seq<PendingEvent>, ids: set<string>)
    requires forall i | 0 <= i < |events| :: events[i].id !in ids
    ensures Without(events, ids) == events
    decreases events
  {
    if events != [] {
      WithoutNone(events[1..], ids);
    }
  }

  lemma {:induction false} WithoutTwice(events: seq<PendingEvent>, a: set<string>, b: set<string>)
    ensures Without(Without(events, a), b) == Without(events, a + b)
    decreases events
  {
    if events != [] {
      WithoutTwice(events[1..], a, b);
      var rest := Without(events[1..], a);
      if events[0].id !in a {
        assert ([events[0]] + rest)[1..] == rest;
      }
    }
  }

  // ---------- Blocks as a map ----------

  predicate SameBlock(a: BlockRecord, b: BlockRecord) { a.blockNumber == b.blockNumber && a.blockHash == b.blockHash }

  ghost predicate DistinctBlocks(blocks: seq<BlockRecord>) {
    forall i, j | 0 <= i < j < |blocks| :: !SameBlock(blocks[i], blocks[j])
  }

  function BlockPlace(blocks: seq<BlockRecord>, r: BlockRecord): (i: nat)
    ensures i <= |blocks|
    ensures i < |blocks| ==> SameBlock(blocks[i], r)
    ensures forall j | 0 <= j < i :: !SameBlock(blocks[j], r)
  {
    if blocks == [] || SameBlock(blocks[0], r) then 0 else 1 + BlockPlace(blocks[1..], r)
  }

  function PutBlock(blocks: seq<BlockRecord>, r: BlockRecord): seq<BlockRecord> {
    var i := BlockPlace(blocks, r);
    if i < |blocks| then blocks[i := r] else blocks + [r]
  }

  /** Putting a block replaces the record of the same height and hash, and keeps every other one, forks included. */
  lemma PutBlockKeeps(blocks: seq<BlockRecord>, r: BlockRecord)
    requires DistinctBlocks(blocks)
    ensures forall x :: x in PutBlock(blocks, r) <==>
                        x == r || (x in blocks && !(x.blockNumber == r.blockNumber && x.blockHash == r.blockHash))
  {
    var i := BlockPlace(blocks, r);
    if i < |blocks| {
      assert PutBlock(blocks, r)[i] == r;
      forall x | x in blocks && !SameBlock(x, r)
        ensures x in PutBlock(blocks, r)
      {
        var j :| 0 <= j < |blocks| && blocks[j] == x;
        assert PutBlock(blocks, r)[j] == x;
      }
    }
  }

  function RecordOf(b: BlockInfo): BlockRecord { BlockRecord(b.number, b.hash, b.parentHash, b.timestamp, true) }

  /** The block is put among the records, and the highest-numbered ones stay, up to the limit. */
  ghost predicate SavedWithin(before: seq<BlockRecord>, b: BlockInfo, after: seq<BlockRecord>, limit: nat) {
    var put := PutBlock(before, BlockRecord(b.number, b.hash, b.parentHash, b.timestamp, true));
    && (forall r | r in after :: r in put)
    && |after| == Min(|put|, limit)
    && (forall r, kept | r in put && r !in after && kept in after :: r.blockNumber <= kept.blockNumber)
  }

  predicate LowerBlock(a: BlockRecord, b: BlockRecord) { a.blockNumber <= b.blockNumber }

  /** `getCanonicalBlock`: the first canonical record at a height. */
  function CanonicalAt(blocks: seq<BlockRecord>, number: int): (found: Option<BlockRecord>)
    ensures found.Some? ==> found.value in blocks && found.value.blockNumber == number && found.value.isCanonical
    ensures found.None? ==> forall i | 0 <= i < |blocks| :: blocks[i].blockNumber != number || !blocks[i].isCanonical
  {
    if blocks == [] then None
    else if blocks[0].blockNumber == number && blocks[0].isCanonical then Some(blocks[0])
    else CanonicalAt(blocks[1..], number)
  }

  /** `getCanonicalBlockByHash`: the first canonical record with a hash. */
  function CanonicalByHash(blocks: seq<BlockRecord>, hash: string): (found: Option<BlockRecord>)
    ensures found.Some? ==> found.value in blocks && found.value.blockHash == hash && found.value.isCanonical
    ensures found.None? ==> forall i | 0 <= i < |blocks| :: blocks[i].blockHash != hash || !blocks[i].isCanonical
  {
    if blocks == [] then None
    else if blocks[0].blockHash == hash && blocks[0].isCanonical then Some(blocks[0])
    else CanonicalByHash(blocks[1..], hash)
  }

  // ---------- Eviction ----------

  /** Confirmed events in the order they are evicted: without a time first, then the earliest. */
  predicate EarlierConfirmed(a: PendingEvent, b: PendingEvent) {
    a.confirmedAt.None? || (b.confirmedAt.Some? && a.confirmedAt.value <= b.confirmedAt.value)
  }

  /** Only confirmed events are gone, the earliest confirmed first. */
  ghost predicate EarliestGone(before: seq<PendingEvent>, after: seq<PendingEvent>) {
    && DistinctIds(after)
    && (forall e | e in after :: e in before)
    && (forall e | e in before && e !in after :: e.status.Confirmed?)
    && (forall e, f | e in before && e !in after && f in after && f.status.Confirmed? ::
          e.confirmedAt.None? || (f.confirmedAt.Some? && e.confirmedAt.value <= f.confirmedAt.value))
    && Count(after, Pending) == Count(before, Pending) && Count(after, Orphaned) == Count(before, Orphaned)
  }

  /** What eviction does to the events: as many go as the limit asks for and confirmed ones there are. */
  ghost predicate Evicted(before: seq<PendingEvent>, after: seq<PendingEvent>, limit: nat) {
    && EarliestGone(before, after)
    && |after| == Max(Min(|before|, limit), |before| - Count(before, Confirmed))
  }

  /** The confirmed events, in order. */
  function ConfirmedOf(events: seq<PendingEvent>): seq<PendingEvent> {
    if events == [] then []
    else if events[0].status.Confirmed? then [events[0]] + ConfirmedOf(events[1..])
    else ConfirmedOf(events[1..])
  }

  lemma {:induction false} ConfirmedIn(events: seq<PendingEvent>)
    ensures forall e :: e in ConfirmedOf(events) <==> e in events && e.status.Confirmed?
    ensures |ConfirmedOf(events)| == Count(events, Confirmed)
    decreases events
  {
    if events != [] {
      ConfirmedIn(events[1..]);
      assert events == [events[0]] + events[1..];
    }
  }

  lemma {:induction false} ConfirmedDistinct(events: seq<PendingEvent>)
    requires DistinctIds(events)
    ensures Sorting.Distinct(ConfirmedOf(events))
    decreases events
  {
    if events != [] {
      ConfirmedDistinct(events[1..]);
      ConfirmedIn(events[1..]);
      forall i | 0 <= i < |ConfirmedOf(events[1..])|
        ensures ConfirmedOf(events[1..])[i] != events[0]
      {
        assert ConfirmedOf(events[1..])[i] in events[1..];
      }
    }
  }

  function SetOf(ids: seq<string>): set<string> {
    set id | id in ids
  }

  function IdsOf(events: seq<PendingEvent>, n: nat): set<string>
    requires n <= |events|
  {
    set i | 0 <= i < n :: events[i].id
  }

  /** Dropping the first `n` of some confirmed events, one after the other. */
  lemma {:induction false} DropConfirmed(events: seq<PendingEvent>, gone: seq<PendingEvent>, n: nat)
    requires DistinctIds(events) && Sorting.Distinct(gone) && n <= |gone|
    requires forall e | e in gone :: e in events && e.status.Confirmed?
    ensures var after := Without(events, IdsOf(gone, n));
            && |after| == |events| - n
            && Count(after, Pending) == Count(events, Pending) && Count(after, Orphaned) == Count(events, Orphaned)
    decreases n
  {
    if n == 0 {
      WithoutNone(events, IdsOf(gone, 0));
    } else {
      DropConfirmed(events, gone, n - 1);
      DropOneMore(events, gone, n);
    }
  }

  lemma DropOneMore(events: seq<PendingEvent>, gone: seq<PendingEvent>, n: nat)
    requires DistinctIds(events) && Sorting.Distinct(gone) && 0 < n <= |gone|
    requires forall e | e in gone :: e in events && e.status.Confirmed?
    ensures var before, after := Without(events, IdsOf(gone, n - 1)), Without(events, IdsOf(gone, n));
            && |after| == |before| - 1
            && Count(after, Pending) == Count(before, Pending) && Count(after, Orphaned) == Count(before, Orphaned)
  {
    var before := Without(events, IdsOf(gone, n - 1));
    WithoutDistinct(events, IdsOf(gone, n - 1));
    var i := StillThere(events, gone, n);
    CountWithoutOne(before, i, Pending);
    CountWithoutOne(before, i, Orphaned);
    WithoutNext(events, gone, n - 1);
  }

  lemma StillThere(events: seq<PendingEvent>, gone: seq<PendingEvent>, n: nat) returns (i: nat)
    requires DistinctIds(events) && Sorting.Distinct(gone) && 0 < n <= |gone|
    requires forall e | e in gone :: e in events
    ensures i < |Without(events, IdsOf(gone, n - 1))| && Without(events, IdsOf(gone, n - 1))[i] == gone[n - 1]
  {
    WithoutIn(events, IdsOf(gone, n - 1));
    DistinctGoneIds(events, gone, n);
    assert gone[n - 1] in gone && gone[n - 1] in Without(events, IdsOf(gone, n - 1));
    i :| 0 <= i < |Without(events, IdsOf(gone, n - 1))| && Without(events, IdsOf(gone, n - 1))[i] == gone[n - 1];
  }

  lemma WithoutNext(events: seq<PendingEvent>, gone: seq<PendingEvent>, n: nat)
    requires n < |gone|
    ensures Without(Without(events, IdsOf(gone, n)), {gone[n].id}) == Without(events, IdsOf(gone, n + 1))
  {
    WithoutTwice(events, IdsOf(gone, n), {gone[n].id});
    assert IdsOf(gone, n + 1) == IdsOf(gone, n) + {gone[n].id};
  }

  lemma DistinctGoneIds(events: seq<PendingEvent>, gone: seq<PendingEvent>, n: nat)
    requires DistinctIds(events) && Sorting.Distinct(gone) && 0 < n <= |gone|
    requires forall e | e in gone :: e in events
    ensures gone[n - 1].id !in IdsOf(gone, n - 1)
  {
    forall i | 0 <= i < n - 1
      ensures gone[i].id != gone[n - 1].id
    {
      assert gone[i] in events && gone[n - 1] in events && gone[i] != gone[n - 1];
    }
  }

  // ---------- The service ----------

  class BlockchainStateService {
    const maxBlocksInMemory: nat
    const maxEventsInMemory: nat
    const maxReorgHistoryEntries: nat
    var blocks: seq<BlockRecord>
    var events: seq<PendingEvent>
    var reorgHistory: seq<ReorgEvent>
    var chainState: ChainState

    constructor (maxBlocks: nat, maxEvents: nat, maxReorgs: nat)
      ensures Valid() && PendingDrift() == 0 && OrphanDrift() == 0
      ensures blocks == [] && events == [] && reorgHistory == [] && chainState.lastProcessedBlock == 0
      ensures maxBlocksInMemory == maxBlocks && maxEventsInMemory == maxEvents && maxReorgHistoryEntries == maxReorgs
    {
      maxBlocksInMemory, maxEventsInMemory, maxReorgHistoryEntries := maxBlocks, maxEvents, maxReorgs;
      blocks, events, reorgHistory := [], [], [];
      chainState := ChainState(0, "", 0, 0, 0);
    }

    ghost predicate Valid()
      reads this
    {
      DistinctIds(events) && DistinctBlocks(blocks) && |reorgHistory| <= maxReorgHistoryEntries
    }

    /** By how much the pending counter is above the number of pending events. */
    function PendingDrift(): int
      reads this
    {
      chainState.pendingEventCount - Count(events, Pending)
    }

    /** By how much the orphaned counter is above the number of orphaned events. */
    function OrphanDrift(): int
      reads this
    {
      chainState.orphanedEventCount - Count(events, Orphaned)
    }

    /** Stores a block and keeps the highest-numbered ones within the limit. */
    method SaveBlock(b: BlockInfo)
      requires Valid()
      modifies this`blocks
      ensures Valid()
      ensures SavedWithin(old(blocks), b, blocks, maxBlocksInMemory)
    {
      blocks := PutBlock(blocks, RecordOf(b));
      EvictOldBlocks();
    }

    method EvictOldBlocks()
      requires Valid()
      modifies this`blocks
      ensures Valid()
      ensures forall r | r in blocks :: r in old(blocks)
      ensures |blocks| == Min(|old(blocks)|, maxBlocksInMemory)
      ensures forall r, kept | r in old(blocks) && r !in blocks && kept in blocks :: r.blockNumber <= kept.blockNumber
    {
      if |blocks| <= maxBlocksInMemory {
        return;
      }
      var all := blocks;
      var sorted := Sorting.Sort(all, LowerBlock);
      DistinctRecords(all);
      Sorting.PermutationKeeps(all, sorted);
      var excess := |all| - maxBlocksInMemory;
      for i := 0 to excess
        invariant DistinctBlocks(blocks)
        invariant |blocks| == |all| - i
        invariant forall r :: r in blocks <==> r in sorted[i..]
      {
        assert sorted[i..] == [sorted[i]] + sorted[i + 1..];
        assert sorted[i] !in sorted[i + 1..];
        PlaceFound(blocks, sorted[i]);
        var place := BlockPlace(blocks, sorted[i]);
        RemovePlace(blocks, place);
        blocks := blocks[..place] + blocks[place + 1..];
      }
      LowestGoFirst(all, sorted, excess, blocks);
    }

    /**
     Stores an event and evicts old confirmed ones.  The pending counter gains on the number of pending events
     exactly when a pending event is overwritten.
     */
    method SavePendingEvent(e: PendingEvent)
      requires Valid()
      modifies this`events, this`chainState
      ensures Valid()
      ensures Evicted(PutEvent(old(events), e), events, maxEventsInMemory)
      ensures PendingDrift() == old(PendingDrift()) + old(StatusIs(e.id, Pending))
      ensures OrphanDrift() == old(OrphanDrift()) + old(StatusIs(e.id, Orphaned)) - (if e.status.Orphaned? then 1 else 0)
      ensures chainState == old(chainState).(pendingEventCount := chainState.pendingEventCount)
    {
      var place := PlaceOf(events, e.id);
      if place < |events| {
        CountUpdate(events, place, e, Pending);
        CountUpdate(events, place, e, Orphaned);
      } else {
        CountAppend(events, e, Pending);
        CountAppend(events, e, Orphaned);
      }
      events := PutEvent(events, e);
      if e.status.Pending? {
        chainState := chainState.(pendingEventCount := chainState.pendingEventCount + 1);
      }
      EvictOldEvents();
    }

    /** One if the event is stored with this status, else zero. */
    function StatusIs(id: string, status: Status): int
      reads this
    {
      var i := PlaceOf(events, id);
      if i < |events| && events[i].status == status then 1 else 0
    }

    method EvictOldEvents()
      requires Valid()
      modifies this`events
      ensures Valid() && Evicted(old(events), events, maxEventsInMemory)
    {
      if |events| <= maxEventsInMemory {
        NothingEvicted(events, maxEventsInMemory);
        return;
      }
      var all := events;
      var confirmed := ConfirmedOf(all);
      var sorted := Sorting.Sort(confirmed, EarlierConfirmed);
      var excess := |all| - maxEventsInMemory;
      EvictsTheEarliest(all, sorted, maxEventsInMemory);
      RemoveFirst(sorted, Min(excess, |sorted|));
    }

    method RemoveFirst(gone: seq<PendingEvent>, n: nat)
      requires n <= |gone|
      modifies this`events
      ensures events == Without(old(events), IdsOf(gone, n))
    {
      WithoutNone(events, IdsOf(gone, 0));
      for i := 0 to n
        invariant events == Without(old(events), IdsOf(gone, i))
      {
        WithoutNext(old(events), gone, i);
        events := Without(events, {gone[i].id});
      }
    }

    /**
     Changes the status of a stored event.  The orphaned counter gains on the number of orphaned events exactly
     when an orphaned event is updated, since that counter never goes down here.
     */
    method UpdateEventStatus(id: string, status: Status, confirmations: Option<int>, now: int) returns (res: Result<(), Error>)
      requires Valid()
      modifies this`events, this`chainState
      ensures Valid()
      ensures res.Success? <==> HasEvent(old(events), id)
      ensures res.Failure? ==> events == old(events) && chainState == old(chainState)
      ensures res.Success? ==>
                var i := PlaceOf(old(events), id);
                && events == old(events)[i := Updated(old(events)[i], status, confirmations, now)]
                && events[i].status == status && events[i].confirmedAt == (if status.Confirmed? then Some(now) else old(events)[i].confirmedAt)
                && (confirmations.Some? ==> events[i].confirmations == confirmations.value)
                && (confirmations.None? ==> events[i].confirmations == old(events)[i].confirmations)
                && PendingDrift() == old(PendingDrift()) - (if status.Pending? && !old(events)[i].status.Pending? then 1 else 0)
                && OrphanDrift() == old(OrphanDrift()) + (if old(events)[i].status.Orphaned? then 1 else 0)
                && chainState == old(chainState).(pendingEventCount := chainState.pendingEventCount,
                                                  orphanedEventCount := chainState.orphanedEventCount)
    {
      var place := PlaceOf(events, id);
      if place == |events| {
        return Failure(EventNotFound);
      }
      var before := events[place];
      var e := Updated(before, status, confirmations, now);
      CountUpdate(events, place, e, Pending);
      CountUpdate(events, place, e, Orphaned);
      events := events[place := e];
      if status.Confirmed? {
        if before.status.Pending? {
          chainState := chainState.(pendingEventCount := chainState.pendingEventCount - 1);
        }
      } else if status.Orphaned? {
        if before.status.Pending? {
          chainState := chainState.(pendingEventCount := chainState.pendingEventCount - 1);
        }
        chainState := chainState.(orphanedEventCount := chainState.orphanedEventCount + 1);
      }
      res := Success(());
    }

    /** Marks every block at one of the heights non-canonical, and no other. */
    method MarkBlocksNonCanonical(numbers: seq<int>)
      requires Valid()
      modifies this`blocks
      ensures Valid()
      ensures |blocks| == |old(blocks)|
      ensures forall i | 0 <= i < |blocks| ::
                blocks[i] == if old(blocks)[i].blockNumber in numbers then old(blocks)[i].(isCanonical := false) else old(blocks)[i]
    {
      var all := blocks;
      for i := 0 to |all|
        invariant |blocks| == |all|
        invariant forall j | 0 <= j < |all| ::
                    blocks[j] == if j < i && all[j].blockNumber in numbers then all[j].(isCanonical := false) else all[j]
      {
        if all[i].blockNumber in numbers {
          blocks := blocks[i := all[i].(isCanonical := false)];
        }
      }
    }

    /** Keeps the latest reorgs within the limit. */
    method RecordReorg(reorg: ReorgEvent)
      requires Valid()
      modifies this`reorgHistory
      ensures Valid()
      ensures var all := old(reorgHistory) + [reorg]; reorgHistory == all[|all| - Min(|all|, maxReorgHistoryEntries)..]
    {
      reorgHistory := reorgHistory + [reorg];
      ghost var all := reorgHistory;
      while |reorgHistory| > maxReorgHistoryEntries
        invariant |reorgHistory| <= |all| && reorgHistory == all[|all| - |reorgHistory|..]
        invariant |reorgHistory| >= Min(|all|, maxReorgHistoryEntries)
      {
        reorgHistory := reorgHistory[1..];
      }
    }

    /** Removes the events and takes each off the counter of its status. */
    method DeleteEvents(ids: seq<string>)
      requires Valid()
      modifies this`events, this`chainState
      ensures Valid()
      ensures events == Without(old(events), SetOf(ids))
      ensures PendingDrift() == old(PendingDrift()) && OrphanDrift() == old(OrphanDrift())
    {
      WithoutNone(events, {});
      assert SetOf(ids[..0]) == {};
      for i := 0 to |ids|
        invariant Valid()
        invariant events == Without(old(events), SetOf(ids[..i]))
        invariant PendingDrift() == old(PendingDrift()) && OrphanDrift() == old(OrphanDrift())
      {
        WithoutTwice(old(events), SetOf(ids[..i]), {ids[i]});
        assert SetOf(ids[..i + 1]) == SetOf(ids[..i]) + {ids[i]};
        var place := PlaceOf(events, ids[i]);
        if place < |events| {
          CountWithoutOne(events, place, Pending);
          CountWithoutOne(events, place, Orphaned);
          WithoutDistinct(events, {ids[i]});
          if events[place].status.Pending? {
            chainState := chainState.(pendingEventCount := chainState.pendingEventCount - 1);
          } else if events[place].status.Orphaned? {
            chainState := chainState.(orphanedEventCount := chainState.orphanedEventCount - 1);
          }
          events := Without(events, {ids[i]});
        } else {
          WithoutNone(events, {ids[i]});
        }
      }
      assert ids[..|ids|] == ids;
    }
  }

  /** An event after `updateEventStatus`. */
  function Updated(e: PendingEvent, status: Status, confirmations: Option<int>, now: int): PendingEvent {
    e.(status := status,
       confirmations := if confirmations.Some? then confirmations.value else e.confirmations,
       confirmedAt := if status.Confirmed? then Some(now) else e.confirmedAt)
  }

  lemma EvictionIsFair(all: seq<PendingEvent>, sorted: seq<PendingEvent>, n: nat)
    requires DistinctIds(all) && Sorting.Distinct(sorted) && Sorting.SortedBy(sorted, EarlierConfirmed) && n <= |sorted|
    requires forall e :: e in sorted <==> e in all && e.status.Confirmed?
    ensures EarliestGone(all, Without(all, IdsOf(sorted, n))) && |Without(all, IdsOf(sorted, n))| == |all| - n
  {
    var ids := IdsOf(sorted, n);
    DropConfirmed(all, sorted, n);
    WithoutIn(all, ids);
    WithoutDistinct(all, ids);
    forall e | e in all && e.id in ids
      ensures e in sorted[..n]
    {
      var i :| 0 <= i < n && sorted[i].id == e.id;
      assert sorted[i] in all;
      assert sorted[i] == e;
      assert sorted[..n][i] == e;
    }
    forall e, f | e in all && e.id in ids && f in all && f.id !in ids && f.status.Confirmed?
      ensures EarlierConfirmed(e, f)
    {
      var i :| 0 <= i < n && sorted[i] == e;
      assert f in sorted;
      var j :| 0 <= j < |sorted| && sorted[j] == f;
    }
  }

  lemma NothingEvicted(events: seq<PendingEvent>, limit: nat)
    requires DistinctIds(events) && |events| <= limit
    ensures Evicted(events, events, limit)
  {
  }

  lemma EvictsTheEarliest(all: seq<PendingEvent>, sorted: seq<PendingEvent>, limit: nat)
    requires DistinctIds(all) && |all| > limit && Sorting.SortedBy(sorted, EarlierConfirmed)
    requires multiset(sorted) == multiset(ConfirmedOf(all))
    ensures Evicted(all, Without(all, IdsOf(sorted, Min(|all| - limit, |sorted|))), limit)
  {
    ConfirmedIn(all);
    ConfirmedDistinct(all);
    Sorting.PermutationKeeps(ConfirmedOf(all), sorted);
    EvictionIsFair(all, sorted, Min(|all| - limit, |sorted|));
  }

  lemma DistinctRecords(blocks: seq<BlockRecord>)
    requires DistinctBlocks(blocks)
    ensures Sorting.Distinct(blocks)
  {
  }

  lemma LowestGoFirst(all: seq<BlockRecord>, sorted: seq<BlockRecord>, n: nat, rest: seq<BlockRecord>)
    requires n <= |sorted| && Sorting.SortedBy(sorted, LowerBlock) && (forall r :: r in all <==> r in sorted)
    requires forall r :: r in rest <==> r in sorted[n..]
    ensures forall r | r in rest :: r in all
    ensures forall r, kept | r in all && r !in rest && kept in rest :: r.blockNumber <= kept.blockNumber
  {
    assert sorted == sorted[..n] + sorted[n..];
    forall r, kept | r in all && r !in rest && kept in rest
      ensures r.blockNumber <= kept.blockNumber
    {
      var i :| 0 <= i < n && sorted[i] == r;
      var j :| 0 <= j < |sorted[n..]| && sorted[n..][j] == kept;
      assert LowerBlock(sorted[i], sorted[n + j]);
    }
    forall r | r in rest
      ensures r in all
    {
      assert r in sorted[n..];
    }
  }

  lemma PlaceFound(blocks: seq<BlockRecord>, r: BlockRecord)
    requires DistinctBlocks(blocks) && r in blocks
    ensures BlockPlace(blocks, r) < |blocks| && blocks[BlockPlace(blocks, r)] == r
  {
  }

  lemma RemovePlace(blocks: seq<BlockRecord>, i: nat)
    requires DistinctBlocks(blocks) && i < |blocks|
    ensures var rest := blocks[..i] + blocks[i + 1..];
            && DistinctBlocks(rest) && |rest| == |blocks| - 1
            && forall r :: r in rest <==> r in blocks && r != blocks[i]
  {
    var rest := blocks[..i] + blocks[i + 1..];
    assert blocks == blocks[..i] + [blocks[i]] + blocks[i + 1..];
    forall j | 0 <= j < |rest|
      ensures rest[j] != blocks[i] && rest[j] in blocks
    {
      assert rest[j] == if j < i then blocks[j] else blocks[j + 1];
    }
  }
}
