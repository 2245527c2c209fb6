/**
 Detecting a reorganisation: comparing an incoming block with the canonical
 block before it, and walking down to where the chains part.
 */
module ReorgDetector {
  import opened Wrappers
  import opened BlockchainState

  const MAX_WALK := 1000

  /** The hash `depth` links above `hash`, as far as canonical records tell; empty when one is missing. */
  function AncestorHash(blocks: seq<BlockRecord>, hash: string, depth: nat): string
    decreases depth
  {
    if depth == 0 then hash
    else
      var b := CanonicalByHash(blocks, hash);
      if b.None? then "" else AncestorHash(blocks, b.value.parentHash, depth - 1)
  }

  /** The walk ends at depth `d`: nothing canonical there, or the parent and not the expected ancestor. */
  predicate Stops(blocks: seq<BlockRecord>, current: BlockInfo, d: nat) {
    var b := CanonicalAt(blocks, current.number - d);
    b.None? || (b.value.blockHash == current.parentHash && b.value.blockHash != AncestorHash(blocks, current.hash, d))
  }

  predicate WithinWalk(current: BlockInfo, d: nat) { current.number - d > 0 && d <= MAX_WALK }

  /** The least depth at which the walk ends or runs out. */
  ghost predicate IsDivergence(blocks: seq<BlockRecord>, current: BlockInfo, d: nat) {
    && (forall k: nat | k < d :: WithinWalk(current, k) && !Stops(blocks, current, k))
    && (WithinWalk(current, d) ==> Stops(blocks, current, d))
  }

  lemma DivergenceBounded(blocks: seq<BlockRecord>, current: BlockInfo, d: nat)
    requires IsDivergence(blocks, current, d)
    ensures d <= Min(Max(0, current.number), 1001)
  {
    if d > 0 {
      assert WithinWalk(current, d - 1);
    }
  }

  lemma DivergenceUnique(blocks: seq<BlockRecord>, current: BlockInfo, d: nat, e: nat)
    requires IsDivergence(blocks, current, d) && IsDivergence(blocks, current, e)
    ensures d == e
  {
    assert WithinWalk(current, d) ==> Stops(blocks, current, d);
    assert WithinWalk(current, e) ==> Stops(blocks, current, e);
  }

  /** For a block whose hash is not canonical yet, the walk ends where nothing is stored or the parent is. */
  lemma NewBlockStops(blocks: seq<BlockRecord>, current: BlockInfo, d: nat)
    requires CanonicalByHash(blocks, current.hash).None? && current.parentHash != ""
    ensures var b := CanonicalAt(blocks, current.number - d);
            Stops(blocks, current, d) <==> b.None? || b.value.blockHash == current.parentHash
  {
    var b := CanonicalAt(blocks, current.number - d);
    if d == 0 && b.Some? {
      assert b.value in blocks && b.value.isCanonical;
    } else if d > 0 {
      assert AncestorHash(blocks, current.hash, d) == "";
    }
  }

  /** A new block that replaces a stored one on top of its parent has depth one, however far the stored chain goes. */
  lemma ReplacementHasDepthOne(blocks: seq<BlockRecord>, current: BlockInfo, d: nat)
    requires IsDivergence(blocks, current, d) && current.number > 0
    requires CanonicalByHash(blocks, current.hash).None? && current.parentHash != ""
    requires CanonicalAt(blocks, current.number).Some? && CanonicalAt(blocks, current.number).value.blockHash != current.parentHash
    requires CanonicalAt(blocks, current.number - 1).Some? && CanonicalAt(blocks, current.number - 1).value.blockHash == current.parentHash
    ensures d == 1
  {
    NewBlockStops(blocks, current, 0);
    NewBlockStops(blocks, current, 1);
    assert WithinWalk(current, 0) && !Stops(blocks, current, 0) && Stops(blocks, current, 1);
  }

  // ---------- How far the walk goes ----------

  /** How many heights from `height` down hold a canonical block, other than the parent if that is a concern. */
  function StoredRun(blocks: seq<BlockRecord>, height: int, unlike: Option<string>, n: nat): nat {
    if n == 0 || height <= 0 || CanonicalAt(blocks, height).None? then 0
    else if unlike.Some? && CanonicalAt(blocks, height).value.blockHash == unlike.value then 0
    else 1 + StoredRun(blocks, height - 1, unlike, n - 1)
  }

  /** A block that is not canonical yet: the depth is the run of stored blocks from its height down to the parent. */
  lemma {:induction false} NewBlockRun(blocks: seq<BlockRecord>, current: BlockInfo, d: nat, k: nat)
    requires IsDivergence(blocks, current, d) && k <= d <= MAX_WALK + 1
    requires CanonicalByHash(blocks, current.hash).None? && current.parentHash != ""
    ensures StoredRun(blocks, current.number - k, Some(current.parentHash), MAX_WALK + 1 - k) == d - k
    decreases d - k
  {
    NewBlockStops(blocks, current, k);
    if k < d {
      assert WithinWalk(current, k) && !Stops(blocks, current, k);
      NewBlockRun(blocks, current, d, k + 1);
    } else if k <= MAX_WALK {
      assert WithinWalk(current, k) ==> Stops(blocks, current, k);
    }
  }

  /** A parent that is not stored at all does not end the walk. */
  lemma {:induction false} UnknownParentRun(blocks: seq<BlockRecord>, height: int, parent: string, n: nat)
    requires forall i | 0 <= i < |blocks| && blocks[i].isCanonical :: blocks[i].blockHash != parent
    ensures StoredRun(blocks, height, Some(parent), n) == StoredRun(blocks, height, None, n)
    decreases n
  {
    if n > 0 {
      UnknownParentRun(blocks, height - 1, parent, n - 1);
    }
  }

  /** A block that is canonical already, on top of a parent stored nowhere but right below it. */
  ghost predicate Redelivered(blocks: seq<BlockRecord>, current: BlockInfo) {
    var own := CanonicalByHash(blocks, current.hash);
    && own.Some? && own.value.parentHash == current.parentHash
    && forall h | h != current.number - 1 && CanonicalAt(blocks, h).Some? :: CanonicalAt(blocks, h).value.blockHash != current.parentHash
  }

  lemma RedeliveredStops(blocks: seq<BlockRecord>, current: BlockInfo, k: nat)
    requires Redelivered(blocks, current)
    ensures Stops(blocks, current, k) <==> CanonicalAt(blocks, current.number - k).None?
  {
    if k == 1 {
      assert AncestorHash(blocks, current.hash, 1) == AncestorHash(blocks, current.parentHash, 0);
    }
  }

  /** For such a block nothing stops the walk but the end of the stored chain. */
  lemma {:induction false} RedeliveredRun(blocks: seq<BlockRecord>, current: BlockInfo, d: nat, k: nat)
    requires IsDivergence(blocks, current, d) && k <= d <= MAX_WALK + 1 && Redelivered(blocks, current)
    ensures StoredRun(blocks, current.number - k, None, MAX_WALK + 1 - k) == d - k
    decreases d - k
  {
    RedeliveredStops(blocks, current, k);
    if k < d {
      assert WithinWalk(current, k) && !Stops(blocks, current, k);
      RedeliveredRun(blocks, current, d, k + 1);
    } else if k <= MAX_WALK {
      assert WithinWalk(current, k) ==> Stops(blocks, current, k);
    }
  }

  // ---------- What a reorg affects ----------

  predicate Affected(number: int, reorg: ReorgEvent) {
    reorg.affectedBlockStart <= number <= reorg.affectedBlockEnd
  }

  /** The detected reorg: its range follows the divergence depth, its events are exactly those in the range. */
  ghost predicate Describes(blocks: seq<BlockRecord>, events: seq<PendingEvent>, current: BlockInfo, previous: int, reorg: ReorgEvent) {
    && reorg.reorgDepth >= 0 && IsDivergence(blocks, current, reorg.reorgDepth)
    && reorg.affectedBlockStart == previous - reorg.reorgDepth + 1 && reorg.affectedBlockEnd == previous
    && (forall i | 0 <= i < |events| :: events[i].id in reorg.orphanedEvents <==> Affected(events[i].blockNumber, reorg))
    && NoRepeats(reorg.orphanedEvents) && SetOf(reorg.orphanedEvents) <= Ids(events)
  }

  /** A reorg is reported when the stored canonical parent is not the block's parent. */
  predicate Forked(blocks: seq<BlockRecord>, current: BlockInfo, previous: int) {
    && previous != 0
    && CanonicalAt(blocks, previous).Some?
    && CanonicalAt(blocks, previous).value.blockHash != current.parentHash
  }

  function Confirmations(blockNumber: int, head: int): int { Max(0, head - blockNumber) }

  class ReorgDetectorService {
    var confirmationDepth: int

    constructor (depth: int)
      ensures confirmationDepth == depth
    {
      confirmationDepth := depth;
    }

    predicate IsConfirmed(blockNumber: int, head: int)
      reads this
    {
      Confirmations(blockNumber, head) >= confirmationDepth
    }

    method GetAncestorHashAtDepth(state: BlockchainStateService, current: BlockInfo, depth: nat) returns (hash: string)
      ensures hash == AncestorHash(state.blocks, current.hash, depth)
    {
      hash := current.hash;
      var currentDepth := 0;
      while currentDepth < depth
        invariant currentDepth <= depth
        invariant AncestorHash(state.blocks, hash, depth - currentDepth) == AncestorHash(state.blocks, current.hash, depth)
      {
        var b := CanonicalByHash(state.blocks, hash);
        if b.None? {
          return "";
        }
        hash := b.value.parentHash;
        currentDepth := currentDepth + 1;
      }
    }

    method FindDivergencePoint(state: BlockchainStateService, current: BlockInfo) returns (depth: nat)
      ensures IsDivergence(state.blocks, current, depth)
    {
      depth := 0;
      var checkBlockNumber := current.number;
      while checkBlockNumber > 0 && depth <= MAX_WALK
        invariant checkBlockNumber == current.number - depth
        invariant forall k: nat | k < depth :: WithinWalk(current, k) && !Stops(state.blocks, current, k)
        decreases MAX_WALK + 1 - depth
      {
        var canonical := CanonicalAt(state.blocks, checkBlockNumber);
        if canonical.Some? && canonical.value.blockHash != current.parentHash {
          depth := depth + 1;
          checkBlockNumber := checkBlockNumber - 1;
        } else {
          var expected := current.hash;
          if depth != 0 {
            expected := GetAncestorHashAtDepth(state, current, depth);
          }
          if canonical.None? || canonical.value.blockHash != expected {
            return;
          }
          depth := depth + 1;
          checkBlockNumber := checkBlockNumber - 1;
        }
      }
    }

    /** The ids of the events in a range of heights, height by height: of no other, and each once. */
    method GetAffectedEvents(state: BlockchainStateService, start: int, end: int) returns (ids: seq<string>)
      requires state.Valid()
      ensures forall i | 0 <= i < |state.events| :: state.events[i].id in ids <==> start <= state.events[i].blockNumber <= end
      ensures NoRepeats(ids) && SetOf(ids) <= Ids(state.events)
    {
      ids := [];
      var height := start;
      while height <= end
        invariant start <= height && (height <= end + 1 || height == start)
        invariant forall i | 0 <= i < |state.events| ::
                    state.events[i].id in ids <==> start <= state.events[i].blockNumber < height
        invariant NoRepeats(ids) && SetOf(ids) <= Ids(state.events)
        decreases end - height
      {
        var all := state.events;
        for j := 0 to |all|
          invariant all == state.events
          invariant forall i | 0 <= i < |all| ::
                      all[i].id in ids <==> start <= all[i].blockNumber < height || (i < j && all[i].blockNumber == height)
          invariant NoRepeats(ids) && SetOf(ids) <= Ids(all)
        {
          if all[j].blockNumber == height {
            assert all[j].id !in ids && all[j].id in Ids(all);
            ids := ids + [all[j].id];
          }
        }
        height := height + 1;
      }
    }

    method DetectReorg(state: BlockchainStateService, current: BlockInfo, previous: int) returns (reorg: Option<ReorgEvent>)
      requires state.Valid()
      ensures reorg.Some? <==> Forked(state.blocks, current, previous)
      ensures reorg.Some? ==> Describes(state.blocks, state.events, current, previous, reorg.value)
    {
      if previous == 0 {
        return None;
      }
      var expectedParent := CanonicalAt(state.blocks, previous);
      if expectedParent.None? {
        return None;
      }
      if expectedParent.value.blockHash == current.parentHash {
        return None;
      }
      var depth := FindDivergencePoint(state, current);
      var ids := GetAffectedEvents(state, previous - depth + 1, previous);
      reorg := Some(ReorgEvent(depth, previous - depth + 1, previous, ids));
    }

    /** Refuses a depth below one. */
    method SetConfirmationDepth(depth: int) returns (ok: bool)
      modifies this
      ensures ok <==> depth >= 1
      ensures confirmationDepth == if ok then depth else old(confirmationDepth)
    {
      if depth < 1 {
        return false;
      }
      confirmationDepth := depth;
      ok := true;
    }
  }
}

/** Rolling a reorganisation back, and confirming orphaned events again. */
module Reconciliation {
  import opened Wrappers
  import opened BlockchainState
  import opened ReorgDetector

  /** Every event with one of the ids is orphaned, and nothing else about any event changes. */
  ghost predicate OrphanedExactly(before: seq<PendingEvent>, after: seq<PendingEvent>, ids: seq<string>) {
    && |after| == |before|
    && forall i | 0 <= i < |before| ::
         after[i] == if before[i].id in ids then before[i].(status := Orphaned) else before[i]
  }

  ghost predicate UncanonicalExactly(before: seq<BlockRecord>, after: seq<BlockRecord>, reorg: ReorgEvent) {
    && |after| == |before|
    && forall i | 0 <= i < |before| ::
         after[i] == if Affected(before[i].blockNumber, reorg) then before[i].(isCanonical := false) else before[i]
  }

  /** An orphaned event with enough blocks above it is confirmed. */
  function Reconciled(e: PendingEvent, head: int, depth: int, now: int): PendingEvent {
    var c := Confirmations(e.blockNumber, head);
    if e.status.Orphaned? && c >= depth then Updated(e, Confirmed, Some(c), now) else e
  }

  ghost predicate ReconciledExactly(before: seq<PendingEvent>, after: seq<PendingEvent>, head: int, depth: int, now: int) {
    |after| == |before| && forall i | 0 <= i < |before| :: after[i] == Reconciled(before[i], head, depth, now)
  }

  /** The orphaned events among the ids. */
  function OrphansAmong(events: seq<PendingEvent>, ids: seq<string>): set<PendingEvent> {
    set e | e in events && e.status.Orphaned? && e.id in ids
  }

  /** The orphaned events with enough blocks above them. */
  function DeepOrphans(events: seq<PendingEvent>, head: int, depth: int): set<PendingEvent> {
    set e | e in events && e.status.Orphaned? && (head - e.blockNumber >= depth || depth <= 0)
  }

  /**
   What depth makes of an event, in block numbers: an unconfirmed one is confirmed exactly when the head is at least
   the depth above it, and otherwise a pending one is told how many blocks are above it.  No other field changes.
   */
  predicate JudgedByDepth(before: PendingEvent, after: PendingEvent, head: int, depth: int, now: int) {
    var above := if head > before.blockNumber then head - before.blockNumber else 0;
    && before == after.(status := before.status, confirmations := before.confirmations, confirmedAt := before.confirmedAt)
    && if before.status.Confirmed? then after == before
       else if head - before.blockNumber >= depth || depth <= 0
       then after.status.Confirmed? && after.confirmations == above && after.confirmedAt == Some(now)
       else
         && after.status == before.status && after.confirmedAt == before.confirmedAt
         && after.confirmations == if before.status.Pending? then above else before.confirmations
  }

  class ReconciliationService {
    const detector: ReorgDetectorService

    constructor (detector: ReorgDetectorService)
      ensures this.detector == detector
    {
      this.detector := detector;
    }

    /** Orphans exactly the reorg's events and makes exactly its heights non-canonical. */
    method HandleReorg(state: BlockchainStateService, reorg: ReorgEvent, now: int) returns (res: Result<(), Error>)
      requires state.Valid()
      modifies state
      ensures state.Valid() && res.Success?
      ensures OrphanedExactly(old(state.events), state.events, reorg.orphanedEvents)
      ensures UncanonicalExactly(old(state.blocks), state.blocks, reorg)
      ensures state.PendingDrift() == old(state.PendingDrift()) && state.OrphanDrift() >= old(state.OrphanDrift())
      ensures NoRepeats(reorg.orphanedEvents) ==>
                state.OrphanDrift() == old(state.OrphanDrift()) + |OrphansAmong(old(state.events), reorg.orphanedEvents)|
      ensures state.chainState.lastProcessedBlock == old(state.chainState.lastProcessedBlock)
    {
      res := RollbackAffectedEvents(state, reorg.orphanedEvents, now);
      MarkBlocksAsNonCanonical(state, reorg);
      state.RecordReorg(reorg);
    }

    method RollbackAffectedEvents(state: BlockchainStateService, ids: seq<string>, now: int) returns (res: Result<(), Error>)
      requires state.Valid()
      modifies state`events, state`chainState
      ensures state.Valid() && res.Success?
      ensures OrphanedExactly(old(state.events), state.events, ids)
      ensures state.PendingDrift() == old(state.PendingDrift()) && state.OrphanDrift() >= old(state.OrphanDrift())
      ensures NoRepeats(ids) ==> state.OrphanDrift() == old(state.OrphanDrift()) + |OrphansAmong(old(state.events), ids)|
      ensures state.chainState.lastProcessedBlock == old(state.chainState.lastProcessedBlock)
    {
      assert OrphansAmong(state.events, ids[..0]) == {};
      for k := 0 to |ids|
        invariant state.Valid()
        invariant OrphanedExactly(old(state.events), state.events, ids[..k])
        invariant state.PendingDrift() == old(state.PendingDrift()) && state.OrphanDrift() >= old(state.OrphanDrift())
        invariant NoRepeats(ids) ==>
                    state.OrphanDrift() == old(state.OrphanDrift()) + |OrphansAmong(old(state.events), ids[..k])|
        invariant state.chainState.lastProcessedBlock == old(state.chainState.lastProcessedBlock)
      {
        assert ids[..k + 1] == ids[..k] + [ids[k]];
        OneMoreOrphan(old(state.events), ids, k);
        if HasEvent(state.events, ids[k]) {
          var updated := state.UpdateEventStatus(ids[k], Orphaned, None, now);
          if updated.Failure? {
            return updated;
          }
        }
      }
      assert ids[..|ids|] == ids;
      res := Success(());
    }

    method MarkBlocksAsNonCanonical(state: BlockchainStateService, reorg: ReorgEvent)
      requires state.Valid()
      modifies state`blocks
      ensures state.Valid()
      ensures UncanonicalExactly(old(state.blocks), state.blocks, reorg)
    {
      var numbers: seq<int> := [];
      var i := reorg.affectedBlockStart;
      while i <= reorg.affectedBlockEnd
        invariant reorg.affectedBlockStart <= i && (i <= reorg.affectedBlockEnd + 1 || i == reorg.affectedBlockStart)
        invariant forall n :: n in numbers <==> reorg.affectedBlockStart <= n < i
        decreases reorg.affectedBlockEnd - i
      {
        numbers := numbers + [i];
        i := i + 1;
      }
      state.MarkBlocksNonCanonical(numbers);
    }

    /** The check of the counters against the events: it passes exactly when neither counter has drifted. */
    method VerifyStateConsistency(state: BlockchainStateService) returns (isConsistent: bool)
      ensures isConsistent <==> state.PendingDrift() == 0 && state.OrphanDrift() == 0
    {
      isConsistent := true;
      if Count(state.events, Pending) != state.chainState.pendingEventCount {
        isConsistent := false;
      }
      if Count(state.events, Orphaned) != state.chainState.orphanedEventCount {
        isConsistent := false;
      }
    }

    /** Confirms orphaned events by depth alone: whether their block is canonical is not looked at. */
    method ReconcileOrphanedEvents(state: BlockchainStateService, head: int, now: int) returns (res: Result<(), Error>)
      requires state.Valid()
      modifies state`events, state`chainState
      ensures state.Valid() && res.Success?
      ensures ReconciledExactly(old(state.events), state.events, head, detector.confirmationDepth, now)
      ensures forall i | 0 <= i < |state.events| ::
                if old(state.events)[i].status.Orphaned?
                then JudgedByDepth(old(state.events)[i], state.events[i], head, detector.confirmationDepth, now)
                else state.events[i] == old(state.events)[i]
      ensures state.PendingDrift() == old(state.PendingDrift())
      ensures state.OrphanDrift() == old(state.OrphanDrift()) + |DeepOrphans(old(state.events), head, detector.confirmationDepth)|
    {
      var all, depth := state.events, detector.confirmationDepth;
      assert DeepOrphans(all[..0], head, depth) == {};
      for k := 0 to |all|
        invariant state.Valid() && |state.events| == |all| && detector.confirmationDepth == depth
        invariant ReconciledExactly(all[..k], state.events[..k], head, depth, now)
        invariant state.events[k..] == all[k..]
        invariant state.PendingDrift() == old(state.PendingDrift())
        invariant state.OrphanDrift() == old(state.OrphanDrift()) + |DeepOrphans(all[..k], head, depth)|
      {
        assert state.events[k..][0] == all[k..][0] && state.events[k..][1..] == all[k..][1..];
        assert state.events[k + 1..] == all[k + 1..];
        OneMoreDeep(all, k, head, depth);
        if all[k].status.Orphaned? {
          var confirmations := Confirmations(all[k].blockNumber, head);
          if detector.IsConfirmed(all[k].blockNumber, head) {
            OwnPlace(state.events, k);
            var updated := state.UpdateEventStatus(all[k].id, Confirmed, Some(confirmations), now);
            if updated.Failure? {
              return updated;
            }
          }
        }
        ReconciledNext(all, state.events, k, head, depth, now);
      }
      assert all[..|all|] == all && state.events[..|all|] == state.events;
      res := Success(());
    }
  }

  lemma ReconciledNext(before: seq<PendingEvent>, after: seq<PendingEvent>, k: nat, head: int, depth: int, now: int)
    requires k < |before| == |after| && ReconciledExactly(before[..k], after[..k], head, depth, now)
    requires after[k] == Reconciled(before[k], head, depth, now)
    ensures ReconciledExactly(before[..k + 1], after[..k + 1], head, depth, now)
  {
    assert before[..k + 1] == before[..k] + [before[k]] && after[..k + 1] == after[..k] + [after[k]];
  }

  /** The next id adds its event if that is orphaned. */
  lemma OneMoreOrphan(events: seq<PendingEvent>, ids: seq<string>, k: nat)
    requires DistinctIds(events) && k < |ids|
    ensures NoRepeats(ids) ==>
              |OrphansAmong(events, ids[..k + 1])| == |OrphansAmong(events, ids[..k])| +
                if HasEvent(events, ids[k]) && events[PlaceOf(events, ids[k])].status.Orphaned? then 1 else 0
    ensures NoRepeats(ids) ==> ids[k] !in ids[..k]
  {
    if NoRepeats(ids) {
      assert ids[..k + 1] == ids[..k] + [ids[k]];
      OrphansWith(events, ids[..k], ids[k]);
    }
  }

  /** The orphaned event with this id, if there is one. */
  function OrphanWith(events: seq<PendingEvent>, id: string): set<PendingEvent> {
    var i := PlaceOf(events, id);
    if i < |events| && events[i].status.Orphaned? then {events[i]} else {}
  }

  lemma OrphansWith(events: seq<PendingEvent>, ids: seq<string>, id: string)
    requires DistinctIds(events) && id !in ids
    ensures OrphansAmong(events, ids + [id]) == OrphansAmong(events, ids) + OrphanWith(events, id)
    ensures OrphansAmong(events, ids) !! OrphanWith(events, id)
  {
    forall e | e in events && e.id == id
      ensures e == events[PlaceOf(events, id)] && PlaceOf(events, id) < |events|
    {
      var j :| 0 <= j < |events| && events[j] == e;
      OwnPlace(events, j);
    }
  }

  /** The next event counts if it is orphaned and deep enough. */
  lemma OneMoreDeep(events: seq<PendingEvent>, k: nat, head: int, depth: int)
    requires DistinctIds(events) && k < |events|
    ensures |DeepOrphans(events[..k + 1], head, depth)| == |DeepOrphans(events[..k], head, depth)| +
              if events[k].status.Orphaned? && (head - events[k].blockNumber >= depth || depth <= 0) then 1 else 0
  {
    var before, after := DeepOrphans(events[..k], head, depth), DeepOrphans(events[..k + 1], head, depth);
    assert events[..k + 1] == events[..k] + [events[k]];
    assert events[k] !in events[..k];
    if events[k].status.Orphaned? && (head - events[k].blockNumber >= depth || depth <= 0) {
      assert after == before + {events[k]};
    } else {
      assert after == before;
    }
  }

  lemma OwnPlace(events: seq<PendingEvent>, k: nat)
    requires DistinctIds(events) && k < |events|
    ensures PlaceOf(events, events[k].id) == k
  {
  }

  // ---------- A whole reorganisation ----------

  /** Detected and handled: events and blocks before and after, with the reorg if there was one. */
  ghost predicate RolledBack(blocks: seq<BlockRecord>, blocks': seq<BlockRecord>, events: seq<PendingEvent>, events': seq<PendingEvent>,
                             current: BlockInfo, previous: int, reorg: Option<ReorgEvent>) {
    if reorg.None? then !Forked(blocks, current, previous) && blocks' == blocks && events' == events
    else
      && Forked(blocks, current, previous) && Describes(blocks, events, current, previous, reorg.value)
      && OrphanedExactly(events, events', reorg.value.orphanedEvents) && UncanonicalExactly(blocks, blocks', reorg.value)
  }

  /** The walk ends where it starts. */
  predicate WalkEndsAtOnce(blocks: seq<BlockRecord>, current: BlockInfo) {
    var b := CanonicalAt(blocks, current.number);
    current.number <= 0 || b.None? || (b.value.blockHash == current.parentHash && b.value.blockHash != current.hash)
  }

  /**
   A reported fork changes nothing exactly when the walk ends where it starts: in particular whenever the fork is
   announced by a block at a height where nothing canonical is stored.
   */
  lemma ForkChangesNothingIff(blocks: seq<BlockRecord>, blocks': seq<BlockRecord>, events: seq<PendingEvent>, events': seq<PendingEvent>,
                              current: BlockInfo, previous: int, reorg: Option<ReorgEvent>)
    requires RolledBack(blocks, blocks', events, events', current, previous, reorg) && reorg.Some?
    ensures events' == events && blocks' == blocks <==> WalkEndsAtOnce(blocks, current)
  {
    var d := reorg.value.reorgDepth;
    assert WalkEndsAtOnce(blocks, current) <==> d == 0 by {
      assert d > 0 ==> WithinWalk(current, 0) && !Stops(blocks, current, 0);
      assert d == 0 && WithinWalk(current, 0) ==> Stops(blocks, current, 0);
      assert AncestorHash(blocks, current.hash, 0) == current.hash;
    }
    if d > 0 {
      var parent := CanonicalAt(blocks, previous).value;
      var i :| 0 <= i < |blocks| && blocks[i] == parent;
      assert blocks'[i] != blocks[i];
    }
  }

  /** The height belongs to the chain that a new block at `number` replaces. */
  predicate Replaced(height: int, current: BlockInfo, previous: int) { current.number <= height <= previous }

  /**
   A block that is not canonical yet replaces the heights from its own up to the last processed one.  The reorg's
   range is that exactly when so many heights from its own downward hold stored blocks that are not its parent.
   */
  lemma RangeIsReplacedHeightsIff(blocks: seq<BlockRecord>, events: seq<PendingEvent>, current: BlockInfo, previous: int, reorg: ReorgEvent)
    requires Describes(blocks, events, current, previous, reorg)
    requires CanonicalByHash(blocks, current.hash).None? && current.parentHash != ""
    ensures (forall h :: Affected(h, reorg) <==> Replaced(h, current, previous)) <==>
            StoredRun(blocks, current.number, Some(current.parentHash), MAX_WALK + 1) == Max(0, previous - current.number + 1)
  {
    DivergenceBounded(blocks, current, reorg.reorgDepth);
    NewBlockRun(blocks, current, reorg.reorgDepth, 0);
    assert Affected(previous, reorg) <==> reorg.reorgDepth > 0;
    assert Replaced(previous, current, previous) <==> current.number <= previous;
    assert current.number <= previous ==> Replaced(current.number, current, previous) && !Replaced(current.number - 1, current, previous);
    assert Affected(current.number, reorg) <==> previous - reorg.reorgDepth < current.number <= previous;
    assert Affected(current.number - 1, reorg) <==> previous - reorg.reorgDepth < current.number - 1 <= previous;
  }

  /** With the parent stored right below, that is when it replaces the last processed height alone. */
  lemma OnStoredParentIff(blocks: seq<BlockRecord>, events: seq<PendingEvent>, current: BlockInfo, previous: int, reorg: ReorgEvent)
    requires Describes(blocks, events, current, previous, reorg) && 0 < current.number <= previous
    requires CanonicalByHash(blocks, current.hash).None? && current.parentHash != ""
    requires CanonicalAt(blocks, current.number).Some? && CanonicalAt(blocks, current.number).value.blockHash != current.parentHash
    requires CanonicalAt(blocks, current.number - 1).Some? && CanonicalAt(blocks, current.number - 1).value.blockHash == current.parentHash
    ensures (forall h :: Affected(h, reorg) <==> Replaced(h, current, previous)) <==> current.number == previous
  {
    RangeIsReplacedHeightsIff(blocks, events, current, previous, reorg);
    ReplacementHasDepthOne(blocks, current, reorg.reorgDepth);
    DivergenceBounded(blocks, current, reorg.reorgDepth);
    NewBlockRun(blocks, current, reorg.reorgDepth, 0);
  }

  /** With a parent that is not stored, the range is as long as the stored run from the block's height to its end. */
  lemma UnknownParentRange(blocks: seq<BlockRecord>, events: seq<PendingEvent>, current: BlockInfo, previous: int, reorg: ReorgEvent)
    requires Describes(blocks, events, current, previous, reorg)
    requires CanonicalByHash(blocks, current.hash).None? && current.parentHash != ""
    requires forall i | 0 <= i < |blocks| && blocks[i].isCanonical :: blocks[i].blockHash != current.parentHash
    ensures forall h :: Affected(h, reorg) <==>
              previous - StoredRun(blocks, current.number, None, MAX_WALK + 1) < h <= previous
  {
    DivergenceBounded(blocks, current, reorg.reorgDepth);
    NewBlockRun(blocks, current, reorg.reorgDepth, 0);
    UnknownParentRun(blocks, current.number, current.parentHash, MAX_WALK + 1);
  }

  /**
   Delivering the last processed block once more is reported as a fork, and its range is the whole stored run: up
   to 1001 heights are orphaned although nothing was replaced.
   */
  lemma RedeliveryUnwinds(blocks: seq<BlockRecord>, events: seq<PendingEvent>, current: BlockInfo, reorg: ReorgEvent)
    requires Redelivered(blocks, current) && current.number != 0
    requires CanonicalAt(blocks, current.number).Some?
    ensures Forked(blocks, current, current.number)
    ensures Describes(blocks, events, current, current.number, reorg) ==>
              forall h :: Affected(h, reorg) <==> current.number - StoredRun(blocks, current.number, None, MAX_WALK + 1) < h <= current.number
  {
    if Describes(blocks, events, current, current.number, reorg) {
      DivergenceBounded(blocks, current, reorg.reorgDepth);
      RedeliveredRun(blocks, current, reorg.reorgDepth, 0);
    }
  }
}
