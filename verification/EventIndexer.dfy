/**
 The range indexer of one contract and event: each poll scans the next batch of
 confirmed blocks, stores the logs it does not hold yet, and only then moves
 `lastProcessedBlockNumber`.

 `chain` is the sequence of logs of that contract and event, in the order
 `getLogs` returns them; it is the confirmed part, which does not change.
 */
module EventIndexer {
  import opened Wrappers

  datatype LogKey = LogKey(transactionHash: string, logIndex: int)

  datatype Log = Log(key: LogKey, block: int)

  datatype Config = Config(startBlock: int, blockRangePerBatch: int, confirmationsRequired: int)

  /** The saved state row, if there is one, and the stored logs in the order they were stored. */
  datatype Index = Index(last: Option<int>, stored: seq<Log>)

  /** How a poll ends: the fetch fails, the process stops after some logs, or it completes. */
  datatype Outcome = RpcFails | Crash(after: nat) | Completes

  function Min(a: int, b: int): int { if a < b then a else b }

  function Max(a: int, b: int): int { if a < b then b else a }

  // ---------- One poll ----------

  /** `getLogs` over a block range. */
  function Logs(chain: seq<Log>, from: int, to: int): seq<Log> {
    if chain == [] then []
    else
      var l := chain[|chain| - 1];
      Logs(chain[..|chain| - 1], from, to) + if from <= l.block <= to then [l] else []
  }

  predicate Holds(stored: seq<Log>, key: LogKey) {
    exists i :: 0 <= i < |stored| && stored[i].key == key
  }

  /** A log already stored is skipped; a failure while storing one is logged and swallowed. */
  function StoreOne(stored: seq<Log>, l: Log, failing: set<LogKey>): seq<Log> {
    if Holds(stored, l.key) || l.key in failing then stored else stored + [l]
  }

  function StoreAll(stored: seq<Log>, logs: seq<Log>, failing: set<LogKey>): seq<Log>
    decreases logs
  {
    if logs == [] then stored else StoreAll(StoreOne(stored, logs[0], failing), logs[1..], failing)
  }

  function RangeEnd(c: Config, last: int, head: int): int {
    Min(last + 1 + c.blockRangePerBatch - 1, head - c.confirmationsRequired)
  }

  function FirstLogs(logs: seq<Log>, n: nat): seq<Log> {
    if n < |logs| then logs[..n] else logs
  }

  function Poll(c: Config, chain: seq<Log>, ix: Index, head: int, outcome: Outcome, failing: set<LogKey>): Index {
    if ix.last.None? || RangeEnd(c, ix.last.value, head) <= ix.last.value then ix
    else
      var end := RangeEnd(c, ix.last.value, head);
      var logs := Logs(chain, ix.last.value + 1, end);
      match outcome
      case RpcFails => ix
      case Crash(after) => ix.(stored := StoreAll(ix.stored, FirstLogs(logs, after), failing))
      case Completes => Index(Some(end), StoreAll(ix.stored, logs, failing))
  }

  /** A start or restart: the state row is created only when it is missing. */
  function Initialize(c: Config, ix: Index): Index {
    if ix.last.None? then ix.(last := Some(c.startBlock - 1)) else ix
  }

  function Backfill(ix: Index, block: int): Index {
    if ix.last.None? then ix else ix.(last := Some(block - 1))
  }

  // ---------- The service ----------

  class EventIndexerService {
    const config: Config
    var last: Option<int>
    var stored: seq<Log>

    constructor (config: Config)
      ensures this.config == config && State() == Index(None, [])
    {
      this.config, last, stored := config, None, [];
    }

    ghost function State(): Index
      reads this
    {
      Index(last, stored)
    }

    method InitializeIndexingState()
      modifies this
      ensures State() == Initialize(config, old(State()))
    {
      if last.None? {
        last := Some(config.startBlock - 1);
      }
    }

    method ProcessEvent(l: Log, failing: set<LogKey>)
      modifies this`stored
      ensures stored == StoreOne(old(stored), l, failing)
    {
      for i := 0 to |stored|
        invariant forall j | 0 <= j < i :: stored[j].key != l.key
      {
        if stored[i].key == l.key {
          return;
        }
      }
      if l.key in failing {
        return;
      }
      stored := stored + [l];
    }

    method ProcessEvents(events: seq<Log>, failing: set<LogKey>)
      modifies this`stored
      ensures stored == StoreAll(old(stored), events, failing)
    {
      for i := 0 to |events|
        invariant StoreAll(stored, events[i..], failing) == StoreAll(old(stored), events, failing)
      {
        assert events[i..][0] == events[i] && events[i..][1..] == events[i + 1..];
        ProcessEvent(events[i], failing);
      }
      assert events[|events|..] == [];
    }

    method IndexEventType(chain: seq<Log>, head: int, outcome: Outcome, failing: set<LogKey>)
      modifies this
      ensures State() == Poll(config, chain, old(State()), head, outcome, failing)
    {
      if last.None? {
        return;
      }
      var startBlock := last.value + 1;
      var endBlock := Min(startBlock + config.blockRangePerBatch - 1, head - config.confirmationsRequired);
      if startBlock > endBlock {
        return;
      }
      if outcome.RpcFails? {
        return;
      }
      var events := Logs(chain, startBlock, endBlock);
      if outcome.Crash? {
        events := FirstLogs(events, outcome.after);
      }
      ProcessEvents(events, failing);
      if outcome.Crash? {
        return;
      }
      last := Some(endBlock);
    }

    method BackfillFromBlock(block: int) returns (res: Result<(), ()>)
      modifies this
      ensures State() == Backfill(old(State()), block)
      ensures res.Failure? <==> old(last).None?
      ensures res.Success? ==> last == Some(block - 1) && stored == old(stored)
      ensures res.Failure? ==> last == old(last) && stored == old(stored)
    {
      if last.None? {
        return Failure(());
      }
      last := Some(block - 1);
      res := Success(());
    }
  }

  // ---------- The chain ----------

  /** Logs come in block order, and no two share a key. */
  ghost predicate IsChain(chain: seq<Log>) {
    && (forall i, j | 0 <= i < j < |chain| :: chain[i].block <= chain[j].block)
    && UniqueKeys(chain)
  }

  ghost predicate UniqueKeys(logs: seq<Log>) {
    forall i, j | 0 <= i < j < |logs| :: logs[i].key != logs[j].key
  }

  lemma {:induction false} LogsIn(chain: seq<Log>, from: int, to: int)
    ensures forall l :: l in Logs(chain, from, to) <==> l in chain && from <= l.block <= to
    decreases |chain|
  {
    if chain != [] {
      LogsIn(chain[..|chain| - 1], from, to);
      assert chain == chain[..|chain| - 1] + [chain[|chain| - 1]];
    }
  }

  lemma {:induction false} NoLogsAbove(chain: seq<Log>, from: int, to: int)
    requires forall i | 0 <= i < |chain| :: chain[i].block < from
    ensures Logs(chain, from, to) == []
    decreases |chain|
  {
    if chain != [] {
      NoLogsAbove(chain[..|chain| - 1], from, to);
    }
  }

  /** Adjacent ranges return adjacent logs. */
  lemma {:induction false} LogsSplit(chain: seq<Log>, from: int, mid: int, to: int)
    requires IsChain(chain) && from <= mid + 1 && mid <= to
    ensures Logs(chain, from, to) == Logs(chain, from, mid) + Logs(chain, mid + 1, to)
    decreases |chain|
  {
    if chain != [] {
      var rest, l := chain[..|chain| - 1], chain[|chain| - 1];
      LogsSplit(rest, from, mid, to);
      var low, high := Logs(rest, from, mid), Logs(rest, mid + 1, to);
      if l.block <= mid {
        NoLogsAbove(rest, mid + 1, to);
        assert Logs(chain, mid + 1, to) == [] && Logs(chain, from, to) == Logs(chain, from, mid);
      } else {
        var last := if l.block <= to then [l] else [];
        assert Logs(chain, from, mid) == low && Logs(chain, mid + 1, to) == high + last;
        assert Logs(chain, from, to) == (low + high) + last == low + (high + last);
      }
    }
  }

  lemma {:induction false} LogsUnique(chain: seq<Log>, from: int, to: int)
    requires IsChain(chain)
    ensures UniqueKeys(Logs(chain, from, to))
    decreases |chain|
  {
    if chain != [] {
      var rest, l := chain[..|chain| - 1], chain[|chain| - 1];
      LogsUnique(rest, from, to);
      LogsIn(rest, from, to);
      forall i | 0 <= i < |Logs(rest, from, to)|
        ensures Logs(rest, from, to)[i].key != l.key
      {
        assert Logs(rest, from, to)[i] in rest;
      }
    }
  }

  // ---------- Runs ----------

  datatype Op =
    | InitOp
    | PollOp(head: int, outcome: Outcome, failing: set<LogKey>)
    | BackfillOp(block: int)

  function Step(c: Config, chain: seq<Log>, ix: Index, op: Op): Index {
    match op
    case InitOp => Initialize(c, ix)
    case PollOp(head, outcome, failing) => Poll(c, chain, ix, head, outcome, failing)
    case BackfillOp(block) => Backfill(ix, block)
  }

  function Run(c: Config, chain: seq<Log>, ix: Index, ops: seq<Op>): Index
    decreases ops
  {
    if ops == [] then ix else Run(c, chain, Step(c, chain, ix, ops[0]), ops[1..])
  }

  const FRESH := Index(None, [])

  /** Every backfill of the run goes back at most to the block after the last one processed, and not below `low`. */
  ghost predicate BackfillsBehind(c: Config, chain: seq<Log>, ix: Index, ops: seq<Op>, low: int)
    decreases ops
  {
    ops == [] ||
    (&& (ops[0].BackfillOp? && ix.last.Some? ==> low <= ops[0].block <= ix.last.value + 1)
     && BackfillsBehind(c, chain, Step(c, chain, ix, ops[0]), ops[1..], low))
  }

  ghost predicate NoStoreFails(ops: seq<Op>) {
    forall i | 0 <= i < |ops| && ops[i].PollOp? :: ops[i].failing == {}
  }

  // ---------- Without store failures: a prefix of the chain ----------

  /** All logs of the chain from a block on. */
  function LogsFrom(chain: seq<Log>, from: int): seq<Log> {
    Logs(chain, from, Top(chain, from))
  }

  /** A block above everything on the chain, and at least `floor`. */
  function Top(chain: seq<Log>, floor: int): int {
    if chain == [] then floor else Max(floor, chain[|chain| - 1].block)
  }

  lemma LogsFromSplit(chain: seq<Log>, from: int, mid: int)
    requires IsChain(chain) && from <= mid + 1
    ensures LogsFrom(chain, from) == Logs(chain, from, mid) + LogsFrom(chain, mid + 1)
  {
    var top := Max(Top(chain, from), Max(mid, Top(chain, mid + 1)));
    LogsSplit(chain, from, Top(chain, from), top);
    NoLogsAbove(chain, Top(chain, from) + 1, top);
    LogsSplit(chain, mid + 1, Top(chain, mid + 1), top);
    NoLogsAbove(chain, Top(chain, mid + 1) + 1, top);
    LogsSplit(chain, from, mid, top);
  }

  /** The stored logs are the first ones of the chain from the start block, at least up to the last processed block. */
  ghost predicate StoredPrefix(c: Config, chain: seq<Log>, ix: Index) {
    && ix.stored <= LogsFrom(chain, c.startBlock)
    && (ix.last.None? ==> ix.stored == [])
    && (ix.last.Some? ==> c.startBlock <= ix.last.value + 1 && Logs(chain, c.startBlock, ix.last.value) <= ix.stored)
  }

  /** Storing a stretch of `all` that begins inside what is stored extends the stored prefix to its end. */
  lemma {:induction false} StoreStretch(all: seq<Log>, n: nat, i: nat, j: nat)
    requires UniqueKeys(all) && i <= n <= |all| && i <= j <= |all|
    ensures StoreAll(all[..n], all[i..j], {}) == all[..if n < j then j else n]
    decreases j - i
  {
    if i < j {
      var stretch := all[i..j];
      assert stretch[0] == all[i] && stretch[1..] == all[i + 1..j];
      if i < n {
        assert all[..n][i].key == all[i].key;
        StoreStretch(all, n, i + 1, j);
      } else {
        assert forall k | 0 <= k < n :: all[..n][k].key != all[i].key;
        assert all[..n] + [all[i]] == all[..n + 1];
        StoreStretch(all, n + 1, i + 1, j);
      }
    }
  }

  /** The same for the part `logs` of `all` that follows `done`, or a beginning of it. */
  lemma StorePart(all: seq<Log>, stored: seq<Log>, done: seq<Log>, logs: seq<Log>, tail: seq<Log>, k: nat)
    requires UniqueKeys(all) && all == done + logs + tail && stored <= all && done <= stored && k <= |logs|
    ensures var after := StoreAll(stored, logs[..k], {});
            stored <= after && after <= all && done + logs[..k] <= after
  {
    var upTo := |done| + k;
    assert all[|done|..upTo] == logs[..k];
    assert stored == all[..|stored|];
    assert done + logs[..k] == all[..upTo];
    StoreStretch(all, |stored|, |done|, upTo);
    var reached := if |stored| < upTo then upTo else |stored|;
    assert all[..|stored|] <= all[..reached] <= all && all[..upTo] <= all[..reached];
  }

  /** A poll that gets past the fetch stores the first `k` logs of its range, all of them when it completes. */
  lemma PollStores(c: Config, chain: seq<Log>, ix: Index, head: int, outcome: Outcome, failing: set<LogKey>) returns (k: nat)
    requires ix.last.Some? && RangeEnd(c, ix.last.value, head) > ix.last.value && !outcome.RpcFails?
    ensures var end := RangeEnd(c, ix.last.value, head);
            var logs := Logs(chain, ix.last.value + 1, end);
            && k <= |logs| && (outcome.Completes? ==> k == |logs|)
            && Poll(c, chain, ix, head, outcome, failing) ==
               Index(if outcome.Completes? then Some(end) else ix.last, StoreAll(ix.stored, logs[..k], failing))
  {
    var logs := Logs(chain, ix.last.value + 1, RangeEnd(c, ix.last.value, head));
    k := if outcome.Crash? && outcome.after < |logs| then outcome.after else |logs|;
    assert logs[..|logs|] == logs;
  }

  /** Storing the first logs of the range after the last processed block. */
  lemma RangeExtendsPrefix(c: Config, chain: seq<Log>, ix: Index, end: int, k: nat)
    requires IsChain(chain) && StoredPrefix(c, chain, ix) && ix.last.Some? && ix.last.value < end
    requires k <= |Logs(chain, ix.last.value + 1, end)|
    ensures var logs := Logs(chain, ix.last.value + 1, end);
            var after := StoreAll(ix.stored, logs[..k], {});
            && ix.stored <= after && after <= LogsFrom(chain, c.startBlock)
            && (k == |logs| ==> Logs(chain, c.startBlock, end) <= after)
  {
    var last := ix.last.value;
    var done, logs := Logs(chain, c.startBlock, last), Logs(chain, last + 1, end);
    LogsUnique(chain, c.startBlock, Top(chain, c.startBlock));
    LogsFromSplit(chain, c.startBlock, last);
    LogsFromSplit(chain, last + 1, end);
    LogsSplit(chain, c.startBlock, last, end);
    assert logs[..|logs|] == logs;
    StorePart(LogsFrom(chain, c.startBlock), ix.stored, done, logs, LogsFrom(chain, end + 1), k);
  }

  lemma PollKeepsPrefix(c: Config, chain: seq<Log>, ix: Index, head: int, outcome: Outcome)
    requires IsChain(chain) && StoredPrefix(c, chain, ix)
    ensures StoredPrefix(c, chain, Poll(c, chain, ix, head, outcome, {}))
  {
    if ix.last.Some? && RangeEnd(c, ix.last.value, head) > ix.last.value && !outcome.RpcFails? {
      var k := PollStores(c, chain, ix, head, outcome, {});
      RangeExtendsPrefix(c, chain, ix, RangeEnd(c, ix.last.value, head), k);
    }
  }

  lemma BackfillKeepsPrefix(c: Config, chain: seq<Log>, ix: Index, block: int)
    requires IsChain(chain) && StoredPrefix(c, chain, ix)
    requires ix.last.Some? ==> c.startBlock <= block <= ix.last.value + 1
    ensures StoredPrefix(c, chain, Backfill(ix, block))
  {
    if ix.last.Some? {
      LogsSplit(chain, c.startBlock, block - 1, ix.last.value);
    }
  }

  lemma InitKeepsPrefix(c: Config, chain: seq<Log>, ix: Index)
    requires IsChain(chain) && StoredPrefix(c, chain, ix)
    ensures StoredPrefix(c, chain, Initialize(c, ix))
  {
    EmptyRange(chain, c.startBlock);
  }

  lemma {:induction false} EmptyRange(chain: seq<Log>, from: int)
    ensures Logs(chain, from, from - 1) == []
    decreases |chain|
  {
    if chain != [] {
      EmptyRange(chain[..|chain| - 1], from);
    }
  }

  /**
   With any heads, failed fetches, crashes in the middle of a batch, restarts and backfills, the stored logs are
   always an initial stretch of the chain's logs from the start block, each once and in order, and hold every
   log up to `lastProcessedBlockNumber`.
   */
  lemma {:induction false} StoredIsChainPrefix(c: Config, chain: seq<Log>, ix: Index, ops: seq<Op>)
    requires IsChain(chain) && StoredPrefix(c, chain, ix)
    requires NoStoreFails(ops) && BackfillsBehind(c, chain, ix, ops, c.startBlock)
    ensures StoredPrefix(c, chain, Run(c, chain, ix, ops)) && UniqueKeys(Run(c, chain, ix, ops).stored)
    ensures ix.stored <= Run(c, chain, ix, ops).stored
    decreases ops
  {
    if ops == [] {
      LogsUnique(chain, c.startBlock, Top(chain, c.startBlock));
    } else {
      var next := Step(c, chain, ix, ops[0]);
      match ops[0] {
        case InitOp => InitKeepsPrefix(c, chain, ix);
        case PollOp(head, outcome, failing) =>
          PollKeepsPrefix(c, chain, ix, head, outcome);
          StoreOnlyAdds(c, chain, ix, ops[0]);
        case BackfillOp(block) => BackfillKeepsPrefix(c, chain, ix, block);
      }
      StoredIsChainPrefix(c, chain, next, ops[1..]);
    }
  }

  lemma StoreOnlyAdds(c: Config, chain: seq<Log>, ix: Index, op: Op)
    ensures ix.stored <= Step(c, chain, ix, op).stored
  {
    if op.PollOp? && ix.last.Some? && RangeEnd(c, ix.last.value, op.head) > ix.last.value && !op.outcome.RpcFails? {
      var k := PollStores(c, chain, ix, op.head, op.outcome, op.failing);
      StoreAllAdds(ix.stored, Logs(chain, ix.last.value + 1, RangeEnd(c, ix.last.value, op.head))[..k], op.failing);
    }
  }

  lemma {:induction false} StoreAllAdds(stored: seq<Log>, logs: seq<Log>, failing: set<LogKey>)
    ensures stored <= StoreAll(stored, logs, failing)
    decreases logs
  {
    if logs != [] {
      StoreAllAdds(StoreOne(stored, logs[0], failing), logs[1..], failing);
    }
  }

  /** Nothing is stored yet, or exactly the logs up to the last processed block. */
  ghost predicate Exact(c: Config, chain: seq<Log>, ix: Index) {
    ix == FRESH || (ix.last.Some? && c.startBlock <= ix.last.value + 1 && ix.stored == Logs(chain, c.startBlock, ix.last.value))
  }

  /** Storing the next range after everything before it. */
  lemma StoreNextRange(chain: seq<Log>, from: int, last: int, end: int)
    requires IsChain(chain) && from <= last + 1 && last <= end
    ensures StoreAll(Logs(chain, from, last), Logs(chain, last + 1, end), {}) == Logs(chain, from, end)
  {
    var all, done := Logs(chain, from, end), Logs(chain, from, last);
    LogsSplit(chain, from, last, end);
    LogsUnique(chain, from, end);
    assert all[..|done|] == done && all[|done|..|all|] == Logs(chain, last + 1, end);
    StoreStretch(all, |done|, |done|, |all|);
    assert all[..|all|] == all;
  }

  lemma PollKeepsExact(c: Config, chain: seq<Log>, ix: Index, head: int, outcome: Outcome)
    requires IsChain(chain) && Exact(c, chain, ix) && !outcome.Crash?
    ensures Exact(c, chain, Poll(c, chain, ix, head, outcome, {}))
  {
    if ix.last.Some? && RangeEnd(c, ix.last.value, head) > ix.last.value && outcome.Completes? {
      var end := RangeEnd(c, ix.last.value, head);
      StoreNextRange(chain, c.startBlock, ix.last.value, end);
      assert Poll(c, chain, ix, head, outcome, {}) == Index(Some(end), Logs(chain, c.startBlock, end));
    } else {
      assert Poll(c, chain, ix, head, outcome, {}) == ix;
    }
  }

  /** Without crashes and backfills the stored logs are exactly those up to the last processed block. */
  lemma {:induction false} SteadyRunIsExact(c: Config, chain: seq<Log>, ix: Index, ops: seq<Op>)
    requires IsChain(chain) && NoStoreFails(ops) && Exact(c, chain, ix)
    requires forall i | 0 <= i < |ops| :: !ops[i].BackfillOp? && (ops[i].PollOp? ==> !ops[i].outcome.Crash?)
    ensures Exact(c, chain, Run(c, chain, ix, ops))
    decreases ops
  {
    if ops != [] {
      if ops[0].InitOp? {
        EmptyRange(chain, c.startBlock);
      } else {
        PollKeepsExact(c, chain, ix, ops[0].head, ops[0].outcome);
      }
      SteadyRunIsExact(c, chain, Step(c, chain, ix, ops[0]), ops[1..]);
    }
  }

  // ---------- With store failures: only failed logs are missing ----------

  /** The logs whose storing failed at some point of a run. */
  ghost function EverFailed(ops: seq<Op>): set<LogKey>
    decreases ops
  {
    if ops == [] then {} else (if ops[0].PollOp? then ops[0].failing else {}) + EverFailed(ops[1..])
  }

  /** Only chain logs are stored, none twice, and up to the last processed block only `lost` ones are missing. */
  ghost predicate Covered(c: Config, chain: seq<Log>, ix: Index, lost: set<LogKey>) {
    && UniqueKeys(ix.stored)
    && (forall i | 0 <= i < |ix.stored| :: ix.stored[i] in chain)
    && (ix.last.Some? ==> forall l | l in chain && c.startBlock <= l.block <= ix.last.value :: l in ix.stored || l.key in lost)
  }

  lemma {:induction false} StoreAllCovers(chain: seq<Log>, stored: seq<Log>, logs: seq<Log>, failing: set<LogKey>)
    requires IsChain(chain) && UniqueKeys(stored)
    requires forall i | 0 <= i < |stored| :: stored[i] in chain
    requires forall i | 0 <= i < |logs| :: logs[i] in chain
    ensures var after := StoreAll(stored, logs, failing);
            && UniqueKeys(after)
            && (forall i | 0 <= i < |after| :: after[i] in chain)
            && (forall l | l in logs :: l in after || l.key in failing)
    decreases logs
  {
    if logs != [] {
      var next := StoreOne(stored, logs[0], failing);
      if Holds(stored, logs[0].key) {
        var i :| 0 <= i < |stored| && stored[i].key == logs[0].key;
        SameKeySameLog(chain, stored[i], logs[0]);
      }
      StoreAllCovers(chain, next, logs[1..], failing);
      StoreAllAdds(next, logs[1..], failing);
      assert logs[0] in next || logs[0].key in failing;
    }
  }

  lemma SameKeySameLog(chain: seq<Log>, a: Log, b: Log)
    requires IsChain(chain) && a in chain && b in chain && a.key == b.key
    ensures a == b
  {
  }

  lemma PollCovers(c: Config, chain: seq<Log>, ix: Index, end: int, k: nat, failing: set<LogKey>, lost: set<LogKey>)
    requires IsChain(chain) && Covered(c, chain, ix, lost) && ix.last.Some? && ix.last.value < end
    requires k <= |Logs(chain, ix.last.value + 1, end)|
    ensures var logs := Logs(chain, ix.last.value + 1, end);
            var after := StoreAll(ix.stored, logs[..k], failing);
            && Covered(c, chain, Index(ix.last, after), lost + failing)
            && (k == |logs| ==> Covered(c, chain, Index(Some(end), after), lost + failing))
  {
    var logs := Logs(chain, ix.last.value + 1, end);
    var part := logs[..k];
    LogsIn(chain, ix.last.value + 1, end);
    assert logs[..|logs|] == logs;
    assert forall i | 0 <= i < |part| :: part[i] in logs;
    StoreAllCovers(chain, ix.stored, part, failing);
    StoreAllAdds(ix.stored, part, failing);
  }

  lemma StepCovers(c: Config, chain: seq<Log>, ix: Index, op: Op, lost: set<LogKey>)
    requires IsChain(chain) && Covered(c, chain, ix, lost)
    requires op.BackfillOp? && ix.last.Some? ==> op.block <= ix.last.value + 1
    ensures Covered(c, chain, Step(c, chain, ix, op), lost + if op.PollOp? then op.failing else {})
  {
    if op.PollOp? && ix.last.Some? && RangeEnd(c, ix.last.value, op.head) > ix.last.value && !op.outcome.RpcFails? {
      var k := PollStores(c, chain, ix, op.head, op.outcome, op.failing);
      PollCovers(c, chain, ix, RangeEnd(c, ix.last.value, op.head), k, op.failing, lost);
    }
  }

  /**
   With per-log store failures as well, and backfills to any block up to the one after the last processed:
   nothing is stored twice, and a log of a processed block is missing only if storing it failed.
   */
  lemma {:induction false} OnlyFailedLogsMissing(c: Config, chain: seq<Log>, ix: Index, ops: seq<Op>, lost: set<LogKey>)
    requires IsChain(chain) && Covered(c, chain, ix, lost)
    requires exists low :: BackfillsBehind(c, chain, ix, ops, low)
    ensures Covered(c, chain, Run(c, chain, ix, ops), lost + EverFailed(ops))
    decreases ops
  {
    if ops == [] {
      assert lost + EverFailed(ops) == lost;
    } else {
      var low :| BackfillsBehind(c, chain, ix, ops, low);
      var next, more := Step(c, chain, ix, ops[0]), if ops[0].PollOp? then ops[0].failing else {};
      StepCovers(c, chain, ix, ops[0], lost);
      assert BackfillsBehind(c, chain, next, ops[1..], low);
      OnlyFailedLogsMissing(c, chain, next, ops[1..], lost + more);
      assert lost + more + EverFailed(ops[1..]) == lost + EverFailed(ops);
    }
  }

  // ---------- Exactly which logs are missing ----------

  /** The block of the log counts as processed. */
  predicate Processed(ix: Index, l: Log) {
    ix.last.Some? && ix.last.value >= l.block
  }

  /** The index after the first `n` operations. */
  function At(c: Config, chain: seq<Log>, ops: seq<Op>, n: nat): Index
    requires n <= |ops|
  {
    Run(c, chain, FRESH, ops[..n])
  }

  /**
   Operation `i` is where the run loses the log: it is not stored, the operation makes its block count as
   processed, either without scanning it or while storing it fails, and the block stays processed from then on.
   */
  ghost predicate LosesAt(c: Config, chain: seq<Log>, ops: seq<Op>, l: Log, i: nat) {
    && i < |ops|
    && !Processed(At(c, chain, ops, i), l) && !Holds(At(c, chain, ops, i).stored, l.key)
    && (ops[i].PollOp? ==> l.key in ops[i].failing)
    && forall j | i < j <= |ops| :: Processed(At(c, chain, ops, j), l)
  }

  lemma {:induction false} StoreAllHolds(stored: seq<Log>, logs: seq<Log>, failing: set<LogKey>, key: LogKey)
    ensures Holds(StoreAll(stored, logs, failing), key) <==> Holds(stored, key) || (key !in failing && Holds(logs, key))
    decreases logs
  {
    if logs != [] {
      var next := StoreOne(stored, logs[0], failing);
      StoreAllHolds(next, logs[1..], failing, key);
      HoldsSnoc(stored, logs[0], key);
      assert logs == [logs[0]] + logs[1..];
      assert Holds(logs, key) <==> logs[0].key == key || Holds(logs[1..], key) by {
        if Holds(logs[1..], key) {
          var i :| 0 <= i < |logs[1..]| && logs[1..][i].key == key;
          assert logs[i + 1].key == key;
        }
        if Holds(logs, key) && logs[0].key != key {
          var i :| 0 <= i < |logs| && logs[i].key == key;
          assert logs[1..][i - 1].key == key;
        }
      }
    }
  }

  lemma HoldsSnoc(stored: seq<Log>, l: Log, key: LogKey)
    ensures Holds(stored + [l], key) <==> Holds(stored, key) || l.key == key
  {
    assert (stored + [l])[|stored|] == l;
    if Holds(stored, key) {
      var i :| 0 <= i < |stored| && stored[i].key == key;
      assert (stored + [l])[i].key == key;
    }
  }

  /** A range returns a log of the chain exactly when it covers the log's block. */
  lemma RangeHolds(chain: seq<Log>, from: int, to: int, l: Log)
    requires IsChain(chain) && l in chain
    ensures Holds(Logs(chain, from, to), l.key) <==> from <= l.block <= to
  {
    LogsIn(chain, from, to);
    var logs := Logs(chain, from, to);
    if Holds(logs, l.key) {
      var i :| 0 <= i < |logs| && logs[i].key == l.key;
      SameKeySameLog(chain, logs[i], l);
    }
  }

  /** A poll stores nothing of a block that is processed, and the logs of a block it processes unless they fail. */
  lemma PollHolds(c: Config, chain: seq<Log>, ix: Index, op: Op, l: Log)
    requires IsChain(chain) && l in chain && op.PollOp?
    ensures var next := Step(c, chain, ix, op);
            && (Processed(ix, l) ==> Processed(next, l) && (Holds(next.stored, l.key) <==> Holds(ix.stored, l.key)))
            && (!Processed(ix, l) && Processed(next, l) ==>
                  (Holds(next.stored, l.key) <==> Holds(ix.stored, l.key) || l.key !in op.failing))
  {
    if ix.last.Some? && RangeEnd(c, ix.last.value, op.head) > ix.last.value && !op.outcome.RpcFails? {
      var last, end := ix.last.value, RangeEnd(c, ix.last.value, op.head);
      var logs := Logs(chain, last + 1, end);
      var k := PollStores(c, chain, ix, op.head, op.outcome, op.failing);
      RangeHolds(chain, last + 1, end, l);
      StoreAllHolds(ix.stored, logs[..k], op.failing, l.key);
      if Holds(logs[..k], l.key) {
        var i :| 0 <= i < k && logs[..k][i].key == l.key;
        assert logs[i].key == l.key;
      }
      assert logs[..|logs|] == logs;
    }
  }

  /** Going back repairs a lost log: the next poll that reaches its block stores it, unless storing it fails again. */
  lemma BackfillRepairs(c: Config, chain: seq<Log>, ix: Index, block: int, head: int, failing: set<LogKey>, l: Log)
    requires IsChain(chain) && l in chain && ix.last.Some?
    requires block <= l.block <= RangeEnd(c, block - 1, head)
    ensures var back := Step(c, chain, ix, BackfillOp(block));
            var next := Step(c, chain, back, PollOp(head, Completes, failing));
            && back.last == Some(block - 1) && back.stored == ix.stored
            && next.last == Some(RangeEnd(c, block - 1, head))
            && (Holds(next.stored, l.key) <==> Holds(ix.stored, l.key) || l.key !in failing)
  {
    var back := Step(c, chain, ix, BackfillOp(block));
    PollHolds(c, chain, back, PollOp(head, Completes, failing), l);
  }

  lemma {:induction false} RunSnoc(c: Config, chain: seq<Log>, ix: Index, ops: seq<Op>, op: Op)
    ensures Run(c, chain, ix, ops + [op]) == Step(c, chain, Run(c, chain, ix, ops), op)
    decreases ops
  {
    if ops == [] {
      assert ([] + [op])[1..] == [];
    } else {
      assert (ops + [op])[1..] == ops[1..] + [op];
      RunSnoc(c, chain, Step(c, chain, ix, ops[0]), ops[1..], op);
    }
  }

  /** The earlier operations of a longer run are those of a shorter one. */
  lemma SameStart(c: Config, chain: seq<Log>, ops: seq<Op>, l: Log)
    requires ops != []
    ensures var n := |ops| - 1;
            && (forall j | 0 <= j <= n :: At(c, chain, ops, j) == At(c, chain, ops[..n], j))
            && At(c, chain, ops, |ops|) == Step(c, chain, At(c, chain, ops[..n], n), ops[n])
            && forall i: nat | i < n ::
                 LosesAt(c, chain, ops, l, i) <==> LosesAt(c, chain, ops[..n], l, i) && Processed(At(c, chain, ops, |ops|), l)
  {
    var n := |ops| - 1;
    forall j | 0 <= j <= n
      ensures At(c, chain, ops, j) == At(c, chain, ops[..n], j)
    {
      assert ops[..n][..j] == ops[..j];
    }
    assert ops[..|ops|] == ops[..n][..n] + [ops[n]];
    RunSnoc(c, chain, FRESH, ops[..n][..n], ops[n]);
    forall i: nat | i < n
      ensures LosesAt(c, chain, ops, l, i) <==> LosesAt(c, chain, ops[..n], l, i) && Processed(At(c, chain, ops, |ops|), l)
    {
      LosesLonger(c, chain, ops, l, i);
    }
  }

  lemma LosesLonger(c: Config, chain: seq<Log>, ops: seq<Op>, l: Log, i: nat)
    requires i < |ops| - 1
    requires forall j | 0 <= j <= |ops| - 1 :: At(c, chain, ops, j) == At(c, chain, ops[..|ops| - 1], j)
    ensures LosesAt(c, chain, ops, l, i) <==> LosesAt(c, chain, ops[..|ops| - 1], l, i) && Processed(At(c, chain, ops, |ops|), l)
  {
    var n := |ops| - 1;
    assert ops[..n][i] == ops[i];
    assert At(c, chain, ops, i) == At(c, chain, ops[..n], i);
    if LosesAt(c, chain, ops, l, i) {
      forall j | i < j <= n
        ensures Processed(At(c, chain, ops[..n], j), l)
      {
        assert Processed(At(c, chain, ops, j), l);
      }
    }
    if LosesAt(c, chain, ops[..n], l, i) && Processed(At(c, chain, ops, |ops|), l) {
      forall j | i < j <= |ops|
        ensures Processed(At(c, chain, ops, j), l)
      {
        assert j <= n ==> Processed(At(c, chain, ops[..n], j), l);
      }
    }
  }

  /**
   With any heads, failed fetches, crashes, restarts, failing logs and backfills in either direction: a log of a
   processed block is missing exactly when some operation of the run loses it.
   */
  lemma {:induction false} MissingIff(c: Config, chain: seq<Log>, ops: seq<Op>, l: Log)
    requires IsChain(chain) && l in chain && Processed(At(c, chain, ops, |ops|), l)
    ensures !Holds(At(c, chain, ops, |ops|).stored, l.key) <==> exists i :: LosesAt(c, chain, ops, l, i)
    decreases |ops|
  {
    assert ops[..|ops|] == ops;
    if ops != [] {
      var n := |ops| - 1;
      SameStart(c, chain, ops, l);
      var before := At(c, chain, ops, n);
      if ops[n].PollOp? {
        PollHolds(c, chain, before, ops[n], l);
      }
      if Processed(before, l) {
        assert ops[..n][..n] == ops[..n];
        MissingIff(c, chain, ops[..n], l);
        assert !LosesAt(c, chain, ops, l, n);
        if !Holds(before.stored, l.key) {
          var i :| LosesAt(c, chain, ops[..n], l, i);
          assert LosesAt(c, chain, ops, l, i);
        }
      } else {
        assert forall i: nat | i < n :: !LosesAt(c, chain, ops[..n], l, i);
        assert LosesAt(c, chain, ops, l, n) <==> !Holds(At(c, chain, ops, |ops|).stored, l.key);
      }
    }
  }

  /** A log missing from a processed block is never stored again without a backfill. */
  lemma {:induction false} StaysLost(c: Config, chain: seq<Log>, ix: Index, ops: seq<Op>, l: Log)
    requires IsChain(chain) && l in chain && Processed(ix, l) && !Holds(ix.stored, l.key)
    requires forall i | 0 <= i < |ops| :: !ops[i].BackfillOp?
    ensures Processed(Run(c, chain, ix, ops), l) && !Holds(Run(c, chain, ix, ops).stored, l.key)
    decreases ops
  {
    if ops != [] {
      if ops[0].PollOp? {
        PollHolds(c, chain, ix, ops[0], l);
      }
      StaysLost(c, chain, Step(c, chain, ix, ops[0]), ops[1..], l);
    }
  }

  /**
   In any state, a poll that completes over the block of a log it fails to store loses the log: however many polls
   and restarts follow, it is not stored unless an operator goes back.
   */
  lemma SwallowedFailureLosesLog(c: Config, chain: seq<Log>, ix: Index, poll: Op, later: seq<Op>, l: Log)
    requires IsChain(chain) && l in chain && !Processed(ix, l) && !Holds(ix.stored, l.key)
    requires poll.PollOp? && l.key in poll.failing && Processed(Step(c, chain, ix, poll), l)
    requires forall i | 0 <= i < |later| :: !later[i].BackfillOp?
    ensures var end := Run(c, chain, ix, [poll] + later); Processed(end, l) && !Holds(end.stored, l.key)
  {
    PollHolds(c, chain, ix, poll, l);
    StaysLost(c, chain, Step(c, chain, ix, poll), later, l);
    assert ([poll] + later)[1..] == later;
  }

  /** Whatever the chain and the stored logs are, going to this block leaves every processed block covered. */
  ghost predicate BackfillIsSafe(c: Config, last: int, block: int) {
    forall chain, stored | IsChain(chain) && Covered(c, chain, Index(Some(last), stored), {}) ::
      Covered(c, chain, Backfill(Index(Some(last), stored), block), {})
  }

  /** A backfill is safe exactly when it goes at most to the block after the last processed one. */
  lemma BackfillIsSafeIff(c: Config, last: int, block: int)
    requires c.startBlock <= last + 1
    ensures BackfillIsSafe(c, last, block) <==> block <= last + 1
  {
    if block <= last + 1 {
      forall chain, stored | IsChain(chain) && Covered(c, chain, Index(Some(last), stored), {})
        ensures Covered(c, chain, Backfill(Index(Some(last), stored), block), {})
      {
      }
    } else {
      var l := Log(LogKey("", 0), last + 1);
      var chain, stored: seq<Log> := [l], [];
      assert IsChain(chain) && Covered(c, chain, Index(Some(last), stored), {});
      assert l in chain && l !in stored;
      assert !Covered(c, chain, Backfill(Index(Some(last), stored), block), {});
    }
  }

  // ---------- A contract with several events ----------

  /** The state row of some event of the contract is moved, and no other. */
  ghost predicate MovesOne(before: map<string, int>, after: map<string, int>, block: int) {
    exists e :: e in before && after == before[e := block - 1]
  }

  predicate AllAt(rows: map<string, int>, last: int) {
    forall e | e in rows :: rows[e] == last
  }

  /** Whichever row the query returns, all events of the contract go back. */
  ghost predicate BackfillMovesAll(rows: map<string, int>, block: int) {
    forall after | MovesOne(rows, after, block) :: AllAt(after, block - 1)
  }

  /** A backfill of a contract reaches all its events exactly when there is one, or all are there already. */
  lemma BackfillMovesAllIff(rows: map<string, int>, block: int)
    requires rows != map[]
    ensures BackfillMovesAll(rows, block) <==> |rows.Keys| == 1 || AllAt(rows, block - 1)
  {
    var e :| e in rows;
    var others := rows.Keys - {e};
    assert rows.Keys == others + {e};
    assert MovesOne(rows, rows[e := block - 1], block);
    if others != {} {
      var f :| f in others;
      assert |others| >= 1;
      assert MovesOne(rows, rows[f := block - 1], block);
      if BackfillMovesAll(rows, block) {
        forall g | g in rows
          ensures rows[g] == block - 1
        {
          var moved := if g == e then rows[f := block - 1] else rows[e := block - 1];
          assert AllAt(moved, block - 1) && moved[g] == rows[g];
        }
      }
    }
  }

  /** The state rows of the events of one contract. */
  class ContractStates {
    var rows: map<string, int>

    constructor (rows: map<string, int>)
      ensures this.rows == rows
    {
      this.rows := rows;
    }

    /** `findOne` by contract alone returns the row of any of its events. */
    method BackfillFromBlock(block: int) returns (res: Result<(), ()>)
      modifies this
      ensures res.Success? <==> old(rows) != map[]
      ensures if res.Success? then MovesOne(old(rows), rows, block) else rows == old(rows)
    {
      if rows == map[] {
        return Failure(());
      }
      var e :| e in rows.Keys;
      rows := rows[e := block - 1];
      res := Success(());
    }
  }

  // ---------- Ranges ----------

  /** What a step does to the last processed block; the chain and the stored logs do not matter to it. */
  function LastAfter(c: Config, last: Option<int>, op: Op): Option<int> {
    match op
    case InitOp => if last.None? then Some(c.startBlock - 1) else last
    case PollOp(head, outcome, _) =>
      if last.Some? && outcome.Completes? && RangeEnd(c, last.value, head) > last.value then Some(RangeEnd(c, last.value, head)) else last
    case BackfillOp(block) => if last.None? then None else Some(block - 1)
  }

  function LastsAfter(c: Config, last: Option<int>, ops: seq<Op>): Option<int>
    decreases ops
  {
    if ops == [] then last else LastsAfter(c, LastAfter(c, last, ops[0]), ops[1..])
  }

  lemma StepLast(c: Config, chain: seq<Log>, ix: Index, op: Op)
    ensures Step(c, chain, ix, op).last == LastAfter(c, ix.last, op)
  {
  }

  lemma {:induction false} RunLast(c: Config, chain: seq<Log>, ix: Index, ops: seq<Op>)
    ensures Run(c, chain, ix, ops).last == LastsAfter(c, ix.last, ops)
    decreases ops
  {
    if ops != [] {
      StepLast(c, chain, ix, ops[0]);
      RunLast(c, chain, Step(c, chain, ix, ops[0]), ops[1..]);
    }
  }

  /** The ranges of the polls that completed, in order. */
  function Ranges(c: Config, last: Option<int>, ops: seq<Op>): seq<(int, int)>
    decreases ops
  {
    if ops == [] then []
    else
      var next := LastAfter(c, last, ops[0]);
      (if ops[0].PollOp? && next != last && last.Some? && next.Some? then [(last.value + 1, next.value)] else [])
      + Ranges(c, next, ops[1..])
  }

  /** Ranges that begin at `from`, follow each other without gap or overlap, and end at `to`. */
  ghost predicate Tile(ranges: seq<(int, int)>, from: int, to: int)
    decreases ranges
  {
    if ranges == [] then to == from - 1
    else ranges[0].0 == from <= ranges[0].1 && Tile(ranges[1..], ranges[0].1 + 1, to)
  }

  lemma StepRange(c: Config, last: int, op: Op, confirmed: int)
    requires last <= confirmed && !op.BackfillOp?
    requires op.PollOp? ==> op.head - c.confirmationsRequired <= confirmed
    ensures var next := LastAfter(c, Some(last), op);
            && next.Some? && last <= next.value <= confirmed
            && (next.value != last ==> op.PollOp? && next.value - last <= c.blockRangePerBatch)
  {
  }

  lemma {:induction false} LastsTile(c: Config, last: int, ops: seq<Op>, confirmed: int)
    requires last <= confirmed
    requires forall i | 0 <= i < |ops| :: !ops[i].BackfillOp? && (ops[i].PollOp? ==> ops[i].head - c.confirmationsRequired <= confirmed)
    ensures var end, ranges := LastsAfter(c, Some(last), ops), Ranges(c, Some(last), ops);
            && end.Some? && end.value <= confirmed
            && Tile(ranges, last + 1, end.value)
            && forall i | 0 <= i < |ranges| :: ranges[i].1 - ranges[i].0 + 1 <= c.blockRangePerBatch
    decreases ops
  {
    if ops != [] {
      StepRange(c, last, ops[0], confirmed);
      var next := LastAfter(c, Some(last), ops[0]);
      LastsTile(c, next.value, ops[1..], confirmed);
      OneMoreRange(last, next.value, Ranges(c, next, ops[1..]), LastsAfter(c, next, ops[1..]).value, c.blockRangePerBatch);
    }
  }

  /** The scanned ranges tile the blocks from the first to the last processed one, within the confirmed chain. */
  lemma RangesTile(c: Config, chain: seq<Log>, ix: Index, ops: seq<Op>, confirmed: int)
    requires ix.last.Some? && ix.last.value <= confirmed
    requires forall i | 0 <= i < |ops| :: !ops[i].BackfillOp? && (ops[i].PollOp? ==> ops[i].head - c.confirmationsRequired <= confirmed)
    ensures var end, ranges := Run(c, chain, ix, ops), Ranges(c, ix.last, ops);
            && end.last.Some? && end.last.value <= confirmed
            && Tile(ranges, ix.last.value + 1, end.last.value)
            && forall i | 0 <= i < |ranges| :: ranges[i].1 - ranges[i].0 + 1 <= c.blockRangePerBatch
  {
    RunLast(c, chain, ix, ops);
    LastsTile(c, ix.last.value, ops, confirmed);
  }

  lemma OneMoreRange(last: int, next: int, rest: seq<(int, int)>, to: int, batch: int)
    requires last <= next && (last < next ==> next - last <= batch) && Tile(rest, next + 1, to)
    requires forall i | 0 <= i < |rest| :: rest[i].1 - rest[i].0 + 1 <= batch
    ensures var all := (if next != last then [(last + 1, next)] else []) + rest;
            Tile(all, last + 1, to) && forall i | 0 <= i < |all| :: all[i].1 - all[i].0 + 1 <= batch
  {
    if next != last {
      assert ([(last + 1, next)] + rest)[1..] == rest;
    } else {
      assert [] + rest == rest;
    }
  }

  /** `k` completed polls at one head. */
  function Polls(head: int, k: nat): seq<Op> {
    if k == 0 then [] else [PollOp(head, Completes, {})] + Polls(head, k - 1)
  }

  /** `k` batches, one after the other. */
  function Batches(k: nat, batch: int): int {
    if k == 0 then 0 else batch + Batches(k - 1, batch)
  }

  lemma {:induction false} BatchesIs(k: nat, batch: int)
    ensures Batches(k, batch) == k * batch
    decreases k
  {
    if k > 0 {
      BatchesIs(k - 1, batch);
      assert k * batch == (k - 1) * batch + batch;
    }
  }

  lemma {:induction false} PollsReach(c: Config, last: int, head: int, k: nat)
    requires c.blockRangePerBatch >= 1 && last <= head - c.confirmationsRequired
    ensures LastsAfter(c, Some(last), Polls(head, k)) ==
            Some(Min(last + Batches(k, c.blockRangePerBatch), head - c.confirmationsRequired))
    ensures Batches(k, c.blockRangePerBatch) >= 0
    decreases k
  {
    if k > 0 {
      assert Polls(head, k)[1..] == Polls(head, k - 1);
      PollsReach(c, Min(last + c.blockRangePerBatch, head - c.confirmationsRequired), head, k - 1);
    }
  }

  /** At a fixed head the indexer has caught up after exactly ceil(gap / batch) polls, and not before. */
  lemma CatchUp(c: Config, chain: seq<Log>, ix: Index, head: int, k: nat)
    requires c.blockRangePerBatch >= 1 && ix.last.Some? && ix.last.value <= head - c.confirmationsRequired
    ensures var end, confirmed := Run(c, chain, ix, Polls(head, k)), head - c.confirmationsRequired;
            && end.last == Some(Min(ix.last.value + k * c.blockRangePerBatch, confirmed))
            && (end.last == Some(confirmed) <==> k * c.blockRangePerBatch >= confirmed - ix.last.value)
  {
    BatchesIs(k, c.blockRangePerBatch);
    RunLast(c, chain, ix, Polls(head, k));
    PollsReach(c, ix.last.value, head, k);
  }
}
