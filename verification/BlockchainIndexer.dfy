/**
 The reorg-safe indexer: token transfers are applied to balance rows at most
 once each, a checkpoint follows, and a reorganisation undoes every event from
 a block onward.

 The database is three tables.  `base` stands for the balances before any of
 the stored events: a database is consistent when its balances are `base` plus
 the deltas of exactly the stored events.
 */
module BlockchainIndexer {
  import opened Wrappers
  import opened MapSums
  import Sorting

  datatype Account = Account(address: string, token: string)

  datatype Transfer = Transfer(from: string, to: string, amount: int, token: string)

  /** The unique index of `processed_events`. */
  datatype EventKey = EventKey(txHash: string, logIndex: int)

  datatype Event = Event(blockNumber: nat, eventType: string, payload: Option<Transfer>) {
    predicate IsTransfer() { eventType == "Transfer" }

    /** A Transfer without data cannot be destructured: its transaction throws. */
    predicate Storable() { IsTransfer() ==> payload.Some? }
  }

  type Balances = map<Account, int>
  type Events = map<EventKey, Event>

  datatype Db = Db(balances: Balances, events: Events, checkpoint: Option<nat>)

  /** Where, if anywhere, the database throws during a transaction. */
  datatype Fault = NoFault | AtEventRow | AtBalances | AtCheckpoint | AtCommit

  datatype Error = TransactionFailed

  function Max(a: int, b: int): int { if a < b then b else a }

  // ---------- Balances ----------

  /** What a stored event adds to one account.  Rows without a payload are never reversed, so count as nothing. */
  function Delta(e: Event, a: Account): int {
    if !e.IsTransfer() || e.payload.None? then 0
    else
      var t := e.payload.value;
      (if a == Account(t.to, t.token) then t.amount else 0) - (if a == Account(t.from, t.token) then t.amount else 0)
  }

  ghost function DeltaOf(a: Account): (EventKey, Event) -> int {
    (k: EventKey, e: Event) => Delta(e, a)
  }

  /** The sum of the deltas of a set of events. */
  ghost function Ledger(events: Events, a: Account): int {
    Sum(events, DeltaOf(a))
  }

  /** `increment` and `decrement` touch existing rows only. */
  function Add(balances: Balances, a: Account, amount: int): Balances {
    if a in balances then balances[a := balances[a] + amount] else balances
  }

  function ApplyTransfer(balances: Balances, t: Transfer): Balances {
    Add(Add(balances, Account(t.from, t.token), -t.amount), Account(t.to, t.token), t.amount)
  }

  function ReverseTransfer(balances: Balances, t: Transfer): Balances {
    Add(Add(balances, Account(t.from, t.token), t.amount), Account(t.to, t.token), -t.amount)
  }

  /** Applying moves every tracked row by its delta; no row appears or goes. */
  lemma TransferMovesDeltas(balances: Balances, e: Event)
    requires e.IsTransfer() && e.payload.Some?
    ensures ApplyTransfer(balances, e.payload.value) == map a | a in balances :: balances[a] + Delta(e, a)
  {
  }

  /** Reversing moves every tracked row back by its delta. */
  lemma ReversalMovesDeltas(balances: Balances, e: Event)
    requires e.IsTransfer() && e.payload.Some?
    ensures ReverseTransfer(balances, e.payload.value) == map a | a in balances :: balances[a] - Delta(e, a)
  {
  }

  // ---------- One call, seen from outside ----------

  function Below(events: Events, start: int): Events {
    map k | k in events && events[k].blockNumber < start :: events[k]
  }

  predicate Aborts(e: Event, fault: Fault) {
    || !e.Storable()
    || fault.AtEventRow? || fault.AtCheckpoint? || fault.AtCommit?
    || (fault.AtBalances? && e.IsTransfer())
  }

  /** A new event is stored, its deltas applied and the checkpoint raised; or nothing changes. */
  function Process(db: Db, key: EventKey, e: Event, fault: Fault): Db {
    if key in db.events || Aborts(e, fault) then db
    else
      Db(map a | a in db.balances :: db.balances[a] + Delta(e, a),
         db.events[key := e],
         Some(Max(if db.checkpoint.Some? then db.checkpoint.value else 0, e.blockNumber)))
  }

  /** The events from `start` on are gone, and with them their deltas. */
  ghost function Replay(db: Db, start: int, fault: Fault): Db {
    if !fault.NoFault? then db
    else
      var kept := Below(db.events, start);
      Db(Shifted(db.balances, db.events, kept), kept, Some(Max(0, start - 1)))
  }

  /** The balances `from` after only the events `rest` of `events` remain. */
  ghost function Shifted(from: Balances, events: Events, rest: Events): Balances {
    map a | a in from :: from[a] - Ledger(events, a) + Ledger(rest, a)
  }

  /** Reversing one row takes exactly that row out of the remaining events. */
  lemma ReversalShifts(from: Balances, events: Events, rest: Events, row: Row)
    requires row.key in rest && rest[row.key] == row.event
    ensures Shifted(from, events, rest - {row.key}) ==
            if row.event.IsTransfer() && row.event.payload.Some?
            then ReverseTransfer(Shifted(from, events, rest), row.event.payload.value)
            else Shifted(from, events, rest)
  {
    var before, after := Shifted(from, events, rest), Shifted(from, events, rest - {row.key});
    forall a | a in from
      ensures after[a] == before[a] - Delta(row.event, a)
    {
      SumRemove(rest, DeltaOf(a), row.key);
    }
    assert after == map a | a in before :: before[a] - Delta(row.event, a);
    if row.event.IsTransfer() && row.event.payload.Some? {
      ReversalMovesDeltas(before, row.event);
    } else {
      assert after == before;
    }
  }

  // ---------- The service ----------

  datatype Row = Row(key: EventKey, event: Event)

  /** The events that are left when some rows are gone. */
  function Remaining(events: Events, gone: seq<Row>): Events {
    events - set i | 0 <= i < |gone| :: gone[i].key
  }

  lemma NextRemaining(events: Events, rows: seq<Row>, i: nat)
    requires i < |rows| && forall j, k | 0 <= j < k < |rows| :: rows[j].key != rows[k].key
    requires rows[i].key in events
    ensures var left := Remaining(events, rows[..i]);
            && rows[i].key in left && left[rows[i].key] == events[rows[i].key]
            && Remaining(events, rows[..i + 1]) == left - {rows[i].key}
  {
    assert rows[..i + 1] == rows[..i] + [rows[i]];
  }

  lemma RemainingBelow(events: Events, rows: seq<Row>, start: int)
    requires forall k | k in events :: events[k].blockNumber >= start <==> exists i :: 0 <= i < |rows| && rows[i].key == k
    ensures Remaining(events, rows) == Below(events, start)
  {
  }

  /** `ORDER BY blockNumber DESC, logIndex DESC` */
  predicate NewerFirst(r: Row, s: Row) {
    || r.event.blockNumber > s.event.blockNumber
    || (r.event.blockNumber == s.event.blockNumber && r.key.logIndex >= s.key.logIndex)
  }

  class IndexerService {
    var balances: Balances
    var events: Events
    var checkpoint: Option<nat>

    constructor (balances: Balances)
      ensures State() == Db(balances, map[], None)
    {
      this.balances, events, checkpoint := balances, map[], None;
    }

    ghost function State(): Db
      reads this
    {
      Db(balances, events, checkpoint)
    }

    /**
     Every write happens on the transaction's own copies; only the commit at the end shows them.  A new event is
     stored, the tracked rows of a transfer's two sides move by its amount, and the checkpoint is raised to its block,
     from zero when there is none yet.
     */
    method ProcessEvent(key: EventKey, e: Event, fault: Fault) returns (res: Result<(), Error>)
      modifies this
      ensures State() == Process(old(State()), key, e, fault)
      ensures res.Failure? <==> key !in old(events) && Aborts(e, fault)
      ensures res.Failure? || key in old(events) ==> State() == old(State())
      ensures res.Success? && key !in old(events) ==>
                && events == old(events)[key := e]
                && balances.Keys == old(balances).Keys
                && (forall a | a in balances && e.eventType != "Transfer" :: balances[a] == old(balances)[a])
                && (forall a | a in balances && e.eventType == "Transfer" ::
                      && e.payload.Some?
                      && var t := e.payload.value;
                      balances[a] == old(balances)[a]
                                     + (if a.address == t.to && a.token == t.token then t.amount else 0)
                                     - (if a.address == t.from && a.token == t.token then t.amount else 0))
                && (old(checkpoint).Some? && e.blockNumber < old(checkpoint).value ==> checkpoint == old(checkpoint))
                && (old(checkpoint).None? || old(checkpoint).value <= e.blockNumber ==> checkpoint == Some(e.blockNumber))
    {
      if key in events {
        return Success(());
      }
      if fault.AtEventRow? {
        return Failure(TransactionFailed);
      }
      var txEvents, txBalances := events[key := e], balances;
      if e.IsTransfer() {
        if e.payload.None? || fault.AtBalances? {
          return Failure(TransactionFailed);
        }
        txBalances := ApplyTransfer(balances, e.payload.value);
        TransferMovesDeltas(balances, e);
      }
      if fault.AtCheckpoint? {
        return Failure(TransactionFailed);
      }
      var txCheckpoint := Max(if checkpoint.Some? then checkpoint.value else 0, e.blockNumber);
      if fault.AtCommit? {
        return Failure(TransactionFailed);
      }
      assert txBalances == map a | a in balances :: balances[a] + Delta(e, a);
      balances, events, checkpoint := txBalances, txEvents, Some(txCheckpoint);
      res := Success(());
    }

    /** The rows from `start` on, newest first. */
    method FindOrphaned(start: int) returns (rows: seq<Row>)
      ensures Sorting.SortedBy(rows, NewerFirst)
      ensures forall i, j | 0 <= i < j < |rows| ::
                || rows[i].event.blockNumber > rows[j].event.blockNumber
                || (rows[i].event.blockNumber == rows[j].event.blockNumber && rows[i].key.logIndex >= rows[j].key.logIndex)
      ensures forall i, j | 0 <= i < j < |rows| :: rows[i].key != rows[j].key
      ensures forall i | 0 <= i < |rows| :: rows[i].key in events && rows[i].event == events[rows[i].key]
      ensures forall k | k in events :: events[k].blockNumber >= start <==> exists i :: 0 <= i < |rows| && rows[i].key == k
    {
      var found: seq<Row> := [];
      var rest := events.Keys;
      while rest != {}
        invariant rest <= events.Keys
        invariant forall i, j | 0 <= i < j < |found| :: found[i] != found[j]
        invariant forall r: Row :: r in found <==> (r.key in events && r.key !in rest && r.event == events[r.key] && r.event.blockNumber >= start)
        decreases |rest|
      {
        var k :| k in rest;
        rest := rest - {k};
        if events[k].blockNumber >= start {
          found := found + [Row(k, events[k])];
        }
      }
      rows := Sorting.Sort(found, NewerFirst);
      Sorting.PermutationKeeps(found, rows);
      forall i, j | 0 <= i < j < |rows|
        ensures rows[i].key != rows[j].key
      {
        assert rows[i] in found && rows[j] in found;
      }
      forall k | k in events
        ensures events[k].blockNumber >= start <==> exists i :: 0 <= i < |rows| && rows[i].key == k
      {
        assert Row(k, events[k]) in rows <==> events[k].blockNumber >= start;
      }
    }

    /** Undoes the orphaned rows newest first, deletes them and moves the checkpoint to just before them. */
    method ReplayFromBlock(start: int, fault: Fault) returns (res: Result<(), Error>)
      modifies this
      ensures State() == Replay(old(State()), start, fault)
      ensures res.Failure? <==> !fault.NoFault?
      ensures res.Failure? ==> State() == old(State())
      ensures res.Success? ==>
                && (forall k | k in events :: k in old(events) && events[k] == old(events)[k])
                && (forall k | k in old(events) :: k in events <==> old(events)[k].blockNumber < start)
                && checkpoint == Some(if start >= 1 then start - 1 else 0)
    {
      if !fault.NoFault? {
        return Failure(TransactionFailed);
      }
      var orphaned := FindOrphaned(start);
      var txEvents, txBalances := events, balances;
      ghost var rest := txEvents;
      assert forall i | 0 <= i < |orphaned| :: orphaned[i].key in txEvents;
      assert orphaned[..0] == [];
      for i := 0 to |orphaned|
        invariant rest == Remaining(txEvents, orphaned[..i])
        invariant txBalances == Shifted(old(balances), txEvents, rest)
      {
        var row := orphaned[i];
        NextRemaining(txEvents, orphaned, i);
        ReversalShifts(old(balances), txEvents, rest, row);
        if row.event.IsTransfer() && row.event.payload.Some? {
          txBalances := ReverseTransfer(txBalances, row.event.payload.value);
        }
        rest := rest - {row.key};
      }
      assert orphaned[..|orphaned|] == orphaned;
      RemainingBelow(txEvents, orphaned, start);
      txEvents := Below(txEvents, start);
      balances, events, checkpoint := txBalances, txEvents, Some(Max(0, start - 1));
      res := Success(());
    }
  }

  // ---------- Whole runs ----------

  datatype Op =
    | ProcessOp(key: EventKey, event: Event, fault: Fault)
    | ReplayOp(start: int, fault: Fault)

  ghost function Step(db: Db, op: Op): Db {
    match op
    case ProcessOp(key, event, fault) => Process(db, key, event, fault)
    case ReplayOp(start, fault) => Replay(db, start, fault)
  }

  ghost function Run(db: Db, ops: seq<Op>): Db
    decreases ops
  {
    if ops == [] then db else Run(Step(db, ops[0]), ops[1..])
  }

  /** The balances that `base` and a set of events determine. */
  ghost function Determined(base: Balances, events: Events): Balances {
    map a | a in base :: base[a] + Ledger(events, a)
  }

  ghost predicate Consistent(base: Balances, db: Db) {
    && db.balances == Determined(base, db.events)
    && (forall k | k in db.events :: db.checkpoint.Some? && db.events[k].blockNumber <= db.checkpoint.value)
  }

  lemma StepConsistent(base: Balances, db: Db, op: Op)
    requires Consistent(base, db)
    ensures Consistent(base, Step(db, op))
  {
    if op.ProcessOp? && op.key !in db.events {
      forall a: Account
        ensures Ledger(db.events[op.key := op.event], a) == Delta(op.event, a) + Ledger(db.events, a)
      {
        SumInsert(db.events, DeltaOf(a), op.key, op.event);
      }
    }
  }

  /**
   In every run, with duplicates, faults and reorganisations in any order, each balance row is its initial
   value plus the deltas of exactly the stored events, and no stored event lies above the checkpoint.
   */
  lemma {:induction false} RunConsistent(base: Balances, db: Db, ops: seq<Op>)
    requires Consistent(base, db)
    ensures Consistent(base, Run(db, ops))
    decreases ops
  {
    if ops != [] {
      StepConsistent(base, db, ops[0]);
      RunConsistent(base, Step(db, ops[0]), ops[1..]);
    }
  }

  // ---------- Deliveries ----------

  /** Deliveries of events of `chain`: any order, any repetition, any faults. */
  ghost predicate Delivers(ops: seq<Op>, chain: Events) {
    forall i | 0 <= i < |ops| :: ops[i].ProcessOp? && ops[i].key in chain && ops[i].event == chain[ops[i].key]
  }

  /** The keys with at least one delivery that no fault interrupts. */
  ghost function Delivered(ops: seq<Op>): set<EventKey> {
    set i | 0 <= i < |ops| && ops[i].ProcessOp? && ops[i].fault.NoFault? :: ops[i].key
  }

  ghost predicate Submap(part: Events, whole: Events) {
    forall k | k in part :: k in whole && part[k] == whole[k]
  }

  ghost predicate AllStorable(chain: Events) {
    forall k | k in chain :: chain[k].Storable()
  }

  /** The checkpoint is where it started, or at the block of some stored event. */
  ghost predicate CheckpointAt(db: Db, floor: nat) {
    && db.checkpoint.Some? && db.checkpoint.value >= floor
    && (db.checkpoint.value == floor || exists k :: k in db.events && db.events[k].blockNumber == db.checkpoint.value)
  }

  lemma {:induction false} DeliveryStores(db: Db, ops: seq<Op>, chain: Events)
    requires Submap(db.events, chain) && AllStorable(chain) && Delivers(ops, chain)
    ensures var end := Run(db, ops);
            && Submap(end.events, chain)
            && db.events.Keys + Delivered(ops) <= end.events.Keys
    decreases ops
  {
    if ops != [] {
      var op, rest := ops[0], ops[1..];
      var next := Step(db, op);
      DeliveryStores(next, rest, chain);
      assert op.fault.NoFault? ==> op.key in next.events;
      assert db.events.Keys <= next.events.Keys;
      forall k | k in Delivered(ops)
        ensures k in Run(db, ops).events
      {
        var i :| 0 <= i < |ops| && ops[i].fault.NoFault? && ops[i].key == k;
        if i != 0 {
          assert rest[i - 1] == ops[i];
        }
      }
    }
  }

  lemma {:induction false} DeliveryCheckpoint(db: Db, ops: seq<Op>, chain: Events, floor: nat)
    requires Delivers(ops, chain) && CheckpointAt(db, floor)
    ensures CheckpointAt(Run(db, ops), floor)
    decreases ops
  {
    if ops != [] {
      var next := Step(db, ops[0]);
      if next != db && next.checkpoint == db.checkpoint && db.checkpoint.value != floor {
        var k :| k in db.events && db.events[k].blockNumber == db.checkpoint.value;
        assert k in next.events;
      } else if next != db && next.checkpoint != db.checkpoint {
        assert ops[0].key in next.events;
      }
      DeliveryCheckpoint(next, ops[1..], chain, floor);
    }
  }

  /**
   Reorganisation recovery: when the events below block `b` are the canonical ones, rolling back to `b` and
   delivering the canonical events from `b` on, in any order, with any repetition and with failed attempts
   in between, leaves exactly the canonical events, their balances and their highest block.
   */
  lemma ReorgConverges(base: Balances, db: Db, b: int, ops: seq<Op>, chain: Events)
    requires Consistent(base, db) && AllStorable(chain) && Delivers(ops, chain)
    requires Below(db.events, b) == Below(chain, b)
    requires forall k | k in chain && chain[k].blockNumber >= b :: k in Delivered(ops)
    ensures var end := Run(db, [ReplayOp(b, NoFault)] + ops);
            && end.events == chain
            && end.balances == Determined(base, chain)
            && CheckpointAt(end, Max(0, b - 1))
            && (forall k | k in chain :: chain[k].blockNumber <= end.checkpoint.value)
  {
    var all := [ReplayOp(b, NoFault)] + ops;
    var undone := Replay(db, b, NoFault);
    assert all[1..] == ops;
    RunConsistent(base, db, all);
    DeliveryStores(undone, ops, chain);
    DeliveryCheckpoint(undone, ops, chain, Max(0, b - 1));
    var end := Run(db, all);
    assert end == Run(undone, ops);
    forall k | k in chain
      ensures k in end.events
    {
      if chain[k].blockNumber < b {
        assert k in Below(chain, b);
        assert k in undone.events;
      }
    }
    assert end.events == chain;
  }

  /** The same events and balances as indexing the canonical chain from scratch, in any other order. */
  lemma RecoveryEqualsFromScratch(base: Balances, db: Db, b: int, ops: seq<Op>, scratch: seq<Op>, chain: Events)
    requires Consistent(base, db) && AllStorable(chain) && Delivers(ops, chain) && Delivers(scratch, chain)
    requires Below(db.events, b) == Below(chain, b)
    requires forall k | k in chain && chain[k].blockNumber >= b :: k in Delivered(ops)
    requires chain.Keys <= Delivered(scratch)
    ensures var recovered, indexed := Run(db, [ReplayOp(b, NoFault)] + ops), Run(Db(base, map[], None), scratch);
            recovered.events == indexed.events && recovered.balances == indexed.balances
  {
    ReorgConverges(base, db, b, ops, chain);
    FromScratch(base, scratch, chain);
  }

  lemma FromScratch(base: Balances, scratch: seq<Op>, chain: Events)
    requires AllStorable(chain) && Delivers(scratch, chain) && chain.Keys <= Delivered(scratch)
    ensures var indexed := Run(Db(base, map[], None), scratch);
            indexed.events == chain && indexed.balances == Determined(base, chain)
  {
    var empty := Db(base, map[], None);
    assert Determined(base, map[]) == base;
    RunConsistent(base, empty, scratch);
    DeliveryStores(empty, scratch, chain);
    assert Run(empty, scratch).events == chain;
  }

  /** Rolling back undoes exactly what came after, whatever the order it came in. */
  lemma RollbackUndoesSuffix(base: Balances, db: Db, b: int, ops: seq<Op>)
    requires Consistent(base, db)
    requires forall k | k in db.events :: db.events[k].blockNumber < b
    requires forall i | 0 <= i < |ops| :: ops[i].ProcessOp? && ops[i].event.blockNumber >= b
    ensures var end := Replay(Run(db, ops), b, NoFault);
            end.events == db.events && end.balances == db.balances
  {
    SuffixKeepsBelow(db, b, ops);
    RunConsistent(base, db, ops);
    StepConsistent(base, Run(db, ops), ReplayOp(b, NoFault));
    assert Below(db.events, b) == db.events;
  }

  lemma {:induction false} SuffixKeepsBelow(db: Db, b: int, ops: seq<Op>)
    requires forall i | 0 <= i < |ops| :: ops[i].ProcessOp? && ops[i].event.blockNumber >= b
    ensures Below(Run(db, ops).events, b) == Below(db.events, b)
    decreases ops
  {
    if ops != [] {
      SuffixKeepsBelow(Step(db, ops[0]), b, ops[1..]);
    }
  }

  /** Only a replay from at most one block above the checkpoint rewinds it; from further up it moves forward. */
  lemma ReplayRewindsIff(base: Balances, db: Db, start: int)
    requires Consistent(base, db) && db.checkpoint.Some?
    ensures Replay(db, start, NoFault).checkpoint.value <= db.checkpoint.value <==> start - 1 <= db.checkpoint.value
    ensures start - 1 > db.checkpoint.value ==> Replay(db, start, NoFault) == db.(checkpoint := Some(start - 1))
  {
    if start - 1 > db.checkpoint.value {
      assert Below(db.events, start) == db.events;
    }
  }

  // ---------- Conservation ----------

  ghost function TokenPart(token: string): (Account, int) -> int {
    (a: Account, v: int) => if a.token == token then v else 0
  }

  /** The sum of the balance rows of one token. */
  ghost function Total(balances: Balances, token: string): int {
    Sum(balances, TokenPart(token))
  }

  /** What an event moves into the tracked accounts of a token from outside them. */
  function Inflow(e: Event, token: string, tracked: set<Account>): int {
    if !e.IsTransfer() || e.payload.None? || e.payload.value.token != token then 0
    else
      var t := e.payload.value;
      (if Account(t.to, token) in tracked then t.amount else 0) - (if Account(t.from, token) in tracked then t.amount else 0)
  }

  ghost function InflowOf(token: string, tracked: set<Account>): (EventKey, Event) -> int {
    (k: EventKey, e: Event) => Inflow(e, token, tracked)
  }

  lemma AddMovesTotal(balances: Balances, a: Account, amount: int, token: string)
    ensures Total(Add(balances, a, amount), token) ==
            Total(balances, token) + (if a in balances && a.token == token then amount else 0)
  {
    if a in balances {
      SumUpdate(balances, TokenPart(token), a, balances[a] + amount);
    }
  }

  /** One event moves the total of the tracked rows by its inflow. */
  lemma EventMovesTotal(before: Balances, e: Event, token: string)
    ensures Total(map a | a in before :: before[a] + Delta(e, a), token) == Total(before, token) + Inflow(e, token, before.Keys)
  {
    if e.IsTransfer() && e.payload.Some? {
      var t := e.payload.value;
      TransferMovesDeltas(before, e);
      AddMovesTotal(before, Account(t.from, t.token), -t.amount, token);
      AddMovesTotal(Add(before, Account(t.from, t.token), -t.amount), Account(t.to, t.token), t.amount, token);
    } else {
      assert (map a | a in before :: before[a] + Delta(e, a)) == before;
    }
  }

  /** The balance total of a token changes by exactly what crosses the border of the tracked accounts. */
  lemma {:induction false} TotalFollowsInflow(base: Balances, events: Events, token: string)
    ensures Total(Determined(base, events), token) == Total(base, token) + Sum(events, InflowOf(token, base.Keys))
    decreases |events|
  {
    if events == map[] {
      assert Determined(base, events) == base;
    } else {
      var k :| k in events;
      var rest, e := events - {k}, events[k];
      TotalFollowsInflow(base, rest, token);
      SumRemove(events, InflowOf(token, base.Keys), k);
      forall a: Account
        ensures Ledger(events, a) == Delta(e, a) + Ledger(rest, a)
      {
        SumRemove(events, DeltaOf(a), k);
      }
      var before := Determined(base, rest);
      assert Determined(base, events) == map a | a in before :: before[a] + Delta(e, a);
      EventMovesTotal(before, e, token);
      assert before.Keys == base.Keys;
    }
  }

  /** Conservation over runs: if no stored transfer of a token crosses the border, its total never changes. */
  lemma RunConservesTotal(base: Balances, ops: seq<Op>, token: string)
    requires forall k | k in Run(Db(base, map[], None), ops).events ::
               Inflow(Run(Db(base, map[], None), ops).events[k], token, base.Keys) == 0
    ensures Total(Run(Db(base, map[], None), ops).balances, token) == Total(base, token)
  {
    var empty := Db(base, map[], None);
    assert Determined(base, map[]) == base;
    RunConsistent(base, empty, ops);
    var events := Run(empty, ops).events;
    TotalFollowsInflow(base, events, token);
    var inflow := InflowOf(token, base.Keys);
    forall k | k in events
      ensures inflow(k, events[k]) == 0
    {
      assert Inflow(events[k], token, base.Keys) == 0;
    }
    SumOfZeros(events, inflow);
  }

  lemma {:induction false} SumOfZeros(events: Events, f: (EventKey, Event) -> int)
    requires forall k | k in events :: f(k, events[k]) == 0
    ensures Sum(events, f) == 0
    decreases |events|
  {
    if events != map[] {
      var k :| k in events;
      SumRemove(events, f, k);
      SumOfZeros(events - {k}, f);
    }
  }
}
