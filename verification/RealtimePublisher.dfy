/**
 The outbox publisher: committed rows are claimed in batches, broadcast on the
 bus and then marked published.

 The first part is one pass of one publisher, with the database and the
 broadcast failing where a list of faults says so.  The second part is a pass in
 which some rows fail at every attempt.
 */
module RealtimePublisher {
  import opened Wrappers
  import opened RealtimeBus

  datatype Row = Row(kind: Kind, aggregateType: string, aggregateId: string, payload: string, published: bool)

  type Outbox = map<nat, Row>

  /** How one attempt at a row goes: the broadcast throws, the update after it throws, or neither. */
  datatype RowFault = NoFault | BroadcastThrows | UpdateThrows

  function EnvelopeOf(rows: Outbox, id: nat): Envelope
    requires id in rows
  {
    Envelope(id, rows[id].kind, rows[id].aggregateType, rows[id].aggregateId, rows[id].payload)
  }

  /** The envelope carries the row: its id as the cursor, its kind, its aggregate and its payload. */
  predicate Carries(e: Envelope, id: nat, row: Row) {
    && e.cursor == id && e.kind == row.kind && e.data == row.payload
    && e.aggregateType == row.aggregateType && e.aggregateId == row.aggregateId
  }

  function Envelopes(rows: Outbox, ids: seq<nat>): (es: seq<Envelope>)
    requires InOutbox(rows, ids)
    ensures |es| == |ids|
  {
    seq(|ids|, i requires 0 <= i < |ids| => EnvelopeOf(rows, ids[i]))
  }

  function SetOf(ids: seq<nat>): set<nat> {
    set id | id in ids
  }

  ghost predicate InOutbox(rows: Outbox, ids: seq<nat>) {
    forall i | 0 <= i < |ids| :: ids[i] in rows
  }

  ghost predicate AllUnpublished(rows: Outbox, ids: seq<nat>) {
    forall i | 0 <= i < |ids| :: ids[i] in rows && !rows[ids[i]].published
  }

  function Unpublished(rows: Outbox): set<nat> {
    set id | id in rows && !rows[id].published
  }

  ghost predicate Ascending(ids: seq<nat>) {
    forall i, j | 0 <= i < j < |ids| :: ids[i] < ids[j]
  }

  /** The first `max` unpublished rows by id. */
  ghost predicate IsClaim(rows: Outbox, max: nat, ids: seq<nat>) {
    && Ascending(ids) && |ids| <= max
    && AllUnpublished(rows, ids)
    && (forall id | id in Unpublished(rows) && id !in ids :: |ids| == max && forall i | 0 <= i < |ids| :: ids[i] < id)
  }

  /** Rows only ever change from unpublished to published. */
  ghost predicate OnlyMarked(before: Outbox, after: Outbox) {
    && after.Keys == before.Keys
    && forall id | id in before :: after[id] == before[id] || after[id] == before[id].(published := true)
  }

  function FaultAt(faults: seq<RowFault>, k: nat): RowFault {
    if k < |faults| then faults[k] else NoFault
  }

  ghost predicate FaultFree(faults: seq<RowFault>) {
    forall i | 0 <= i < |faults| :: faults[i].NoFault?
  }

  function FaultsLeft(faults: seq<RowFault>, k: nat): nat {
    if k < |faults| then |faults| - k else 0
  }

  // ---------- One batch ----------

  /** The rows of a batch that reach the bus, when attempt `k` is the first one. */
  function Sent(ids: seq<nat>, faults: seq<RowFault>, k: nat): seq<nat> {
    if ids == [] then []
    else (if FaultAt(faults, k).BroadcastThrows? then [] else [ids[0]]) + Sent(ids[1..], faults, k + 1)
  }

  /** How many of them are marked as well. */
  function Successes(ids: seq<nat>, faults: seq<RowFault>, k: nat): nat
    decreases ids
  {
    if ids == [] then 0
    else (if FaultAt(faults, k).NoFault? then 1 else 0) + Successes(ids[1..], faults, k + 1)
  }

  function MarkOne(rows: Outbox, id: nat, fault: RowFault): Outbox
    requires id in rows
  {
    if fault.NoFault? then rows[id := rows[id].(published := true)] else rows
  }

  /** The outbox after a batch. */
  function Marked(rows: Outbox, ids: seq<nat>, faults: seq<RowFault>, k: nat): Outbox
    requires InOutbox(rows, ids)
    decreases ids
  {
    if ids == [] then rows
    else Marked(MarkOne(rows, ids[0], FaultAt(faults, k)), ids[1..], faults, k + 1)
  }

  function AfterRow(b: Bus, e: Envelope, fault: RowFault): Bus {
    if fault.BroadcastThrows? then b else Settle(AfterPublish(b, e))
  }

  /** The bus after a batch. */
  function AfterBatch(b: Bus, rows: Outbox, ids: seq<nat>, faults: seq<RowFault>, k: nat): Bus
    requires InOutbox(rows, ids)
    decreases ids
  {
    if ids == [] then b
    else AfterBatch(AfterRow(b, EnvelopeOf(rows, ids[0]), FaultAt(faults, k)), rows, ids[1..], faults, k + 1)
  }

  lemma {:induction false} SentFromBatch(ids: seq<nat>, faults: seq<RowFault>, k: nat)
    ensures forall i | 0 <= i < |Sent(ids, faults, k)| :: Sent(ids, faults, k)[i] in ids
    ensures FaultFree(faults) ==> Sent(ids, faults, k) == ids
    decreases ids
  {
    if ids != [] {
      SentFromBatch(ids[1..], faults, k + 1);
      assert ids == [ids[0]] + ids[1..];
    }
  }

  /** The bus gets the sent rows, one at a time. */
  lemma {:induction false} BatchIsPaced(b: Bus, rows: Outbox, ids: seq<nat>, faults: seq<RowFault>, k: nat)
    requires InOutbox(rows, ids)
    ensures InOutbox(rows, Sent(ids, faults, k))
    ensures AfterBatch(b, rows, ids, faults, k) == Paced(b, Envelopes(rows, Sent(ids, faults, k)))
    decreases ids
  {
    if ids != [] {
      var e, later := EnvelopeOf(rows, ids[0]), Sent(ids[1..], faults, k + 1);
      BatchIsPaced(AfterRow(b, e, FaultAt(faults, k)), rows, ids[1..], faults, k + 1);
      if FaultAt(faults, k).BroadcastThrows? {
        assert Sent(ids, faults, k) == later;
      } else {
        assert Envelopes(rows, [ids[0]] + later) == [e] + Envelopes(rows, later);
        assert ([e] + Envelopes(rows, later))[1..] == Envelopes(rows, later);
      }
    }
  }

  lemma MarkOneUnpublishes(rows: Outbox, id: nat, fault: RowFault)
    requires id in rows && !rows[id].published
    ensures Unpublished(MarkOne(rows, id, fault)) == if fault.NoFault? then Unpublished(rows) - {id} else Unpublished(rows)
    ensures OnlyMarked(rows, MarkOne(rows, id, fault))
  {
  }

  lemma RestStaysUnpublished(rows: Outbox, ids: seq<nat>, fault: RowFault)
    requires ids != [] && Ascending(ids) && AllUnpublished(rows, ids)
    ensures Ascending(ids[1..]) && AllUnpublished(MarkOne(rows, ids[0], fault), ids[1..])
  {
  }

  /** What a batch leaves unpublished cost a fault each. */
  lemma {:induction false} BatchCountsFaults(rows: Outbox, ids: seq<nat>, faults: seq<RowFault>, k: nat)
    requires Ascending(ids) && AllUnpublished(rows, ids)
    ensures OnlyMarked(rows, Marked(rows, ids, faults, k))
    ensures |Unpublished(Marked(rows, ids, faults, k))| == |Unpublished(rows)| - Successes(ids, faults, k)
    ensures |ids| - Successes(ids, faults, k) <= FaultsLeft(faults, k) - FaultsLeft(faults, k + |ids|)
    decreases ids
  {
    if ids != [] {
      MarkOneUnpublishes(rows, ids[0], FaultAt(faults, k));
      RestStaysUnpublished(rows, ids, FaultAt(faults, k));
      BatchCountsFaults(MarkOne(rows, ids[0], FaultAt(faults, k)), ids[1..], faults, k + 1);
    }
  }

  /** A batch marks only what it sent, and without faults all of it. */
  lemma {:induction false} BatchMarksWhatItSent(rows: Outbox, ids: seq<nat>, faults: seq<RowFault>, k: nat)
    requires Ascending(ids) && AllUnpublished(rows, ids)
    ensures var left := Unpublished(Marked(rows, ids, faults, k));
            && left <= Unpublished(rows)
            && Unpublished(rows) - left <= SetOf(Sent(ids, faults, k))
            && (FaultFree(faults) ==> left == Unpublished(rows) - SetOf(ids))
    decreases ids
  {
    if ids != [] {
      var next := MarkOne(rows, ids[0], FaultAt(faults, k));
      MarkOneUnpublishes(rows, ids[0], FaultAt(faults, k));
      RestStaysUnpublished(rows, ids, FaultAt(faults, k));
      BatchMarksWhatItSent(next, ids[1..], faults, k + 1);
      var now, later := Sent(ids, faults, k), Sent(ids[1..], faults, k + 1);
      assert FaultAt(faults, k).NoFault? ==> SetOf(now) == {ids[0]} + SetOf(later);
      assert FaultAt(faults, k).BroadcastThrows? ==> now == later;
      assert FaultAt(faults, k).UpdateThrows? ==> SetOf(now) == {ids[0]} + SetOf(later);
      assert SetOf(ids) == {ids[0]} + SetOf(ids[1..]);
    }
  }

  // ---------- One pass ----------

  /** Without faults a pass works through the rows in order. */
  ghost predicate InOrder(before: Outbox, now: Outbox, sent: seq<nat>) {
    && Ascending(sent) && SetOf(sent) == Unpublished(before) - Unpublished(now)
    && forall i, id | 0 <= i < |sent| && id in Unpublished(now) :: sent[i] < id
  }

  /** What holds between the start of a pass and any of its batches. */
  ghost predicate PassSoFar(before: Outbox, now: Outbox, sent: seq<nat>, published: nat, faults: seq<RowFault>) {
    && OnlyMarked(before, now)
    && AllUnpublished(before, sent)
    && Unpublished(before) - Unpublished(now) <= SetOf(sent)
    && published == |Unpublished(before)| - |Unpublished(now)|
    && (FaultFree(faults) ==> InOrder(before, now, sent))
  }

  lemma OrderExtends(before: Outbox, mid: Outbox, after: Outbox, sent: seq<nat>, max: nat, ids: seq<nat>)
    requires InOrder(before, mid, sent) && IsClaim(mid, max, ids) && OnlyMarked(before, mid)
    requires Unpublished(after) == Unpublished(mid) - SetOf(ids)
    ensures InOrder(before, after, sent + ids)
  {
    assert forall i | 0 <= i < |ids| :: ids[i] in Unpublished(mid);
    assert SetOf(sent + ids) == SetOf(sent) + SetOf(ids);
    assert Unpublished(mid) <= Unpublished(before);
    forall i, id | 0 <= i < |sent + ids| && id in Unpublished(after)
      ensures (sent + ids)[i] < id
    {
      assert id in Unpublished(mid) && id !in ids;
    }
  }

  lemma BatchExtendsPass(before: Outbox, mid: Outbox, sent: seq<nat>, published: nat, faults: seq<RowFault>,
                         max: nat, ids: seq<nat>, k: nat)
    requires PassSoFar(before, mid, sent, published, faults) && IsClaim(mid, max, ids)
    ensures PassSoFar(before, Marked(mid, ids, faults, k), sent + Sent(ids, faults, k),
                      published + Successes(ids, faults, k), faults)
  {
    var after, more := Marked(mid, ids, faults, k), Sent(ids, faults, k);
    BatchCountsFaults(mid, ids, faults, k);
    BatchMarksWhatItSent(mid, ids, faults, k);
    SentFromBatch(ids, faults, k);
    assert SetOf(sent + more) == SetOf(sent) + SetOf(more);
    if FaultFree(faults) {
      OrderExtends(before, mid, after, sent, max, ids);
    }
    forall i | 0 <= i < |more|
      ensures more[i] in before && !before[more[i]].published
    {
      assert more[i] in ids;
    }
  }

  /** What the bus got in between: the rows of `sent`, in that order, each with its own content. */
  ghost predicate Broadcast(before: seq<Envelope>, after: seq<Envelope>, rows: Outbox, sent: seq<nat>) {
    && |after| == |before| + |sent| && after[..|before|] == before
    && forall i | 0 <= i < |sent| :: sent[i] in rows && Carries(after[|before| + i], sent[i], rows[sent[i]])
  }

  class RealtimePublisherService {
    const bus: RealtimeBusService
    var rows: Outbox

    constructor (bus: RealtimeBusService, rows: Outbox)
      ensures this.bus == bus && this.rows == rows
    {
      this.bus, this.rows := bus, rows;
    }

    method ClaimUnpublished(max: nat) returns (ids: seq<nat>)
      ensures IsClaim(rows, max, ids)
    {
      ids := [];
      var rest := Unpublished(rows);
      while |ids| < max && rest != {}
        invariant AllUnpublished(rows, ids)
        invariant Ascending(ids) && |ids| <= max
        invariant forall id :: id in Unpublished(rows) <==> id in rest || id in ids
        invariant forall id, j | id in rest && 0 <= j < |ids| :: ids[j] < id
        decreases |rest|
      {
        var least := Least(rest);
        ids := ids + [least];
        rest := rest - {least};
      }
    }

    /** Broadcasts, lets the runtime drain the buffers while the update is awaited, and marks the row. */
    method PublishRow(id: nat, fault: RowFault) returns (ok: bool)
      requires id in rows && Inv(bus.State())
      modifies this, bus
      ensures Inv(bus.State())
      ensures ok <==> fault.NoFault?
      ensures rows == MarkOne(old(rows), id, fault)
      ensures bus.State() == AfterRow(old(bus.State()), EnvelopeOf(old(rows), id), fault)
      ensures fault.BroadcastThrows? || bus.closed ==> bus.log == old(bus.log)
      ensures !fault.BroadcastThrows? && !bus.closed ==>
                && |bus.log| == |old(bus.log)| + 1 && bus.log[..|old(bus.log)|] == old(bus.log)
                && Carries(bus.log[|old(bus.log)|], id, old(rows)[id])
      ensures forall j | j in rows :: j in old(rows) && rows[j] == if j == id && ok then old(rows)[j].(published := true) else old(rows)[j]
    {
      if fault.BroadcastThrows? {
        return false;
      }
      var e := EnvelopeOf(rows, id);
      PublishInv(bus.State(), e);
      bus.Publish(e);
      SettleInv(bus.State());
      bus.RunMicrotasks();
      if fault.UpdateThrows? {
        return false;
      }
      rows := rows[id := rows[id].(published := true)];
      ok := true;
    }

    /** One claimed batch, from attempt `k` on: a failed row stays unpublished and the rest go on. */
    method PublishBatch(ids: seq<nat>, faults: seq<RowFault>, k: nat) returns (published: nat)
      requires InOutbox(rows, ids) && Inv(bus.State())
      modifies this, bus
      ensures Inv(bus.State())
      ensures rows == Marked(old(rows), ids, faults, k)
      ensures published == Successes(ids, faults, k)
      ensures bus.State() == AfterBatch(old(bus.State()), old(rows), ids, faults, k)
    {
      published := 0;
      for i := 0 to |ids|
        invariant Inv(bus.State())
        invariant OnlyMarked(old(rows), rows)
        invariant Marked(rows, ids[i..], faults, k + i) == Marked(old(rows), ids, faults, k)
        invariant published + Successes(ids[i..], faults, k + i) == Successes(ids, faults, k)
        invariant AfterBatch(bus.State(), old(rows), ids[i..], faults, k + i) ==
                  AfterBatch(old(bus.State()), old(rows), ids, faults, k)
      {
        assert ids[i..][0] == ids[i] && ids[i..][1..] == ids[i + 1..];
        var ok := PublishRow(ids[i], FaultAt(faults, k + i));
        if ok {
          published := published + 1;
        }
      }
    }

    /**
     One pass: batches until a short one.  Every row it marks was broadcast, the bus got exactly the rows of
     `sent` with the drains run in between, and at most one row per fault stays unpublished.  Without faults
     it broadcasts exactly the unpublished rows, once each in ascending order, and leaves none.  On an open bus
     with nothing waiting no subscriber is dropped, whatever its capacity.
     */
    method PublishOnce(maxBatch: nat, faults: seq<RowFault>) returns (published: nat, ghost sent: seq<nat>)
      requires Inv(bus.State())
      modifies this, bus
      ensures Inv(bus.State())
      ensures PassSoFar(old(rows), rows, sent, published, faults)
      ensures bus.State() == Paced(old(bus.State()), Envelopes(old(rows), sent))
      ensures Idle(old(bus.State())) ==> Received(old(bus.State()), bus.State(), Envelopes(old(rows), sent))
      ensures !old(bus.closed) ==> Broadcast(old(bus.log), bus.log, old(rows), sent)
      ensures maxBatch >= 1 ==> |Unpublished(rows)| <= |faults|
      ensures maxBatch >= 1 && FaultFree(faults) ==>
                Unpublished(rows) == {} && Ascending(sent) && SetOf(sent) == Unpublished(old(rows))
    {
      published := 0;
      sent := [];
      var k: nat := 0;
      while true
        invariant Inv(bus.State())
        invariant PassSoFar(old(rows), rows, sent, published, faults)
        invariant bus.State() == Paced(old(bus.State()), Envelopes(old(rows), sent))
        decreases |Unpublished(rows)| + FaultsLeft(faults, k)
      {
        var ids := ClaimUnpublished(maxBatch);
        if |ids| == 0 {
          break;
        }
        BatchExtendsPass(old(rows), rows, sent, published, faults, maxBatch, ids, k);
        BusExtendsPass(old(bus.State()), old(rows), rows, sent, ids, faults, k);
        BatchProgress(rows, maxBatch, ids, faults, k);
        var done := PublishBatch(ids, faults, k);
        sent := sent + Sent(ids, faults, k);
        published := published + done;
        k := k + |ids|;
        if |ids| != maxBatch {
          break;
        }
      }
      PassReaches(old(bus.State()), old(rows), sent);
    }

    /** One turn of the loop while the rows of `failing` fail at every attempt. */
    method ClaimAndPublish(maxBatch: nat, failing: map<nat, RowFault>) returns (ids: seq<nat>)
      requires Inv(bus.State())
      modifies this, bus
      ensures Inv(bus.State())
      ensures IsClaim(old(rows), maxBatch, ids) && rows == Turn(old(rows), ids, failing)
    {
      ids := ClaimUnpublished(maxBatch);
      if |ids| != 0 {
        var _ := PublishBatch(ids, BatchFaults(ids, failing), 0);
      }
    }

    /**
     The same pass while the rows of `failing` fail at every attempt, watched for at most `turns` batches.  When
     those rows fill a batch it is still running however long one watches; otherwise it ends and leaves them alone
     unpublished.
     */
    method PublishWatched(maxBatch: nat, failing: map<nat, RowFault>, turns: nat) returns (ended: bool)
      requires Inv(bus.State()) && AlwaysFailing(failing) && maxBatch >= 1
      modifies this, bus
      ensures Inv(bus.State())
      ensures Stuck(rows, failing) == Stuck(old(rows), failing)
      ensures ended ==> Unpublished(rows) == Stuck(old(rows), failing)
      ensures |Stuck(old(rows), failing)| >= maxBatch ==> !ended
      ensures |Stuck(old(rows), failing)| < maxBatch && turns > |Unpublished(old(rows))| ==> ended
    {
      ended := false;
      var turn := 0;
      while turn < turns
        invariant 0 <= turn <= turns && Inv(bus.State()) && !ended
        invariant Stuck(rows, failing) == Stuck(old(rows), failing)
        invariant |Stuck(rows, failing)| < maxBatch ==> turn + |Unpublished(rows)| <= |Unpublished(old(rows))|
      {
        ghost var before := rows;
        var ids := ClaimAndPublish(maxBatch, failing);
        TurnEffect(before, maxBatch, ids, failing);
        if |ids| != maxBatch {
          ended := true;
          return;
        }
        turn := turn + 1;
      }
    }
  }

  /** A full turn works something off unless the failing rows fill it; a short one leaves only failing rows. */
  lemma TurnEffect(rows: Outbox, max: nat, ids: seq<nat>, failing: map<nat, RowFault>)
    requires AlwaysFailing(failing) && IsClaim(rows, max, ids)
    ensures Stuck(Turn(rows, ids, failing), failing) == Stuck(rows, failing)
    ensures |ids| != max ==> Unpublished(Turn(rows, ids, failing)) == Stuck(rows, failing) && |Stuck(rows, failing)| < max
    ensures |ids| == max && |Stuck(rows, failing)| < max ==> |Unpublished(Turn(rows, ids, failing))| < |Unpublished(rows)|
  {
    TurnMarks(rows, ids, failing);
    if |ids| != max {
      ShortTakesAll(rows, max, ids);
      SubsetSize(Stuck(rows, failing), Unpublished(rows));
    } else if |Stuck(rows, failing)| < max {
      FullBatchMarks(rows, ids, failing, Stuck(rows, failing));
    }
  }

  lemma BusExtendsPass(b: Bus, before: Outbox, mid: Outbox, sent: seq<nat>, ids: seq<nat>, faults: seq<RowFault>, k: nat)
    requires OnlyMarked(before, mid) && InOutbox(before, sent) && InOutbox(mid, ids)
    ensures InOutbox(before, sent + Sent(ids, faults, k))
    ensures AfterBatch(Paced(b, Envelopes(before, sent)), mid, ids, faults, k) ==
            Paced(b, Envelopes(before, sent + Sent(ids, faults, k)))
  {
    var more := Sent(ids, faults, k);
    BatchIsPaced(Paced(b, Envelopes(before, sent)), mid, ids, faults, k);
    PacedConcat(b, Envelopes(before, sent), Envelopes(mid, more));
    assert Envelopes(before, sent + more) == Envelopes(before, sent) + Envelopes(mid, more);
  }

  /** A batch uses up unpublished rows or faults; after a short one only failed rows are left. */
  lemma BatchProgress(rows: Outbox, max: nat, ids: seq<nat>, faults: seq<RowFault>, k: nat)
    requires IsClaim(rows, max, ids) && ids != []
    ensures |Unpublished(Marked(rows, ids, faults, k))| + FaultsLeft(faults, k + |ids|) < |Unpublished(rows)| + FaultsLeft(faults, k)
    ensures |ids| != max ==> |Unpublished(Marked(rows, ids, faults, k))| <= |faults|
    ensures |ids| != max && FaultFree(faults) ==> Unpublished(Marked(rows, ids, faults, k)) == {}
  {
    BatchCountsFaults(rows, ids, faults, k);
    BatchMarksWhatItSent(rows, ids, faults, k);
    FirstAttemptProgress(ids, faults, k);
    if |ids| != max {
      assert forall i | 0 <= i < |ids| :: ids[i] in Unpublished(rows);
      assert Unpublished(rows) == SetOf(ids);
      AscendingSize(ids);
    }
  }

  lemma FirstAttemptProgress(ids: seq<nat>, faults: seq<RowFault>, k: nat)
    requires ids != []
    ensures Successes(ids, faults, k) > 0 || FaultsLeft(faults, k + |ids|) < FaultsLeft(faults, k)
  {
  }

  method Least(s: set<nat>) returns (least: nat)
    requires s != {}
    ensures least in s && forall x | x in s :: least <= x
  {
    least :| least in s;
    var rest := s - {least};
    while rest != {}
      invariant rest < s && least in s
      invariant forall x | x in s && x !in rest :: least <= x
      decreases |rest|
    {
      var x :| x in rest;
      rest := rest - {x};
      if x < least {
        least := x;
      }
    }
  }

  lemma {:induction false} AscendingSize(ids: seq<nat>)
    requires Ascending(ids)
    ensures |SetOf(ids)| == |ids|
  {
    if ids != [] {
      var last := |ids| - 1;
      assert ids == ids[..last] + [ids[last]];
      AscendingSize(ids[..last]);
      assert SetOf(ids) == SetOf(ids[..last]) + {ids[last]};
    }
  }

  /** What is published on an open bus is logged in order. */
  lemma {:induction false} PacedLogs(b: Bus, es: seq<Envelope>)
    requires !b.closed
    ensures Paced(b, es).log == b.log + es
    decreases es
  {
    if es != [] {
      PacedLogs(Settle(AfterPublish(b, es[0])), es[1..]);
      assert [es[0]] + es[1..] == es;
    }
  }

  lemma PassReaches(b: Bus, rows: Outbox, sent: seq<nat>)
    requires InOutbox(rows, sent)
    ensures Idle(b) ==> Received(b, Paced(b, Envelopes(rows, sent)), Envelopes(rows, sent))
    ensures !b.closed ==> Broadcast(b.log, Paced(b, Envelopes(rows, sent)).log, rows, sent)
  {
    if Idle(b) {
      PacedDropsNobody(b, Envelopes(rows, sent));
    }
    if !b.closed {
      PacedLogs(b, Envelopes(rows, sent));
    }
  }

  lemma {:induction false} PacedConcat(b: Bus, es: seq<Envelope>, fs: seq<Envelope>)
    ensures Paced(b, es + fs) == Paced(Paced(b, es), fs)
    decreases es
  {
    if es == [] {
      assert es + fs == fs;
    } else {
      assert (es + fs)[0] == es[0] && (es + fs)[1..] == es[1..] + fs;
      PacedConcat(Settle(AfterPublish(b, es[0])), es[1..], fs);
    }
  }

  // ---------- Rows that always fail ----------

  /** The rows that fail at every attempt, and how. */
  ghost predicate AlwaysFailing(failing: map<nat, RowFault>) {
    forall id | id in failing :: !failing[id].NoFault?
  }

  function BatchFaults(ids: seq<nat>, failing: map<nat, RowFault>): seq<RowFault> {
    seq(|ids|, i requires 0 <= i < |ids| => if ids[i] in failing then failing[ids[i]] else NoFault)
  }

  /** The outbox after one batch of such a pass. */
  function Turn(rows: Outbox, ids: seq<nat>, failing: map<nat, RowFault>): Outbox
    requires InOutbox(rows, ids)
  {
    Marked(rows, ids, BatchFaults(ids, failing), 0)
  }

  /** The failing rows that are to be published. */
  function Stuck(rows: Outbox, failing: map<nat, RowFault>): set<nat> {
    Unpublished(rows) * failing.Keys
  }

  /** The claims of a pass, so far or to its end: it goes on only after a full batch. */
  ghost predicate IsPass(rows: Outbox, max: nat, failing: map<nat, RowFault>, claims: seq<seq<nat>>)
    decreases claims
  {
    claims != [] ==>
      && IsClaim(rows, max, claims[0]) && claims[0] != []
      && (|claims| > 1 ==> |claims[0]| == max)
      && IsPass(Turn(rows, claims[0], failing), max, failing, claims[1..])
  }

  /** Some number of batches is never exceeded. */
  ghost predicate PassEnds(rows: Outbox, max: nat, failing: map<nat, RowFault>) {
    exists n: nat :: NeverLonger(rows, max, failing, n)
  }

  ghost predicate NeverLonger(rows: Outbox, max: nat, failing: map<nat, RowFault>, n: nat) {
    forall claims | IsPass(rows, max, failing, claims) :: |claims| <= n
  }

  lemma {:induction false} MarkedExceptFailing(rows: Outbox, ids: seq<nat>, failing: map<nat, RowFault>, faults: seq<RowFault>, k: nat)
    requires Ascending(ids) && AllUnpublished(rows, ids) && AlwaysFailing(failing)
    requires forall i | 0 <= i < |ids| :: FaultAt(faults, k + i) == if ids[i] in failing then failing[ids[i]] else NoFault
    ensures Unpublished(Marked(rows, ids, faults, k)) == Unpublished(rows) - (SetOf(ids) - failing.Keys)
    decreases ids
  {
    if ids != [] {
      var fault := FaultAt(faults, k + 0);
      MarkOneUnpublishes(rows, ids[0], fault);
      RestStaysUnpublished(rows, ids, fault);
      forall i | 0 <= i < |ids[1..]|
        ensures FaultAt(faults, k + 1 + i) == if ids[1..][i] in failing then failing[ids[1..][i]] else NoFault
      {
        assert FaultAt(faults, k + (i + 1)) == if ids[i + 1] in failing then failing[ids[i + 1]] else NoFault;
      }
      MarkedExceptFailing(MarkOne(rows, ids[0], fault), ids[1..], failing, faults, k + 1);
      assert SetOf(ids) == {ids[0]} + SetOf(ids[1..]);
    }
  }

  /** A batch marks all its rows but the failing ones, which stay. */
  lemma TurnMarks(rows: Outbox, ids: seq<nat>, failing: map<nat, RowFault>)
    requires Ascending(ids) && AllUnpublished(rows, ids) && AlwaysFailing(failing)
    ensures Unpublished(Turn(rows, ids, failing)) == Unpublished(rows) - (SetOf(ids) - failing.Keys)
    ensures Stuck(Turn(rows, ids, failing), failing) == Stuck(rows, failing)
    ensures SetOf(ids) <= Unpublished(rows) && |SetOf(ids)| == |ids|
  {
    MarkedExceptFailing(rows, ids, failing, BatchFaults(ids, failing), 0);
    AscendingSize(ids);
    forall id | id in SetOf(ids)
      ensures id in Unpublished(rows)
    {
      var i :| 0 <= i < |ids| && ids[i] == id;
    }
  }

  lemma SubsetSize(a: set<nat>, b: set<nat>)
    requires a <= b
    ensures |a| <= |b|
    ensures |a| == |b| ==> a == b
  {
    assert b == a + (b - a);
  }

  /** A claim falls short only when it took everything unpublished. */
  lemma ShortTakesAll(rows: Outbox, max: nat, ids: seq<nat>)
    requires IsClaim(rows, max, ids) && |ids| < max
    ensures SetOf(ids) == Unpublished(rows) && |Unpublished(rows)| == |ids|
  {
    TurnMarks(rows, ids, map[]);
    assert forall id | id in Unpublished(rows) :: id in ids;
  }

  lemma ManyFillEveryBatch(rows: Outbox, max: nat, failing: map<nat, RowFault>, ids: seq<nat>)
    requires IsClaim(rows, max, ids) && |Stuck(rows, failing)| >= max
    ensures |ids| == max
  {
    SubsetSize(Stuck(rows, failing), Unpublished(rows));
    if |ids| < max {
      ShortTakesAll(rows, max, ids);
    }
  }

  /** A full batch that cannot be all failing rows leaves fewer unpublished ones. */
  lemma FullBatchMarks(rows: Outbox, ids: seq<nat>, failing: map<nat, RowFault>, possible: set<nat>)
    requires Ascending(ids) && AllUnpublished(rows, ids) && AlwaysFailing(failing)
    requires SetOf(ids) * failing.Keys <= possible && |possible| < |ids|
    ensures |Unpublished(Turn(rows, ids, failing))| < |Unpublished(rows)|
  {
    TurnMarks(rows, ids, failing);
    SubsetSize(SetOf(ids) * failing.Keys, possible);
    TakenAway(SetOf(ids), failing.Keys, Unpublished(rows));
  }

  lemma TakenAway(taken: set<nat>, kept: set<nat>, all: set<nat>)
    requires taken <= all && |taken * kept| < |taken|
    ensures |all - (taken - kept)| < |all|
  {
    var gone := taken - kept;
    assert taken == taken * kept + gone;
    assert gone != {};
    assert all == (all - gone) + gone;
  }

  lemma {:induction false} FewAreWorkedOff(rows: Outbox, max: nat, failing: map<nat, RowFault>, claims: seq<seq<nat>>)
    requires AlwaysFailing(failing) && |Stuck(rows, failing)| < max && IsPass(rows, max, failing, claims)
    ensures |claims| <= |Unpublished(rows)| + 1
    decreases claims
  {
    if |claims| > 1 {
      TurnMarks(rows, claims[0], failing);
      FullBatchMarks(rows, claims[0], failing, Stuck(rows, failing));
      FewAreWorkedOff(Turn(rows, claims[0], failing), max, failing, claims[1..]);
    }
  }

  lemma {:induction false} ClaimExists(rows: Outbox, max: nat) returns (ids: seq<nat>)
    ensures IsClaim(rows, max, ids)
    decreases max
  {
    ids := [];
    if max > 0 {
      ids := ClaimExists(rows, max - 1);
      var rest := Unpublished(rows) - SetOf(ids);
      assert forall id | id in Unpublished(rows) && id !in ids :: id !in SetOf(ids) && id in rest;
      if rest != {} {
        var next := HasMinimum(rest);
        NextOfClaim(rows, max - 1, ids, next);
        ids := ids + [next];
      }
    }
  }

  lemma NextOfClaim(rows: Outbox, max: nat, ids: seq<nat>, next: nat)
    requires IsClaim(rows, max, ids) && next in Unpublished(rows) && next !in ids
    requires forall id | id in Unpublished(rows) && id !in ids :: next <= id
    ensures IsClaim(rows, max + 1, ids + [next])
  {
    assert |ids| == max;
    forall id | id in Unpublished(rows) && id !in ids + [next]
      ensures forall i | 0 <= i < |ids + [next]| :: (ids + [next])[i] < id
    {
      assert id !in ids && next in ids + [next];
    }
  }

  lemma {:induction false} HasMinimum(ids: set<nat>) returns (least: nat)
    requires ids != {}
    ensures least in ids && forall x | x in ids :: least <= x
    decreases |ids|
  {
    var x :| x in ids;
    var others := ids - {x};
    assert ids == others + {x};
    least := x;
    if others != {} {
      var other := HasMinimum(others);
      if other < x {
        least := other;
      }
    }
  }

  lemma {:induction false} ManyGoOnForEver(rows: Outbox, max: nat, failing: map<nat, RowFault>, n: nat) returns (claims: seq<seq<nat>>)
    requires AlwaysFailing(failing) && 1 <= max <= |Stuck(rows, failing)|
    ensures IsPass(rows, max, failing, claims) && |claims| == n
    decreases n
  {
    claims := [];
    if n > 0 {
      var ids := ClaimExists(rows, max);
      ManyFillEveryBatch(rows, max, failing, ids);
      TurnMarks(rows, ids, failing);
      var rest := ManyGoOnForEver(Turn(rows, ids, failing), max, failing, n - 1);
      claims := [ids] + rest;
      assert claims[1..] == rest;
    }
  }

  /** The pass ends exactly when the rows that always fail do not fill a batch. */
  lemma PassEndsIff(rows: Outbox, max: nat, failing: map<nat, RowFault>)
    requires AlwaysFailing(failing) && max >= 1
    ensures PassEnds(rows, max, failing) <==> |Stuck(rows, failing)| < max
  {
    if |Stuck(rows, failing)| < max {
      forall claims | IsPass(rows, max, failing, claims)
        ensures |claims| <= |Unpublished(rows)| + 1
      {
        FewAreWorkedOff(rows, max, failing, claims);
      }
      assert NeverLonger(rows, max, failing, |Unpublished(rows)| + 1);
    } else {
      forall n: nat
        ensures !NeverLonger(rows, max, failing, n)
      {
        var claims := ManyGoOnForEver(rows, max, failing, n + 1);
      }
    }
  }

  /** One bad row and a batch size of one. */
  lemma OneBadRowNeverEnds(id: nat, row: Row, fault: RowFault)
    requires !row.published && !fault.NoFault?
    ensures !PassEnds(map[id := row], 1, map[id := fault])
  {
    var rows, failing := map[id := row], map[id := fault];
    assert Stuck(rows, failing) == {id};
    PassEndsIff(rows, 1, failing);
  }

  // ---------- Rows behind failing ones ----------

  /** The failing rows that come before a row. */
  function StuckBefore(rows: Outbox, failing: map<nat, RowFault>, id: nat): set<nat> {
    set f | f in Stuck(rows, failing) && f < id
  }

  /** Some pass reaches the row. */
  ghost predicate Attempted(rows: Outbox, max: nat, failing: map<nat, RowFault>, id: nat) {
    exists claims :: IsPass(rows, max, failing, claims) && claims != [] && id in claims[|claims| - 1]
  }

  lemma NotBehindFullBatch(rows: Outbox, max: nat, failing: map<nat, RowFault>, ids: seq<nat>, id: nat)
    requires IsClaim(rows, max, ids) && |StuckBefore(rows, failing, id)| >= max
    ensures id !in ids
  {
    if id in ids {
      TurnMarks(rows, ids, map[]);
      var before := StuckBefore(rows, failing, id);
      forall f | f in before
        ensures f in SetOf(ids)
      {
        var i :| 0 <= i < |ids| && ids[i] == id;
      }
      SubsetSize(before + {id}, SetOf(ids));
    }
  }

  lemma {:induction false} NeverReached(rows: Outbox, max: nat, failing: map<nat, RowFault>, claims: seq<seq<nat>>, id: nat)
    requires AlwaysFailing(failing) && |StuckBefore(rows, failing, id)| >= max
    requires IsPass(rows, max, failing, claims) && claims != []
    ensures id !in claims[|claims| - 1]
    decreases claims
  {
    NotBehindFullBatch(rows, max, failing, claims[0], id);
    if |claims| > 1 {
      TurnMarks(rows, claims[0], failing);
      assert StuckBefore(Turn(rows, claims[0], failing), failing, id) == StuckBefore(rows, failing, id);
      NeverReached(Turn(rows, claims[0], failing), max, failing, claims[1..], id);
    }
  }

  /** A claim that does not reach the row is full, and all before it. */
  lemma ClaimBefore(rows: Outbox, max: nat, failing: map<nat, RowFault>, ids: seq<nat>, id: nat)
    requires IsClaim(rows, max, ids) && id in Unpublished(rows) && id !in ids
    ensures |ids| == max && SetOf(ids) * failing.Keys <= StuckBefore(rows, failing, id)
  {
    TurnMarks(rows, ids, map[]);
    forall f | f in SetOf(ids) * failing.Keys
      ensures f in StuckBefore(rows, failing, id)
    {
      var i :| 0 <= i < |ids| && ids[i] == f;
    }
  }

  lemma NearerToRow(rows: Outbox, max: nat, failing: map<nat, RowFault>, ids: seq<nat>, id: nat) returns (next: Outbox)
    requires AlwaysFailing(failing) && max >= 1 && id in Unpublished(rows) && |StuckBefore(rows, failing, id)| < max
    requires IsClaim(rows, max, ids) && id !in ids
    ensures |ids| == max && next == Turn(rows, ids, failing) && id in Unpublished(next)
    ensures StuckBefore(next, failing, id) == StuckBefore(rows, failing, id)
    ensures |Unpublished(next)| < |Unpublished(rows)|
  {
    ClaimBefore(rows, max, failing, ids, id);
    FullBatchMarks(rows, ids, failing, StuckBefore(rows, failing, id));
    TurnMarks(rows, ids, failing);
    next := Turn(rows, ids, failing);
  }

  lemma {:induction false} ReachesRow(rows: Outbox, max: nat, failing: map<nat, RowFault>, id: nat) returns (claims: seq<seq<nat>>)
    requires AlwaysFailing(failing) && max >= 1 && id in Unpublished(rows) && |StuckBefore(rows, failing, id)| < max
    ensures IsPass(rows, max, failing, claims) && claims != [] && id in claims[|claims| - 1]
    decreases |Unpublished(rows)|
  {
    var ids := ClaimExists(rows, max);
    claims := [ids];
    if id in ids {
      assert claims[1..] == [];
    } else {
      var next := NearerToRow(rows, max, failing, ids, id);
      var rest := ReachesRow(next, max, failing, id);
      claims := [ids] + rest;
      assert claims[1..] == rest;
    }
  }

  /** A pass gets to a row exactly when fewer failing rows than a batch holds come before it. */
  lemma AttemptedIff(rows: Outbox, max: nat, failing: map<nat, RowFault>, id: nat)
    requires AlwaysFailing(failing) && max >= 1 && id in Unpublished(rows)
    ensures Attempted(rows, max, failing, id) <==> |StuckBefore(rows, failing, id)| < max
  {
    if |StuckBefore(rows, failing, id)| < max {
      var claims := ReachesRow(rows, max, failing, id);
    } else {
      forall claims | IsPass(rows, max, failing, claims) && claims != []
        ensures id !in claims[|claims| - 1]
      {
        NeverReached(rows, max, failing, claims, id);
      }
    }
  }
}
