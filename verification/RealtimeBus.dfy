/**
 The in-process broadcast hub: every subscriber has a bounded buffer that a
 microtask drains into its callback, and is disconnected when the buffer is
 full.

 `microtasks` is the runtime's queue of pending drains; a drain runs whenever
 the runtime chooses, so runs interleave them freely with the calls.  What the
 callbacks received (`delivered`), what was broadcast (`log`) and where in it
 each subscriber joined (`joinedAt`) are recorded to state what a run delivers.
 */
module RealtimeBus {
  import opened Wrappers

  datatype Kind = EVENT | ROLLBACK

  datatype Envelope = Envelope(cursor: nat, kind: Kind, aggregateType: string, aggregateId: string, data: string)

  datatype Subscriber = Subscriber(buffer: seq<Envelope>, capacity: nat, scheduled: bool)

  datatype Bus = Bus(
    subscribers: map<nat, Subscriber>, nextId: nat, closed: bool, microtasks: set<nat>,
    delivered: map<nat, seq<Envelope>>, log: seq<Envelope>, joinedAt: map<nat, nat>)

  const DEFAULT_CAPACITY := 1000

  // ---------- One step ----------

  predicate HasRoom(s: Subscriber) { |s.buffer| < s.capacity }

  function Receive(s: Subscriber, e: Envelope): Subscriber {
    Subscriber(s.buffer + [e], s.capacity, true)
  }

  /** The subscribers when all but `todo` have been offered the envelope: those without room are gone. */
  function Offered(subs: map<nat, Subscriber>, todo: set<nat>, e: Envelope): map<nat, Subscriber> {
    map id | id in subs && (id in todo || HasRoom(subs[id])) :: if id in todo then subs[id] else Receive(subs[id], e)
  }

  /** The subscribers outside `todo` whose first waiting envelope this is. */
  function Woken(subs: map<nat, Subscriber>, todo: set<nat>): set<nat> {
    set id | id in subs && id !in todo && HasRoom(subs[id]) && !subs[id].scheduled
  }

  /** Everyone with room gets the envelope and a pending drain; everyone else is disconnected. */
  function AfterPublish(b: Bus, e: Envelope): Bus {
    if b.closed then b
    else
      b.(subscribers := Offered(b.subscribers, {}, e),
         microtasks := b.microtasks + Woken(b.subscribers, {}),
         log := b.log + [e])
  }

  lemma OfferNone(subs: map<nat, Subscriber>, e: Envelope)
    ensures Offered(subs, subs.Keys, e) == subs && Woken(subs, subs.Keys) == {}
  {
  }

  lemma OfferOne(subs: map<nat, Subscriber>, todo: set<nat>, id: nat, e: Envelope)
    requires id in todo && id in subs
    ensures Offered(subs, todo - {id}, e) ==
            if HasRoom(subs[id]) then Offered(subs, todo, e)[id := Receive(subs[id], e)] else Offered(subs, todo, e) - {id}
    ensures Woken(subs, todo - {id}) == Woken(subs, todo) + if HasRoom(subs[id]) && !subs[id].scheduled then {id} else {}
    ensures id in Offered(subs, todo, e) && Offered(subs, todo, e)[id] == subs[id]
  {
  }

  function CapacityOf(requested: Option<int>): nat {
    var c := if requested.Some? then requested.value else DEFAULT_CAPACITY;
    if c < 1 then 1 else c
  }

  /** Takes the next id in any case, but joins an open bus only. */
  function AfterSubscribe(b: Bus, capacity: Option<int>): Bus {
    if b.closed then b.(nextId := b.nextId + 1)
    else
      b.(subscribers := b.subscribers[b.nextId := Subscriber([], CapacityOf(capacity), false)],
         nextId := b.nextId + 1,
         delivered := b.delivered[b.nextId := []],
         joinedAt := b.joinedAt[b.nextId := |b.log|])
  }

  function AfterUnsubscribe(b: Bus, id: nat): Bus {
    b.(subscribers := b.subscribers - {id})
  }

  /**
   A pending drain runs.  The callback takes `accepts` envelopes without throwing; if more are buffered it
   throws on the next one, which it has then received, and is disconnected.
   */
  function AfterDrain(b: Bus, id: nat, accepts: nat): Bus {
    if id !in b.microtasks then b
    else if id !in b.subscribers then b.(microtasks := b.microtasks - {id})
    else
      var s := b.subscribers[id];
      var seen := if id in b.delivered then b.delivered[id] else [];
      if accepts < |s.buffer| then
        b.(subscribers := b.subscribers - {id}, microtasks := b.microtasks - {id},
           delivered := b.delivered[id := seen + s.buffer[..accepts + 1]])
      else
        b.(subscribers := b.subscribers[id := Subscriber([], s.capacity, false)], microtasks := b.microtasks - {id},
           delivered := b.delivered[id := seen + s.buffer])
  }

  function AfterClose(b: Bus): Bus {
    b.(closed := true, subscribers := map[])
  }

  // ---------- The service ----------

  class RealtimeBusService {
    var subscribers: map<nat, Subscriber>
    var nextId: nat
    var closed: bool
    var microtasks: set<nat>
    var delivered: map<nat, seq<Envelope>>
    ghost var log: seq<Envelope>
    ghost var joinedAt: map<nat, nat>

    constructor ()
      ensures State() == Bus(map[], 1, false, {}, map[], [], map[])
    {
      subscribers, nextId, closed, microtasks, delivered := map[], 1, false, {}, map[];
      log, joinedAt := [], map[];
    }

    ghost function State(): Bus
      reads this
    {
      Bus(subscribers, nextId, closed, microtasks, delivered, log, joinedAt)
    }

    /**
     Broadcasts an envelope: a subscriber whose buffer is below its capacity stays, with the envelope buffered last
     and a drain pending; one whose buffer is full is gone.  A closed bus does nothing.
     */
    method Publish(e: Envelope)
      modifies this
      ensures State() == AfterPublish(old(State()), e)
      ensures old(closed) ==> State() == old(State())
      ensures !old(closed) ==>
                && (forall id | id in old(subscribers) ::
                      id in subscribers <==> |old(subscribers)[id].buffer| < old(subscribers)[id].capacity)
                && (forall id | id in subscribers ::
                      && id in old(subscribers)
                      && subscribers[id].buffer == old(subscribers)[id].buffer + [e]
                      && subscribers[id].capacity == old(subscribers)[id].capacity
                      && subscribers[id].scheduled && (old(subscribers)[id].scheduled || id in microtasks))
    {
      if closed {
        return;
      }
      var todo := subscribers.Keys;
      ghost var before, tasks := subscribers, microtasks;
      OfferNone(before, e);
      while todo != {}
        invariant todo <= before.Keys
        invariant subscribers == Offered(before, todo, e)
        invariant microtasks == tasks + Woken(before, todo)
        modifies this`subscribers, this`microtasks
        decreases todo
      {
        var id :| id in todo;
        OfferOne(before, todo, id, e);
        todo := todo - {id};
        Offer(id, e);
      }
      log := log + [e];
    }

    /** Buffers the envelope for one subscriber, or disconnects it. */
    method Offer(id: nat, e: Envelope)
      requires id in subscribers
      modifies this`subscribers, this`microtasks
      ensures subscribers == if HasRoom(old(subscribers)[id]) then old(subscribers)[id := Receive(old(subscribers)[id], e)]
                             else old(subscribers) - {id}
      ensures microtasks == old(microtasks) + if HasRoom(old(subscribers)[id]) && !old(subscribers)[id].scheduled then {id} else {}
    {
      var sub := subscribers[id];
      if |sub.buffer| < sub.capacity {
        subscribers := subscribers[id := sub.(buffer := sub.buffer + [e])];
        ScheduleDrain(id);
      } else {
        subscribers := subscribers - {id};
      }
    }

    method ScheduleDrain(id: nat)
      requires id in subscribers
      modifies this`subscribers, this`microtasks
      ensures subscribers == old(subscribers)[id := old(subscribers)[id].(scheduled := true)]
      ensures microtasks == old(microtasks) + if old(subscribers)[id].scheduled then {} else {id}
    {
      if subscribers[id].scheduled {
        assert subscribers == subscribers[id := subscribers[id]];
        return;
      }
      subscribers := subscribers[id := subscribers[id].(scheduled := true)];
      microtasks := microtasks + {id};
    }

    method Subscribe(capacity: Option<int>) returns (id: nat)
      modifies this
      ensures State() == AfterSubscribe(old(State()), capacity)
      ensures id == old(nextId) && nextId == id + 1
      ensures old(closed) ==> subscribers == old(subscribers)
      ensures !old(closed) ==>
                && id in subscribers && subscribers[id].buffer == [] && !subscribers[id].scheduled
                && (capacity.None? ==> subscribers[id].capacity == 1000)
                && (capacity.Some? && capacity.value >= 1 ==> subscribers[id].capacity == capacity.value)
                && (capacity.Some? && capacity.value < 1 ==> subscribers[id].capacity == 1)
    {
      id := nextId;
      nextId := nextId + 1;
      if closed {
        return;
      }
      subscribers := subscribers[id := Subscriber([], CapacityOf(capacity), false)];
      delivered := delivered[id := []];
      joinedAt := joinedAt[id := |log|];
    }

    method Unsubscribe(id: nat)
      modifies this
      ensures State() == AfterUnsubscribe(old(State()), id)
      ensures id !in subscribers && forall other | other in old(subscribers) && other != id ::
                other in subscribers && subscribers[other] == old(subscribers)[other]
    {
      subscribers := subscribers - {id};
    }

    /**
     The microtask of one subscriber: shifts the buffer into the callback until it is empty or throws.  A callback that
     takes the whole buffer stays registered with an empty one; one that throws has received that envelope and is gone.
     */
    method RunDrain(id: nat, accepts: nat)
      modifies this
      ensures State() == AfterDrain(old(State()), id, accepts)
      ensures id in old(microtasks) && id in old(subscribers) && id in old(delivered) ==>
                var all := old(subscribers)[id].buffer;
                && id !in microtasks && id in delivered
                && (id in subscribers <==> |all| <= accepts)
                && (id in subscribers ==> subscribers[id].buffer == [] && !subscribers[id].scheduled)
                && delivered[id] == old(delivered)[id] + if |all| <= accepts then all else all[..accepts + 1]
    {
      if id !in microtasks {
        return;
      }
      microtasks := microtasks - {id};
      if id !in subscribers {
        return;
      }
      var sub := subscribers[id].(scheduled := false);
      var seen := if id in delivered then delivered[id] else [];
      ghost var all, before := sub.buffer, seen;
      var calls := 0;
      while |sub.buffer| > 0
        invariant calls <= |all| && (calls <= accepts)
        invariant sub == Subscriber(all[calls..], old(subscribers)[id].capacity, false)
        invariant seen == before + all[..calls]
      {
        var envelope := sub.buffer[0];
        sub := sub.(buffer := sub.buffer[1..]);
        seen := seen + [envelope];
        if calls == accepts {
          subscribers, delivered := subscribers - {id}, delivered[id := seen];
          assert seen == before + all[..accepts + 1];
          return;
        }
        calls := calls + 1;
      }
      assert all[..calls] == all;
      subscribers, delivered := subscribers[id := sub], delivered[id := seen];
    }

    /** The runtime picks a pending drain, and its callback does not throw. */
    method RunSomeDrain()
      requires Inv(State()) && microtasks != {}
      modifies this
      ensures Inv(State()) && Settle(State()) == Settle(old(State()))
      ensures microtasks < old(microtasks)
    {
      var id :| id in microtasks;
      ghost var before := State();
      var accepts := if id in subscribers then |subscribers[id].buffer| else 0;
      DrainInv(before, id, accepts);
      DrainSettles(before, id, accepts);
      RunDrain(id, accepts);
    }

    /** The runtime empties its microtask queue, in some order, and no callback throws. */
    method RunMicrotasks()
      requires Inv(State())
      modifies this
      ensures State() == Settle(old(State()))
    {
      while microtasks != {}
        invariant Inv(State()) && Settle(State()) == Settle(old(State()))
        decreases microtasks
      {
        RunSomeDrain();
      }
      SettledIsSettle(State());
    }

    method OnModuleDestroy()
      modifies this
      ensures State() == AfterClose(old(State()))
      ensures closed && subscribers == map[] && delivered == old(delivered)
    {
      closed := true;
      subscribers := map[];
    }
  }

  // ---------- Whole runs ----------

  datatype Op =
    | PublishOp(e: Envelope)
    | SubscribeOp(capacity: Option<int>)
    | UnsubscribeOp(id: nat)
    | DrainOp(id: nat, accepts: nat)
    | CloseOp

  function Step(b: Bus, op: Op): Bus {
    match op
    case PublishOp(e) => AfterPublish(b, e)
    case SubscribeOp(capacity) => AfterSubscribe(b, capacity)
    case UnsubscribeOp(id) => AfterUnsubscribe(b, id)
    case DrainOp(id, accepts) => AfterDrain(b, id, accepts)
    case CloseOp => AfterClose(b)
  }

  function Run(b: Bus, ops: seq<Op>): Bus
    decreases ops
  {
    if ops == [] then b else Run(Step(b, ops[0]), ops[1..])
  }

  const NEW_BUS := Bus(map[], 1, false, {}, map[], [], map[])

  /** What was broadcast since a subscriber joined. */
  function Since(b: Bus, id: nat): seq<Envelope>
    requires id in b.joinedAt && b.joinedAt[id] <= |b.log|
  {
    b.log[b.joinedAt[id]..]
  }

  /** A registered subscriber: nothing lost, repeated or reordered, and never more than its capacity waiting. */
  ghost predicate InStep(b: Bus, id: nat)
    requires id in b.subscribers && id in b.delivered && id in b.joinedAt && b.joinedAt[id] <= |b.log|
  {
    var s := b.subscribers[id];
    && b.delivered[id] + s.buffer == Since(b, id)
    && |s.buffer| <= s.capacity && 1 <= s.capacity
    && (s.buffer != [] ==> s.scheduled)
    && (s.scheduled <==> id in b.microtasks)
  }

  /** Anyone who ever joined has received a prefix of what was published since. */
  ghost predicate Member(b: Bus, id: nat) {
    && id in b.joinedAt && id in b.delivered
    && id < b.nextId && b.joinedAt[id] <= |b.log|
    && b.delivered[id] <= Since(b, id)
    && (id in b.subscribers ==> InStep(b, id))
  }

  ghost predicate Inv(b: Bus) {
    && b.joinedAt.Keys == b.delivered.Keys
    && b.subscribers.Keys <= b.joinedAt.Keys
    && b.microtasks <= b.joinedAt.Keys
    && (b.closed ==> b.subscribers == map[])
    && (forall id | id in b.joinedAt :: Member(b, id))
  }

  lemma PublishInv(b: Bus, e: Envelope)
    requires Inv(b)
    ensures Inv(AfterPublish(b, e))
  {
    var b' := AfterPublish(b, e);
    forall id | id in b'.joinedAt
      ensures Member(b', id)
    {
      assert Member(b, id);
      if !b.closed {
        assert Since(b', id) == Since(b, id) + [e];
        if id in b'.subscribers {
          assert b'.delivered[id] + b'.subscribers[id].buffer == b.delivered[id] + b.subscribers[id].buffer + [e];
        }
      }
    }
  }

  lemma DrainInv(b: Bus, id: nat, accepts: nat)
    requires Inv(b)
    ensures Inv(AfterDrain(b, id, accepts))
  {
    var b' := AfterDrain(b, id, accepts);
    forall other | other in b'.joinedAt
      ensures Member(b', other)
    {
      assert Member(b, other);
      if other == id && id in b.microtasks && id in b.subscribers {
        var all := b.subscribers[id].buffer;
        if accepts < |all| {
          assert b.delivered[id] + all == b.delivered[id] + all[..accepts + 1] + all[accepts + 1..];
        }
      }
    }
  }

  lemma StepInv(b: Bus, op: Op)
    requires Inv(b)
    ensures Inv(Step(b, op))
  {
    match op
    case PublishOp(e) => PublishInv(b, e);
    case DrainOp(id, accepts) => DrainInv(b, id, accepts);
    case SubscribeOp(_) | UnsubscribeOp(_) | CloseOp =>
      var b' := Step(b, op);
      forall id | id in b'.joinedAt
        ensures Member(b', id)
      {
        assert id in b.joinedAt ==> Member(b, id);
      }
  }

  /**
   Over every interleaving of subscribing, publishing, draining, unsubscribing, failing callbacks and closing:
   a registered subscriber has received and buffered exactly what was published since it joined, within its
   capacity and with a drain pending; one that left or was dropped has received a prefix of it.
   */
  lemma {:induction false} RunInv(b: Bus, ops: seq<Op>)
    requires Inv(b)
    ensures Inv(Run(b, ops))
    decreases ops
  {
    if ops != [] {
      StepInv(b, ops[0]);
      RunInv(Step(b, ops[0]), ops[1..]);
    }
  }

  /** The same, for the subscribers of a bus that starts empty. */
  lemma DeliveryInOrder(ops: seq<Op>, id: nat)
    requires id in Run(NEW_BUS, ops).joinedAt
    ensures var b := Run(NEW_BUS, ops);
            && id in b.delivered && b.joinedAt[id] <= |b.log|
            && (id in b.subscribers ==>
                  && b.delivered[id] + b.subscribers[id].buffer == Since(b, id)
                  && |b.subscribers[id].buffer| <= b.subscribers[id].capacity
                  && (b.subscribers[id].buffer != [] ==> id in b.microtasks))
            && b.delivered[id] <= Since(b, id)
  {
    RunInv(NEW_BUS, ops);
    assert Member(Run(NEW_BUS, ops), id);
  }

  /** The bus after all pending drains have run without a throw. */
  function Settle(b: Bus): Bus {
    b.(subscribers := (map id | id in b.subscribers :: Subscriber([], b.subscribers[id].capacity, false)),
       microtasks := {},
       delivered := (map id | id in b.delivered ::
         b.delivered[id] + if id in b.subscribers then b.subscribers[id].buffer else []))
  }

  lemma SettledIsSettle(b: Bus)
    requires Inv(b) && b.microtasks == {}
    ensures b == Settle(b)
  {
    assert forall id | id in b.subscribers :: Member(b, id);
    forall id | id in b.delivered
      ensures Settle(b).delivered[id] == b.delivered[id]
    {
      assert Member(b, id);
    }
    assert b.subscribers == Settle(b).subscribers;
    assert b.delivered == Settle(b).delivered;
  }

  /** One drain without a throw does not change where the bus settles: the order of drains does not matter. */
  lemma DrainSettles(b: Bus, id: nat, accepts: nat)
    requires Inv(b) && (id in b.subscribers ==> accepts >= |b.subscribers[id].buffer|)
    ensures Settle(AfterDrain(b, id, accepts)) == Settle(b)
  {
    if id in b.microtasks && id in b.subscribers {
      assert Member(b, id);
      var s := b.subscribers[id];
      DrainOneSettles(b, id, s, b.(
        subscribers := b.subscribers[id := Subscriber([], s.capacity, false)], microtasks := b.microtasks - {id},
        delivered := b.delivered[id := b.delivered[id] + s.buffer]));
    }
  }

  lemma DrainOneSettles(b: Bus, id: nat, s: Subscriber, b': Bus)
    requires id in b.subscribers && s == b.subscribers[id] && id in b.delivered
    requires b' == b.(subscribers := b'.subscribers, microtasks := b'.microtasks, delivered := b'.delivered)
    requires b'.subscribers == b.subscribers[id := Subscriber([], s.capacity, false)]
    requires b'.delivered == b.delivered[id := b.delivered[id] + s.buffer]
    ensures Settle(b') == Settle(b)
  {
    assert Settle(b').subscribers == Settle(b).subscribers;
    forall k | k in b.delivered
      ensures Settle(b').delivered[k] == Settle(b).delivered[k]
    {
    }
    assert Settle(b').delivered == Settle(b).delivered;
  }

  /** Publishing a list with the drains run after each envelope. */
  function Paced(b: Bus, es: seq<Envelope>): Bus
    decreases es
  {
    if es == [] then b else Paced(Settle(AfterPublish(b, es[0])), es[1..])
  }

  lemma SettleInv(b: Bus)
    requires Inv(b)
    ensures Inv(Settle(b))
  {
    var b' := Settle(b);
    forall id | id in b'.joinedAt
      ensures Member(b', id)
    {
      assert Member(b, id);
      assert Since(b', id) == Since(b, id);
    }
  }

  /** An open bus with nothing waiting anywhere. */
  ghost predicate Idle(b: Bus) {
    Inv(b) && !b.closed && b == Settle(b)
  }

  /** Everyone registered before is still registered, and has received exactly `es` in between. */
  ghost predicate Received(b: Bus, end: Bus, es: seq<Envelope>) {
    && end.log == b.log + es
    && end.subscribers == b.subscribers
    && (forall id | id in b.subscribers ::
          id in b.delivered && id in end.delivered && end.delivered[id] == b.delivered[id] + es)
  }

  lemma ReceivedTwice(b: Bus, mid: Bus, end: Bus, es: seq<Envelope>, fs: seq<Envelope>)
    requires Received(b, mid, es) && Received(mid, end, fs)
    ensures Received(b, end, es + fs)
  {
    forall id | id in b.subscribers
      ensures id in b.delivered && id in end.delivered && end.delivered[id] == b.delivered[id] + (es + fs)
    {
      assert id in mid.subscribers;
    }
  }

  /** A settled bus takes one envelope to everyone. */
  lemma PacedOne(b: Bus, e: Envelope)
    requires Idle(b)
    ensures Idle(Settle(AfterPublish(b, e))) && Received(b, Settle(AfterPublish(b, e)), [e])
  {
    var sent := AfterPublish(b, e);
    PublishInv(b, e);
    SettleInv(sent);
    forall id | id in b.subscribers
      ensures HasRoom(b.subscribers[id]) && b.subscribers[id] == Subscriber([], b.subscribers[id].capacity, false)
      ensures id in b.delivered
    {
      assert Member(b, id);
      assert b.subscribers[id] == Settle(b).subscribers[id];
    }
    var next := Settle(sent);
    assert next.subscribers == b.subscribers;
    SettledIsSettle(next);
  }

  /** A publisher that lets the drains run between envelopes never overruns anyone, whatever the capacities. */
  lemma {:induction false} PacedDropsNobody(b: Bus, es: seq<Envelope>)
    requires Idle(b)
    ensures Idle(Paced(b, es)) && Received(b, Paced(b, es), es)
    decreases es
  {
    if es == [] {
      assert forall id | id in b.subscribers :: Member(b, id);
    } else {
      PacedOne(b, es[0]);
      var next := Settle(AfterPublish(b, es[0]));
      PacedDropsNobody(next, es[1..]);
      ReceivedTwice(b, next, Paced(next, es[1..]), [es[0]], es[1..]);
      assert [es[0]] + es[1..] == es;
    }
  }

  // ---------- Bursts ----------

  /** Publishing a list in one turn: no drain runs in between. */
  function Burst(b: Bus, es: seq<Envelope>): Bus
    decreases es
  {
    if es == [] then b else Burst(AfterPublish(b, es[0]), es[1..])
  }

  /** Still registered, and the burst waits behind what was waiting. */
  ghost predicate Holds(b: Bus, end: Bus, id: nat, es: seq<Envelope>)
    requires id in b.subscribers
  {
    && id in end.subscribers
    && end.subscribers[id].buffer == b.subscribers[id].buffer + es
    && end.subscribers[id].capacity == b.subscribers[id].capacity
    && (es != [] ==> id in end.microtasks)
  }

  lemma {:induction false} GoneStaysGone(b: Bus, es: seq<Envelope>, id: nat)
    requires id !in b.subscribers
    ensures id !in Burst(b, es).subscribers
    decreases es
  {
    if es != [] {
      GoneStaysGone(AfterPublish(b, es[0]), es[1..], id);
    }
  }

  lemma {:induction false} BurstInv(b: Bus, es: seq<Envelope>)
    requires Inv(b)
    ensures Inv(Burst(b, es)) && Burst(b, es).closed == b.closed && Burst(b, es).delivered == b.delivered
    decreases es
  {
    if es != [] {
      PublishInv(b, es[0]);
      BurstInv(AfterPublish(b, es[0]), es[1..]);
    }
  }

  lemma RoomForOne(b: Bus, e: Envelope, id: nat)
    requires Inv(b) && !b.closed && id in b.subscribers
    ensures |b.subscribers[id].buffer| < b.subscribers[id].capacity ==> Holds(b, AfterPublish(b, e), id, [e])
    ensures |b.subscribers[id].buffer| >= b.subscribers[id].capacity ==> id !in AfterPublish(b, e).subscribers
    ensures |b.subscribers[id].buffer| <= b.subscribers[id].capacity
    ensures Inv(AfterPublish(b, e)) && !AfterPublish(b, e).closed
  {
    assert Member(b, id);
    PublishInv(b, e);
  }

  lemma HoldsMore(b: Bus, next: Bus, end: Bus, id: nat, es: seq<Envelope>)
    requires es != [] && id in b.subscribers && Holds(b, next, id, [es[0]]) && Holds(next, end, id, es[1..])
    requires es[1..] == [] ==> end == next
    ensures Holds(b, end, id, es)
  {
    assert [es[0]] + es[1..] == es;
  }

  /**
   The bound on a burst: a subscriber is kept exactly when what is waiting for it and the burst fit its capacity
   together, and then all of it waits in order.
   */
  lemma {:induction false} BurstKeepsIff(b: Bus, es: seq<Envelope>, id: nat)
    requires Inv(b) && !b.closed && id in b.subscribers
    ensures id in Burst(b, es).subscribers <==> |b.subscribers[id].buffer| + |es| <= b.subscribers[id].capacity
    ensures id in Burst(b, es).subscribers ==> Holds(b, Burst(b, es), id, es)
    decreases es
  {
    if es == [] {
      assert Member(b, id);
    } else {
      var next := AfterPublish(b, es[0]);
      RoomForOne(b, es[0], id);
      if id in next.subscribers {
        BurstKeepsIff(next, es[1..], id);
        if id in Burst(next, es[1..]).subscribers {
          HoldsMore(b, next, Burst(next, es[1..]), id, es);
        }
      } else {
        GoneStaysGone(next, es[1..], id);
      }
    }
  }

  /** Bursts one after the other, with the drains run at the end of each. */
  function InTurns(b: Bus, turns: seq<seq<Envelope>>): Bus
    decreases turns
  {
    if turns == [] then b else InTurns(Settle(Burst(b, turns[0])), turns[1..])
  }

  function Flat(turns: seq<seq<Envelope>>): seq<Envelope>
    decreases turns
  {
    if turns == [] then [] else turns[0] + Flat(turns[1..])
  }

  lemma {:induction false} GoneForAllTurns(b: Bus, turns: seq<seq<Envelope>>, id: nat)
    requires id !in b.subscribers
    ensures id !in InTurns(b, turns).subscribers
    decreases turns
  {
    if turns != [] {
      GoneStaysGone(b, turns[0], id);
      GoneForAllTurns(Settle(Burst(b, turns[0])), turns[1..], id);
    }
  }

  lemma SettledOne(b: Bus, id: nat)
    ensures id in b.subscribers <==> id in Settle(b).subscribers
    ensures id in b.subscribers ==> Settle(b).subscribers[id] == Subscriber([], b.subscribers[id].capacity, false)
    ensures id in b.subscribers && id in b.delivered ==>
              id in Settle(b).delivered && Settle(b).delivered[id] == b.delivered[id] + b.subscribers[id].buffer
  {
  }

  /** An open bus, with nothing waiting for this subscriber. */
  ghost predicate Ready(b: Bus, id: nat) {
    Inv(b) && !b.closed && id in b.subscribers && b.subscribers[id].buffer == [] && id in b.delivered
  }

  /** Nothing waits for the subscriber again, and it has received the list in between. */
  ghost predicate Served(b: Bus, end: Bus, id: nat, es: seq<Envelope>)
    requires Ready(b, id)
  {
    && Ready(end, id) && end.subscribers[id].capacity == b.subscribers[id].capacity
    && end.delivered[id] == b.delivered[id] + es
  }

  lemma TurnServes(b: Bus, mid: Bus, es: seq<Envelope>, id: nat)
    requires Ready(b, id) && Inv(mid) && !mid.closed && mid.delivered == b.delivered && Holds(b, mid, id, es)
    ensures Served(b, Settle(mid), id, es)
  {
    SettleInv(mid);
    SettledOne(mid, id);
  }

  lemma OneTurn(b: Bus, es: seq<Envelope>, id: nat)
    requires Ready(b, id)
    ensures if |es| <= b.subscribers[id].capacity then Served(b, Settle(Burst(b, es)), id, es)
            else id !in Settle(Burst(b, es)).subscribers
  {
    BurstInv(b, es);
    BurstKeepsIff(b, es, id);
    if |es| <= b.subscribers[id].capacity {
      TurnServes(b, Burst(b, es), es, id);
    }
  }

  ghost predicate Fits(turns: seq<seq<Envelope>>, capacity: nat) {
    forall i | 0 <= i < |turns| :: |turns[i]| <= capacity
  }

  lemma FitsRest(turns: seq<seq<Envelope>>, capacity: nat)
    requires turns != []
    ensures Fits(turns, capacity) <==> |turns[0]| <= capacity && Fits(turns[1..], capacity)
  {
    assert turns == [turns[0]] + turns[1..];
  }

  lemma ServedTwice(b: Bus, mid: Bus, end: Bus, id: nat, es: seq<Envelope>, fs: seq<Envelope>)
    requires Ready(b, id) && Served(b, mid, id, es) && Served(mid, end, id, fs)
    ensures Served(b, end, id, es + fs)
  {
  }

  /**
   A subscriber with nothing waiting outlives a run of bursts exactly when none of them is larger than its capacity,
   and then it has received every envelope of them in order.
   */
  lemma {:induction false} TurnsKeepIff(b: Bus, turns: seq<seq<Envelope>>, id: nat)
    requires Ready(b, id)
    ensures id in InTurns(b, turns).subscribers <==> Fits(turns, b.subscribers[id].capacity)
    ensures id in InTurns(b, turns).subscribers ==> Served(b, InTurns(b, turns), id, Flat(turns))
    decreases turns
  {
    if turns != [] {
      var next := Settle(Burst(b, turns[0]));
      OneTurn(b, turns[0], id);
      FitsRest(turns, b.subscribers[id].capacity);
      if |turns[0]| <= b.subscribers[id].capacity {
        TurnsKeepIff(next, turns[1..], id);
        if Fits(turns[1..], b.subscribers[id].capacity) {
          ServedTwice(b, next, InTurns(next, turns[1..]), id, turns[0], Flat(turns[1..]));
        }
      } else {
        GoneForAllTurns(next, turns[1..], id);
      }
    }
  }
}
