/**
 The outbox as a protocol: any number of passes of any number of publishers, whose
 claims, broadcasts and marks interleave, and publishers that may crash between
 any two of them.

 A timer starts a pass every second.  It looks at when the last pass started, not
 at whether it has ended, so a pass that outlasts the poll interval runs beside
 the next one of the same publisher.
 */
module OutboxProtocol {
  /** One run of `publishOnce` of a publisher. */
  datatype Pass = Pass(publisher: nat, number: nat)

  /** A pass between two steps: without a batch, with rows still to do, or between a broadcast and its mark. */
  datatype Worker = Resting | Working(todo: seq<nat>) | Marking(id: nat, todo: seq<nat>)

  /** The committed rows with their published flag, every broadcast so far, and the passes at work. */
  datatype System = System(published: map<nat, bool>, sent: seq<nat>, workers: map<Pass, Worker>)

  datatype Action =
    | Commit(id: nat)
    | Claim(pass: Pass, ids: seq<nat>)
    | Broadcast(pass: Pass)
    | BroadcastFails(pass: Pass)
    | Mark(pass: Pass)
    | MarkFails(pass: Pass)
    | Crash(publisher: nat)

  function WorkerOf(s: System, w: Pass): Worker {
    if w in s.workers then s.workers[w] else Resting
  }

  /** The next unclaimed part of the batch; a finished batch leaves the pass idle. */
  function Resume(todo: seq<nat>): Worker {
    if todo == [] then Resting else Working(todo)
  }

  predicate NoRepeats(ids: seq<nat>) {
    forall i, j | 0 <= i < j < |ids| :: ids[i] != ids[j]
  }

  /**
   One step.  The row locks of a claim end with the claim's own transaction, so a claim may take any different
   unpublished rows, also ones another pass is working on.  A crash stops all passes of a publisher.  A step that is
   not possible changes nothing.
   */
  function Act(s: System, a: Action): System {
    match a
    case Commit(id) => if id in s.published then s else s.(published := s.published[id := false])
    case Claim(w, ids) =>
      if WorkerOf(s, w).Resting? && NoRepeats(ids) && forall id | id in ids :: id in s.published && !s.published[id]
      then s.(workers := s.workers[w := Resume(ids)]) else s
    case Broadcast(w) =>
      var k := WorkerOf(s, w);
      if k.Working? && k.todo != []
      then s.(sent := s.sent + [k.todo[0]], workers := s.workers[w := Marking(k.todo[0], k.todo[1..])]) else s
    case BroadcastFails(w) =>
      var k := WorkerOf(s, w);
      if k.Working? && k.todo != [] then s.(workers := s.workers[w := Resume(k.todo[1..])]) else s
    case Mark(w) =>
      var k := WorkerOf(s, w);
      if k.Marking?
      then s.(published := if k.id in s.published then s.published[k.id := true] else s.published,
              workers := s.workers[w := Resume(k.todo)]) else s
    case MarkFails(w) =>
      var k := WorkerOf(s, w);
      if k.Marking? then s.(workers := s.workers[w := Resume(k.todo)]) else s
    case Crash(v) => s.(workers := map w | w in s.workers :: if w.publisher == v then Resting else s.workers[w])
  }

  function Acts(s: System, actions: seq<Action>): System
    decreases actions
  {
    if actions == [] then s else Acts(Act(s, actions[0]), actions[1..])
  }

  const EMPTY := System(map[], [], map[])

  ghost predicate SentFirst(s: System) {
    && (forall id | id in s.published && s.published[id] :: id in s.sent)
    && (forall w | w in s.workers && s.workers[w].Marking? :: s.workers[w].id in s.sent && s.workers[w].id in s.published)
    && (forall w | w in s.workers && s.workers[w].Working? :: s.workers[w].todo != [])
    && (forall w | w in s.workers && !s.workers[w].Resting? :: forall id | id in s.workers[w].todo :: id in s.published)
    && (forall id | id in s.sent :: id in s.published)
  }

  lemma ActKeepsSentFirst(s: System, a: Action)
    requires SentFirst(s)
    ensures SentFirst(Act(s, a)) && s.published.Keys <= Act(s, a).published.Keys && s.sent <= Act(s, a).sent
  {
  }

  /** Only a broadcast adds to what was sent, one row, and only a mark publishes, one row that was sent. */
  lemma OnlyBroadcastsAndMarks(s: System, a: Action)
    requires SentFirst(s)
    ensures Act(s, a).sent != s.sent ==> a.Broadcast? && exists id :: id in s.published && Act(s, a).sent == s.sent + [id]
    ensures forall id | id in s.published && Act(s, a).published[id] != s.published[id] ::
              a.Mark? && Act(s, a).published == s.published[id := true] && id in s.sent
    ensures forall id | id in Act(s, a).published && id !in s.published :: a == Commit(id) && !Act(s, a).published[id]
  {
    ActKeepsSentFirst(s, a);
    if a.Broadcast? && Act(s, a).sent != s.sent {
      var k := WorkerOf(s, a.pass);
      assert k.todo[0] in k.todo && Act(s, a).sent == s.sent + [k.todo[0]];
    }
  }

  /**
   In every interleaving of any number of passes, with failures and crashes anywhere: a row marked
   published has been broadcast, nothing uncommitted is ever broadcast, and no committed row disappears.
   */
  lemma {:induction false} PublishedWasBroadcast(s: System, actions: seq<Action>)
    requires SentFirst(s)
    ensures SentFirst(Acts(s, actions)) && s.published.Keys <= Acts(s, actions).published.Keys && s.sent <= Acts(s, actions).sent
    decreases actions
  {
    if actions != [] {
      ActKeepsSentFirst(s, actions[0]);
      PublishedWasBroadcast(Act(s, actions[0]), actions[1..]);
    }
  }

  /** Whatever happened before, a committed row was broadcast or any publisher can still broadcast and mark it. */
  lemma NoRowIsLost(actions: seq<Action>, id: nat, w: Pass)
    requires id in Acts(EMPTY, actions).published
    ensures var s := Acts(EMPTY, actions);
            || id in s.sent
            || (var end := Acts(s, [Crash(w.publisher), Claim(w, [id]), Broadcast(w), Mark(w)]);
                id in end.sent && id in end.published && end.published[id])
  {
    PublishedWasBroadcast(EMPTY, actions);
    if id !in Acts(EMPTY, actions).sent {
      FreshAttempt(Acts(EMPTY, actions), id, w);
    }
  }

  lemma FreshAttempt(s: System, id: nat, w: Pass)
    requires id in s.published && !s.published[id]
    ensures var end := Acts(s, [Crash(w.publisher), Claim(w, [id]), Broadcast(w), Mark(w)]);
            id in end.sent && id in end.published && end.published[id]
  {
    var all := [Crash(w.publisher), Claim(w, [id]), Broadcast(w), Mark(w)];
    UnfoldFour(s, all);
    var s2 := Act(Act(s, Crash(w.publisher)), Claim(w, [id]));
    assert s2.workers[w] == Working([id]) && s2.sent == s.sent && s2.published == s.published;
    var s3 := Act(s2, Broadcast(w));
    assert s3.workers[w] == Marking(id, []) && s3.sent == s.sent + [id] && s3.published == s.published;
  }

  lemma UnfoldFour(s: System, a: seq<Action>)
    requires |a| == 4
    ensures Acts(s, a) == Act(Act(Act(Act(s, a[0]), a[1]), a[2]), a[3])
  {
    assert a[1..][1..] == a[2..] && a[2..][1..] == a[3..] && a[3..][1..] == [];
    var s1 := Act(s, a[0]);
    var s2 := Act(s1, a[1]);
    var s3 := Act(s2, a[2]);
    assert Acts(s, a) == Acts(s1, a[1..]) == Acts(s2, a[2..]) == Acts(s3, a[3..]) == Acts(Act(s3, a[3]), []);
  }

  // ---------- How often ----------

  /**
   What a deployment may do: which publishers run, whether a pass may outlast the poll interval and overlap with
   the next, whether a mark may fail, and whether a publisher may crash.
   */
  datatype Deployment = Deployment(publishers: set<nat>, overlaps: bool, marksFail: bool, crashes: bool)

  /** Every other pass of the same publisher is over. */
  predicate OthersRest(s: System, w: Pass) {
    forall v | v in s.workers && v.publisher == w.publisher && v != w :: s.workers[v].Resting?
  }

  predicate Allows(d: Deployment, s: System, a: Action) {
    match a
    case Commit(_) => true
    case Claim(w, _) => w.publisher in d.publishers && (d.overlaps || OthersRest(s, w))
    case Broadcast(w) => w.publisher in d.publishers
    case BroadcastFails(w) => w.publisher in d.publishers
    case Mark(w) => w.publisher in d.publishers
    case MarkFails(w) => w.publisher in d.publishers && d.marksFail
    case Crash(v) => v in d.publishers && d.crashes
  }

  predicate AllowsAll(d: Deployment, s: System, actions: seq<Action>)
    decreases actions
  {
    actions == [] || (Allows(d, s, actions[0]) && AllowsAll(d, Act(s, actions[0]), actions[1..]))
  }

  /** In every history of the deployment no row is broadcast twice. */
  ghost predicate BroadcastsOnce(d: Deployment) {
    forall actions | AllowsAll(d, EMPTY, actions) :: NoRepeats(Acts(EMPTY, actions).sent)
  }

  /** One publisher, whose passes do not overlap, whose marks never fail and which never crashes. */
  predicate Undisturbed(d: Deployment, w: nat) {
    d.publishers == {w} && !d.overlaps && !d.marksFail && !d.crashes
  }

  predicate AtWork(s: System, w: Pass) {
    w in s.workers && !s.workers[w].Resting?
  }

  /** What the one pass at work keeps: rows still to do were never broadcast, others at most once. */
  ghost predicate OnceSoFar(s: System, publisher: nat) {
    && NoRepeats(s.sent)
    && (forall w | AtWork(s, w) :: w.publisher == publisher)
    && (forall v, w | AtWork(s, v) && AtWork(s, w) :: v == w)
    && (forall id | id in s.sent && id in s.published && !s.published[id] ::
          exists w :: AtWork(s, w) && s.workers[w].Marking? && s.workers[w].id == id)
    && (forall id | id in s.sent :: id in s.published)
    && (forall w | AtWork(s, w) :: NoRepeats(s.workers[w].todo) && forall id | id in s.workers[w].todo :: id in s.published && id !in s.sent)
    && (forall w | AtWork(s, w) && s.workers[w].Marking? :: s.workers[w].id in s.published)
  }

  lemma ClaimOnce(s: System, publisher: nat, w: Pass, ids: seq<nat>)
    requires OnceSoFar(s, publisher) && w.publisher == publisher && OthersRest(s, w)
    ensures OnceSoFar(Act(s, Claim(w, ids)), publisher)
  {
    var s' := Act(s, Claim(w, ids));
    if s' != s {
      assert forall v :: !AtWork(s, v);
      assert forall v | AtWork(s', v) :: v == w && s'.workers[v] == Working(ids);
    }
  }

  lemma BroadcastOnce(s: System, publisher: nat, w: Pass)
    requires OnceSoFar(s, publisher)
    ensures OnceSoFar(Act(s, Broadcast(w)), publisher)
  {
    var k, s' := WorkerOf(s, w), Act(s, Broadcast(w));
    if s' != s {
      assert AtWork(s, w) && k.todo[0] in k.todo;
      assert forall i | 0 < i < |k.todo| :: k.todo[i] != k.todo[0];
      assert forall id | id in s.sent :: s.published[id];
      assert AtWork(s', w) && s'.workers[w] == Marking(k.todo[0], k.todo[1..]);
      assert forall v | AtWork(s', v) :: AtWork(s, v);
    }
  }

  /** The pass goes on after a mark or a failed broadcast. */
  lemma ResumeOnce(s: System, publisher: nat, w: Pass, a: Action)
    requires OnceSoFar(s, publisher) && (a == Mark(w) || a == BroadcastFails(w))
    ensures OnceSoFar(Act(s, a), publisher)
  {
    var s' := Act(s, a);
    if s' != s {
      assert AtWork(s, w);
      assert forall v | AtWork(s', v) :: AtWork(s, v);
    }
  }

  lemma {:induction false} UndisturbedBroadcastsOnce(s: System, d: Deployment, publisher: nat, actions: seq<Action>)
    requires OnceSoFar(s, publisher) && Undisturbed(d, publisher) && AllowsAll(d, s, actions)
    ensures OnceSoFar(Acts(s, actions), publisher)
    decreases actions
  {
    if actions != [] {
      match actions[0] {
        case Claim(w, ids) => ClaimOnce(s, publisher, w, ids);
        case Broadcast(w) => BroadcastOnce(s, publisher, w);
        case BroadcastFails(w) => ResumeOnce(s, publisher, w, actions[0]);
        case Mark(w) => ResumeOnce(s, publisher, w, actions[0]);
        case Commit(id) => CommitOnce(s, publisher, id);
        case _ =>
      }
      UndisturbedBroadcastsOnce(Act(s, actions[0]), d, publisher, actions[1..]);
    }
  }

  lemma CommitOnce(s: System, publisher: nat, id: nat)
    requires OnceSoFar(s, publisher)
    ensures OnceSoFar(Act(s, Commit(id)), publisher)
  {
    var s' := Act(s, Commit(id));
    assert forall w :: AtWork(s', w) <==> AtWork(s, w);
  }

  /** Two passes broadcast the same row: the second claims it before the first has marked it. */
  function TwoPasses(v: Pass, w: Pass, id: nat): seq<Action> {
    [Commit(id), Claim(v, [id]), Claim(w, [id]), Broadcast(v), Broadcast(w)]
  }

  lemma TwoPassesRepeat(d: Deployment, v: Pass, w: Pass, id: nat)
    requires v != w
    ensures Acts(EMPTY, TwoPasses(v, w, id)).sent == [id, id]
    ensures v.publisher in d.publishers && w.publisher in d.publishers && (d.overlaps || v.publisher != w.publisher) ==>
              AllowsAll(d, EMPTY, TwoPasses(v, w, id))
  {
    var all := TwoPasses(v, w, id);
    UnfoldFive(EMPTY, all);
    UnfoldAllows(d, EMPTY, all);
    var s2 := Act(Act(EMPTY, all[0]), all[1]);
    var s3 := Act(s2, all[2]);
    assert s2.workers == map[v := Working([id])];
    assert s3.workers[v] == Working([id]) && s3.workers[w] == Working([id]);
    assert Act(s3, all[3]).workers[w] == Working([id]);
  }

  /** A pass loses its place after a broadcast, by a failed mark or a crash, and the row is broadcast again. */
  function LostPlace(w: Pass, id: nat, interruption: Action): seq<Action> {
    [Commit(id), Claim(w, [id]), Broadcast(w), interruption, Claim(w, [id]), Broadcast(w)]
  }

  lemma LostPlaceRepeats(w: Pass, id: nat, interruption: Action)
    requires interruption == MarkFails(w) || interruption == Crash(w.publisher)
    ensures Acts(EMPTY, LostPlace(w, id, interruption)).sent == [id, id]
  {
    var all := LostPlace(w, id, interruption);
    SendSteps(w, id, [], map[]);
    LostPlaceSteps(w, id, interruption);
    SendSteps(w, id, [id], map[w := Resting]);
    assert [] + [id] == [id] && [id] + [id] == [id, id];
    assert all[1..] == [Claim(w, [id]), Broadcast(w), interruption, Claim(w, [id]), Broadcast(w)];
    UnfoldFive(Committed(id, [], map[]), all[1..]);
  }

  lemma LostPlaceAllowed(d: Deployment, w: Pass, id: nat, interruption: Action)
    requires interruption == MarkFails(w) || interruption == Crash(w.publisher)
    requires w.publisher in d.publishers && Allows(d, EMPTY, interruption)
    ensures AllowsAll(d, EMPTY, LostPlace(w, id, interruption))
  {
    var all, s1 := LostPlace(w, id, interruption), Committed(id, [], map[]);
    SendSteps(w, id, [], map[]);
    LostPlaceSteps(w, id, interruption);
    assert [] + [id] == [id];
    assert all[1..] == [Claim(w, [id]), Broadcast(w), interruption, Claim(w, [id]), Broadcast(w)];
    SendSteps(w, id, [id], map[w := Resting]);
    UnfoldAllows(d, s1, all[1..]);
  }

  /** One committed row that is not marked. */
  function Committed(id: nat, sent: seq<nat>, workers: map<Pass, Worker>): System {
    System(map[id := false], sent, workers)
  }

  lemma SendSteps(w: Pass, id: nat, sent: seq<nat>, workers: map<Pass, Worker>)
    requires workers == map[] || workers == map[w := Resting]
    ensures Act(Committed(id, sent, workers), Claim(w, [id])) == Committed(id, sent, map[w := Working([id])])
    ensures Act(Committed(id, sent, map[w := Working([id])]), Broadcast(w)) ==
            Committed(id, sent + [id], map[w := Marking(id, [])])
  {
    assert workers[w := Working([id])] == map[w := Working([id])];
    assert map[w := Working([id])][w := Marking(id, [])] == map[w := Marking(id, [])];
    assert [id][1..] == [];
  }

  lemma LostPlaceSteps(w: Pass, id: nat, interruption: Action)
    requires interruption == MarkFails(w) || interruption == Crash(w.publisher)
    ensures Act(Committed(id, [id], map[w := Marking(id, [])]), interruption) == Committed(id, [id], map[w := Resting])
  {
    assert map[w := Marking(id, [])][w := Resting] == map[w := Resting];
  }

  /** A repetition in some history shows that the deployment does not broadcast once. */
  lemma RepeatRefutes(d: Deployment, actions: seq<Action>, id: nat)
    requires AllowsAll(d, EMPTY, actions) && Acts(EMPTY, actions).sent == [id, id]
    ensures !BroadcastsOnce(d)
  {
    var sent := Acts(EMPTY, actions).sent;
    assert sent[0] == sent[1];
    assert !NoRepeats(sent);
  }

  lemma InterruptionRefutes(d: Deployment, w: Pass, interruption: Action)
    requires w.publisher in d.publishers && (interruption == MarkFails(w) || interruption == Crash(w.publisher))
    requires Allows(d, EMPTY, interruption)
    ensures !BroadcastsOnce(d)
  {
    LostPlaceRepeats(w, 0, interruption);
    LostPlaceAllowed(d, w, 0, interruption);
    RepeatRefutes(d, LostPlace(w, 0, interruption), 0);
  }

  lemma SecondPassRefutes(d: Deployment, v: Pass, w: Pass)
    requires v != w && v.publisher in d.publishers && w.publisher in d.publishers
    requires d.overlaps || v.publisher != w.publisher
    ensures !BroadcastsOnce(d)
  {
    TwoPassesRepeat(d, v, w, 0);
    RepeatRefutes(d, TwoPasses(v, w, 0), 0);
  }

  lemma SingleBroadcastsOnce(d: Deployment, publisher: nat)
    requires Undisturbed(d, publisher)
    ensures BroadcastsOnce(d)
  {
    forall actions | AllowsAll(d, EMPTY, actions)
      ensures NoRepeats(Acts(EMPTY, actions).sent)
    {
      UndisturbedBroadcastsOnce(EMPTY, d, publisher, actions);
    }
  }

  /**
   No row is ever broadcast twice exactly when a single publisher runs, its passes never overlap, no mark fails and
   it does not crash.
   */
  lemma BroadcastsOnceIff(d: Deployment)
    requires d.publishers != {}
    ensures BroadcastsOnce(d) <==> |d.publishers| == 1 && !d.overlaps && !d.marksFail && !d.crashes
  {
    var v :| v in d.publishers;
    var others := d.publishers - {v};
    assert d.publishers == others + {v} && |d.publishers| == |others| + 1;
    if d.overlaps {
      SecondPassRefutes(d, Pass(v, 0), Pass(v, 1));
    } else if d.marksFail {
      InterruptionRefutes(d, Pass(v, 0), MarkFails(Pass(v, 0)));
    } else if d.crashes {
      InterruptionRefutes(d, Pass(v, 0), Crash(v));
    } else if others == {} {
      SingleBroadcastsOnce(d, v);
    } else {
      var w :| w in others;
      SecondPassRefutes(d, Pass(v, 0), Pass(w, 0));
    }
  }

  lemma UnfoldFive(s: System, a: seq<Action>)
    requires |a| == 5
    ensures Acts(s, a) == Act(Act(Act(Act(Act(s, a[0]), a[1]), a[2]), a[3]), a[4])
  {
    UnfoldFour(Act(s, a[0]), a[1..]);
  }

  lemma UnfoldAllows(d: Deployment, s: System, a: seq<Action>)
    requires |a| == 5
    ensures var s1 := Act(s, a[0]);
            var s2 := Act(s1, a[1]);
            var s3 := Act(s2, a[2]);
            var s4 := Act(s3, a[3]);
            AllowsAll(d, s, a) <==>
            Allows(d, s, a[0]) && Allows(d, s1, a[1]) && Allows(d, s2, a[2]) && Allows(d, s3, a[3]) && Allows(d, s4, a[4])
  {
    var s1 := Act(s, a[0]);
    var s2 := Act(s1, a[1]);
    var s3 := Act(s2, a[2]);
    var s4 := Act(s3, a[3]);
    assert a[1..][1..] == a[2..] && a[2..][1..] == a[3..] && a[3..][1..] == a[4..] && a[4..][1..] == [];
    assert AllowsAll(d, Act(s4, a[4]), []);
    assert AllowsAll(d, s4, a[4..]) <==> Allows(d, s4, a[4]);
    assert AllowsAll(d, s3, a[3..]) <==> Allows(d, s3, a[3]) && AllowsAll(d, s4, a[4..]);
    assert AllowsAll(d, s2, a[2..]) <==> Allows(d, s2, a[2]) && AllowsAll(d, s3, a[3..]);
    assert AllowsAll(d, s1, a[1..]) <==> Allows(d, s1, a[1]) && AllowsAll(d, s2, a[2..]);
  }
}
