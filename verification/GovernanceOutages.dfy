/**
 What outages cost governance: for each write, exactly which invalidations lost to
 Redis leave something wrong in the cache, and for whole runs, exactly which losses
 and which failing saves endanger tallies and final statuses.
 */
module GovernanceOutages {
  import opened Wrappers
  import opened GovernanceTables
  import opened GovernanceCacheStore
  import opened Governance

  // ---------- What a changed row does to the lists ----------

  lemma {:induction false} ActiveMembers(db: Db, n: nat)
    requires n <= |db.created|
    ensures forall p :: p in ActiveAmong(db, n) <==>
              exists i :: 0 <= i < n && HasStatus(db, db.created[i], ACTIVE) && db.proposals[db.created[i]] == p
  {
    if n > 0 {
      ActiveMembers(db, n - 1);
    }
  }

  /** Whether a row is in the active list. */
  lemma ActiveListed(db: Db, p: Proposal)
    requires WellFormed(db) && p.id in db.proposals
    ensures p in ActiveOf(db) <==> p.status == ACTIVE && db.proposals[p.id] == p
  {
    ActiveMembers(db, |db.created|);
    if p.status == ACTIVE && db.proposals[p.id] == p {
      var i :| 0 <= i < |db.created| && db.created[i] == p.id;
      assert HasStatus(db, db.created[i], ACTIVE);
    }
  }

  lemma {:induction false} ActiveSame(db: Db, p: Proposal, n: nat)
    requires n <= |db.created| && p.id in db.proposals
    requires p.status != ACTIVE && db.proposals[p.id].status != ACTIVE
    ensures ActiveAmong(Save(db, p), n) == ActiveAmong(db, n)
  {
    if n > 0 {
      ActiveSame(db, p, n - 1);
    }
  }

  /** Saving a different row changes the active list exactly when the row was or becomes active. */
  lemma ActiveChangesIff(db: Db, p: Proposal)
    requires WellFormed(db) && p.id in db.proposals && p != db.proposals[p.id]
    ensures ActiveOf(Save(db, p)) != ActiveOf(db) <==> p.status == ACTIVE || db.proposals[p.id].status == ACTIVE
  {
    var before, db' := db.proposals[p.id], Save(db, p);
    ActiveListed(db, p);
    ActiveListed(db, before);
    ActiveListed(db', p);
    ActiveListed(db', before);
    if p.status != ACTIVE && before.status != ACTIVE {
      ActiveSame(db, p, |db.created|);
    }
  }

  function One(b: bool): int { if b then 1 else 0 }

  lemma {:induction false} CountAfterSave(db: Db, p: Proposal, status: Status, k: nat, n: nat)
    requires WellFormed(db) && p.id in db.proposals && n <= |db.created| && k < |db.created| && db.created[k] == p.id
    ensures CountStatus(Save(db, p), status, n) - CountStatus(db, status, n) ==
            if k < n then One(p.status == status) - One(db.proposals[p.id].status == status) else 0
  {
    if n > 0 {
      CountAfterSave(db, p, status, k, n - 1);
      assert n - 1 != k ==> db.created[n - 1] != p.id;
    }
  }

  lemma {:induction false} RatesAfterSave(db: Db, p: Proposal, n: nat)
    requires p.id in db.proposals && n <= |db.created|
    requires p.participationRate == db.proposals[p.id].participationRate && p.quorumProgress == db.proposals[p.id].quorumProgress
    ensures Rates(Save(db, p), n) == Rates(db, n)
  {
    if n > 0 {
      RatesAfterSave(db, p, n - 1);
    }
  }

  predicate Decided(status: Status) { status == PASSED || status == EXECUTED }

  /** Saving a row changes the statistics exactly when it opens or closes voting or is decided or undone. */
  lemma StatsChangeIff(db: Db, p: Proposal)
    requires WellFormed(db) && p.id in db.proposals
    requires p.participationRate == db.proposals[p.id].participationRate && p.quorumProgress == db.proposals[p.id].quorumProgress
    ensures var before := db.proposals[p.id].status;
            StatsOf(Save(db, p)) != StatsOf(db) <==>
            (p.status == ACTIVE) != (before == ACTIVE) || Decided(p.status) != Decided(before)
  {
    var n := |db.created|;
    var k :| 0 <= k < n && db.created[k] == p.id;
    CountAfterSave(db, p, ACTIVE, k, n);
    CountAfterSave(db, p, PASSED, k, n);
    CountAfterSave(db, p, EXECUTED, k, n);
    RatesAfterSave(db, p, n);
    var decided, decided' := CountStatus(db, PASSED, n) + CountStatus(db, EXECUTED, n),
                             CountStatus(Save(db, p), PASSED, n) + CountStatus(Save(db, p), EXECUTED, n);
    SameQuotient(decided, decided', n);
  }

  lemma SameQuotient(a: nat, b: nat, n: nat)
    requires n > 0
    ensures a as real / n as real == b as real / n as real <==> a == b
  {
    assert a as real / n as real * n as real == a as real;
    assert b as real / n as real * n as real == b as real;
  }

  lemma StatsIgnoreVotes(db: Db, votes: seq<Vote>)
    ensures StatsOf(db.(votes := votes)) == StatsOf(db) && ActiveOf(db.(votes := votes)) == ActiveOf(db)
  {
    var db' := db.(votes := votes);
    SameTables(db, db', |db.created|);
  }

  lemma {:induction false} SameTables(db: Db, db': Db, n: nat)
    requires db'.proposals == db.proposals && db'.created == db.created && n <= |db.created|
    ensures Rates(db', n) == Rates(db, n) && ActiveAmong(db', n) == ActiveAmong(db, n)
    ensures forall status :: CountStatus(db', status, n) == CountStatus(db, status, n)
  {
    if n > 0 {
      SameTables(db, db', n - 1);
    }
  }

  // ---------- One write ----------

  /** The entry is there and its invalidation is lost. */
  predicate Survives(cache: Store, lost: set<string>, key: string) {
    key in cache && key in lost
  }

  /** What a write of the row does not make stale. */
  ghost predicate Unaffected(db: Db, p: Proposal, votes: seq<Vote>, key: string) {
    && key != ProposalKey(p.id)
    && (key == VotesKey(p.id) ==> VotesOf(votes, p.id) == VotesOf(db.votes, p.id))
    && (key == ACTIVE_KEY ==> ActiveOf(Save(db, p)) == ActiveOf(db))
    && (key == STATS_KEY ==> StatsOf(Save(db, p)) == StatsOf(db))
  }

  /** Of the five keys, when the entry that was right is still right. */
  lemma StillFreshIff(db: Db, p: Proposal, votes: seq<Vote>, cache: Store, key: string)
    requires WellFormed(db) && Coherent(Sys(db, cache), {}) && p.id in db.proposals && p != db.proposals[p.id]
    requires p.participationRate == db.proposals[p.id].participationRate && p.quorumProgress == db.proposals[p.id].quorumProgress
    requires key in StaleKeys(p.id) && key in cache
    ensures Fresh(Save(db.(votes := votes), p), key, cache[key]) <==> Unaffected(db, p, votes, key)
  {
    var db' := Save(db.(votes := votes), p);
    assert Fresh(db, key, cache[key]);
    assert db' == Save(db, p).(votes := votes);
    StatsIgnoreVotes(Save(db, p), votes);
    KeyKinds(p.id, key);
  }

  /** A stale key is one of the five, and of one kind only. */
  lemma KeyKinds(id: string, key: string)
    requires key in StaleKeys(id)
    ensures forall j | key == ProposalKey(j) :: j == id
    ensures forall j | key == VotesKey(j) :: j == id
    ensures One(key == ProposalKey(id)) + One(key == VotesKey(id)) + One(key == ACTIVE_KEY) + One(key == STATS_KEY) + One(key == ALL_KEY) == 1
  {
    KeysDistinct(id, id);
    assert ACTIVE_KEY[22] == 'c' && ALL_KEY[22] == 'l' && STATS_KEY[11] == 's' && ACTIVE_KEY[11] == 'p' && ALL_KEY[11] == 'p';
    forall j | key == ProposalKey(j)
      ensures j == id
    {
      KeysDistinct(j, id);
    }
    forall j | key == VotesKey(j)
      ensures j == id
    {
      KeysDistinct(j, id);
      KeysDistinct(id, j);
    }
  }

  /**
   A vote leaves cache and tables right exactly when it is refused or the proposal itself, its vote list and the
   active list are each not cached or really dropped.  The statistics may survive: a vote does not change them.
   */
  lemma CastVoteKeepsInvIff(s: Sys, id: string, voter: string, support: bool, weight: real, up: bool, lost: set<string>)
    requires Inv(s, {})
    ensures var cache := FindOne(s, id, up).1.cache;
            Inv(CastVote(s, id, voter, support, weight, up, lost).1, {}) <==>
            || CastVote(s, id, voter, support, weight, up, lost).0.Failure?
            || (&& !Survives(cache, lost, ProposalKey(id))
                && !Survives(cache, lost, VotesKey(id))
                && !Survives(cache, lost, ACTIVE_KEY))
  {
    FindOneIsRow(s, id, up, {});
    if CastVote(s, id, voter, support, weight, up, lost).0.Success? {
      var s1, vote, row := FindOne(s, id, up).1, Vote(id, Lower(voter), support, weight), s.db.proposals[id];
      LowerIdempotent(voter);
      VoteKeepsTables(s.db, id, vote);
      VotesOfAppend(s.db.votes, vote, id);
      SaveIff(s1, Counted(row, support), s.db.votes + [vote], lost);
      UnaffectedKeys(s.db, Counted(row, support), s.db.votes + [vote], s1.cache, lost);
      ActiveChangesIff(s.db, Counted(row, support));
      StatsChangeIff(s.db, Counted(row, support));
    }
  }

  /** After a write to one row, the cache is right exactly when everything that survived is unaffected. */
  lemma SaveIff(s: Sys, p: Proposal, votes: seq<Vote>, lost: set<string>)
    requires WellFormed(s.db) && Coherent(s, {}) && p.id in s.db.proposals && p != s.db.proposals[p.id]
    requires p.participationRate == s.db.proposals[p.id].participationRate && p.quorumProgress == s.db.proposals[p.id].quorumProgress
    requires s.db.votes <= votes && forall i | |s.db.votes| <= i < |votes| :: votes[i].proposalId == p.id
    ensures Coherent(Sys(Save(s.db.(votes := votes), p), s.cache - (StaleKeys(p.id) - lost)), {}) <==>
            forall key | key in StaleKeys(p.id) && Survives(s.cache, lost, key) :: Unaffected(s.db, p, votes, key)
  {
    var db', cache := Save(s.db.(votes := votes), p), s.cache - (StaleKeys(p.id) - lost);
    forall key | key in cache
      ensures Fresh(db', key, cache[key]) <==> (key in StaleKeys(p.id) ==> Unaffected(s.db, p, votes, key))
    {
      if key in StaleKeys(p.id) {
        StillFreshIff(s.db, p, votes, s.cache, key);
      } else {
        SaveKeepsFresh(s.db, p, votes, key, s.cache[key]);
      }
    }
    assert forall key | key in StaleKeys(p.id) && Survives(s.cache, lost, key) :: key in cache;
  }

  /** The same, key by key. */
  lemma UnaffectedKeys(db: Db, p: Proposal, votes: seq<Vote>, cache: Store, lost: set<string>)
    ensures (forall key | key in StaleKeys(p.id) && Survives(cache, lost, key) :: Unaffected(db, p, votes, key)) <==>
            && !Survives(cache, lost, ProposalKey(p.id))
            && (Survives(cache, lost, VotesKey(p.id)) ==> VotesOf(votes, p.id) == VotesOf(db.votes, p.id))
            && (Survives(cache, lost, ACTIVE_KEY) ==> ActiveOf(Save(db, p)) == ActiveOf(db))
            && (Survives(cache, lost, STATS_KEY) ==> StatsOf(Save(db, p)) == StatsOf(db))
  {
    var keys := StaleKeys(p.id);
    assert ProposalKey(p.id) in keys && VotesKey(p.id) in keys && ACTIVE_KEY in keys && STATS_KEY in keys;
    assert Unaffected(db, p, votes, VotesKey(p.id)) ==> VotesOf(votes, p.id) == VotesOf(db.votes, p.id);
    assert Unaffected(db, p, votes, ACTIVE_KEY) ==> ActiveOf(Save(db, p)) == ActiveOf(db);
    assert Unaffected(db, p, votes, STATS_KEY) ==> StatsOf(Save(db, p)) == StatsOf(db);
    assert !Unaffected(db, p, votes, ProposalKey(p.id));
    KeyKinds(p.id, ProposalKey(p.id));
    KeyKinds(p.id, VotesKey(p.id));
    KeyKinds(p.id, ACTIVE_KEY);
    KeyKinds(p.id, STATS_KEY);
  }

  /**
   A status change leaves the cache right exactly when it is refused, or the proposal is really dropped, the active
   list too if voting opens or closes, and the statistics if voting opens or closes or a passed proposal is cancelled.
   */
  lemma UpdateKeepsInvIff(s: Sys, id: string, change: Change, now: int, up: bool, lost: set<string>)
    requires Inv(s, {})
    ensures var cache := FindOne(s, id, up).1.cache;
            Inv(Update(s, id, change, now, up, lost).1, {}) <==>
            || Update(s, id, change, now, up, lost).0.Failure?
            || (&& !Survives(cache, lost, ProposalKey(id))
                && (change.Activate? || HasStatus(s.db, id, ACTIVE) ==>
                      !Survives(cache, lost, ACTIVE_KEY) && !Survives(cache, lost, STATS_KEY))
                && (change.Cancel? && HasStatus(s.db, id, PASSED) ==> !Survives(cache, lost, STATS_KEY)))
  {
    FindOneIsRow(s, id, up, {});
    if Update(s, id, change, now, up, lost).0.Success? {
      var s1, p := FindOne(s, id, up).1, Changed(s.db.proposals[id], change, now).value;
      ChangeKeepsTables(s.db, id, change, now);
      ChangeChangesLists(s.db, id, change, now);
      SaveIff(s1, p, s.db.votes, lost);
      UnaffectedKeys(s.db, p, s.db.votes, s1.cache, lost);
    }
  }

  lemma ChangeChangesLists(db: Db, id: string, change: Change, now: int)
    requires WellFormed(db) && id in db.proposals && Changed(db.proposals[id], change, now).Success?
    ensures var p, row := Changed(db.proposals[id], change, now).value, db.proposals[id];
            && p.id == id && p != row && p.participationRate == row.participationRate && p.quorumProgress == row.quorumProgress
            && (ActiveOf(Save(db, p)) != ActiveOf(db) <==> change.Activate? || row.status == ACTIVE)
            && (StatsOf(Save(db, p)) != StatsOf(db) <==>
                change.Activate? || row.status == ACTIVE || (change.Cancel? && row.status == PASSED))
  {
    var p := Changed(db.proposals[id], change, now).value;
    ActiveChangesIff(db, p);
    StatsChangeIff(db, p);
  }

  lemma {:induction false} ActiveAfterCreate(db: Db, p: Proposal, n: nat)
    requires n <= |db.created| && p.id !in db.created
    ensures ActiveAmong(Db(db.proposals[p.id := p], db.created + [p.id], db.votes), n) == ActiveAmong(db, n)
  {
    if n > 0 {
      ActiveAfterCreate(db, p, n - 1);
    }
  }

  /** Creating a proposal does so exactly when it is refused or the statistics are not cached or really dropped. */
  lemma CreateKeepsInvIff(s: Sys, d: Draft, newId: string, lost: set<string>)
    requires Inv(s, {}) && newId !in s.db.proposals
    ensures Inv(Create(s, d, newId, lost).1, {}) <==>
            Create(s, d, newId, lost).0.Failure? || !Survives(s.cache, lost, STATS_KEY)
  {
    if Complete(d) {
      var p, s' := NewProposal(d, newId), Create(s, d, newId, lost).1;
      CreateKeepsTables(s.db, p);
      if Survives(s.cache, lost, STATS_KEY) {
        assert Fresh(s.db, STATS_KEY, s.cache[STATS_KEY]);
        assert STATS_KEY in s'.cache && StatsOf(s'.db).totalProposals != StatsOf(s.db).totalProposals;
      } else {
        forall key | key in s'.cache
          ensures Fresh(s'.db, key, s'.cache[key])
        {
          CreateKeepsFresh(s.db, p, key, s.cache[key]);
        }
      }
    }
  }

  lemma CreateKeepsFresh(db: Db, p: Proposal, key: string, value: CacheValue)
    requires WellFormed(db) && Fresh(db, key, value) && p.id !in db.proposals && p.status != ACTIVE && key != STATS_KEY
    ensures Fresh(Db(db.proposals[p.id := p], db.created + [p.id], db.votes), key, value)
  {
    var db' := Db(db.proposals[p.id := p], db.created + [p.id], db.votes);
    assert ActiveOf(db') == ActiveOf(db) by {
      ActiveAfterCreate(db, p, |db.created|);
      assert ActiveOf(db') == [] + ActiveAmong(db', |db.created|);
    }
  }

  /** A vote whose proposal is not saved leaves the tables wrong exactly when it is not refused. */
  lemma HalfVoteKeepsInvIff(s: Sys, id: string, voter: string, support: bool, weight: real, up: bool)
    requires Inv(s, {})
    ensures var (res, after) := HalfVote(s, id, voter, support, weight, up);
            && res.Failure?
            && (res.error == Unavailable <==> HasStatus(s.db, id, ACTIVE) && !HasVoted(s.db.votes, id, Lower(voter)))
            && (Inv(after, {}) <==> res.error != Unavailable)
            && (res.error == Unavailable ==>
                  && !TalliesMatch(after.db)
                  && |VotesOf(after.db.votes, id)| == |VotesOf(s.db.votes, id)| + 1
                  && after.db.proposals == s.db.proposals && HasVoted(after.db.votes, id, Lower(voter)))
  {
    FindOneIsRow(s, id, up, {});
    var (res, after) := HalfVote(s, id, voter, support, weight, up);
    if res.error == Unavailable {
      var vote := Vote(id, Lower(voter), support, weight);
      VotesOfAppend(s.db.votes, vote, id);
      assert after.db.votes[|s.db.votes|] == vote;
      assert Tallied(s.db.proposals[id], VotesOf(s.db.votes, id));
      assert !Tallied(after.db.proposals[id], VotesOf(after.db.votes, id));
    }
  }

  // ---------- What a stale copy does ----------

  /** After a write whose loss keeps the old row cached, the next read hands out the old row. */
  lemma StaleRead(s: Sys, db': Db, id: string, lost: set<string>)
    requires Inv(s, {}) && id in s.db.proposals && ProposalKey(id) in lost
    ensures FindOne(Sys(db', FindOne(s, id, true).1.cache - (StaleKeys(id) - lost)), id, true).0 == Some(s.db.proposals[id])
  {
    FindOneIsRow(s, id, true, {});
    if ProposalKey(id) in s.cache {
      assert Fresh(s.db, ProposalKey(id), s.cache[ProposalKey(id)]);
    }
  }

  /**
   In any state: two new wallets vote on an active proposal, and the first vote's invalidation of it is lost.  The
   second is counted on the stale copy, so there are two more vote rows but the counter rises by one.
   */
  lemma OutageLosesVote(s: Sys, id: string, a: string, supportA: bool, b: string, supportB: bool, weight: real,
                        lost: set<string>, lost': set<string>)
    requires Inv(s, {}) && HasStatus(s.db, id, ACTIVE) && ProposalKey(id) in lost && Lower(a) != Lower(b)
    requires !HasVoted(s.db.votes, id, Lower(a)) && !HasVoted(s.db.votes, id, Lower(b))
    ensures var db := CastVote(CastVote(s, id, a, supportA, weight, true, lost).1, id, b, supportB, weight, true, lost').1.db;
            && id in db.proposals
            && db.proposals[id].totalVotes == s.db.proposals[id].totalVotes + 1
            && |VotesOf(db.votes, id)| == |VotesOf(s.db.votes, id)| + 2
  {
    FindOneIsRow(s, id, true, {});
    var first, second := Vote(id, Lower(a), supportA, weight), Vote(id, Lower(b), supportB, weight);
    var s1 := CastVote(s, id, a, supportA, weight, true, lost).1;
    assert s1.db == Save(s.db.(votes := s.db.votes + [first]), Counted(s.db.proposals[id], supportA));
    StaleRead(s, s1.db, id, lost);
    assert !HasVoted(s.db.votes + [first], id, Lower(b));
    VotesOfAppend(s.db.votes, first, id);
    VotesOfAppend(s.db.votes + [first], second, id);
  }

  /** In any state: if a cancellation's invalidation is lost, the next vote makes the cancelled proposal active again. */
  lemma OutageRevivesCancelled(s: Sys, id: string, voter: string, support: bool, weight: real, now: int,
                               lost: set<string>, lost': set<string>)
    requires Inv(s, {}) && HasStatus(s.db, id, ACTIVE) && ProposalKey(id) in lost && !HasVoted(s.db.votes, id, Lower(voter))
    ensures var cancelled := Update(s, id, Cancel, now, true, lost).1;
            && HasStatus(cancelled.db, id, CANCELLED)
            && HasStatus(CastVote(cancelled, id, voter, support, weight, true, lost').1.db, id, ACTIVE)
  {
    FindOneIsRow(s, id, true, {});
    StaleRead(s, Update(s, id, Cancel, now, true, lost).1.db, id, lost);
  }

  // ---------- Whole runs ----------

  /** In every run of this setting, the counters are the vote rows. */
  ghost predicate TalliesAlwaysMatch(t: Setting) {
    forall ops | AllowsAll(t, ops) :: TalliesMatch(Run(EMPTY, ops).db)
  }

  /** In every such run, a proposal once executed or cancelled stays as it is. */
  ghost predicate FinalIsForever(t: Setting) {
    forall ops, more, id
      | AllowsAll(t, ops) && AllowsAll(t, more) && id in Run(EMPTY, ops).db.proposals
        && Final(Run(EMPTY, ops).db.proposals[id].status) ::
      id in Run(Run(EMPTY, ops), more).db.proposals && Run(Run(EMPTY, ops), more).db.proposals[id] == Run(EMPTY, ops).db.proposals[id]
  }

  const DRAFT := Draft("t", "d", "p", None)

  /** A proposal is created and opened for voting. */
  function Opening(id: string): seq<Op> {
    [CreateOp(DRAFT, id, {}), UpdateOp(id, Activate, 0, true, {})]
  }

  lemma OpeningOpens(id: string)
    ensures var s := Run(EMPTY, Opening(id)); Inv(s, {}) && HasStatus(s.db, id, ACTIVE) && s.db.votes == []
  {
    var ops := Opening(id);
    RunTwo(EMPTY, ops[0], ops[1]);
    assert !Blank(DRAFT.title) by { assert DRAFT.title[0] == 't'; }
    assert !Blank(DRAFT.description) by { assert DRAFT.description[0] == 'd'; }
    assert !Blank(DRAFT.proposer) by { assert DRAFT.proposer[0] == 'p'; }
    var s1 := Step(EMPTY, ops[0]);
    CreateInv(EMPTY, DRAFT, id, {}, {});
    UpdateInv(s1, id, Activate, 0, true, {}, {});
    FindOneIsRow(s1, id, true, {});
  }

  lemma RunTwo(s: Sys, a: Op, b: Op)
    ensures Run(s, [a, b]) == Step(Step(s, a), b)
  {
    assert [a, b][1..] == [b] && [b][1..] == [];
    assert Run(s, [a, b]) == Run(Step(s, a), [b]) == Run(Step(Step(s, a), b), []);
  }

  lemma {:induction false} RunConcat(s: Sys, ops: seq<Op>, more: seq<Op>)
    ensures Run(s, ops + more) == Run(Run(s, ops), more)
    decreases ops
  {
    if ops == [] {
      assert ops + more == more;
    } else {
      assert (ops + more)[1..] == ops[1..] + more;
      RunConcat(Step(s, ops[0]), ops[1..], more);
    }
  }

  /** Two votes, the first of which loses the invalidation of the proposal. */
  function LosingVotes(id: string): seq<Op> {
    [CastVoteOp(id, "a", true, 1.0, true, {ProposalKey(id)}), CastVoteOp(id, "b", true, 1.0, true, {})]
  }

  lemma LosingVotesLose(id: string)
    ensures !TalliesMatch(Run(EMPTY, Opening(id) + LosingVotes(id)).db)
  {
    var voting, votes := Run(EMPTY, Opening(id)), LosingVotes(id);
    OpeningOpens(id);
    assert Lower("a")[0] == 'a' && Lower("b")[0] == 'b';
    OutageLosesVote(voting, id, "a", true, "b", true, 1.0, {ProposalKey(id)}, {});
    RunTwo(voting, votes[0], votes[1]);
    RunConcat(EMPTY, Opening(id), votes);
    assert Tallied(voting.db.proposals[id], VotesOf(voting.db.votes, id));
    var db := Run(EMPTY, Opening(id) + votes).db;
    assert !Tallied(db.proposals[id], VotesOf(db.votes, id));
  }

  lemma TalliesLost(id: string, t: Setting)
    requires ProposalKey(id) in t.losable
    ensures !TalliesAlwaysMatch(t)
  {
    LosingVotesLose(id);
    assert AllowsAll(t, Opening(id) + LosingVotes(id));
  }

  /** A vote whose proposal is not saved. */
  function UnsavedVote(id: string, voter: string): Op { HalfVoteOp(id, voter, true, 1.0, true) }

  lemma UnsavedVoteStep(s: Sys, id: string, voter: string)
    requires Inv(s, {}) && HasStatus(s.db, id, ACTIVE) && s.db.votes == []
    ensures !TalliesMatch(HalfVote(s, id, voter, true, 1.0, true).1.db)
  {
    assert !HasVoted(s.db.votes, id, Lower(voter));
    HalfVoteKeepsInvIff(s, id, voter, true, 1.0, true);
  }

  lemma OneMore(ops: seq<Op>, op: Op)
    ensures Run(EMPTY, ops + [op]) == Step(Run(EMPTY, ops), op)
  {
    RunConcat(EMPTY, ops, [op]);
    RunOne(Run(EMPTY, ops), op);
  }

  lemma UnsavedAfter(ops: seq<Op>, id: string, voter: string)
    ensures Run(EMPTY, ops + [UnsavedVote(id, voter)]) == HalfVote(Run(EMPTY, ops), id, voter, true, 1.0, true).1
  {
    OneMore(ops, UnsavedVote(id, voter));
  }

  lemma UnsavedRun(id: string, voter: string) returns (ops: seq<Op>)
    ensures AllowsAll(Setting({}, true), ops) && !TalliesMatch(Run(EMPTY, ops).db)
  {
    var opening := SomeOpening(id);
    UnsavedVoteStep(Run(EMPTY, opening), id, voter);
    UnsavedAfter(opening, id, voter);
    ops := opening + [UnsavedVote(id, voter)];
  }

  lemma TalliesUnsaved(t: Setting, id: string, voter: string)
    requires t.savesFail
    ensures !TalliesAlwaysMatch(t)
  {
    var ops := UnsavedRun(id, voter);
    assert AllowsAll(t, ops);
  }

  /** Some run without failures opens a proposal for voting. */
  lemma SomeOpening(id: string) returns (ops: seq<Op>)
    ensures AllowsAll(Setting({}, false), ops)
    ensures var s := Run(EMPTY, ops); Inv(s, {}) && HasStatus(s.db, id, ACTIVE) && s.db.votes == []
  {
    ops := Opening(id);
    OpeningOpens(id);
  }

  /** A cancellation that loses the invalidation of the proposal, and a vote. */
  function LosingCancel(id: string): Op { UpdateOp(id, Cancel, 0, true, {ProposalKey(id)}) }

  function ReviveVote(id: string): Op { CastVoteOp(id, "a", true, 1.0, true, {}) }

  lemma LosingCancelLoses(id: string)
    ensures var cancelled := Run(EMPTY, Opening(id) + [LosingCancel(id)]);
            HasStatus(cancelled.db, id, CANCELLED) && HasStatus(Run(cancelled, [ReviveVote(id)]).db, id, ACTIVE)
  {
    var voting := Run(EMPTY, Opening(id));
    OpeningOpens(id);
    OutageRevivesCancelled(voting, id, "a", true, 1.0, 0, {ProposalKey(id)}, {});
    RunConcat(EMPTY, Opening(id), [LosingCancel(id)]);
    RunOne(voting, LosingCancel(id));
    RunOne(Run(EMPTY, Opening(id) + [LosingCancel(id)]), ReviveVote(id));
  }

  lemma RunOne(s: Sys, op: Op)
    ensures Run(s, [op]) == Step(s, op)
  {
    assert [op][1..] == [];
  }

  lemma FinalLost(id: string, t: Setting)
    requires ProposalKey(id) in t.losable
    ensures !FinalIsForever(t)
  {
    var ops, more := Opening(id) + [LosingCancel(id)], [ReviveVote(id)];
    LosingCancelLoses(id);
    assert AllowsAll(t, ops) && AllowsAll(t, more);
    assert Final(Run(EMPTY, ops).db.proposals[id].status);
  }

  /**
   Tallies are right in all runs exactly when no proposal's own invalidation can be lost and no voted proposal can
   fail to be saved; the lists do not matter.
   */
  lemma TalliesAlwaysMatchIff(t: Setting)
    ensures TalliesAlwaysMatch(t) <==> NoProposalKey(t.losable) && !t.savesFail
  {
    if t.savesFail {
      TalliesUnsaved(t, "", "");
    } else if NoProposalKey(t.losable) {
      forall ops | AllowsAll(t, ops)
        ensures TalliesMatch(Run(EMPTY, ops).db)
      {
        RunInv(EMPTY, ops, t);
      }
    } else {
      var id :| ProposalKey(id) in t.losable;
      TalliesLost(id, t);
    }
  }

  lemma {:induction false} RunKeepsRows(s: Sys, ops: seq<Op>, t: Setting)
    requires RowsFresh(s) && NoProposalKey(t.losable) && AllowsAll(t, ops)
    ensures RowsFresh(Run(s, ops))
    decreases ops
  {
    if ops != [] {
      assert Allows(t, ops[0]);
      StepKeepsRows(s, ops[0]);
      RunKeepsRows(Step(s, ops[0]), ops[1..], t);
    }
  }

  lemma StepKeepsRows(s: Sys, op: Op)
    requires RowsFresh(s) && NoProposalKey(Losses(op))
    ensures RowsFresh(Step(s, op))
  {
    if id :| id in s.db.proposals {
      StepMovesForward(s, op, id);
    } else if op.CreateOp? {
      CreateKeepsRows(s, op.draft, op.newId, op.lost);
    } else if op.FindActiveOp? || op.VotesOp? || op.StatsOp? || op.ExpireOp? {
      ReadKeepsRows(s, op);
    } else {
      FindOneKeepsRows(s, op.id, op.up);
    }
  }

  /** Executed and cancelled proposals stay as they are in all runs whatever saves fail, exactly when no proposal's own
   invalidation can be lost. */
  lemma FinalIsForeverIff(t: Setting)
    ensures FinalIsForever(t) <==> NoProposalKey(t.losable)
  {
    if NoProposalKey(t.losable) {
      forall ops, more, id
        | AllowsAll(t, ops) && AllowsAll(t, more) && id in Run(EMPTY, ops).db.proposals
          && Final(Run(EMPTY, ops).db.proposals[id].status)
        ensures id in Run(Run(EMPTY, ops), more).db.proposals
                && Run(Run(EMPTY, ops), more).db.proposals[id] == Run(EMPTY, ops).db.proposals[id]
      {
        RunKeepsRows(EMPTY, ops, t);
        assert forall i | 0 <= i < |more| :: Allows(t, more[i]) && NoProposalKey(Losses(more[i]));
        FinalStaysFinal(Run(EMPTY, ops), more, id);
      }
    } else {
      var id :| ProposalKey(id) in t.losable;
      FinalLost(id, t);
    }
  }
}
