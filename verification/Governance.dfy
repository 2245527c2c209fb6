/** The entities of governance: two tables, and what the queries over them return. */
module GovernanceTables {
  import opened Wrappers

  datatype Status = ACTIVE | PASSED | REJECTED | EXECUTED | CANCELLED | PENDING

  datatype Proposal = Proposal(
    id: string, title: string, description: string, proposer: string, category: string, status: Status,
    totalVotes: int, votesFor: int, votesAgainst: int, participationRate: real, quorumProgress: real,
    votingStartsAt: Option<int>, executedAt: Option<int>)

  datatype Vote = Vote(proposalId: string, voter: string, support: bool, weight: real)

  /** Proposal rows by id, their ids in order of creation, and the vote rows in order of creation. */
  datatype Db = Db(proposals: map<string, Proposal>, created: seq<string>, votes: seq<Vote>)

  datatype Stats = Stats(totalProposals: nat, activeProposals: nat, participationRate: real, averageQuorum: real, proposalSuccessRate: real)

  /** ASCII lower case. */
  function Lower(s: string): string {
    seq(|s|, i requires 0 <= i < |s| => if 'A' <= s[i] <= 'Z' then s[i] - 'A' + 'a' else s[i])
  }

  // ---------- Queries ----------

  /** The votes of a proposal, newest first. */
  function VotesOf(votes: seq<Vote>, id: string): seq<Vote> {
    if votes == [] then []
    else
      var last := votes[|votes| - 1];
      (if last.proposalId == id then [last] else []) + VotesOf(votes[..|votes| - 1], id)
  }

  lemma VotesOfAppend(votes: seq<Vote>, v: Vote, id: string)
    ensures VotesOf(votes + [v], id) == (if v.proposalId == id then [v] else []) + VotesOf(votes, id)
  {
    assert (votes + [v])[..|votes + [v]| - 1] == votes;
  }

  predicate HasVoted(votes: seq<Vote>, id: string, voter: string) {
    exists i :: 0 <= i < |votes| && votes[i].proposalId == id && votes[i].voter == voter
  }

  predicate HasStatus(db: Db, id: string, status: Status) {
    id in db.proposals && db.proposals[id].status == status
  }

  /** The active proposals among the first `n` created, newest first. */
  function ActiveAmong(db: Db, n: nat): seq<Proposal>
    requires n <= |db.created|
  {
    if n == 0 then []
    else (if HasStatus(db, db.created[n - 1], ACTIVE) then [db.proposals[db.created[n - 1]]] else []) + ActiveAmong(db, n - 1)
  }

  function ActiveOf(db: Db): seq<Proposal> { ActiveAmong(db, |db.created|) }

  function CountStatus(db: Db, status: Status, n: nat): nat
    requires n <= |db.created|
  {
    if n == 0 then 0 else (if HasStatus(db, db.created[n - 1], status) then 1 else 0) + CountStatus(db, status, n - 1)
  }

  /** Sums of the participation rates and of the quorum progress. */
  function Rates(db: Db, n: nat): (real, real)
    requires n <= |db.created|
  {
    if n == 0 then (0.0, 0.0)
    else
      var (rate, quorum) := Rates(db, n - 1);
      if db.created[n - 1] in db.proposals
      then (rate + db.proposals[db.created[n - 1]].participationRate, quorum + db.proposals[db.created[n - 1]].quorumProgress)
      else (rate, quorum)
  }

  function StatsOf(db: Db): Stats {
    var n := |db.created|;
    var (rate, quorum) := Rates(db, n);
    Stats(n, CountStatus(db, ACTIVE, n),
          if n > 0 then rate / n as real else 0.0,
          if n > 0 then quorum / n as real else 0.0,
          if n > 0 then (CountStatus(db, PASSED, n) + CountStatus(db, EXECUTED, n)) as real / n as real else 0.0)
  }
}

/** The read-through cache of governance, one store of string keys. */
module GovernanceCacheStore {
  import opened Wrappers
  import opened GovernanceTables

  datatype CacheValue = ProposalV(proposal: Proposal) | ActiveV(active: seq<Proposal>) | StatsV(stats: Stats) | VotesV(votes: seq<Vote>)

  type Store = map<string, CacheValue>

  const PROPOSAL := "governance:proposal:"
  const ACTIVE_KEY := "governance:proposals:active"
  const ALL_KEY := "governance:proposals:all"
  const STATS_KEY := "governance:stats"
  const VOTES := "governance:votes:"

  function ProposalKey(id: string): string { PROPOSAL + id }

  function VotesKey(id: string): string { VOTES + id }

  /** No two things the cache stores share a key, whatever the proposal ids are. */
  lemma KeysDistinct(i: string, j: string)
    ensures ProposalKey(i) == ProposalKey(j) ==> i == j
    ensures VotesKey(i) == VotesKey(j) ==> i == j
    ensures ProposalKey(i) !in {VotesKey(j), ACTIVE_KEY, ALL_KEY, STATS_KEY}
    ensures VotesKey(i) !in {ACTIVE_KEY, ALL_KEY, STATS_KEY}
  {
    assert ProposalKey(i)[|PROPOSAL|..] == i && ProposalKey(j)[|PROPOSAL|..] == j;
    assert VotesKey(i)[|VOTES|..] == i && VotesKey(j)[|VOTES|..] == j;
    assert ProposalKey(i)[11] == 'p' && VotesKey(j)[11] == 'v' && VotesKey(i)[11] == 'v' && STATS_KEY[11] == 's';
    assert ProposalKey(i)[19] == ':' && ACTIVE_KEY[19] == 's' && ALL_KEY[19] == 's';
    assert ACTIVE_KEY[11] == 'p' && ALL_KEY[11] == 'p';
  }

  /** The keys that a change of one proposal makes stale. */
  function StaleKeys(id: string): set<string> {
    {ProposalKey(id), ACTIVE_KEY, ALL_KEY, STATS_KEY, VotesKey(id)}
  }

  const LIST_KEYS: set<string> := {ACTIVE_KEY, ALL_KEY, STATS_KEY}

  /** What a typed getter returns: the value, if the key holds one of its kind. */
  function GetProposal(s: Store, id: string): Option<Proposal> {
    if ProposalKey(id) in s && s[ProposalKey(id)].ProposalV? then Some(s[ProposalKey(id)].proposal) else None
  }

  function GetActive(s: Store): Option<seq<Proposal>> {
    if ACTIVE_KEY in s && s[ACTIVE_KEY].ActiveV? then Some(s[ACTIVE_KEY].active) else None
  }

  function GetStats(s: Store): Option<Stats> {
    if STATS_KEY in s && s[STATS_KEY].StatsV? then Some(s[STATS_KEY].stats) else None
  }

  function GetVotes(s: Store, id: string): Option<seq<Vote>> {
    if VotesKey(id) in s && s[VotesKey(id)].VotesV? then Some(s[VotesKey(id)].votes) else None
  }

  /** The Redis-backed cache.  A delete that does not reach Redis is skipped silently; `lost` are the keys it happens to. */
  class GovernanceCache {
    var store: Store

    constructor ()
      ensures store == map[]
    {
      store := map[];
    }

    method SetProposal(id: string, p: Proposal)
      modifies this
      ensures store == old(store)[ProposalKey(id) := ProposalV(p)]
    {
      store := store[ProposalKey(id) := ProposalV(p)];
    }

    method SetActive(ps: seq<Proposal>)
      modifies this
      ensures store == old(store)[ACTIVE_KEY := ActiveV(ps)]
    {
      store := store[ACTIVE_KEY := ActiveV(ps)];
    }

    method SetStats(stats: Stats)
      modifies this
      ensures store == old(store)[STATS_KEY := StatsV(stats)]
    {
      store := store[STATS_KEY := StatsV(stats)];
    }

    method SetVotes(id: string, votes: seq<Vote>)
      modifies this
      ensures store == old(store)[VotesKey(id) := VotesV(votes)]
    {
      store := store[VotesKey(id) := VotesV(votes)];
    }

    method Del(key: string, lost: set<string>)
      modifies this
      ensures store == old(store) - ({key} - lost)
    {
      if key !in lost {
        store := store - {key};
      }
    }

    method InvalidateProposal(id: string, lost: set<string>)
      modifies this
      ensures store == old(store) - (StaleKeys(id) - lost)
    {
      Del(ProposalKey(id), lost);
      Del(ACTIVE_KEY, lost);
      Del(ALL_KEY, lost);
      Del(STATS_KEY, lost);
      Del(VotesKey(id), lost);
      assert store == old(store) - (StaleKeys(id) - lost);
    }

    method InvalidateAll(lost: set<string>)
      modifies this
      ensures store == old(store) - (LIST_KEYS - lost)
    {
      Del(ACTIVE_KEY, lost);
      Del(ALL_KEY, lost);
      Del(STATS_KEY, lost);
      assert store == old(store) - (LIST_KEYS - lost);
    }
  }
}

/**
 Proposals and votes behind the cache.

 `castVote` and the status changes save the whole proposal they were handed,
 which may have come from the cache: that no vote is lost is a fact about the
 tables and the cache together.

 While Redis is away (`up` is false) a read goes to the database and caches
 nothing; `lost` are the keys whose invalidation does not reach Redis.
 */
module Governance {
  import opened Wrappers
  import opened GovernanceTables
  import opened GovernanceCacheStore

  datatype Sys = Sys(db: Db, cache: Store)

  datatype Error = NotFound | BadRequest | Conflict | Unavailable

  datatype Change = Activate | Execute | Cancel

  // ---------- Operations ----------

  function FindOne(s: Sys, id: string, up: bool): (Option<Proposal>, Sys) {
    if up && GetProposal(s.cache, id).Some? then (GetProposal(s.cache, id), s)
    else if id in s.db.proposals
    then (Some(s.db.proposals[id]), s.(cache := Cached(s.cache, ProposalKey(id), ProposalV(s.db.proposals[id]), up)))
    else (None, s)
  }

  function Cached(cache: Store, key: string, value: CacheValue, up: bool): Store {
    if up then cache[key := value] else cache
  }

  /** Saves a whole row. */
  function Save(db: Db, p: Proposal): Db {
    db.(proposals := db.proposals[p.id := p])
  }

  /** The row after a status change, if its status allows the change. */
  function Changed(p: Proposal, change: Change, now: int): Result<Proposal, Error> {
    match change
    case Activate => if p.status == PENDING then Success(p.(status := ACTIVE, votingStartsAt := Some(now))) else Failure(BadRequest)
    case Execute => if p.status == PASSED then Success(p.(status := EXECUTED, executedAt := Some(now))) else Failure(BadRequest)
    case Cancel =>
      if p.status == EXECUTED || p.status == CANCELLED then Failure(BadRequest) else Success(p.(status := CANCELLED))
  }

  /** Finds the proposal, saves the changed row, and drops what that made stale. */
  function Update(s: Sys, id: string, change: Change, now: int, up: bool, lost: set<string>): (Result<Proposal, Error>, Sys) {
    var (found, s1) := FindOne(s, id, up);
    if found.None? then (Failure(NotFound), s1)
    else
      var changed := Changed(found.value, change, now);
      if changed.Failure? then (changed, s1)
      else (changed, Sys(Save(s1.db, changed.value), s1.cache - (StaleKeys(id) - lost)))
  }

  predicate Blank(text: string) {
    forall i | 0 <= i < |text| :: text[i] == ' ' || text[i] == '\t' || text[i] == '\n' || text[i] == '\r'
  }

  /** Spaces, tabs and line breaks off both ends. */
  function Trim(text: string): string
    decreases |text|
  {
    if text != [] && Blank(text[..1]) then Trim(text[1..])
    else if text != [] && Blank(text[|text| - 1..]) then Trim(text[..|text| - 1])
    else text
  }

  datatype Draft = Draft(title: string, description: string, proposer: string, category: Option<string>)

  predicate Complete(d: Draft) {
    !Blank(d.title) && !Blank(d.description) && !Blank(d.proposer)
  }

  function NewProposal(d: Draft, newId: string): Proposal {
    Proposal(newId, Trim(d.title), Trim(d.description), Lower(d.proposer),
             if d.category.Some? then d.category.value else "PROTOCOL_UPGRADE", PENDING,
             0, 0, 0, 0.0, 0.0, None, None)
  }

  function Create(s: Sys, d: Draft, newId: string, lost: set<string>): (Result<Proposal, Error>, Sys) {
    if !Complete(d) then (Failure(BadRequest), s)
    else
      var p := NewProposal(d, newId);
      (Success(p), Sys(Db(s.db.proposals[newId := p], s.db.created + [newId], s.db.votes),
                       s.cache - (LIST_KEYS - lost)))
  }

  function Counted(p: Proposal, support: bool): Proposal {
    if support then p.(totalVotes := p.totalVotes + 1, votesFor := p.votesFor + 1)
    else p.(totalVotes := p.totalVotes + 1, votesAgainst := p.votesAgainst + 1)
  }

  function CastVote(s: Sys, id: string, voter: string, support: bool, weight: real, up: bool, lost: set<string>)
    : (Result<Vote, Error>, Sys)
  {
    var (found, s1) := FindOne(s, id, up);
    if found.None? then (Failure(NotFound), s1)
    else if found.value.status != ACTIVE then (Failure(BadRequest), s1)
    else if HasVoted(s1.db.votes, id, Lower(voter)) then (Failure(Conflict), s1)
    else
      var vote := Vote(id, Lower(voter), support, weight);
      (Success(vote), Sys(Save(s1.db.(votes := s1.db.votes + [vote]), Counted(found.value, support)),
                          s1.cache - (StaleKeys(id) - lost)))
  }

  /** The same when saving the proposal throws: the vote row is there, uncounted, and nothing is invalidated. */
  function HalfVote(s: Sys, id: string, voter: string, support: bool, weight: real, up: bool): (Result<Vote, Error>, Sys) {
    var counted := CastVote(s, id, voter, support, weight, up, {}).0;
    var s1 := FindOne(s, id, up).1;
    if counted.Failure? then (counted, s1)
    else (Failure(Unavailable), s1.(db := s1.db.(votes := s1.db.votes + [counted.value])))
  }

  function FindActive(s: Sys, up: bool): (seq<Proposal>, Sys) {
    if up && GetActive(s.cache).Some? then (GetActive(s.cache).value, s)
    else (ActiveOf(s.db), s.(cache := Cached(s.cache, ACTIVE_KEY, ActiveV(ActiveOf(s.db)), up)))
  }

  function VotesForProposal(s: Sys, id: string, up: bool): (seq<Vote>, Sys) {
    if up && GetVotes(s.cache, id).Some? then (GetVotes(s.cache, id).value, s)
    else (VotesOf(s.db.votes, id), s.(cache := Cached(s.cache, VotesKey(id), VotesV(VotesOf(s.db.votes, id)), up)))
  }

  function ReadStats(s: Sys, up: bool): (Stats, Sys) {
    if up && GetStats(s.cache).Some? then (GetStats(s.cache).value, s)
    else (StatsOf(s.db), s.(cache := Cached(s.cache, STATS_KEY, StatsV(StatsOf(s.db)), up)))
  }

  // ---------- The joint invariant ----------

  function CountSupport(votes: seq<Vote>, support: bool): nat {
    if votes == [] then 0 else (if votes[0].support == support then 1 else 0) + CountSupport(votes[1..], support)
  }

  lemma {:induction false} SupportSplits(votes: seq<Vote>)
    ensures CountSupport(votes, true) + CountSupport(votes, false) == |votes|
  {
    if votes != [] {
      SupportSplits(votes[1..]);
    }
  }

  ghost predicate WellFormed(db: Db) {
    && (forall i, j | 0 <= i < j < |db.created| :: db.created[i] != db.created[j])
    && (forall id :: id in db.proposals <==> id in db.created)
    && (forall id | id in db.proposals :: db.proposals[id].id == id)
    && (forall i | 0 <= i < |db.votes| :: db.votes[i].proposalId in db.proposals && db.votes[i].voter == Lower(db.votes[i].voter))
  }

  ghost predicate OneVoteEach(votes: seq<Vote>) {
    forall i, j | 0 <= i < j < |votes| :: votes[i].proposalId != votes[j].proposalId || votes[i].voter != votes[j].voter
  }

  /** The counters of a row are its vote rows. */
  ghost predicate Tallied(p: Proposal, votes: seq<Vote>) {
    && p.totalVotes == |votes|
    && p.votesFor == CountSupport(votes, true)
    && p.votesAgainst == CountSupport(votes, false)
  }

  ghost predicate TalliesMatch(db: Db) {
    forall id | id in db.proposals :: Tallied(db.proposals[id], VotesOf(db.votes, id))
  }

  /** A cache entry is what the database would recompute for its key. */
  ghost predicate Fresh(db: Db, key: string, value: CacheValue) {
    && (forall id | key == ProposalKey(id) :: id in db.proposals && value == ProposalV(db.proposals[id]))
    && (forall id | key == VotesKey(id) :: value == VotesV(VotesOf(db.votes, id)))
    && (key == ACTIVE_KEY ==> value == ActiveV(ActiveOf(db)))
    && (key == STATS_KEY ==> value == StatsV(StatsOf(db)))
  }

  /** Every cache entry is fresh, except perhaps those of `exempt` keys. */
  ghost predicate Coherent(s: Sys, exempt: set<string>) {
    forall key | key in s.cache && key !in exempt :: Fresh(s.db, key, s.cache[key])
  }

  ghost predicate TablesRight(db: Db) {
    WellFormed(db) && OneVoteEach(db.votes) && TalliesMatch(db)
  }

  ghost predicate Inv(s: Sys, exempt: set<string>) {
    TablesRight(s.db) && Coherent(s, exempt)
  }

  lemma FreshRow(db: Db, id: string)
    requires id in db.proposals
    ensures Fresh(db, ProposalKey(id), ProposalV(db.proposals[id]))
  {
    forall j: string
      ensures ProposalKey(id) == ProposalKey(j) ==> id == j
      ensures ProposalKey(id) !in {VotesKey(j), ACTIVE_KEY, STATS_KEY}
    {
      KeysDistinct(id, j);
    }
  }

  lemma FindOneIsRow(s: Sys, id: string, up: bool, exempt: set<string>)
    requires Inv(s, exempt) && ProposalKey(id) !in exempt
    ensures FindOne(s, id, up).0 == if id in s.db.proposals then Some(s.db.proposals[id]) else None
    ensures FindOne(s, id, up).1.db == s.db
    ensures Inv(FindOne(s, id, up).1, exempt)
  {
    if ProposalKey(id) in s.cache {
      assert Fresh(s.db, ProposalKey(id), s.cache[ProposalKey(id)]);
    }
    if id in s.db.proposals {
      FreshRow(s.db, id);
    }
  }

  /** Saving a row, with or without new votes on it, spoils only what is then dropped. */
  lemma SaveKeepsFresh(db: Db, p: Proposal, votes: seq<Vote>, key: string, value: CacheValue)
    requires WellFormed(db) && p.id in db.proposals && Fresh(db, key, value) && key !in StaleKeys(p.id)
    requires db.votes <= votes && forall i | |db.votes| <= i < |votes| :: votes[i].proposalId == p.id
    ensures Fresh(Save(db.(votes := votes), p), key, value)
  {
    forall id | key == VotesKey(id)
      ensures VotesOf(votes, id) == VotesOf(db.votes, id)
    {
      OtherVotes(db.votes, votes, id, p.id);
    }
  }

  lemma SaveInv(s: Sys, p: Proposal, votes: seq<Vote>, lost: set<string>, exempt: set<string>)
    requires WellFormed(s.db) && Coherent(s, exempt) && p.id in s.db.proposals && lost <= exempt
    requires s.db.votes <= votes && forall i | |s.db.votes| <= i < |votes| :: votes[i].proposalId == p.id
    ensures Coherent(Sys(Save(s.db.(votes := votes), p), s.cache - (StaleKeys(p.id) - lost)), exempt)
  {
    forall key | key in s.cache && key !in StaleKeys(p.id) && key !in exempt
      ensures Fresh(Save(s.db.(votes := votes), p), key, s.cache[key])
    {
      SaveKeepsFresh(s.db, p, votes, key, s.cache[key]);
    }
  }

  lemma {:induction false} OtherVotes(before: seq<Vote>, after: seq<Vote>, id: string, changed: string)
    requires before <= after && id != changed
    requires forall i | |before| <= i < |after| :: after[i].proposalId == changed
    ensures VotesOf(after, id) == VotesOf(before, id)
    decreases |after|
  {
    if |after| == |before| {
      assert after == before;
    } else {
      OtherVotes(before, after[..|after| - 1], id, changed);
    }
  }

  lemma UpdateInv(s: Sys, id: string, change: Change, now: int, up: bool, lost: set<string>, exempt: set<string>)
    requires Inv(s, exempt) && ProposalKey(id) !in exempt && lost <= exempt
    ensures Inv(Update(s, id, change, now, up, lost).1, exempt)
    ensures Update(s, id, change, now, up, lost).0 ==
            if id in s.db.proposals then Changed(s.db.proposals[id], change, now) else Failure(NotFound)
  {
    FindOneIsRow(s, id, up, exempt);
    if id in s.db.proposals && Changed(s.db.proposals[id], change, now).Success? {
      ChangeKeepsTables(s.db, id, change, now);
      SaveInv(FindOne(s, id, up).1, Changed(s.db.proposals[id], change, now).value, s.db.votes, lost, exempt);
    }
  }

  lemma ChangeKeepsTables(db: Db, id: string, change: Change, now: int)
    requires TablesRight(db) && id in db.proposals && Changed(db.proposals[id], change, now).Success?
    ensures TablesRight(Save(db, Changed(db.proposals[id], change, now).value))
    ensures Changed(db.proposals[id], change, now).value.id == id
  {
    var p := Changed(db.proposals[id], change, now).value;
    SameTallyKeepsTables(db, p);
  }

  lemma SameTallyKeepsTables(db: Db, p: Proposal)
    requires TablesRight(db) && p.id in db.proposals
    requires var row := db.proposals[p.id]; p.totalVotes == row.totalVotes && p.votesFor == row.votesFor && p.votesAgainst == row.votesAgainst
    ensures TablesRight(Save(db, p))
  {
    assert forall id | id in db.proposals :: Tallied(db.proposals[id], VotesOf(db.votes, id));
  }

  lemma CreateKeepsTables(db: Db, p: Proposal)
    requires WellFormed(db) && TalliesMatch(db) && p.id !in db.proposals
    requires p.totalVotes == p.votesFor == p.votesAgainst == 0
    ensures var db' := Db(db.proposals[p.id := p], db.created + [p.id], db.votes);
            WellFormed(db') && TalliesMatch(db')
  {
    NoVotes(db.votes, p.id);
    var db' := Db(db.proposals[p.id := p], db.created + [p.id], db.votes);
    forall id | id in db'.proposals
      ensures Tallied(db'.proposals[id], VotesOf(db.votes, id))
    {
      assert id != p.id ==> Tallied(db.proposals[id], VotesOf(db.votes, id));
    }
  }

  lemma CreateInv(s: Sys, d: Draft, newId: string, lost: set<string>, exempt: set<string>)
    requires Inv(s, exempt) && newId !in s.db.proposals && lost <= exempt
    ensures Inv(Create(s, d, newId, lost).1, exempt)
  {
    if Complete(d) {
      CreateKeepsTables(s.db, NewProposal(d, newId));
      var s' := Create(s, d, newId, lost).1;
      forall key | key in s'.cache && key !in exempt
        ensures Fresh(s'.db, key, s'.cache[key])
      {
        assert Fresh(s.db, key, s.cache[key]);
      }
    }
  }

  lemma {:induction false} NoVotes(votes: seq<Vote>, id: string)
    requires forall i | 0 <= i < |votes| :: votes[i].proposalId != id
    ensures VotesOf(votes, id) == []
    decreases |votes|
  {
    if votes != [] {
      NoVotes(votes[..|votes| - 1], id);
    }
  }

  lemma LowerIdempotent(s: string)
    ensures Lower(Lower(s)) == Lower(s)
  {
  }

  lemma CountSupportCons(v: Vote, votes: seq<Vote>, support: bool)
    ensures CountSupport([v] + votes, support) == (if v.support == support then 1 else 0) + CountSupport(votes, support)
  {
    assert ([v] + votes)[1..] == votes;
  }

  lemma VoteTallies(db: Db, id: string, vote: Vote)
    requires WellFormed(db) && TalliesMatch(db) && id in db.proposals && vote.proposalId == id
    ensures TalliesMatch(Save(db.(votes := db.votes + [vote]), Counted(db.proposals[id], vote.support)))
  {
    var db' := Save(db.(votes := db.votes + [vote]), Counted(db.proposals[id], vote.support));
    forall k | k in db'.proposals
      ensures Tallied(db'.proposals[k], VotesOf(db'.votes, k))
    {
      VotesOfAppend(db.votes, vote, k);
      assert Tallied(db.proposals[k], VotesOf(db.votes, k));
      if k == id {
        CountSupportCons(vote, VotesOf(db.votes, k), true);
        CountSupportCons(vote, VotesOf(db.votes, k), false);
      } else {
        assert VotesOf(db'.votes, k) == VotesOf(db.votes, k);
      }
    }
  }

  /** A new wallet's vote keeps the tables right. */
  lemma VoteKeepsTables(db: Db, id: string, vote: Vote)
    requires WellFormed(db) && TalliesMatch(db) && OneVoteEach(db.votes) && id in db.proposals && vote.proposalId == id
    requires vote.voter == Lower(vote.voter) && !HasVoted(db.votes, id, vote.voter)
    ensures var db' := Save(db.(votes := db.votes + [vote]), Counted(db.proposals[id], vote.support));
            WellFormed(db') && TalliesMatch(db') && OneVoteEach(db'.votes)
  {
    VoteTallies(db, id, vote);
    VoteKeepsShape(db, id, vote);
  }

  lemma VoteKeepsShape(db: Db, id: string, vote: Vote)
    requires WellFormed(db) && id in db.proposals && vote.proposalId == id && vote.voter == Lower(vote.voter)
    ensures WellFormed(Save(db.(votes := db.votes + [vote]), Counted(db.proposals[id], vote.support)))
  {
  }

  /** A vote is accepted exactly when the row is active and the wallet new; then it is counted. */
  lemma CastVoteInv(s: Sys, id: string, voter: string, support: bool, weight: real, up: bool, lost: set<string>, exempt: set<string>)
    requires Inv(s, exempt) && ProposalKey(id) !in exempt && lost <= exempt
    ensures Inv(CastVote(s, id, voter, support, weight, up, lost).1, exempt)
    ensures CastVote(s, id, voter, support, weight, up, lost).0.Success? <==>
            HasStatus(s.db, id, ACTIVE) && !HasVoted(s.db.votes, id, Lower(voter))
  {
    FindOneIsRow(s, id, up, exempt);
    var vote := Vote(id, Lower(voter), support, weight);
    if HasStatus(s.db, id, ACTIVE) && !HasVoted(s.db.votes, id, vote.voter) {
      LowerIdempotent(voter);
      VoteKeepsTables(s.db, id, vote);
      SaveInv(FindOne(s, id, up).1, Counted(s.db.proposals[id], support), s.db.votes + [vote], lost, exempt);
    }
  }

  /** The reads return what the database holds, and leave only that in the cache. */
  lemma FindActiveInv(s: Sys, up: bool, exempt: set<string>)
    requires Inv(s, exempt)
    ensures Inv(FindActive(s, up).1, exempt)
    ensures ACTIVE_KEY !in exempt || !up ==> FindActive(s, up).0 == ActiveOf(s.db)
  {
    if ACTIVE_KEY in s.cache && ACTIVE_KEY !in exempt {
      assert Fresh(s.db, ACTIVE_KEY, s.cache[ACTIVE_KEY]);
    }
    forall j: string
      ensures ProposalKey(j) != ACTIVE_KEY && VotesKey(j) != ACTIVE_KEY && STATS_KEY != ACTIVE_KEY
    {
      KeysDistinct(j, j);
      assert ACTIVE_KEY[11] == 'p' && STATS_KEY[11] == 's';
    }
    assert Fresh(s.db, ACTIVE_KEY, ActiveV(ActiveOf(s.db)));
  }

  lemma ReadStatsInv(s: Sys, up: bool, exempt: set<string>)
    requires Inv(s, exempt)
    ensures Inv(ReadStats(s, up).1, exempt)
    ensures STATS_KEY !in exempt || !up ==> ReadStats(s, up).0 == StatsOf(s.db)
  {
    if STATS_KEY in s.cache && STATS_KEY !in exempt {
      assert Fresh(s.db, STATS_KEY, s.cache[STATS_KEY]);
    }
    forall j: string
      ensures ProposalKey(j) != STATS_KEY && VotesKey(j) != STATS_KEY && STATS_KEY != ACTIVE_KEY
    {
      KeysDistinct(j, j);
      assert ACTIVE_KEY[11] == 'p' && STATS_KEY[11] == 's';
    }
    assert Fresh(s.db, STATS_KEY, StatsV(StatsOf(s.db)));
  }

  lemma VotesForProposalInv(s: Sys, id: string, up: bool, exempt: set<string>)
    requires Inv(s, exempt)
    ensures Inv(VotesForProposal(s, id, up).1, exempt)
    ensures VotesKey(id) !in exempt || !up ==> VotesForProposal(s, id, up).0 == VotesOf(s.db.votes, id)
  {
    if VotesKey(id) in s.cache && VotesKey(id) !in exempt {
      assert Fresh(s.db, VotesKey(id), s.cache[VotesKey(id)]);
    }
    forall j: string
      ensures VotesKey(id) == VotesKey(j) ==> id == j
      ensures ProposalKey(j) != VotesKey(id) && VotesKey(id) !in {ACTIVE_KEY, STATS_KEY}
    {
      KeysDistinct(id, j);
      KeysDistinct(j, id);
    }
    assert Fresh(s.db, VotesKey(id), VotesV(VotesOf(s.db.votes, id)));
  }

  // ---------- Runs ----------

  datatype Op =
    | FindOneOp(id: string, up: bool)
    | CreateOp(draft: Draft, newId: string, lost: set<string>)
    | UpdateOp(id: string, change: Change, now: int, up: bool, lost: set<string>)
    | CastVoteOp(id: string, voter: string, support: bool, weight: real, up: bool, lost: set<string>)
    | HalfVoteOp(id: string, voter: string, support: bool, weight: real, up: bool)
    | FindActiveOp(up: bool)
    | VotesOp(id: string, up: bool)
    | StatsOp(up: bool)
    | ExpireOp(keys: set<string>)

  /** A generated id is new; a step that claims otherwise does nothing. */
  function Step(s: Sys, op: Op): Sys {
    match op
    case FindOneOp(id, up) => FindOne(s, id, up).1
    case CreateOp(d, newId, lost) => if newId in s.db.proposals then s else Create(s, d, newId, lost).1
    case UpdateOp(id, change, now, up, lost) => Update(s, id, change, now, up, lost).1
    case CastVoteOp(id, voter, support, weight, up, lost) => CastVote(s, id, voter, support, weight, up, lost).1
    case HalfVoteOp(id, voter, support, weight, up) => HalfVote(s, id, voter, support, weight, up).1
    case FindActiveOp(up) => FindActive(s, up).1
    case VotesOp(id, up) => VotesForProposal(s, id, up).1
    case StatsOp(up) => ReadStats(s, up).1
    case ExpireOp(keys) => s.(cache := s.cache - keys)
  }

  function Run(s: Sys, ops: seq<Op>): Sys
    decreases ops
  {
    if ops == [] then s else Run(Step(s, ops[0]), ops[1..])
  }

  const EMPTY := Sys(Db(map[], [], []), map[])

  /** The keys whose invalidation the operation loses. */
  function Losses(op: Op): set<string> {
    match op
    case CreateOp(_, _, lost) => lost
    case UpdateOp(_, _, _, _, lost) => lost
    case CastVoteOp(_, _, _, _, _, lost) => lost
    case _ => {}
  }

  /** What may go wrong: the keys whose invalidation may be lost, and whether saving a voted proposal may throw. */
  datatype Setting = Setting(losable: set<string>, savesFail: bool)

  predicate Allows(t: Setting, op: Op) {
    Losses(op) <= t.losable && (op.HalfVoteOp? ==> t.savesFail)
  }

  predicate AllowsAll(t: Setting, ops: seq<Op>) {
    forall i | 0 <= i < |ops| :: Allows(t, ops[i])
  }

  ghost predicate NoProposalKey(keys: set<string>) {
    forall id :: ProposalKey(id) !in keys
  }

  lemma StepInv(s: Sys, op: Op, t: Setting)
    requires Inv(s, t.losable) && NoProposalKey(t.losable) && !t.savesFail && Allows(t, op)
    ensures Inv(Step(s, op), t.losable)
  {
    match op
    case FindOneOp(id, up) => FindOneIsRow(s, id, up, t.losable);
    case CreateOp(d, newId, lost) => if newId !in s.db.proposals { CreateInv(s, d, newId, lost, t.losable); }
    case UpdateOp(id, change, now, up, lost) => UpdateInv(s, id, change, now, up, lost, t.losable);
    case CastVoteOp(id, voter, support, weight, up, lost) => CastVoteInv(s, id, voter, support, weight, up, lost, t.losable);
    case FindActiveOp(up) => FindActiveInv(s, up, t.losable);
    case VotesOp(id, up) => VotesForProposalInv(s, id, up, t.losable);
    case StatsOp(up) => ReadStatsInv(s, up, t.losable);
    case ExpireOp(_) =>
  }

  /**
   Over every sequence of operations, with any entry expiring and Redis unreachable at any time, while no
   invalidation of a single proposal is lost and no voted proposal fails to be saved: each wallet has at most one
   vote per proposal, every proposal's counters are exactly its vote rows, although votes are counted on proposals
   read through the cache, and every cache entry whose own invalidations are not lost either equals what the
   database would recompute.
   */
  lemma {:induction false} RunInv(s: Sys, ops: seq<Op>, t: Setting)
    requires Inv(s, t.losable) && NoProposalKey(t.losable) && !t.savesFail && AllowsAll(t, ops)
    ensures Inv(Run(s, ops), t.losable)
    ensures forall id | id in Run(s, ops).db.proposals ::
              var p := Run(s, ops).db.proposals[id];
              p.totalVotes == p.votesFor + p.votesAgainst == |VotesOf(Run(s, ops).db.votes, id)|
    decreases ops
  {
    if ops == [] {
      forall id | id in s.db.proposals
        ensures var p := s.db.proposals[id]; p.totalVotes == p.votesFor + p.votesAgainst == |VotesOf(s.db.votes, id)|
      {
        SupportSplits(VotesOf(s.db.votes, id));
        assert Tallied(s.db.proposals[id], VotesOf(s.db.votes, id));
      }
    } else {
      assert Allows(t, ops[0]);
      StepInv(s, ops[0], t);
      RunInv(Step(s, ops[0]), ops[1..], t);
    }
  }

  // ---------- The life of a proposal ----------

  /** A status may stay, open for voting, be executed once passed, or be cancelled unless that is over. */
  predicate MayFollow(before: Status, after: Status) {
    || after == before
    || (before == PENDING && after == ACTIVE)
    || (before == PASSED && after == EXECUTED)
    || (after == CANCELLED && before != EXECUTED)
  }

  predicate Final(status: Status) { status == EXECUTED || status == CANCELLED }

  /** A row moves along its life, is counted on while active only, and stays as it is once final. */
  predicate Moves(before: Proposal, after: Proposal) {
    && MayFollow(before.status, after.status)
    && (before.status != ACTIVE ==> after.totalVotes == before.totalVotes)
    && (Final(before.status) ==> after == before)
  }

  /** Every row has its own id, and every cached proposal is its row. */
  ghost predicate RowsFresh(s: Sys) {
    && (forall id | id in s.db.proposals :: s.db.proposals[id].id == id)
    && forall id | ProposalKey(id) in s.cache :: id in s.db.proposals && s.cache[ProposalKey(id)] == ProposalV(s.db.proposals[id])
  }

  /** No proposal's key is another one's, or any other key of the cache. */
  lemma ProposalKeysApart(id: string)
    ensures forall j | ProposalKey(j) == ProposalKey(id) :: j == id
    ensures forall j :: ProposalKey(j) !in {VotesKey(id), ACTIVE_KEY, ALL_KEY, STATS_KEY}
  {
    forall j: string
      ensures ProposalKey(j) == ProposalKey(id) ==> j == id
      ensures ProposalKey(j) !in {VotesKey(id), ACTIVE_KEY, ALL_KEY, STATS_KEY}
    {
      KeysDistinct(j, id);
    }
  }

  lemma UpdateMoves(s: Sys, j: string, change: Change, now: int, up: bool, lost: set<string>, id: string)
    requires RowsFresh(s) && id in s.db.proposals
    ensures var db := Update(s, j, change, now, up, lost).1.db; id in db.proposals && Moves(s.db.proposals[id], db.proposals[id])
    ensures ProposalKey(j) !in lost ==> RowsFresh(Update(s, j, change, now, up, lost).1)
  {
    ProposalKeysApart(j);
    if j in s.db.proposals {
      assert s.db.proposals[j].id == j;
      ChangeMoves(s.db.proposals[j], change, now);
    }
  }

  lemma ChangeMoves(p: Proposal, change: Change, now: int)
    ensures Changed(p, change, now).Success? ==> Moves(p, Changed(p, change, now).value) && Changed(p, change, now).value.id == p.id
  {
  }

  lemma VoteMoves(s: Sys, j: string, voter: string, support: bool, weight: real, up: bool, lost: set<string>, id: string)
    requires RowsFresh(s) && id in s.db.proposals
    ensures var db := CastVote(s, j, voter, support, weight, up, lost).1.db;
            id in db.proposals && Moves(s.db.proposals[id], db.proposals[id])
    ensures ProposalKey(j) !in lost ==> RowsFresh(CastVote(s, j, voter, support, weight, up, lost).1)
  {
    ProposalKeysApart(j);
    if j in s.db.proposals {
      assert s.db.proposals[j].id == j;
    }
  }

  lemma FindOneKeepsRows(s: Sys, j: string, up: bool)
    requires RowsFresh(s)
    ensures RowsFresh(FindOne(s, j, up).1) && FindOne(s, j, up).1.db == s.db
  {
    ProposalKeysApart(j);
  }

  lemma HalfVoteMoves(s: Sys, j: string, voter: string, support: bool, weight: real, up: bool)
    requires RowsFresh(s)
    ensures var after := HalfVote(s, j, voter, support, weight, up).1; RowsFresh(after) && after.db.proposals == s.db.proposals
  {
    FindOneKeepsRows(s, j, up);
  }

  lemma ReadKeepsRows(s: Sys, op: Op)
    requires RowsFresh(s) && (op.FindActiveOp? || op.VotesOp? || op.StatsOp? || op.ExpireOp?)
    ensures RowsFresh(Step(s, op)) && Step(s, op).db == s.db
  {
    ProposalKeysApart(if op.VotesOp? then op.id else "");
  }

  lemma CreateKeepsRows(s: Sys, d: Draft, newId: string, lost: set<string>)
    requires RowsFresh(s) && newId !in s.db.proposals
    ensures RowsFresh(Create(s, d, newId, lost).1)
  {
  }

  /** Whatever is lost in the step, a row moves along its life; and unless a proposal's key is, cached rows stay right. */
  lemma StepMovesForward(s: Sys, op: Op, id: string)
    requires RowsFresh(s) && id in s.db.proposals
    ensures id in Step(s, op).db.proposals && Moves(s.db.proposals[id], Step(s, op).db.proposals[id])
    ensures NoProposalKey(Losses(op)) ==> RowsFresh(Step(s, op))
  {
    match op
    case FindOneOp(j, up) => FindOneKeepsRows(s, j, up);
    case CreateOp(d, newId, lost) => if newId !in s.db.proposals { CreateKeepsRows(s, d, newId, lost); }
    case UpdateOp(j, change, now, up, lost) => UpdateMoves(s, j, change, now, up, lost, id);
    case CastVoteOp(j, voter, support, weight, up, lost) => VoteMoves(s, j, voter, support, weight, up, lost, id);
    case HalfVoteOp(j, voter, support, weight, up) => HalfVoteMoves(s, j, voter, support, weight, up);
    case _ => ReadKeepsRows(s, op);
  }

  /** While no proposal's invalidation is lost, an executed or cancelled one never changes again, tally included. */
  lemma {:induction false} FinalStaysFinal(s: Sys, ops: seq<Op>, id: string)
    requires RowsFresh(s) && forall i | 0 <= i < |ops| :: NoProposalKey(Losses(ops[i]))
    requires id in s.db.proposals && Final(s.db.proposals[id].status)
    ensures id in Run(s, ops).db.proposals && Run(s, ops).db.proposals[id] == s.db.proposals[id]
    decreases ops
  {
    if ops != [] {
      StepMovesForward(s, ops[0], id);
      FinalStaysFinal(Step(s, ops[0]), ops[1..], id);
    }
  }

  // ---------- Which statuses occur ----------

  predicate Undecided(status: Status) { status == PENDING || status == ACTIVE || status == CANCELLED }

  ghost predicate NoneDecided(s: Sys) {
    && (forall id | id in s.db.proposals :: Undecided(s.db.proposals[id].status))
    && (forall k | k in s.cache && s.cache[k].ProposalV? :: Undecided(s.cache[k].proposal.status))
  }

  lemma StepNeverDecides(s: Sys, op: Op)
    requires NoneDecided(s)
    ensures NoneDecided(Step(s, op))
  {
    match op
    case HalfVoteOp(id, voter, support, weight, up) => FindNeverDecides(s, id, up);
    case CastVoteOp(id, voter, support, weight, up, lost) => VoteNeverDecides(s, id, voter, support, weight, up, lost);
    case UpdateOp(id, change, now, up, lost) => UpdateNeverDecides(s, id, change, now, up, lost);
    case _ =>
  }

  lemma VoteNeverDecides(s: Sys, id: string, voter: string, support: bool, weight: real, up: bool, lost: set<string>)
    requires NoneDecided(s)
    ensures NoneDecided(CastVote(s, id, voter, support, weight, up, lost).1)
  {
    FindNeverDecides(s, id, up);
  }

  lemma UpdateNeverDecides(s: Sys, id: string, change: Change, now: int, up: bool, lost: set<string>)
    requires NoneDecided(s)
    ensures NoneDecided(Update(s, id, change, now, up, lost).1)
  {
    FindNeverDecides(s, id, up);
  }

  lemma FindNeverDecides(s: Sys, id: string, up: bool)
    requires NoneDecided(s)
    ensures NoneDecided(FindOne(s, id, up).1)
  {
  }

  lemma {:induction false} NoneCounted(db: Db, status: Status, n: nat)
    requires n <= |db.created| && forall id | id in db.proposals :: db.proposals[id].status != status
    ensures CountStatus(db, status, n) == 0
  {
    if n > 0 {
      NoneCounted(db, status, n - 1);
    }
  }

  /**
   No operation ever sets PASSED or REJECTED: from an empty database `execute` is refused in every run, and the
   success rate the statistics report is zero.
   */
  lemma {:induction false} ExecuteNeverSucceeds(s: Sys, ops: seq<Op>, id: string, now: int, up: bool, lost: set<string>)
    requires NoneDecided(s)
    ensures NoneDecided(Run(s, ops))
    ensures Update(Run(s, ops), id, Execute, now, up, lost).0.Failure?
    ensures StatsOf(Run(s, ops).db).proposalSuccessRate == 0.0
    decreases ops
  {
    if ops == [] {
      NoneCounted(s.db, PASSED, |s.db.created|);
      NoneCounted(s.db, EXECUTED, |s.db.created|);
    } else {
      StepNeverDecides(s, ops[0]);
      ExecuteNeverSucceeds(Step(s, ops[0]), ops[1..], id, now, up, lost);
    }
  }

  // ---------- The service ----------

  class GovernanceService {
    const cache: GovernanceCache
    var db: Db

    constructor (cache: GovernanceCache)
      ensures this.cache == cache && db == EMPTY.db
    {
      this.cache, db := cache, EMPTY.db;
    }

    ghost function State(): Sys
      reads this, cache
    {
      Sys(db, cache.store)
    }

    method FindOneRow(id: string, up: bool) returns (found: Option<Proposal>)
      modifies cache
      ensures (found, State()) == FindOne(old(State()), id, up)
    {
      found := None;
      if up {
        found := GetProposal(cache.store, id);
        if found.Some? {
          return;
        }
      }
      if id in db.proposals {
        found := Some(db.proposals[id]);
        if up {
          cache.SetProposal(id, db.proposals[id]);
        }
      }
    }

    method CreateProposal(d: Draft, newId: string, lost: set<string>) returns (res: Result<Proposal, Error>)
      modifies this, cache
      ensures (res, State()) == Create(old(State()), d, newId, lost)
    {
      if Blank(d.title) || Blank(d.description) || Blank(d.proposer) {
        return Failure(BadRequest);
      }
      var p := NewProposal(d, newId);
      db := Db(db.proposals[newId := p], db.created + [newId], db.votes);
      cache.InvalidateAll(lost);
      res := Success(p);
    }

    method ActivateProposal(id: string, now: int, up: bool, lost: set<string>) returns (res: Result<Proposal, Error>)
      modifies this, cache
      ensures (res, State()) == Update(old(State()), id, Activate, now, up, lost)
    {
      var found := FindOneRow(id, up);
      if found.None? {
        return Failure(NotFound);
      }
      if found.value.status != PENDING {
        return Failure(BadRequest);
      }
      var p := found.value.(status := ACTIVE, votingStartsAt := Some(now));
      SaveRow(p);
      cache.InvalidateProposal(id, lost);
      res := Success(p);
    }

    method ExecuteProposal(id: string, now: int, up: bool, lost: set<string>) returns (res: Result<Proposal, Error>)
      modifies this, cache
      ensures (res, State()) == Update(old(State()), id, Execute, now, up, lost)
    {
      var found := FindOneRow(id, up);
      if found.None? {
        return Failure(NotFound);
      }
      if found.value.status != PASSED {
        return Failure(BadRequest);
      }
      var p := found.value.(status := EXECUTED, executedAt := Some(now));
      SaveRow(p);
      cache.InvalidateProposal(id, lost);
      res := Success(p);
    }

    method CancelProposal(id: string, now: int, up: bool, lost: set<string>) returns (res: Result<Proposal, Error>)
      modifies this, cache
      ensures (res, State()) == Update(old(State()), id, Cancel, now, up, lost)
    {
      var found := FindOneRow(id, up);
      if found.None? {
        return Failure(NotFound);
      }
      if found.value.status == EXECUTED || found.value.status == CANCELLED {
        return Failure(BadRequest);
      }
      var p := found.value.(status := CANCELLED);
      SaveRow(p);
      cache.InvalidateProposal(id, lost);
      res := Success(p);
    }

    method SaveRow(p: Proposal)
      modifies this
      ensures db == Save(old(db), p)
    {
      db := db.(proposals := db.proposals[p.id := p]);
    }

    /**
     Adds the vote row, counts it on the proposal it was handed, and saves that whole proposal; `saves` is false
     when that second save throws.
     */
    method CastVoteOn(id: string, voter: string, support: bool, weight: real, saves: bool, up: bool, lost: set<string>)
      returns (res: Result<Vote, Error>)
      modifies this, cache
      ensures (res, State()) == if saves then CastVote(old(State()), id, voter, support, weight, up, lost)
                                else HalfVote(old(State()), id, voter, support, weight, up)
    {
      var found := FindOneRow(id, up);
      if found.None? {
        return Failure(NotFound);
      }
      if found.value.status != ACTIVE {
        return Failure(BadRequest);
      }
      if HasVoted(db.votes, id, Lower(voter)) {
        return Failure(Conflict);
      }
      var vote := Vote(id, Lower(voter), support, weight);
      db := db.(votes := db.votes + [vote]);
      var p := found.value.(totalVotes := found.value.totalVotes + 1);
      if support {
        p := p.(votesFor := p.votesFor + 1);
      } else {
        p := p.(votesAgainst := p.votesAgainst + 1);
      }
      if !saves {
        return Failure(Unavailable);
      }
      SaveRow(p);
      cache.InvalidateProposal(id, lost);
      res := Success(vote);
    }

    method FindActiveRows(up: bool) returns (ps: seq<Proposal>)
      modifies cache
      ensures (ps, State()) == FindActive(old(State()), up)
    {
      if up {
        var cached := GetActive(cache.store);
        if cached.Some? {
          return cached.value;
        }
      }
      ps := ActiveOf(db);
      if up {
        cache.SetActive(ps);
      }
    }

    method GetVotesForProposal(id: string, up: bool) returns (votes: seq<Vote>)
      modifies cache
      ensures (votes, State()) == VotesForProposal(old(State()), id, up)
    {
      if up {
        var cached := GetVotes(cache.store, id);
        if cached.Some? {
          return cached.value;
        }
      }
      votes := VotesOf(db.votes, id);
      if up {
        cache.SetVotes(id, votes);
      }
    }

    method GetGovernanceStats(up: bool) returns (stats: Stats)
      modifies cache
      ensures (stats, State()) == ReadStats(old(State()), up)
    {
      if up {
        var cached := GetStats(cache.store);
        if cached.Some? {
          return cached.value;
        }
      }
      stats := StatsOf(db);
      if up {
        cache.SetStats(stats);
      }
    }
  }
}
