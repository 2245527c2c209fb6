/**
 What each governance operation leaves in the tables, field by field: the row of
 a vote, the counters of its proposal, the row of a new proposal, the status
 changes, and what the queries list.
 */
module GovernanceRecords {
  import opened Wrappers
  import opened GovernanceTables
  import opened GovernanceCacheStore
  import opened Governance
  import opened RealSums

  // ---------- Wallets ----------

  /** The same letter in the other case, or the same character. */
  predicate SameLetter(a: char, b: char) {
    || a == b
    || ('A' <= a <= 'Z' && 'a' <= b <= 'z' && b as int - a as int == 32)
    || ('A' <= b <= 'Z' && 'a' <= a <= 'z' && a as int - b as int == 32)
  }

  lemma SameLetterIff(a: char, b: char)
    ensures Lower([a]) == Lower([b]) <==> SameLetter(a, b)
  {
    assert Lower([a])[0] == Lower([b])[0] <==> SameLetter(a, b);
  }

  /** Two spellings are one wallet exactly when they differ in the case of letters only; the stored one has no capitals. */
  lemma SameWalletIff(a: string, b: string)
    ensures Lower(a) == Lower(b) <==> |a| == |b| && forall i | 0 <= i < |a| :: SameLetter(a[i], b[i])
    ensures |Lower(a)| == |a| && forall i | 0 <= i < |a| :: SameLetter(Lower(a)[i], a[i]) && !('A' <= Lower(a)[i] <= 'Z')
  {
    if |a| == |b| {
      forall i | 0 <= i < |a|
        ensures Lower(a)[i] == Lower(b)[i] <==> SameLetter(a[i], b[i])
      {
        SameLetterIff(a[i], b[i]);
      }
    }
  }

  // ---------- Votes ----------

  /** The wallet, in this or another spelling, has a vote row on the proposal. */
  ghost predicate Voted(db: Db, id: string, voter: string) {
    exists i :: 0 <= i < |db.votes| && db.votes[i].proposalId == id && Lower(db.votes[i].voter) == Lower(voter)
  }

  /** `after` is `before` with one more vote on `support`'s side, and nothing else. */
  ghost predicate OneMore(before: Proposal, after: Proposal, support: bool) {
    && after.totalVotes == before.totalVotes + 1
    && after.votesFor == before.votesFor + (if support then 1 else 0)
    && after.votesAgainst == before.votesAgainst + (if support then 0 else 1)
    && after == before.(totalVotes := after.totalVotes, votesFor := after.votesFor, votesAgainst := after.votesAgainst)
  }

  /** All rows but one proposal's, and the order of creation, are as before. */
  ghost predicate OnlyRow(before: Db, after: Db, id: string) {
    && after.created == before.created && after.proposals.Keys == before.proposals.Keys
    && forall j | j in before.proposals && j != id :: after.proposals[j] == before.proposals[j]
  }

  lemma VotedIff(db: Db, id: string, voter: string)
    requires WellFormed(db)
    ensures HasVoted(db.votes, id, Lower(voter)) <==> Voted(db, id, voter)
  {
    forall i | 0 <= i < |db.votes|
      ensures Lower(db.votes[i].voter) == db.votes[i].voter
    {
    }
  }

  /** A vote is accepted exactly on an active proposal on which the wallet, however it is spelled, has no row. */
  lemma CastVoteAccepts(s: Sys, id: string, voter: string, support: bool, weight: real, up: bool, lost: set<string>, exempt: set<string>)
    requires Inv(s, exempt) && ProposalKey(id) !in exempt
    ensures var (res, s') := CastVote(s, id, voter, support, weight, up, lost);
            && (res.Success? <==> id in s.db.proposals && s.db.proposals[id].status == ACTIVE && !Voted(s.db, id, voter))
            && (res.Failure? ==> s'.db == s.db && res.error ==
                                 if id !in s.db.proposals then NotFound
                                 else if s.db.proposals[id].status != ACTIVE then BadRequest else Conflict)
  {
    FindOneIsRow(s, id, up, exempt);
    VotedIff(s.db, id, voter);
  }

  lemma SavedVote(db: Db, id: string, votes: seq<Vote>, support: bool)
    requires id in db.proposals && db.proposals[id].id == id
    ensures var db' := Save(db.(votes := votes), Counted(db.proposals[id], support));
            OnlyRow(db, db', id) && OneMore(db.proposals[id], db'.proposals[id], support) && db'.votes == votes
  {
  }

  /**
   What an accepted vote does to the tables: one row is added that holds the side that was cast, that side's counter
   and the total grow by one, and nothing else changes.
   */
  lemma CastVoteRecords(s: Sys, id: string, voter: string, support: bool, weight: real, up: bool, lost: set<string>, exempt: set<string>)
    requires Inv(s, exempt) && ProposalKey(id) !in exempt
    requires CastVote(s, id, voter, support, weight, up, lost).0.Success?
    ensures var (res, s') := CastVote(s, id, voter, support, weight, up, lost);
            && res.value.proposalId == id && res.value.voter == Lower(voter)
            && res.value.support == support && res.value.weight == weight
            && s'.db.votes == s.db.votes + [res.value]
            && id in s.db.proposals && OnlyRow(s.db, s'.db, id) && OneMore(s.db.proposals[id], s'.db.proposals[id], support)
  {
    FindOneIsRow(s, id, up, exempt);
    assert s.db.proposals[id].id == id;
    SavedVote(s.db, id, s.db.votes + [Vote(id, Lower(voter), support, weight)], support);
  }

  /** When saving the proposal throws, the same row is added, no counter changes, and the caller is told of the failure. */
  lemma HalfVoteRecords(s: Sys, id: string, voter: string, support: bool, weight: real, up: bool, exempt: set<string>)
    requires Inv(s, exempt) && ProposalKey(id) !in exempt
    requires id in s.db.proposals && s.db.proposals[id].status == ACTIVE && !Voted(s.db, id, voter)
    ensures var (res, s') := HalfVote(s, id, voter, support, weight, up);
            && res == Failure(Unavailable) && s'.db.proposals == s.db.proposals && s'.db.created == s.db.created
            && s'.db.votes == s.db.votes + [Vote(id, Lower(voter), support, weight)]
  {
    CastVoteAccepts(s, id, voter, support, weight, up, {}, exempt);
    CastVoteRecords(s, id, voter, support, weight, up, {}, exempt);
    FindOneIsRow(s, id, up, exempt);
  }

  // ---------- Newest first ----------

  /** The places below `n` that are selected, the last first. */
  function Places(n: nat, selected: nat -> bool): (at: seq<nat>)
    ensures forall k | 0 <= k < |at| :: at[k] < n
  {
    if n == 0 then [] else (if selected(n - 1) then [n - 1] else []) + Places(n - 1, selected)
  }

  lemma {:induction false} PlacesDescend(n: nat, selected: nat -> bool)
    ensures var at := Places(n, selected);
            && (forall k, l | 0 <= k < l < |at| :: at[k] > at[l])
            && (forall i: nat :: i in at <==> i < n && selected(i))
  {
    if n > 0 {
      PlacesDescend(n - 1, selected);
    }
  }

  function VoteOn(votes: seq<Vote>, id: string): nat -> bool {
    (i: nat) => i < |votes| && votes[i].proposalId == id
  }

  lemma {:induction false} VotesAt(votes: seq<Vote>, id: string, n: nat, k: nat)
    requires n <= |votes|
    ensures var at := Places(n, VoteOn(votes, id));
            && |VotesOf(votes[..n], id)| == |at|
            && (k < |at| ==> VotesOf(votes[..n], id)[k] == votes[at[k]])
    decreases n
  {
    if n > 0 {
      assert votes[..n] == votes[..n - 1] + [votes[n - 1]];
      VotesOfAppend(votes[..n - 1], votes[n - 1], id);
      VotesAt(votes, id, n - 1, if votes[n - 1].proposalId == id && k > 0 then k - 1 else k);
    }
  }

  /** The rows of one proposal, newest first, none of them left out: `at` are their places. */
  lemma VotesNewestFirst(votes: seq<Vote>, id: string) returns (at: seq<nat>)
    ensures |at| == |VotesOf(votes, id)| && forall k, l | 0 <= k < l < |at| :: at[k] > at[l]
    ensures forall k | 0 <= k < |at| :: at[k] < |votes| && VotesOf(votes, id)[k] == votes[at[k]]
    ensures forall i: nat | i < |votes| :: i in at <==> votes[i].proposalId == id
  {
    at := Places(|votes|, VoteOn(votes, id));
    PlacesDescend(|votes|, VoteOn(votes, id));
    assert votes[..|votes|] == votes;
    VotesAt(votes, id, |votes|, 0);
    forall k: nat | k < |at|
      ensures VotesOf(votes, id)[k] == votes[at[k]]
    {
      VotesAt(votes, id, |votes|, k);
    }
  }

  function ActiveNow(db: Db): nat -> bool {
    (i: nat) => i < |db.created| && HasStatus(db, db.created[i], ACTIVE)
  }

  lemma {:induction false} ActiveAt(db: Db, n: nat)
    requires n <= |db.created| && forall i | 0 <= i < |db.created| :: db.created[i] in db.proposals
    ensures var at := Places(n, ActiveNow(db));
            && |ActiveAmong(db, n)| == |at|
            && forall k | 0 <= k < |at| :: ActiveAmong(db, n)[k] == db.proposals[db.created[at[k]]]
  {
    if n > 0 {
      ActiveAt(db, n - 1);
    }
  }

  /** The active list: exactly the rows whose status is active, each once, the last created first. */
  lemma ActiveNewestFirst(db: Db) returns (at: seq<nat>)
    requires forall i | 0 <= i < |db.created| :: db.created[i] in db.proposals
    ensures |at| == |ActiveOf(db)| && forall k, l | 0 <= k < l < |at| :: at[k] > at[l]
    ensures forall k | 0 <= k < |at| :: at[k] < |db.created| && ActiveOf(db)[k] == db.proposals[db.created[at[k]]]
    ensures forall i: nat | i < |db.created| :: i in at <==> db.proposals[db.created[i]].status == ACTIVE
  {
    at := Places(|db.created|, ActiveNow(db));
    PlacesDescend(|db.created|, ActiveNow(db));
    ActiveAt(db, |db.created|);
  }

  // ---------- Status changes ----------

  predicate Allowed(before: Status, change: Change) {
    match change
    case Activate => before == PENDING
    case Execute => before == PASSED
    case Cancel => before != EXECUTED && before != CANCELLED
  }

  /** The status that a change leads to. */
  function Target(change: Change): Status {
    match change
    case Activate => ACTIVE
    case Execute => EXECUTED
    case Cancel => CANCELLED
  }

  /**
   What a status change does to the tables: it succeeds exactly from the statuses that allow it, moves the row to the
   target status, stamps the start of voting or the execution, and touches nothing else; a refused one changes nothing.
   */
  lemma UpdateRecords(s: Sys, id: string, change: Change, now: int, up: bool, lost: set<string>, exempt: set<string>)
    requires Inv(s, exempt) && ProposalKey(id) !in exempt
    ensures var (res, s') := Update(s, id, change, now, up, lost);
            && (res.Success? <==> id in s.db.proposals && Allowed(s.db.proposals[id].status, change))
            && (res.Failure? ==> s'.db == s.db && res.error == if id in s.db.proposals then BadRequest else NotFound)
            && (res.Success? ==>
                  var row := s.db.proposals[id];
                  && OnlyRow(s.db, s'.db, id) && s'.db.votes == s.db.votes && s'.db.proposals[id] == res.value
                  && res.value.status == Target(change)
                  && res.value.votingStartsAt == (if change.Activate? then Some(now) else row.votingStartsAt)
                  && res.value.executedAt == (if change.Execute? then Some(now) else row.executedAt)
                  && row == res.value.(status := row.status, votingStartsAt := row.votingStartsAt, executedAt := row.executedAt))
  {
    FindOneIsRow(s, id, up, exempt);
  }

  // ---------- New proposals ----------

  /** Blank are spaces, tabs and line breaks, and the empty text. */
  lemma BlankIff(text: string)
    ensures Blank(text) <==> forall c | c in text :: c in [' ', '\t', '\n', '\r']
  {
    if forall c | c in text :: c in [' ', '\t', '\n', '\r'] {
      forall i | 0 <= i < |text|
        ensures text[i] == ' ' || text[i] == '\t' || text[i] == '\n' || text[i] == '\r'
      {
        assert text[i] in text;
      }
    }
  }

  ghost predicate Around(text: string, front: string, core: string, back: string) {
    text == front + core + back && Blank(front) && Blank(back)
  }

  /** `core` is `text` without the blanks at its ends. */
  ghost predicate Stripped(text: string, core: string) {
    && core != "" && !Blank(core[..1]) && !Blank(core[|core| - 1..])
    && exists front, back :: Around(text, front, core, back)
  }

  lemma BlankConcat(a: string, b: string)
    requires Blank(a) && Blank(b)
    ensures Blank(a + b)
  {
  }

  lemma StripMore(front: string, inner: string, back: string, core: string)
    requires Blank(front) && Blank(back) && Stripped(inner, core)
    ensures Stripped(front + inner + back, core)
  {
    var f, b :| Around(inner, f, core, b);
    BlankConcat(front, f);
    BlankConcat(b, back);
    assert Around(front + inner + back, front + f, core, b + back);
  }

  lemma {:induction false} TrimStrips(text: string)
    requires !Blank(text)
    ensures Stripped(text, Trim(text))
    decreases |text|
  {
    if Blank(text[..1]) {
      assert text == text[..1] + text[1..];
      TrimStrips(text[1..]);
      StripMore(text[..1], text[1..], "", Trim(text));
      assert text[..1] + text[1..] + "" == text;
    } else if Blank(text[|text| - 1..]) {
      var n := |text| - 1;
      assert text == text[..n] + text[n..];
      TrimStrips(text[..n]);
      StripMore("", text[..n], text[n..], Trim(text));
      assert "" + text[..n] + text[n..] == text;
    } else {
      assert Around(text, "", text, "");
    }
  }

  /**
   What creating a proposal does: it is refused exactly when title, description or proposer is blank, and changes
   nothing then.  Otherwise one pending row without votes is added, last in the order of creation: title and
   description without the blanks around them, the proposer in lower case but with its blanks, the category as given.
   */
  lemma CreateRecords(s: Sys, d: Draft, newId: string, lost: set<string>)
    requires newId !in s.db.proposals
    ensures var (res, s') := Create(s, d, newId, lost);
            && (res.Failure? <==> Blank(d.title) || Blank(d.description) || Blank(d.proposer))
            && (res.Failure? ==> res.error == BadRequest && s' == s)
            && (res.Success? ==>
                  var p := res.value;
                  && p.id == newId && p.status == PENDING && p.totalVotes == p.votesFor == p.votesAgainst == 0
                  && p.participationRate == p.quorumProgress == 0.0 && p.votingStartsAt == p.executedAt == None
                  && Stripped(d.title, p.title) && Stripped(d.description, p.description) && p.proposer == Lower(d.proposer)
                  && (d.category.Some? ==> p.category == d.category.value) && (d.category.None? ==> p.category == "PROTOCOL_UPGRADE")
                  && s'.db.created == s.db.created + [newId] && s'.db.votes == s.db.votes
                  && s'.db.proposals.Keys == s.db.proposals.Keys + {newId} && s'.db.proposals[newId] == p
                  && forall j | j in s.db.proposals :: s'.db.proposals[j] == s.db.proposals[j])
  {
    if Complete(d) {
      TrimStrips(d.title);
      TrimStrips(d.description);
    }
  }

  // ---------- Queries ----------

  /** The proposals that have a status. */
  ghost function WithStatus(db: Db, status: Status): set<string> {
    set id | id in db.proposals && db.proposals[id].status == status
  }

  ghost predicate Distinct(ids: seq<string>) {
    forall i, j | 0 <= i < j < |ids| :: ids[i] != ids[j]
  }

  lemma {:induction false} CountIsCardinality(db: Db, status: Status, n: nat) returns (ids: set<string>)
    requires Distinct(db.created) && n <= |db.created|
    ensures CountStatus(db, status, n) == |ids|
    ensures forall i | 0 <= i < n && HasStatus(db, db.created[i], status) :: db.created[i] in ids
    ensures forall id | id in ids :: HasStatus(db, id, status) && exists i :: 0 <= i < n && db.created[i] == id
  {
    ids := {};
    if n > 0 {
      ids := CountIsCardinality(db, status, n - 1);
      if HasStatus(db, db.created[n - 1], status) {
        assert db.created[n - 1] !in ids;
        ids := ids + {db.created[n - 1]};
      }
    }
  }

  lemma StatusCount(db: Db, status: Status)
    requires WellFormed(db)
    ensures CountStatus(db, status, |db.created|) == |WithStatus(db, status)|
  {
    var ids := CountIsCardinality(db, status, |db.created|);
    assert ids == WithStatus(db, status);
  }

  lemma {:induction false} CreatedOnce(created: seq<string>) returns (ids: set<string>)
    requires Distinct(created)
    ensures |ids| == |created| && forall id :: id in ids <==> id in created
    decreases |created|
  {
    if created == [] {
      ids := {};
    } else {
      var n := |created| - 1;
      ids := CreatedOnce(created[..n]);
      assert created == created[..n] + [created[n]];
      ids := ids + {created[n]};
    }
  }

  lemma RowCount(db: Db)
    requires WellFormed(db)
    ensures |db.created| == |db.proposals|
  {
    var ids := CreatedOnce(db.created);
    assert ids == db.proposals.Keys;
  }

  // ---------- Averages ----------

  lemma CancelFactor(n: real, x: real, y: real)
    requires n > 0.0 && n * x <= n * y
    ensures x <= y
  {
  }

  lemma QuotientTimes(sum: real, n: real)
    requires n > 0.0
    ensures n * (sum / n) == sum
  {
  }

  lemma FractionWithin(sum: real, n: real, lo: real, hi: real)
    requires n > 0.0 && n * lo <= sum <= n * hi
    ensures lo <= sum / n <= hi
  {
    var q := sum / n;
    assert n * q == sum by { QuotientTimes(sum, n); }
    CancelFactor(n, lo, q);
    CancelFactor(n, q, hi);
  }

  lemma QuotientWithin(sum: real, n: nat, lo: real, hi: real)
    requires n > 0 && Times(n, lo) <= sum <= Times(n, hi)
    ensures lo <= sum / n as real <= hi
  {
    TimesIsProduct(n, lo);
    TimesIsProduct(n, hi);
    FractionWithin(sum, n as real, lo, hi);
  }

  /** Every row's rate and progress lie between the bounds. */
  ghost predicate Within(db: Db, rates: (real, real), quorums: (real, real)) {
    forall id | id in db.proposals ::
      rates.0 <= db.proposals[id].participationRate <= rates.1 && quorums.0 <= db.proposals[id].quorumProgress <= quorums.1
  }

  lemma {:induction false} SumsWithin(db: Db, n: nat, rates: (real, real), quorums: (real, real))
    requires n <= |db.created| && Within(db, rates, quorums) && forall i | 0 <= i < n :: db.created[i] in db.proposals
    ensures Times(n, rates.0) <= Rates(db, n).0 <= Times(n, rates.1)
    ensures Times(n, quorums.0) <= Rates(db, n).1 <= Times(n, quorums.1)
  {
    if n > 0 {
      SumsWithin(db, n - 1, rates, quorums);
    }
  }

  lemma AveragesWithin(db: Db, rates: (real, real), quorums: (real, real))
    requires WellFormed(db) && Within(db, rates, quorums) && db.created != []
    ensures rates.0 <= StatsOf(db).participationRate <= rates.1
    ensures quorums.0 <= StatsOf(db).averageQuorum <= quorums.1
  {
    var n := |db.created|;
    SumsWithin(db, n, rates, quorums);
    QuotientWithin(Rates(db, n).0, n, rates.0, rates.1);
    QuotientWithin(Rates(db, n).1, n, quorums.0, quorums.1);
  }

  /** The statistics: the counts are those of the rows, and each average lies within every range its rows lie in. */
  lemma StatsDescribeRows(db: Db, rates: (real, real), quorums: (real, real))
    requires WellFormed(db) && Within(db, rates, quorums) && db.proposals != map[]
    ensures var stats := StatsOf(db);
            && stats.totalProposals == |db.proposals| && stats.activeProposals == |WithStatus(db, ACTIVE)|
            && stats.proposalSuccessRate == (|WithStatus(db, PASSED)| + |WithStatus(db, EXECUTED)|) as real / |db.proposals| as real
            && rates.0 <= stats.participationRate <= rates.1 && quorums.0 <= stats.averageQuorum <= quorums.1
  {
    RowCount(db);
    StatusCount(db, ACTIVE);
    StatusCount(db, PASSED);
    StatusCount(db, EXECUTED);
    AveragesWithin(db, rates, quorums);
  }
}
