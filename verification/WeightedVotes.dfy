/** Sums of a real quantity over a sequence. */
module RealSums {
  function Sum<T>(s: seq<T>, f: T -> real): real {
    if s == [] then 0.0 else f(s[0]) + Sum(s[1..], f)
  }

  function Map<T, U>(s: seq<T>, g: T -> U): (r: seq<U>)
    ensures |r| == |s| && forall i | 0 <= i < |s| :: r[i] == g(s[i])
  {
    seq(|s|, i requires 0 <= i < |s| => g(s[i]))
  }

  lemma {:induction false} SumRemoveAt<T>(s: seq<T>, i: nat, f: T -> real)
    requires i < |s|
    ensures Sum(s, f) == f(s[i]) + Sum(s[..i] + s[i + 1..], f)
  {
    if i == 0 {
      assert s[..0] + s[1..] == s[1..];
    } else {
      SumRemoveAt(s[1..], i - 1, f);
      assert (s[..i] + s[i + 1..])[1..] == s[1..][..i - 1] + s[1..][i..];
    }
  }

  /** Taking the first element of `a` out of a permutation of it. */
  lemma Uncons<T>(a: seq<T>, b: seq<T>) returns (i: nat)
    requires a != [] && multiset(a) == multiset(b)
    ensures i < |b| && b[i] == a[0] && multiset(a[1..]) == multiset(b[..i] + b[i + 1..])
  {
    assert a == [a[0]] + a[1..];
    assert a[0] in multiset(b);
    i :| 0 <= i < |b| && b[i] == a[0];
    assert b == b[..i] + [b[i]] + b[i + 1..];
    assert multiset(a[1..]) == multiset(a) - multiset{a[0]};
    assert multiset(b[..i] + b[i + 1..]) == multiset(b) - multiset{b[i]};
  }

  /** A sum does not depend on the order. */
  lemma {:induction false} SumPermutes<T>(a: seq<T>, b: seq<T>, f: T -> real)
    requires multiset(a) == multiset(b)
    ensures Sum(a, f) == Sum(b, f)
    decreases a
  {
    if a == [] {
      assert |multiset(b)| == |b|;
    } else {
      var i := Uncons(a, b);
      SumRemoveAt(b, i, f);
      SumPermutes(a[1..], b[..i] + b[i + 1..], f);
    }
  }

  lemma {:induction false} MapPermutes<T, U>(a: seq<T>, b: seq<T>, g: T -> U)
    requires multiset(a) == multiset(b)
    ensures multiset(Map(a, g)) == multiset(Map(b, g))
    decreases a
  {
    if a == [] {
      assert |multiset(b)| == |b|;
      assert Map(a, g) == Map(b, g);
    } else {
      var i := Uncons(a, b);
      var rest := b[..i] + b[i + 1..];
      MapPermutes(a[1..], rest, g);
      assert Map(a, g) == [g(a[0])] + Map(a[1..], g);
      assert Map(b, g) == Map(b[..i], g) + [g(b[i])] + Map(b[i + 1..], g);
      assert Map(rest, g) == Map(b[..i], g) + Map(b[i + 1..], g);
    }
  }

  lemma {:induction false} SumMap<T, U>(s: seq<T>, g: T -> U, f: U -> real, h: T -> real)
    requires forall x :: f(g(x)) == h(x)
    ensures Sum(Map(s, g), f) == Sum(s, h)
  {
    if s != [] {
      assert Map(s, g)[1..] == Map(s[1..], g);
      SumMap(s[1..], g, f, h);
    }
  }

  lemma {:induction false} SumMonotone<T>(s: seq<T>, f: T -> real, g: T -> real)
    requires forall i | 0 <= i < |s| :: f(s[i]) <= g(s[i])
    ensures Sum(s, f) <= Sum(s, g)
  {
    if s != [] {
      SumMonotone(s[1..], f, g);
    }
  }

  lemma {:induction false} SumSplit<T>(s: seq<T>, f: T -> real, g: T -> real, h: T -> real)
    requires forall x :: f(x) == g(x) + h(x)
    ensures Sum(s, f) == Sum(s, g) + Sum(s, h)
  {
    if s != [] {
      SumSplit(s[1..], f, g, h);
    }
  }

  /** `n` times `m`, by repeated addition. */
  function Times(n: nat, m: real): real {
    if n == 0 then 0.0 else Times(n - 1, m) + m
  }

  lemma {:induction false} TimesIsProduct(n: nat, m: real)
    ensures Times(n, m) == n as real * m
  {
    if n > 0 {
      TimesIsProduct(n - 1, m);
      assert n as real * m == (n - 1) as real * m + m;
    }
  }

  lemma {:induction false} SumSnoc<T>(s: seq<T>, x: T, f: T -> real)
    ensures Sum(s + [x], f) == Sum(s, f) + f(x)
  {
    if s == [] {
      assert s + [x] == [x];
    } else {
      assert (s + [x])[0] == s[0] && (s + [x])[1..] == s[1..] + [x];
      SumSnoc(s[1..], x, f);
    }
  }
}

/**
 Reputation-weighted resolution of a claim.

 Weights are reals.  The square root of the stake is a parameter of which only
 its sign is used, and a stake amount is the number it was parsed to.
 */
module WeightedVotes {
  import opened Wrappers
  import opened RealSums

  datatype Verdict = TRUE | FALSE | UNSURE

  datatype VerificationVote = VerificationVote(claimId: string, userId: string, verdict: Verdict, stakeAmount: real, userReputation: real)

  datatype WeightedVote = WeightedVote(claimId: string, userId: string, verdict: Verdict, weight: real)

  datatype Config = Config(minTotalWeight: real, confidenceThreshold: real, maxReputationShare: real, tieThreshold: real)

  const DEFAULT_CONFIG := Config(100.0, 0.6, 0.4, 0.05)

  datatype Distribution = Distribution(t: real, f: real, u: real) {
    function Of(v: Verdict): real {
      match v case TRUE => t case FALSE => f case UNSURE => u
    }
  }

  /** No verdict means UNRESOLVED. */
  datatype Resolution = Resolution(
    claimId: string, verdict: Option<Verdict>, confidence: real, margin: real, totalWeight: real, voterCount: nat,
    distribution: Distribution, dominantWeight: real, secondWeight: real, isTie: bool, isLowConfidence: bool)

  function Max(a: real, b: real): real { if a < b then b else a }

  function Min(a: real, b: real): real { if a < b then a else b }

  // ---------- Weights ----------

  ghost predicate IsRoot(sqrt: real -> real) {
    forall x: real :: x >= 0.0 ==> sqrt(x) >= 0.0
  }

  /** The reputation, held between 1 and 100, and a tenth of the root of a positive stake. */
  function Weigh(v: VerificationVote, sqrt: real -> real): (w: WeightedVote)
    ensures w.claimId == v.claimId && w.userId == v.userId && w.verdict == v.verdict
    ensures var staked := sqrt(if v.stakeAmount > 0.0 then v.stakeAmount else 0.0) / 10.0;
            && (v.userReputation <= 1.0 ==> w.weight == 1.0 + staked)
            && (1.0 <= v.userReputation <= 100.0 ==> w.weight == v.userReputation + staked)
            && (100.0 <= v.userReputation ==> w.weight == 100.0 + staked)
  {
    var reputation := Max(1.0, Min(100.0, v.userReputation));
    WeightedVote(v.claimId, v.userId, v.verdict, reputation + sqrt(Max(0.0, v.stakeAmount)) * 0.1)
  }

  function WeighWith(sqrt: real -> real): VerificationVote -> WeightedVote {
    v => Weigh(v, sqrt)
  }

  function Weighted(votes: seq<VerificationVote>, sqrt: real -> real): seq<WeightedVote> {
    Map(votes, WeighWith(sqrt))
  }

  function All(): WeightedVote -> real {
    (w: WeightedVote) => w.weight
  }

  function For(v: Verdict): WeightedVote -> real {
    (w: WeightedVote) => if w.verdict == v then w.weight else 0.0
  }

  function By(user: string): WeightedVote -> real {
    (w: WeightedVote) => if w.userId == user then w.weight else 0.0
  }

  function Total(votes: seq<WeightedVote>): real { Sum(votes, All()) }

  function VerdictWeights(votes: seq<WeightedVote>): Distribution {
    Distribution(Sum(votes, For(TRUE)), Sum(votes, For(FALSE)), Sum(votes, For(UNSURE)))
  }

  function UserWeight(votes: seq<WeightedVote>, user: string): real { Sum(votes, By(user)) }

  /** The largest weight of one user among the authors of the first `n` votes. */
  function MaxUserWeight(votes: seq<WeightedVote>, n: nat): real
    requires 0 < n <= |votes|
  {
    var w := UserWeight(votes, votes[n - 1].userId);
    if n == 1 then w else Max(w, MaxUserWeight(votes, n - 1))
  }

  function MaxShare(votes: seq<WeightedVote>): real
    requires votes != []
  {
    if Total(votes) == 0.0 then 0.0 else MaxUserWeight(votes, |votes|) / Total(votes)
  }

  // ---------- Resolution ----------

  /** First of the stable descending sort of TRUE, FALSE, UNSURE by weight. */
  function Dominant(d: Distribution): Verdict {
    if d.t >= d.f && d.t >= d.u then TRUE else if d.f >= d.u then FALSE else UNSURE
  }

  function SecondWeight(d: Distribution): real {
    match Dominant(d)
    case TRUE => Max(d.f, d.u)
    case FALSE => Max(d.t, d.u)
    case UNSURE => Max(d.t, d.f)
  }

  function Unresolved(claimId: string): Resolution {
    Resolution(claimId, None, 0.0, 0.0, 0.0, 0, Distribution(0.0, 0.0, 0.0), 0.0, 0.0, false, true)
  }

  /** The decision on aggregated votes. */
  function Determine(claimId: string, d: Distribution, total: real, count: nat, maxShare: real, c: Config): Resolution {
    var top, second := d.Of(Dominant(d)), SecondWeight(d);
    var confidence := if total > 0.0 then top / total else 0.0;
    var isTie, isLow := top - second < total * c.tieThreshold, confidence < c.confidenceThreshold;
    if total < c.minTotalWeight || maxShare > c.maxReputationShare then Unresolved(claimId)
    else
      Resolution(claimId, if isTie || isLow then None else Some(Dominant(d)), confidence, top - second, total, count,
                 d, top, second, isTie, isLow)
  }

  function Resolve(votes: seq<VerificationVote>, sqrt: real -> real, c: Config): Resolution {
    if votes == [] then Unresolved("unknown")
    else
      var w := Weighted(votes, sqrt);
      Determine(w[0].claimId, VerdictWeights(w), Total(w), |w|, MaxShare(w), c)
  }

  // ---------- The service ----------

  method AggregateVotes(votes: seq<WeightedVote>) returns (d: Distribution, total: real)
    ensures d == VerdictWeights(votes) && total == Total(votes)
  {
    d, total := Distribution(0.0, 0.0, 0.0), 0.0;
    for i := 0 to |votes|
      invariant d == VerdictWeights(votes[..i]) && total == Total(votes[..i])
    {
      assert votes[..i + 1] == votes[..i] + [votes[i]];
      SumSnoc(votes[..i], votes[i], All());
      SumSnoc(votes[..i], votes[i], For(TRUE));
      SumSnoc(votes[..i], votes[i], For(FALSE));
      SumSnoc(votes[..i], votes[i], For(UNSURE));
      match votes[i].verdict {
        case TRUE => d := d.(t := d.t + votes[i].weight);
        case FALSE => d := d.(f := d.f + votes[i].weight);
        case UNSURE => d := d.(u := d.u + votes[i].weight);
      }
      total := total + votes[i].weight;
    }
    assert votes[..|votes|] == votes;
  }

  /** Groups the weights by user, and takes the largest group. */
  method GetMaxIndividualShare(votes: seq<WeightedVote>) returns (share: real)
    requires votes != []
    ensures share == MaxShare(votes)
  {
    var total := 0.0;
    for i := 0 to |votes|
      invariant total == Total(votes[..i])
    {
      assert votes[..i + 1] == votes[..i] + [votes[i]];
      SumSnoc(votes[..i], votes[i], All());
      total := total + votes[i].weight;
    }
    assert votes[..|votes|] == votes;
    if total == 0.0 {
      return 0.0;
    }
    var userWeights := GroupByUser(votes);
    assert votes[0].userId in userWeights;
    var maxWeight := MaxValue(userWeights);
    MaxIsLargestGroup(votes, |votes|, maxWeight);
    share := maxWeight / total;
  }

  method MaxValue(weights: map<string, real>) returns (max: real)
    requires weights != map[]
    ensures exists u :: u in weights && weights[u] == max
    ensures forall u | u in weights :: weights[u] <= max
  {
    var user :| user in weights;
    var rest := weights.Keys - {user};
    while rest != {}
      invariant user in weights
      invariant forall u | u in weights && u !in rest :: weights[u] <= weights[user]
      decreases |rest|
    {
      var u :| u in rest;
      rest := rest - {u};
      if u in weights && weights[user] < weights[u] {
        user := u;
      }
    }
    max := weights[user];
  }

  method GroupByUser(votes: seq<WeightedVote>) returns (userWeights: map<string, real>)
    ensures forall u :: u in userWeights <==> exists i :: 0 <= i < |votes| && votes[i].userId == u
    ensures forall u | u in userWeights :: userWeights[u] == UserWeight(votes, u)
  {
    userWeights := map[];
    for i := 0 to |votes|
      invariant forall u :: u in userWeights <==> exists j :: 0 <= j < i && votes[j].userId == u
      invariant forall u :: UserWeight(votes[..i], u) == if u in userWeights then userWeights[u] else 0.0
    {
      var u := votes[i].userId;
      assert votes[..i + 1] == votes[..i] + [votes[i]];
      forall v: string
        ensures UserWeight(votes[..i + 1], v) == UserWeight(votes[..i], v) + if v == u then votes[i].weight else 0.0
      {
        SumSnoc(votes[..i], votes[i], By(v));
      }
      userWeights := userWeights[u := (if u in userWeights then userWeights[u] else 0.0) + votes[i].weight];
    }
    assert votes[..|votes|] == votes;
  }

  method ResolveClaim(votes: seq<VerificationVote>, sqrt: real -> real, c: Config) returns (r: Resolution)
    ensures r == Resolve(votes, sqrt, c)
    ensures votes == [] ==> r.verdict == None && r.claimId == "unknown"
    ensures IsRoot(sqrt) ==> forall v :: r.verdict == Some(v) <==> ClearlyFor(Weighted(votes, sqrt), c, v)
  {
    if IsRoot(sqrt) {
      forall v: Verdict
        ensures Resolve(votes, sqrt, c).verdict == Some(v) <==> ClearlyFor(Weighted(votes, sqrt), c, v)
      {
        ResolvesIff(votes, sqrt, c, v);
      }
    }
    if |votes| == 0 {
      return Unresolved("unknown");
    }
    var weighted := Weighted(votes, sqrt);
    var d, total := AggregateVotes(weighted);
    if total < c.minTotalWeight {
      return Unresolved(weighted[0].claimId);
    }
    var maxShare := GetMaxIndividualShare(weighted);
    r := Determine(weighted[0].claimId, d, total, |weighted|, maxShare, c);
  }

  // ---------- The largest group ----------

  lemma {:induction false} MaxBounds(votes: seq<WeightedVote>, n: nat)
    requires 0 < n <= |votes|
    ensures forall i | 0 <= i < n :: UserWeight(votes, votes[i].userId) <= MaxUserWeight(votes, n)
    ensures exists i :: 0 <= i < n && MaxUserWeight(votes, n) == UserWeight(votes, votes[i].userId)
  {
    if n == 1 {
      assert MaxUserWeight(votes, n) == UserWeight(votes, votes[0].userId);
    } else {
      MaxBounds(votes, n - 1);
      var i :| 0 <= i < n - 1 && MaxUserWeight(votes, n - 1) == UserWeight(votes, votes[i].userId);
      var best := if MaxUserWeight(votes, n) == UserWeight(votes, votes[n - 1].userId) then n - 1 else i;
      assert MaxUserWeight(votes, n) == UserWeight(votes, votes[best].userId);
    }
  }

  lemma MaxIsLargestGroup(votes: seq<WeightedVote>, n: nat, m: real)
    requires n == |votes| > 0
    requires forall i | 0 <= i < n :: UserWeight(votes, votes[i].userId) <= m
    requires exists i :: 0 <= i < n && m == UserWeight(votes, votes[i].userId)
    ensures MaxUserWeight(votes, n) == m
  {
    MaxBounds(votes, n);
  }

  // ---------- Pigeonhole ----------

  /** The users among the votes that count for `v`, or all of them. */
  function Voters(votes: seq<WeightedVote>, v: Option<Verdict>): set<string> {
    set i | 0 <= i < |votes| && (v.None? || votes[i].verdict == v.value) :: votes[i].userId
  }

  /** The weight of the votes of some users that count for `v`, or of all their votes. */
  function Within(users: set<string>, v: Option<Verdict>): WeightedVote -> real {
    (w: WeightedVote) => if w.userId in users && (v.None? || w.verdict == v.value) then w.weight else 0.0
  }

  ghost predicate PositiveWeights(votes: seq<WeightedVote>) {
    forall i | 0 <= i < |votes| :: votes[i].weight >= 1.0
  }

  lemma WeightsPositive(votes: seq<VerificationVote>, sqrt: real -> real)
    requires IsRoot(sqrt)
    ensures PositiveWeights(Weighted(votes, sqrt))
  {
    forall i | 0 <= i < |votes|
      ensures Weighted(votes, sqrt)[i].weight >= 1.0
    {
      assert sqrt(Max(0.0, votes[i].stakeAmount)) >= 0.0;
    }
  }

  lemma {:induction false} TotalAtLeastCount(votes: seq<WeightedVote>)
    requires PositiveWeights(votes)
    ensures Total(votes) >= |votes| as real
  {
    if votes != [] {
      TotalAtLeastCount(votes[1..]);
    }
  }

  lemma TotalPositive(votes: seq<WeightedVote>)
    requires votes != [] && PositiveWeights(votes)
    ensures Total(votes) > 0.0
  {
    TotalAtLeastCount(votes);
  }

  /** One more user adds at most that user's weight. */
  lemma OneMoreUser(votes: seq<WeightedVote>, rest: set<string>, u: string, v: Option<Verdict>)
    requires PositiveWeights(votes) && u !in rest
    ensures Sum(votes, Within(rest + {u}, v)) <= Sum(votes, Within(rest, v)) + UserWeight(votes, u)
  {
    SumSplit(votes, Within(rest + {u}, v), Within(rest, v), Within({u}, v));
    SumMonotone(votes, Within({u}, v), By(u));
  }

  /** Users who each have at most `m` together have at most `m` each. */
  lemma {:induction false} GroupsBound(votes: seq<WeightedVote>, users: set<string>, v: Option<Verdict>, m: real)
    requires PositiveWeights(votes)
    requires forall u | u in users :: UserWeight(votes, u) <= m
    ensures Sum(votes, Within(users, v)) <= Times(|users|, m)
    decreases |users|
  {
    if users == {} {
      NoUsers(votes, v);
    } else {
      var u :| u in users;
      var rest := users - {u};
      assert rest + {u} == users && |users| == |rest| + 1;
      GroupsBound(votes, rest, v, m);
      OneMoreUser(votes, rest, u, v);
    }
  }

  lemma {:induction false} NoUsers(votes: seq<WeightedVote>, v: Option<Verdict>)
    ensures Sum(votes, Within({}, v)) == 0.0
  {
    if votes != [] {
      NoUsers(votes[1..], v);
    }
  }

  /** The voters for something carry all the weight for it. */
  lemma VotersCarry(votes: seq<WeightedVote>, v: Option<Verdict>)
    requires PositiveWeights(votes)
    ensures Sum(votes, Within(Voters(votes, v), v)) >= WeightFor(votes, v)
  {
    forall i | 0 <= i < |votes|
      ensures v.None? || votes[i].verdict == v.value ==> votes[i].userId in Voters(votes, v)
    {
    }
    SumMonotone(votes, if v.Some? then For(v.value) else All(), Within(Voters(votes, v), v));
  }

  lemma ShareBoundsMax(votes: seq<WeightedVote>, share: real)
    requires votes != [] && PositiveWeights(votes) && MaxShare(votes) <= share
    ensures Total(votes) > 0.0 && MaxUserWeight(votes, |votes|) <= share * Total(votes)
  {
    TotalPositive(votes);
    var m, total := MaxUserWeight(votes, |votes|), Total(votes);
    MaxShareIs(votes, total);
    QuotientAtMostIff(m, total, share);
  }

  lemma ShareBoundsUsers(votes: seq<WeightedVote>, users: set<string>, share: real)
    requires votes != [] && PositiveWeights(votes) && MaxShare(votes) <= share
    requires forall u | u in users :: exists i :: 0 <= i < |votes| && votes[i].userId == u
    ensures Total(votes) > 0.0
    ensures forall u | u in users :: UserWeight(votes, u) <= share * Total(votes)
  {
    ShareBoundsMax(votes, share);
    var bound := share * Total(votes);
    MaxBounds(votes, |votes|);
    forall u | u in users
      ensures UserWeight(votes, u) <= bound
    {
      var i :| 0 <= i < |votes| && votes[i].userId == u;
      assert UserWeight(votes, votes[i].userId) <= MaxUserWeight(votes, |votes|);
    }
  }

  /** The weight of the votes for `v`, or of all votes. */
  function WeightFor(votes: seq<WeightedVote>, v: Option<Verdict>): real {
    if v.Some? then Sum(votes, For(v.value)) else Total(votes)
  }

  /** The users behind some weight carry it, each at most `m`. */
  lemma UsersCarry(votes: seq<WeightedVote>, v: Option<Verdict>, share: real, m: real)
    requires votes != [] && PositiveWeights(votes) && MaxShare(votes) <= share && m == share * Total(votes)
    ensures Total(votes) > 0.0
    ensures WeightFor(votes, v) <= Times(|Voters(votes, v)|, m)
  {
    ShareBoundsUsers(votes, Voters(votes, v), share);
    GroupsBound(votes, Voters(votes, v), v, m);
    VotersCarry(votes, v);
  }

  /** Enough weight for something takes enough users for it. */
  lemma WeightNeedsUsers(votes: seq<WeightedVote>, v: Option<Verdict>, share: real, part: real)
    requires votes != [] && PositiveWeights(votes) && MaxShare(votes) <= share
    requires part * Total(votes) <= WeightFor(votes, v)
    ensures |Voters(votes, v)| as real * share >= part
  {
    UsersCarry(votes, v, share, share * Total(votes));
    CancelTotal(|Voters(votes, v)|, share, Total(votes), part, share * Total(votes));
  }

  lemma CancelTotal(n: nat, share: real, total: real, part: real, m: real)
    requires total > 0.0 && m == share * total && part * total <= Times(n, m)
    ensures n as real * share >= part
  {
    TimesIsProduct(n, m);
    assert n as real * m == (n as real * share) * total;
    assert (n as real * share - part) * total >= 0.0;
  }

  lemma Quotient(n: real, share: real, part: real)
    requires share > 0.0 && n * share >= part
    ensures n >= part / share
  {
    assert part / share * share == part;
    assert (n - part / share) * share >= 0.0;
  }

  lemma PositiveFactor(n: real, share: real)
    requires n >= 0.0 && n * share >= 1.0
    ensures share > 0.0
  {
  }

  lemma DetermineFacts(claimId: string, d: Distribution, total: real, count: nat, maxShare: real, c: Config, v: Verdict)
    requires total > 0.0 && Determine(claimId, d, total, count, maxShare, c).verdict == Some(v)
    ensures maxShare <= c.maxReputationShare && v == Dominant(d) && d.Of(v) / total >= c.confidenceThreshold
  {
  }

  /** No user has too much, and `v` has enough. */
  ghost predicate Supports(w: seq<WeightedVote>, c: Config, v: Verdict) {
    && w != [] && PositiveWeights(w) && MaxShare(w) <= c.maxReputationShare
    && c.confidenceThreshold * Total(w) <= WeightFor(w, Some(v))
  }

  /** What a verdict says about the weights. */
  lemma VerdictFacts(votes: seq<VerificationVote>, sqrt: real -> real, c: Config, v: Verdict)
    requires IsRoot(sqrt) && Resolve(votes, sqrt, c).verdict == Some(v)
    ensures Supports(Weighted(votes, sqrt), c, v)
  {
    var w := Weighted(votes, sqrt);
    WeightsPositive(votes, sqrt);
    DecisionFacts(w, c, v);
  }

  lemma DecisionFacts(w: seq<WeightedVote>, c: Config, v: Verdict)
    requires w != [] && PositiveWeights(w)
    requires Determine(w[0].claimId, VerdictWeights(w), Total(w), |w|, MaxShare(w), c).verdict == Some(v)
    ensures Supports(w, c, v)
  {
    TotalPositive(w);
    DetermineFacts(w[0].claimId, VerdictWeights(w), Total(w), |w|, MaxShare(w), c, v);
    TopIsConfident(VerdictWeights(w), Total(w), c, v);
    assert VerdictWeights(w).Of(v) == WeightFor(w, Some(v));
  }

  lemma TopIsConfident(d: Distribution, total: real, c: Config, v: Verdict)
    requires total > 0.0 && d.Of(v) / total >= c.confidenceThreshold
    ensures d.Of(v) >= c.confidenceThreshold * total
  {
    assert d.Of(v) == d.Of(v) / total * total;
  }

  ghost predicate EnoughUsers(w: seq<WeightedVote>, c: Config, v: Verdict) {
    && c.maxReputationShare > 0.0
    && |Voters(w, None)| as real >= 1.0 / c.maxReputationShare
    && |Voters(w, Some(v))| as real >= c.confidenceThreshold / c.maxReputationShare
  }

  /**
   A claim resolved to `v` was voted on by at least 1 / maxReputationShare distinct users, at least
   confidenceThreshold / maxReputationShare of them for `v`, however often each of them voted.
   */
  lemma ResolutionNeedsUsers(votes: seq<VerificationVote>, sqrt: real -> real, c: Config, v: Verdict)
    requires IsRoot(sqrt) && Resolve(votes, sqrt, c).verdict == Some(v)
    ensures EnoughUsers(Weighted(votes, sqrt), c, v)
  {
    VerdictFacts(votes, sqrt, c, v);
    UsersBehind(Weighted(votes, sqrt), c, v);
  }

  lemma UsersBehind(w: seq<WeightedVote>, c: Config, v: Verdict)
    requires Supports(w, c, v)
    ensures EnoughUsers(w, c, v)
  {
    WeightNeedsUsers(w, None, c.maxReputationShare, 1.0);
    WeightNeedsUsers(w, Some(v), c.maxReputationShare, c.confidenceThreshold);
    PositiveFactor(|Voters(w, None)| as real, c.maxReputationShare);
    Quotient(|Voters(w, None)| as real, c.maxReputationShare, 1.0);
    Quotient(|Voters(w, Some(v))| as real, c.maxReputationShare, c.confidenceThreshold);
  }

  /** Under the default configuration: three distinct voters, two of them for the verdict. */
  lemma DefaultNeedsThreeVoters(votes: seq<VerificationVote>, sqrt: real -> real, v: Verdict)
    requires IsRoot(sqrt) && Resolve(votes, sqrt, DEFAULT_CONFIG).verdict == Some(v)
    ensures |Voters(Weighted(votes, sqrt), None)| >= 3 && |Voters(Weighted(votes, sqrt), Some(v))| >= 2
  {
    ResolutionNeedsUsers(votes, sqrt, DEFAULT_CONFIG, v);
  }

  // ---------- Exactly when a claim is resolved ----------

  /** The place in the order TRUE, FALSE, UNSURE, in which equal weights are ranked. */
  function Rank(v: Verdict): nat {
    match v case TRUE => 0 case FALSE => 1 case UNSURE => 2
  }

  /** What a configuration asks of a total: the weight itself, and parts of it. */
  datatype Thresholds = Thresholds(weight: real, share: real, margin: real, enough: real)

  function ThresholdsOf(c: Config, total: real): Thresholds {
    Thresholds(c.minTotalWeight, c.maxReputationShare * total, c.tieThreshold * total, c.confidenceThreshold * total)
  }

  /** No user has more than the allowed share of the weight. */
  ghost predicate NoneDominates(w: seq<WeightedVote>, share: real) {
    forall i | 0 <= i < |w| :: UserWeight(w, w[i].userId) <= share
  }

  /** First by weight. */
  ghost predicate First(w: seq<WeightedVote>, v: Verdict) {
    forall other: Verdict | other != v ::
      Sum(w, For(v)) > Sum(w, For(other)) || (Sum(w, For(v)) == Sum(w, For(other)) && Rank(v) < Rank(other))
  }

  /** Ahead of every other verdict by the margin. */
  ghost predicate Leads(w: seq<WeightedVote>, v: Verdict, margin: real) {
    forall other: Verdict | other != v :: Sum(w, For(v)) - Sum(w, For(other)) >= margin
  }

  ghost predicate ClearlyBy(w: seq<WeightedVote>, t: Thresholds, v: Verdict) {
    && w != [] && Total(w) >= t.weight && NoneDominates(w, t.share)
    && First(w, v) && Leads(w, v, t.margin) && Sum(w, For(v)) >= t.enough
  }

  /** What a clear majority is, on the sums of the weights. */
  ghost predicate ClearlyFor(w: seq<WeightedVote>, c: Config, v: Verdict) {
    ClearlyBy(w, ThresholdsOf(c, Total(w)), v)
  }

  lemma QuotientAtMostIff(part: real, total: real, share: real)
    requires total > 0.0
    ensures part / total <= share <==> part <= share * total
  {
    assert part == part / total * total;
    if part / total <= share {
      assert (share - part / total) * total >= 0.0;
    } else {
      assert (part / total - share) * total > 0.0;
    }
  }

  lemma QuotientAtLeastIff(part: real, total: real, share: real)
    requires total > 0.0
    ensures part / total >= share <==> part >= share * total
  {
    assert part == part / total * total;
    if part / total >= share {
      assert (part / total - share) * total >= 0.0;
    } else {
      assert (share - part / total) * total > 0.0;
    }
  }

  lemma MaxAtMostIff(w: seq<WeightedVote>, bound: real)
    requires w != []
    ensures MaxUserWeight(w, |w|) <= bound <==> NoneDominates(w, bound)
  {
    MaxBounds(w, |w|);
  }

  lemma MaxShareIs(w: seq<WeightedVote>, total: real)
    requires w != [] && total == Total(w) > 0.0
    ensures MaxShare(w) == MaxUserWeight(w, |w|) / total
  {
  }

  lemma NoneDominatesIff(w: seq<WeightedVote>, share: real, total: real, bound: real)
    requires w != [] && total == Total(w) > 0.0 && bound == share * total
    ensures MaxShare(w) <= share <==> NoneDominates(w, bound)
  {
    MaxShareIs(w, total);
    MaxAtMostIff(w, bound);
    QuotientAtMostIff(MaxUserWeight(w, |w|), total, share);
  }

  lemma FirstIsDominant(w: seq<WeightedVote>, v: Verdict)
    ensures First(w, v) <==> v == Dominant(VerdictWeights(w))
  {
  }

  lemma LeadsBySecond(w: seq<WeightedVote>, margin: real)
    ensures var d := VerdictWeights(w); Leads(w, Dominant(d), margin) <==> d.Of(Dominant(d)) - SecondWeight(d) >= margin
  {
    var d := VerdictWeights(w);
    assert d.Of(TRUE) == Sum(w, For(TRUE)) && d.Of(FALSE) == Sum(w, For(FALSE)) && d.Of(UNSURE) == Sum(w, For(UNSURE));
  }

  /** A decision without products: `margin` and `enough` are the thresholds' parts of the total, `ok` that neither safety check fails. */
  ghost predicate Decided(r: Resolution, claimId: string, d: Distribution, total: real, count: nat, ok: bool, margin: real, enough: real) {
    var top := d.Of(Dominant(d));
    if ok then
      && r == Resolution(claimId, r.verdict, r.confidence, top - SecondWeight(d), total, count, d, top, SecondWeight(d),
                         top - SecondWeight(d) < margin, top < enough)
      && r.verdict == (if top - SecondWeight(d) >= margin && top >= enough then Some(Dominant(d)) else None)
    else r == Unresolved(claimId)
  }

  lemma DetermineIsDecided(claimId: string, d: Distribution, total: real, count: nat, share: real, c: Config, t: Thresholds)
    requires total > 0.0 && t == ThresholdsOf(c, total)
    ensures var r, ok := Determine(claimId, d, total, count, share, c), total >= t.weight && share <= c.maxReputationShare;
            Decided(r, claimId, d, total, count, ok, t.margin, t.enough) && (ok ==> r.confidence * total == d.Of(Dominant(d)))
  {
    QuotientAtLeastIff(d.Of(Dominant(d)), total, c.confidenceThreshold);
  }

  lemma DecidedIff(r: Resolution, w: seq<WeightedVote>, ok: bool, margin: real, enough: real, v: Verdict)
    requires w != [] && Decided(r, w[0].claimId, VerdictWeights(w), Total(w), |w|, ok, margin, enough)
    ensures r.verdict == Some(v) <==> ok && First(w, v) && Leads(w, v, margin) && Sum(w, For(v)) >= enough
  {
    FirstIsDominant(w, v);
    LeadsBySecond(w, margin);
    assert VerdictWeights(w).Of(v) == Sum(w, For(v));
  }

  /** What the figures of a resolution are. */
  ghost predicate Figures(r: Resolution, w: seq<WeightedVote>, margin: real, enough: real) {
    && r.totalWeight == Total(w) && r.voterCount == |w|
    && (forall v: Verdict :: r.distribution.Of(v) == Sum(w, For(v)) && r.distribution.Of(v) <= r.dominantWeight)
    && (exists v: Verdict :: r.distribution.Of(v) == r.dominantWeight)
    && r.margin == r.dominantWeight - r.secondWeight >= 0.0
    && (r.isTie <==> r.margin < margin) && (r.isLowConfidence <==> r.dominantWeight < enough)
  }

  lemma DecidedFigures(r: Resolution, w: seq<WeightedVote>, margin: real, enough: real)
    requires w != [] && Decided(r, w[0].claimId, VerdictWeights(w), Total(w), |w|, true, margin, enough)
    ensures Figures(r, w, margin, enough)
  {
    var d := VerdictWeights(w);
    assert d.Of(TRUE) == Sum(w, For(TRUE)) && d.Of(FALSE) == Sum(w, For(FALSE)) && d.Of(UNSURE) == Sum(w, For(UNSURE));
    assert r.distribution.Of(Dominant(d)) == r.dominantWeight;
  }

  /** A resolution of weighted votes, as decided on their sums. */
  ghost predicate DecidedOn(r: Resolution, w: seq<WeightedVote>, t: Thresholds) {
    && w != []
    && Decided(r, w[0].claimId, VerdictWeights(w), Total(w), |w|, Total(w) >= t.weight && NoneDominates(w, t.share), t.margin, t.enough)
    && (r != Unresolved(w[0].claimId) ==> r.confidence * Total(w) == r.dominantWeight)
  }

  lemma DecidedMeans(r: Resolution, w: seq<WeightedVote>, ok: bool, t: Thresholds)
    requires w != [] && (ok <==> Total(w) >= t.weight && NoneDominates(w, t.share))
    requires Decided(r, w[0].claimId, VerdictWeights(w), Total(w), |w|, ok, t.margin, t.enough)
    requires ok ==> r.confidence * Total(w) == VerdictWeights(w).Of(Dominant(VerdictWeights(w)))
    ensures DecidedOn(r, w, t)
  {
  }

  lemma DetermineDecides(w: seq<WeightedVote>, c: Config, share: real, t: Thresholds)
    requires w != [] && Total(w) > 0.0 && t == ThresholdsOf(c, Total(w))
    requires share <= c.maxReputationShare <==> NoneDominates(w, t.share)
    ensures DecidedOn(Determine(w[0].claimId, VerdictWeights(w), Total(w), |w|, share, c), w, t)
  {
    var r := Determine(w[0].claimId, VerdictWeights(w), Total(w), |w|, share, c);
    DetermineIsDecided(w[0].claimId, VerdictWeights(w), Total(w), |w|, share, c, t);
    DecidedMeans(r, w, Total(w) >= t.weight && share <= c.maxReputationShare, t);
  }

  lemma WeighedDecides(w: seq<WeightedVote>, c: Config, t: Thresholds)
    requires w != [] && PositiveWeights(w) && t == ThresholdsOf(c, Total(w))
    ensures DecidedOn(Determine(w[0].claimId, VerdictWeights(w), Total(w), |w|, MaxShare(w), c), w, t)
  {
    TotalPositive(w);
    NoneDominatesIff(w, c.maxReputationShare, Total(w), t.share);
    DetermineDecides(w, c, MaxShare(w), t);
  }

  lemma ResolveDecides(votes: seq<VerificationVote>, sqrt: real -> real, c: Config, t: Thresholds)
    requires IsRoot(sqrt) && votes != [] && t == ThresholdsOf(c, Total(Weighted(votes, sqrt)))
    ensures DecidedOn(Resolve(votes, sqrt, c), Weighted(votes, sqrt), t)
  {
    WeightsPositive(votes, sqrt);
    WeighedDecides(Weighted(votes, sqrt), c, t);
  }

  lemma ClearlyIff(r: Resolution, w: seq<WeightedVote>, t: Thresholds, v: Verdict)
    requires DecidedOn(r, w, t)
    ensures r.verdict == Some(v) <==> ClearlyBy(w, t, v)
  {
    DecidedIff(r, w, Total(w) >= t.weight && NoneDominates(w, t.share), t.margin, t.enough, v);
  }

  /**
   A claim is resolved to `v` exactly when its votes are clearly for `v`: enough weight in all, no user with more than
   the allowed share, `v` first, ahead of every other verdict by the tie threshold and with the confidence threshold
   of the weight.
   */
  lemma ResolvesIff(votes: seq<VerificationVote>, sqrt: real -> real, c: Config, v: Verdict)
    requires IsRoot(sqrt)
    ensures Resolve(votes, sqrt, c).verdict == Some(v) <==> ClearlyFor(Weighted(votes, sqrt), c, v)
  {
    if votes != [] {
      var t := ThresholdsOf(c, Total(Weighted(votes, sqrt)));
      ResolveDecides(votes, sqrt, c, t);
      ClearlyIff(Resolve(votes, sqrt, c), Weighted(votes, sqrt), t, v);
    }
  }

  ghost predicate Reported(r: Resolution, w: seq<WeightedVote>, t: Thresholds) {
    if Total(w) >= t.weight && NoneDominates(w, t.share)
    then Figures(r, w, t.margin, t.enough) && r.confidence * Total(w) == r.dominantWeight
    else
      && r.verdict == None && r.voterCount == 0 && !r.isTie && r.isLowConfidence
      && r.totalWeight == r.confidence == r.margin == r.dominantWeight == r.secondWeight == 0.0
      && forall v: Verdict :: r.distribution.Of(v) == 0.0
  }

  lemma DecidedReports(r: Resolution, w: seq<WeightedVote>, t: Thresholds)
    requires DecidedOn(r, w, t)
    ensures Reported(r, w, t) && r.claimId == w[0].claimId
  {
    if Total(w) >= t.weight && NoneDominates(w, t.share) {
      DecidedFigures(r, w, t.margin, t.enough);
    }
  }

  /** Every resolution carries the claim of the first vote, and the figures of its votes or, too light or dominated, zeros. */
  lemma ReportsFigures(votes: seq<VerificationVote>, sqrt: real -> real, c: Config)
    requires IsRoot(sqrt) && votes != []
    ensures Reported(Resolve(votes, sqrt, c), Weighted(votes, sqrt), ThresholdsOf(c, Total(Weighted(votes, sqrt))))
    ensures Resolve(votes, sqrt, c).claimId == votes[0].claimId
  {
    var t := ThresholdsOf(c, Total(Weighted(votes, sqrt)));
    ResolveDecides(votes, sqrt, c, t);
    DecidedReports(Resolve(votes, sqrt, c), Weighted(votes, sqrt), t);
  }

  /** With a positive tie threshold the verdict strictly outweighs every other. */
  lemma VerdictOutweighsOthers(votes: seq<VerificationVote>, sqrt: real -> real, c: Config, v: Verdict)
    requires IsRoot(sqrt) && c.tieThreshold > 0.0 && Resolve(votes, sqrt, c).verdict == Some(v)
    ensures forall other: Verdict | other != v ::
              VerdictWeights(Weighted(votes, sqrt)).Of(other) < VerdictWeights(Weighted(votes, sqrt)).Of(v)
  {
    var w := Weighted(votes, sqrt);
    WeightsPositive(votes, sqrt);
    TotalAtLeastCount(w);
    assert Total(w) * c.tieThreshold > 0.0;
  }

  // ---------- Order ----------

  lemma UserWeightPermutes(a: seq<WeightedVote>, b: seq<WeightedVote>)
    requires multiset(a) == multiset(b) && a != [] && b != []
    ensures MaxShare(a) == MaxShare(b)
  {
    SumPermutes(a, b, All());
    forall u: string
      ensures UserWeight(a, u) == UserWeight(b, u)
    {
      SumPermutes(a, b, By(u));
    }
    MaxBounds(a, |a|);
    forall i | 0 <= i < |b|
      ensures UserWeight(b, b[i].userId) <= MaxUserWeight(a, |a|)
    {
      assert b[i] in multiset(a);
      var j :| 0 <= j < |a| && a[j] == b[i];
    }
    var k :| 0 <= k < |a| && MaxUserWeight(a, |a|) == UserWeight(a, a[k].userId);
    assert a[k] in multiset(b);
    var l :| 0 <= l < |b| && b[l] == a[k];
    MaxIsLargestGroup(b, |b|, MaxUserWeight(a, |a|));
  }

  /** The outcome for the votes of one claim does not depend on their order. */
  lemma OrderDoesNotMatter(a: seq<VerificationVote>, b: seq<VerificationVote>, sqrt: real -> real, c: Config)
    requires multiset(a) == multiset(b)
    requires forall i, j | 0 <= i < |a| && 0 <= j < |a| :: a[i].claimId == a[j].claimId
    ensures Resolve(a, sqrt, c) == Resolve(b, sqrt, c)
  {
    assert |multiset(a)| == |a| && |multiset(b)| == |b|;
    if a != [] {
      assert b[0] in multiset(a);
      var v, w := Weighted(a, sqrt), Weighted(b, sqrt);
      MapPermutes(a, b, WeighWith(sqrt));
      SumPermutes(v, w, All());
      SumPermutes(v, w, For(TRUE));
      SumPermutes(v, w, For(FALSE));
      SumPermutes(v, w, For(UNSURE));
      UserWeightPermutes(v, w);
    }
  }
}
