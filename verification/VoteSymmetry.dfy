/** When the two sides of a claim are treated alike: swapping TRUE and FALSE in the votes. */
module VoteSymmetry {
  import opened Wrappers
  import opened RealSums
  import opened WeightedVotes

  function Opposite(v: Verdict): Verdict {
    match v case TRUE => FALSE case FALSE => TRUE case UNSURE => UNSURE
  }

  function OppositeVote(v: VerificationVote): VerificationVote { v.(verdict := Opposite(v.verdict)) }

  function OppositeWeighted(w: WeightedVote): WeightedVote { w.(verdict := Opposite(w.verdict)) }

  function Swapped(votes: seq<VerificationVote>): seq<VerificationVote> {
    Map(votes, v => OppositeVote(v))
  }

  function OppositeResult(v: Option<Verdict>): Option<Verdict> {
    if v.None? then None else Some(Opposite(v.value))
  }

  lemma SwapWeights(votes: seq<VerificationVote>, sqrt: real -> real)
    requires votes != []
    ensures var w, s := Weighted(votes, sqrt), Weighted(Swapped(votes), sqrt);
            var d := VerdictWeights(w);
            VerdictWeights(s) == Distribution(d.f, d.t, d.u) && Total(s) == Total(w) && MaxShare(s) == MaxShare(w)
  {
    var w, s := Weighted(votes, sqrt), Weighted(Swapped(votes), sqrt);
    var flip := (x: WeightedVote) => OppositeWeighted(x);
    assert s == Map(w, flip);
    SumMap(w, flip, All(), All());
    SumMap(w, flip, For(TRUE), For(FALSE));
    SumMap(w, flip, For(FALSE), For(TRUE));
    SumMap(w, flip, For(UNSURE), For(UNSURE));
    forall u: string
      ensures UserWeight(s, u) == UserWeight(w, u)
    {
      SumMap(w, flip, By(u), By(u));
    }
    MaxBounds(w, |w|);
    assert forall i | 0 <= i < |w| :: s[i].userId == w[i].userId;
    MaxIsLargestGroup(s, |s|, MaxUserWeight(w, |w|));
  }

  /** TRUE and FALSE weigh exactly the same, and no less than UNSURE. */
  predicate TopTie(votes: seq<VerificationVote>, sqrt: real -> real) {
    var d := VerdictWeights(Weighted(votes, sqrt));
    d.t == d.f >= d.u
  }

  lemma SwapExceptResolvedTie(votes: seq<VerificationVote>, sqrt: real -> real, c: Config)
    requires votes != []
    ensures var r, s := Resolve(votes, sqrt, c), Resolve(Swapped(votes), sqrt, c);
            && s.confidence == r.confidence && s.margin == r.margin && s.totalWeight == r.totalWeight
            && (s.verdict == OppositeResult(r.verdict) <==> !(TopTie(votes, sqrt) && r.verdict.Some?))
  {
    var w, s := Weighted(votes, sqrt), Weighted(Swapped(votes), sqrt);
    var d := VerdictWeights(w);
    SwapWeights(votes, sqrt);
    SwapDecision(w[0].claimId, s[0].claimId, d, Total(w), |w|, MaxShare(w), c);
    assert Resolve(votes, sqrt, c) == Determine(w[0].claimId, d, Total(w), |w|, MaxShare(w), c);
    assert Resolve(Swapped(votes), sqrt, c) ==
           Determine(s[0].claimId, Distribution(d.f, d.t, d.u), Total(w), |w|, MaxShare(w), c);
  }

  lemma SwapDecision(claim: string, claim': string, d: Distribution, total: real, count: nat, maxShare: real, c: Config)
    ensures var r, s := Determine(claim, d, total, count, maxShare, c), Determine(claim', Distribution(d.f, d.t, d.u), total, count, maxShare, c);
            && s.confidence == r.confidence && s.margin == r.margin && s.totalWeight == r.totalWeight
            && (s.verdict == OppositeResult(r.verdict) <==> !(d.t == d.f >= d.u && r.verdict.Some?))
  {
    SwapTop(d);
  }

  lemma SwapTop(d: Distribution)
    ensures var s := Distribution(d.f, d.t, d.u);
            && s.Of(Dominant(s)) == d.Of(Dominant(d)) && SecondWeight(s) == SecondWeight(d)
            && (Dominant(s) == Opposite(Dominant(d)) <==> !(d.t == d.f >= d.u))
  {
  }

  /** The votes are enough, no user has too much of them, and neither threshold keeps an exact tie from passing. */
  predicate TiePasses(votes: seq<VerificationVote>, sqrt: real -> real, c: Config)
    requires votes != []
  {
    var w := Weighted(votes, sqrt);
    && c.minTotalWeight <= Total(w) && MaxShare(w) <= c.maxReputationShare
    && c.tieThreshold <= 0.0 && c.confidenceThreshold * Total(w) <= Sum(w, For(TRUE))
  }

  /** Swapping TRUE and FALSE in the votes swaps them in the verdict, except in an exact top tie that passes. */
  lemma SwapCommutesIff(votes: seq<VerificationVote>, sqrt: real -> real, c: Config)
    requires votes != [] && IsRoot(sqrt)
    ensures var r, s := Resolve(votes, sqrt, c), Resolve(Swapped(votes), sqrt, c);
            && s.confidence == r.confidence && s.margin == r.margin && s.totalWeight == r.totalWeight
            && (s.verdict == OppositeResult(r.verdict) <==> !(TopTie(votes, sqrt) && TiePasses(votes, sqrt, c)))
  {
    SwapExceptResolvedTie(votes, sqrt, c);
    if TopTie(votes, sqrt) {
      TopTieResolved(votes, sqrt, c);
    }
  }

  lemma TopTieResolved(votes: seq<VerificationVote>, sqrt: real -> real, c: Config)
    requires votes != [] && IsRoot(sqrt) && TopTie(votes, sqrt)
    ensures Resolve(votes, sqrt, c).verdict.Some? <==> TiePasses(votes, sqrt, c)
  {
    var w := Weighted(votes, sqrt);
    WeightsPositive(votes, sqrt);
    TotalAtLeastCount(w);
    TieDecision(w[0].claimId, VerdictWeights(w), Total(w), |w|, MaxShare(w), c);
  }

  lemma TieDecision(claim: string, d: Distribution, total: real, count: nat, maxShare: real, c: Config)
    requires d.t == d.f >= d.u && total > 0.0
    ensures Determine(claim, d, total, count, maxShare, c).verdict.Some? <==>
            && c.minTotalWeight <= total && maxShare <= c.maxReputationShare
            && c.tieThreshold <= 0.0 && c.confidenceThreshold * total <= d.t
  {
    assert d.t / total * total == d.t;
    assert (d.t / total - c.confidenceThreshold) * total == d.t - c.confidenceThreshold * total;
    assert 0.0 < total * c.tieThreshold <==> c.tieThreshold > 0.0;
  }

  // ---------- Over all votes ----------

  /** Whatever the votes are, swapping TRUE and FALSE swaps the verdict. */
  ghost predicate AlwaysSwaps(c: Config) {
    forall votes, sqrt | IsRoot(sqrt) ::
      Resolve(Swapped(votes), sqrt, c).verdict == OppositeResult(Resolve(votes, sqrt, c).verdict)
  }

  /** A positive tie threshold, a confidence threshold above one half, or no share that any user may have. */
  predicate NoTiePasses(c: Config) {
    c.tieThreshold > 0.0 || c.confidenceThreshold > 0.5 || c.maxReputationShare <= 0.0
  }

  lemma {:induction false} VerdictsPartition(w: seq<WeightedVote>)
    requires PositiveWeights(w)
    ensures Total(w) == Sum(w, For(TRUE)) + Sum(w, For(FALSE)) + Sum(w, For(UNSURE)) && Sum(w, For(UNSURE)) >= 0.0
  {
    if w != [] {
      VerdictsPartition(w[1..]);
    }
  }

  lemma SharePositive(w: seq<WeightedVote>)
    requires w != [] && PositiveWeights(w)
    ensures MaxShare(w) > 0.0
  {
    TotalAtLeastCount(w);
    MaxBounds(w, |w|);
    OwnWeight(w, 0);
    Positive(MaxUserWeight(w, |w|), Total(w));
  }

  lemma Positive(a: real, b: real)
    requires a > 0.0 && b > 0.0
    ensures a / b > 0.0
  {
    assert a / b * b == a;
  }

  /** A user has at least the weight of each of its votes. */
  lemma {:induction false} OwnWeight(w: seq<WeightedVote>, i: nat)
    requires PositiveWeights(w) && i < |w|
    ensures UserWeight(w, w[i].userId) >= w[i].weight
  {
    NotNegative(w[1..], By(w[i].userId));
    if i > 0 {
      OwnWeight(w[1..], i - 1);
    }
  }

  lemma {:induction false} NotNegative(w: seq<WeightedVote>, f: WeightedVote -> real)
    requires forall i | 0 <= i < |w| :: f(w[i]) >= 0.0
    ensures Sum(w, f) >= 0.0
  {
    if w != [] {
      NotNegative(w[1..], f);
    }
  }

  lemma NoTiePassesHere(votes: seq<VerificationVote>, sqrt: real -> real, c: Config)
    requires votes != [] && IsRoot(sqrt) && NoTiePasses(c)
    ensures !(TopTie(votes, sqrt) && TiePasses(votes, sqrt, c))
  {
    var w := Weighted(votes, sqrt);
    WeightsPositive(votes, sqrt);
    TotalAtLeastCount(w);
    SharePositive(w);
    VerdictsPartition(w);
    if c.confidenceThreshold > 0.5 {
      HalfIsNotEnough(Sum(w, For(TRUE)), Total(w), c.confidenceThreshold);
    }
  }

  lemma NoTieSwaps(votes: seq<VerificationVote>, sqrt: real -> real, c: Config)
    requires IsRoot(sqrt) && NoTiePasses(c)
    ensures Resolve(Swapped(votes), sqrt, c).verdict == OppositeResult(Resolve(votes, sqrt, c).verdict)
  {
    if votes != [] {
      NoTiePassesHere(votes, sqrt, c);
      SwapCommutesIff(votes, sqrt, c);
    }
  }

  lemma HalfIsNotEnough(top: real, total: real, threshold: real)
    requires total > 0.0 && threshold > 0.5
    ensures 2.0 * top <= total ==> threshold * total > top
  {
    assert (threshold - 0.5) * total > 0.0;
  }

  /** `n` users with one vote each on either side. */
  function EvenVotes(n: nat): seq<VerificationVote> {
    seq(2 * n, i => VerificationVote("", User(i), if i % 2 == 0 then TRUE else FALSE, 0.0, 1.0))
  }

  function User(i: int): string {
    if i <= 0 then "" else seq(i, _ => 'u')
  }

  function NoRoot(): real -> real { x => 0.0 }

  /** Different users, each of weight one, who vote TRUE and FALSE in turn. */
  ghost predicate Even(w: seq<WeightedVote>) {
    forall i | 0 <= i < |w| :: w[i] == WeightedVote("", User(i), if i % 2 == 0 then TRUE else FALSE, 1.0)
  }

  lemma EvenWeights(n: nat)
    ensures Even(Weighted(EvenVotes(n), NoRoot())) && |Weighted(EvenVotes(n), NoRoot())| == 2 * n
  {
  }

  lemma {:induction false} EvenSums(w: seq<WeightedVote>)
    requires Even(w)
    ensures Sum(w, For(TRUE)) == ((|w| + 1) / 2) as real && Sum(w, For(FALSE)) == (|w| / 2) as real
    ensures Sum(w, For(UNSURE)) == 0.0 && Total(w) == |w| as real
    decreases |w|
  {
    if w != [] {
      var rest, last := w[..|w| - 1], w[|w| - 1];
      assert w == rest + [last];
      EvenSums(rest);
      SumSnoc(rest, last, For(TRUE));
      SumSnoc(rest, last, For(FALSE));
      SumSnoc(rest, last, For(UNSURE));
      SumSnoc(rest, last, All());
    }
  }

  lemma {:induction false} EvenUser(w: seq<WeightedVote>, k: nat)
    requires Even(w)
    ensures UserWeight(w, User(k)) == if k < |w| then 1.0 else 0.0
    decreases |w|
  {
    if w != [] {
      var rest, last := w[..|w| - 1], w[|w| - 1];
      assert w == rest + [last];
      EvenUser(rest, k);
      SumSnoc(rest, last, By(User(k)));
      assert |User(k)| == k && |last.userId| == |rest|;
    }
  }

  lemma EvenShare(w: seq<WeightedVote>)
    requires Even(w) && w != []
    ensures MaxShare(w) == 1.0 / |w| as real
  {
    EvenSums(w);
    forall i | 0 <= i < |w|
      ensures UserWeight(w, w[i].userId) == 1.0
    {
      EvenUser(w, i);
    }
    assert UserWeight(w, w[0].userId) == 1.0;
    MaxIsLargestGroup(w, |w|, 1.0);
  }

  /** Enough users that the total suffices and no share is too large. */
  lemma EnoughVoters(least: real, share: real) returns (n: nat)
    requires share > 0.0
    ensures n >= 1 && (2 * n) as real >= least && 1.0 / (2 * n) as real <= share
  {
    var a, b := least.Floor + 1, (1.0 / share).Floor + 1;
    n := if a >= b && a >= 1 then a else if b >= 1 then b else 1;
    assert n as real >= least && n as real >= 1.0 / share;
    var total := (2 * n) as real;
    assert total >= 1.0 / share;
    Reciprocal(total, share);
  }

  lemma Reciprocal(total: real, share: real)
    requires total > 0.0 && share > 0.0 && total >= 1.0 / share
    ensures 1.0 / total <= share
  {
    assert 1.0 / share * share == 1.0;
    assert (total - 1.0 / share) * share >= 0.0;
    assert total * share >= 1.0;
    assert 1.0 / total * total == 1.0;
    assert (share - 1.0 / total) * total >= 0.0;
  }

  lemma EvenTiePasses(n: nat, c: Config)
    requires n >= 1 && (2 * n) as real >= c.minTotalWeight && 1.0 / (2 * n) as real <= c.maxReputationShare
    requires c.tieThreshold <= 0.0 && c.confidenceThreshold <= 0.5
    ensures TopTie(EvenVotes(n), NoRoot()) && TiePasses(EvenVotes(n), NoRoot(), c)
  {
    EvenWeights(n);
    EvenAggregates(Weighted(EvenVotes(n), NoRoot()), n);
    HalfIsEnough(n as real, (2 * n) as real, c.confidenceThreshold);
  }

  lemma EvenAggregates(w: seq<WeightedVote>, n: nat)
    requires Even(w) && |w| == 2 * n && n >= 1
    ensures Sum(w, For(TRUE)) == n as real && Sum(w, For(FALSE)) == n as real && Sum(w, For(UNSURE)) == 0.0
    ensures Total(w) == (2 * n) as real && MaxShare(w) == 1.0 / (2 * n) as real
  {
    EvenShare(w);
    assert (|w| + 1) / 2 == n && |w| / 2 == n;
    assert Sum(w, For(TRUE)) == n as real && Sum(w, For(FALSE)) == n as real && Sum(w, For(UNSURE)) == 0.0
           && Total(w) == |w| as real by {
      EvenSums(w);
    }
  }

  /** Otherwise there are votes in an exact tie, for TRUE both before and after the swap. */
  lemma EvenVotesDoNotSwap(c: Config) returns (votes: seq<VerificationVote>)
    requires !NoTiePasses(c)
    ensures IsRoot(NoRoot())
    ensures Resolve(Swapped(votes), NoRoot(), c).verdict != OppositeResult(Resolve(votes, NoRoot(), c).verdict)
  {
    var n := EnoughVoters(c.minTotalWeight, c.maxReputationShare);
    votes := EvenVotes(n);
    EvenTiePasses(n, c);
    SwapCommutesIff(votes, NoRoot(), c);
  }

  lemma HalfIsEnough(top: real, total: real, threshold: real)
    requires total == 2.0 * top && total > 0.0 && threshold <= 0.5
    ensures threshold * total <= top
  {
    assert (0.5 - threshold) * total >= 0.0;
  }

  /**
   Swapping TRUE and FALSE always swaps the verdict exactly when the tie threshold is positive, the confidence
   threshold is above one half, or no user may have any share.
   */
  lemma AlwaysSwapsIff(c: Config)
    ensures AlwaysSwaps(c) <==> NoTiePasses(c)
  {
    if NoTiePasses(c) {
      forall votes, sqrt | IsRoot(sqrt)
        ensures Resolve(Swapped(votes), sqrt, c).verdict == OppositeResult(Resolve(votes, sqrt, c).verdict)
      {
        NoTieSwaps(votes, sqrt, c);
      }
    } else {
      var votes := EvenVotesDoNotSwap(c);
    }
  }
}
