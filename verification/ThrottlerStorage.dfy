/**
 The in-memory rate limiter: one record per key, updated on every request.

 A request is accepted when the response does not say `isBlocked`.  The main
 results are about whole traces of requests of one key under one policy: how
 many of them any interval of `ttl` milliseconds can accept, and what the
 "first request after a block counts twice" rule does.
 */
module ThrottlerStorage {
  import opened Wrappers

  datatype Record = Record(totalHits: int, expiresAt: int, blockExpiresAt: int, isBlocked: bool)

  datatype Response = Response(totalHits: int, timeToExpire: int, isBlocked: bool, timeToBlockExpire: int)

  datatype Policy = Policy(ttl: int, limit: int, blockDuration: int)

  function Max(a: int, b: int): int { if a < b then b else a }

  /** The record after one request at time `now`. */
  function Next(stored: Option<Record>, now: int, p: Policy): Record {
    match stored
    case None => Record(1, now + p.ttl, 0, false)
    case Some(r) =>
      if r.isBlocked && now < r.blockExpiresAt then r
      else
        // A lapsed block restarts the window at one hit, and the same request is then counted again.
        var open := if r.isBlocked then Record(1, now + p.ttl, 0, false) else r;
        var hits := if open.expiresAt <= now then 1 else open.totalHits + 1;
        var windowEnd := if open.expiresAt <= now then now + p.ttl else open.expiresAt;
        if hits > p.limit then Record(hits, now + p.ttl, now + p.blockDuration, true)
        else Record(hits, windowEnd, open.blockExpiresAt, false)
  }

  /** What the caller is told about the record it just hit. */
  function Report(r: Record, now: int): Response {
    Response(r.totalHits, Max(r.expiresAt - now, 0), r.isBlocked,
             if r.isBlocked then Max(r.blockExpiresAt - now, 0) else 0)
  }

  /** The answer to one request: a new key is told `ttl` as given, even a negative one. */
  function Told(stored: Option<Record>, now: int, p: Policy): Response {
    if stored.Some? then Report(Next(stored, now, p), now) else Response(1, p.ttl, false, 0)
  }

  /** The storage object: `increment` changes the record of one key in place. */
  class MemoryStorage {
    var storage: map<string, Record>

    constructor ()
      ensures storage == map[]
    {
      storage := map[];
    }

    function Lookup(key: string): Option<Record>
      reads this
    {
      if key in storage then Some(storage[key]) else None
    }

    /**
     One request.  Only the record of `key` changes, to `Next`, and the response describes that record: whether it
     is blocked now, its hits, and how long window and block still last.
     */
    method Increment(key: string, ttl: int, limit: int, blockDuration: int, now: int) returns (res: Response)
      modifies this
      ensures storage == old(storage)[key := Next(old(Lookup(key)), now, Policy(ttl, limit, blockDuration))]
      ensures res == Told(old(Lookup(key)), now, Policy(ttl, limit, blockDuration))
      ensures res.isBlocked == storage[key].isBlocked && res.totalHits == storage[key].totalHits
      ensures key in old(storage) ==>
                && res.timeToExpire == (if storage[key].expiresAt > now then storage[key].expiresAt - now else 0)
                && res.timeToBlockExpire == (if storage[key].isBlocked && storage[key].blockExpiresAt > now
                                             then storage[key].blockExpiresAt - now else 0)
      ensures key !in old(storage) ==> !res.isBlocked && res.timeToExpire == ttl && res.timeToBlockExpire == 0
      ensures key !in old(storage) ==> storage[key].totalHits == 1 && storage[key].expiresAt == now + ttl
      ensures key in old(storage) ==>
                var was, r := old(storage)[key], storage[key];
                if was.isBlocked && now < was.blockExpiresAt then r == was
                else if r.isBlocked then r.totalHits > limit && r.expiresAt == now + ttl && r.blockExpiresAt == now + blockDuration
                else
                  && r.totalHits <= limit
                  && (!was.isBlocked && now < was.expiresAt ==> r.totalHits == was.totalHits + 1 && r.expiresAt == was.expiresAt)
                  && (!was.isBlocked && was.expiresAt <= now ==> r.totalHits == 1 && r.expiresAt == now + ttl)
    {
      if key !in storage {
        storage := storage[key := Record(1, now + ttl, 0, false)];
        return Response(1, ttl, false, 0);
      }
      var totalHits, expiresAt := storage[key].totalHits, storage[key].expiresAt;
      var blockExpiresAt, isBlocked := storage[key].blockExpiresAt, storage[key].isBlocked;
      if isBlocked {
        if blockExpiresAt <= now {
          isBlocked := false;
          totalHits := 1;
          expiresAt := now + ttl;
          blockExpiresAt := 0;
        } else {
          assert storage == storage[key := storage[key]];
          return Response(totalHits, Max(expiresAt - now, 0), true, Max(blockExpiresAt - now, 0));
        }
      }
      if expiresAt <= now {
        totalHits := 1;
        expiresAt := now + ttl;
      } else {
        totalHits := totalHits + 1;
      }
      if totalHits > limit && !isBlocked {
        isBlocked := true;
        blockExpiresAt := now + blockDuration;
        expiresAt := now + ttl;
      }
      storage := storage[key := Record(totalHits, expiresAt, blockExpiresAt, isBlocked)];
      res := Response(totalHits, Max(expiresAt - now, 0), isBlocked,
                      if isBlocked then Max(blockExpiresAt - now, 0) else 0);
    }
  }

  // ---------- Traces of one key ----------

  /** The record after the requests at `times`. */
  function Run(stored: Option<Record>, times: seq<int>, p: Policy): Option<Record>
    decreases times
  {
    if times == [] then stored else Run(Some(Next(stored, times[0], p)), times[1..], p)
  }

  /** How many of the requests at `times` are accepted: their answers do not say that the key is blocked. */
  function Accepted(stored: Option<Record>, times: seq<int>, p: Policy): nat
    decreases times
  {
    if times == [] then 0
    else (if Told(stored, times[0], p).isBlocked then 0 else 1) + Accepted(Some(Next(stored, times[0], p)), times[1..], p)
  }

  ghost predicate Sorted(times: seq<int>) {
    forall i, j | 0 <= i < j < |times| :: times[i] <= times[j]
  }

  ghost predicate NotBefore(times: seq<int>, start: int) {
    forall i | 0 <= i < |times| :: start <= times[i]
  }

  ghost predicate Until(times: seq<int>, end: int) {
    forall i | 0 <= i < |times| :: times[i] < end
  }

  /** The records a key can have at time `now`: blocked exactly when one hit above the limit. */
  ghost predicate Reachable(stored: Option<Record>, now: int, p: Policy) {
    match stored
    case None => true
    case Some(r) =>
      && 1 <= r.totalHits <= p.limit + 1
      && (r.isBlocked <==> r.totalHits == p.limit + 1)
      && r.expiresAt <= now + p.ttl
      && (r.isBlocked ==> r.blockExpiresAt <= now + p.blockDuration)
  }

  ghost predicate Sensible(p: Policy) {
    p.limit >= 1 && p.ttl > 0
  }

  lemma NextReachable(stored: Option<Record>, last: int, now: int, p: Policy)
    requires Sensible(p) && last <= now && Reachable(stored, last, p)
    ensures Reachable(Some(Next(stored, now, p)), now, p)
  {
  }

  /** In every reachable record, "blocked" means exactly "one hit above the limit". */
  lemma {:induction false} RunReachable(stored: Option<Record>, start: int, times: seq<int>, p: Policy)
    requires Sensible(p) && Reachable(stored, start, p)
    requires Sorted(times) && NotBefore(times, start)
    ensures Reachable(Run(stored, times, p), if times == [] then start else times[|times| - 1], p)
    decreases times
  {
    if times != [] {
      NextReachable(stored, start, times[0], p);
      RunReachable(Some(Next(stored, times[0], p)), times[0], times[1..], p);
    }
  }

  /** No request is accepted before the block ends. */
  lemma {:induction false} NoneWhileBlocked(r: Record, times: seq<int>, p: Policy)
    requires r.isBlocked && Until(times, r.blockExpiresAt)
    ensures Accepted(Some(r), times, p) == 0
  {
    if times != [] {
      NoneWhileBlocked(r, times[1..], p);
    }
  }

  /** Within its window, a record accepts at most what is left of the limit. */
  lemma {:induction false} RestOfWindow(r: Record, start: int, times: seq<int>, p: Policy)
    requires Sensible(p) && p.blockDuration >= p.ttl
    requires Reachable(Some(r), start, p) && !r.isBlocked
    requires Sorted(times) && NotBefore(times, start) && Until(times, r.expiresAt)
    ensures Accepted(Some(r), times, p) <= p.limit - r.totalHits
    decreases times
  {
    if times != [] {
      var r' := Next(Some(r), times[0], p);
      NextReachable(Some(r), start, times[0], p);
      if r'.isBlocked {
        NoneWhileBlocked(r', times[1..], p);
      } else {
        RestOfWindow(r', times[0], times[1..], p);
      }
    }
  }

  /** From the end of a block, at most one window's worth is accepted within one `ttl`. */
  lemma {:induction false} AfterBlock(r: Record, start: int, times: seq<int>, p: Policy)
    requires Sensible(p) && p.blockDuration >= p.ttl
    requires Reachable(Some(r), start, p) && r.isBlocked
    requires Sorted(times) && NotBefore(times, start) && Until(times, r.blockExpiresAt + p.ttl)
    ensures Accepted(Some(r), times, p) <= p.limit
    decreases times
  {
    if times != [] {
      var r' := Next(Some(r), times[0], p);
      NextReachable(Some(r), start, times[0], p);
      if times[0] < r.blockExpiresAt {
        AfterBlock(r, times[0], times[1..], p);
      } else if r'.isBlocked {
        NoneWhileBlocked(r', times[1..], p);
      } else {
        RestOfWindow(r', times[0], times[1..], p);
      }
    }
  }

  /** The rest of this window and one more. */
  lemma {:induction false} TwoWindows(r: Record, start: int, times: seq<int>, p: Policy)
    requires Sensible(p) && p.blockDuration >= p.ttl
    requires Reachable(Some(r), start, p) && !r.isBlocked
    requires Sorted(times) && NotBefore(times, start) && Until(times, r.expiresAt + p.ttl)
    ensures Accepted(Some(r), times, p) <= p.limit - r.totalHits + p.limit
    decreases times
  {
    if times != [] {
      var r' := Next(Some(r), times[0], p);
      NextReachable(Some(r), start, times[0], p);
      if r'.isBlocked {
        AfterBlock(r', times[0], times[1..], p);
      } else if times[0] < r.expiresAt {
        TwoWindows(r', times[0], times[1..], p);
      } else {
        RestOfWindow(r', times[0], times[1..], p);
      }
    }
  }

  /** Requests that lie within one `ttl` of the first of them, on a key in any reachable state. */
  lemma OneInterval(stored: Option<Record>, last: int, span: seq<int>, p: Policy)
    requires Sensible(p) && p.blockDuration >= p.ttl && Reachable(stored, last, p)
    requires span != [] && Sorted(span) && last <= span[0] && Until(span, span[0] + p.ttl + 1)
    ensures Accepted(stored, span, p) <= 2 * p.limit
  {
    var r := Next(stored, span[0], p);
    NextReachable(stored, last, span[0], p);
    if stored.Some? && stored.value.isBlocked && span[0] < stored.value.blockExpiresAt {
      AfterBlock(stored.value, last, span, p);
    } else if r.isBlocked {
      AfterBlock(r, span[0], span[1..], p);
    } else {
      TwoWindows(r, span[0], span[1..], p);
    }
  }

  /**
   The rate limit: in every trace of a key, the requests `i..j` that fall within one `ttl` of each other
   have at most twice the limit accepted, provided a block lasts at least a window.
   */
  lemma AtMostTwiceLimit(times: seq<int>, i: nat, j: nat, p: Policy)
    requires Sensible(p) && p.blockDuration >= p.ttl
    requires Sorted(times) && i < j <= |times| && times[j - 1] - times[i] <= p.ttl
    ensures Accepted(Run(None, times[..i], p), times[i..j], p) <= 2 * p.limit
  {
    RunReachable(None, times[0], times[..i], p);
    OneInterval(Run(None, times[..i], p), if i == 0 then times[0] else times[i - 1], times[i..j], p);
  }

  // ---------- The bound is attained, and needs its hypothesis ----------

  /** `n` requests at time `t`. */
  function Burst(t: int, n: nat): (times: seq<int>)
    ensures |times| == n && forall i | 0 <= i < n :: times[i] == t
  {
    if n == 0 then [] else [t] + Burst(t, n - 1)
  }

  lemma {:induction false} RunConcat(stored: Option<Record>, a: seq<int>, b: seq<int>, p: Policy)
    ensures Run(stored, a + b, p) == Run(Run(stored, a, p), b, p)
    ensures Accepted(stored, a + b, p) == Accepted(stored, a, p) + Accepted(Run(stored, a, p), b, p)
    decreases a
  {
    if a == [] {
      assert a + b == b;
    } else {
      assert (a + b)[0] == a[0] && (a + b)[1..] == a[1..] + b;
      RunConcat(Some(Next(stored, a[0], p)), a[1..], b, p);
    }
  }

  /** A burst that fits in the window is accepted whole. */
  lemma {:induction false} BurstFits(r: Record, t: int, n: nat, p: Policy)
    requires !r.isBlocked && t < r.expiresAt && r.totalHits + n <= p.limit
    ensures Accepted(Some(r), Burst(t, n), p) == n
    ensures Run(Some(r), Burst(t, n), p) == Some(r.(totalHits := r.totalHits + n))
    decreases n
  {
    if n != 0 {
      var times := Burst(t, n);
      assert times[1..] == Burst(t, n - 1);
      BurstFits(Next(Some(r), t, p), t, n - 1, p);
    }
  }

  lemma UnfoldBurst(stored: Option<Record>, t: int, n: nat, p: Policy)
    requires n >= 1
    ensures var r := Next(stored, t, p);
            && Accepted(stored, Burst(t, n), p) == (if r.isBlocked then 0 else 1) + Accepted(Some(r), Burst(t, n - 1), p)
            && Run(stored, Burst(t, n), p) == Run(Some(r), Burst(t, n - 1), p)
  {
    assert Burst(t, n)[1..] == Burst(t, n - 1);
  }

  /** A burst that opens a window on a key without a live one. */
  lemma FreshBurst(stored: Option<Record>, t: int, n: nat, p: Policy)
    requires Sensible(p) && 1 <= n <= p.limit
    requires stored.Some? ==> !stored.value.isBlocked && stored.value.expiresAt <= t
    requires stored.Some? ==> stored.value.blockExpiresAt == 0
    ensures Accepted(stored, Burst(t, n), p) == n
    ensures Run(stored, Burst(t, n), p) == Some(Record(n, t + p.ttl, 0, false))
  {
    FirstOfBurst(stored, t, p);
    UnfoldBurst(stored, t, n, p);
    BurstFits(Record(1, t + p.ttl, 0, false), t, n - 1, p);
  }

  lemma FirstOfBurst(stored: Option<Record>, t: int, p: Policy)
    requires Sensible(p) && (stored.Some? ==> !stored.value.isBlocked && stored.value.expiresAt <= t)
    requires stored.Some? ==> stored.value.blockExpiresAt == 0
    ensures Next(stored, t, p) == Record(1, t + p.ttl, 0, false)
  {
  }

  /** The bound is tight for every policy: one early hit, then two full bursts around the window end. */
  lemma TwiceLimitAttained(p: Policy) returns (times: seq<int>, i: nat)
    requires Sensible(p)
    ensures Sorted(times) && i < |times| && times[|times| - 1] - times[i] <= p.ttl
    ensures Accepted(Run(None, times[..i], p), times[i..], p) == 2 * p.limit
  {
    var first, second, third := [0], Burst(p.ttl - 1, p.limit - 1), Burst(p.ttl, p.limit);
    times, i := first + (second + third), 0;
    assert times[..0] == [] && times[0..] == times;
    var started := Next(None, 0, p);
    assert times[1..] == second + third;
    RunConcat(Some(started), second, third, p);
    BurstFits(started, p.ttl - 1, p.limit - 1, p);
    FreshBurst(Run(Some(started), second, p), p.ttl, p.limit, p);
  }

  /** The requests of one counterexample: late in a window, a full next window, and again after a short block. */
  function ShortBlockTrace(p: Policy): seq<int>
    requires Sensible(p)
  {
    [0] + (Burst(p.ttl - 1, p.limit - 1) + Burst(p.ttl, p.limit) + ([p.ttl] + Burst(p.ttl + p.blockDuration, p.limit - 1)))
  }

  /** The state after the full window: blocked by one more request. */
  lemma ShortBlockPrefix(p: Policy) returns (filled: Option<Record>)
    requires Sensible(p) && p.limit >= 2
    ensures filled == Some(Record(p.limit, 2 * p.ttl, 0, false))
    ensures var head := Burst(p.ttl - 1, p.limit - 1) + Burst(p.ttl, p.limit);
            && Run(Some(Next(None, 0, p)), head, p) == filled
            && Accepted(Some(Next(None, 0, p)), head, p) == 2 * p.limit - 1
  {
    var late, full := Burst(p.ttl - 1, p.limit - 1), Burst(p.ttl, p.limit);
    var started := Next(None, 0, p);
    RunConcat(Some(started), late, full, p);
    BurstFits(started, p.ttl - 1, p.limit - 1, p);
    FreshBurst(Run(Some(started), late, p), p.ttl, p.limit, p);
    filled := Run(Some(started), late + full, p);
  }

  lemma ShortBlockTraceSorted(p: Policy)
    requires Sensible(p) && p.limit >= 2 && 0 <= p.blockDuration < p.ttl
    ensures var times := ShortBlockTrace(p);
            Sorted(times) && times[|times| - 1] - times[1] <= p.ttl
  {
  }

  /** The requests after the first two bursts: one that is blocked, then a burst at the end of the block. */
  lemma ShortBlockTail(p: Policy)
    requires Sensible(p) && p.limit >= 2 && 0 <= p.blockDuration < p.ttl
    ensures Accepted(Some(Record(p.limit, 2 * p.ttl, 0, false)), [p.ttl] + Burst(p.ttl + p.blockDuration, p.limit - 1), p) == p.limit - 1
  {
    var again := Burst(p.ttl + p.blockDuration, p.limit - 1);
    var filled := Some(Record(p.limit, 2 * p.ttl, 0, false));
    assert ([p.ttl] + again)[1..] == again;
    UnblockedBurst(Next(filled, p.ttl, p), p.ttl + p.blockDuration, p.limit - 1, p);
  }

  /** A block shorter than a window lets `3 * limit - 2` requests through within one `ttl`. */
  lemma ShortBlockExceeds(p: Policy)
    requires Sensible(p) && p.limit >= 2 && 0 <= p.blockDuration < p.ttl
    ensures var times := ShortBlockTrace(p);
            && Sorted(times) && times[|times| - 1] - times[1] <= p.ttl
            && Accepted(Run(None, times[..1], p), times[1..], p) == 3 * p.limit - 2
  {
    var times := ShortBlockTrace(p);
    ShortBlockTraceSorted(p);
    var head := Burst(p.ttl - 1, p.limit - 1) + Burst(p.ttl, p.limit);
    var tail := [p.ttl] + Burst(p.ttl + p.blockDuration, p.limit - 1);
    assert times[..1] == [0] && times[1..] == head + tail;
    var started := Some(Next(None, 0, p));
    assert Run(None, [0], p) == started by { assert [0][1..] == []; }
    var filled := ShortBlockPrefix(p);
    RunConcat(started, head, tail, p);
    ShortBlockTail(p);
  }

  /** After a block, `limit - 1` requests are accepted at once: the first of them counts twice. */
  lemma UnblockedBurst(r: Record, t: int, n: nat, p: Policy)
    requires Sensible(p) && r.isBlocked && r.blockExpiresAt <= t && 1 <= n <= p.limit - 1
    ensures Accepted(Some(r), Burst(t, n), p) == n
    ensures Run(Some(r), Burst(t, n), p) == Some(Record(n + 1, t + p.ttl, 0, false))
  {
    UnfoldBurst(Some(r), t, n, p);
    var open := Record(2, t + p.ttl, 0, false);
    assert Next(Some(r), t, p) == open;
    BurstFits(open, t, n - 1, p);
  }

  /** The bound holds on every interval of every trace. */
  ghost predicate TwiceLimitHolds(p: Policy) {
    forall times: seq<int>, i: nat, j: nat
      | Sorted(times) && i < j <= |times| && times[j - 1] - times[i] <= p.ttl ::
      Accepted(Run(None, times[..i], p), times[i..j], p) <= 2 * p.limit
  }

  // ---------- Limit one ----------

  /** With limit one, a blocked key stays blocked, however long the requests wait. */
  lemma {:induction false} LimitOneLocksOut(r: Record, times: seq<int>, p: Policy)
    requires p.limit == 1 && p.ttl > 0 && r.isBlocked
    ensures Accepted(Some(r), times, p) == 0
    decreases times
  {
    if times != [] {
      LimitOneLocksOut(Next(Some(r), times[0], p), times[1..], p);
    }
  }

  /** A blocked key can be accepted again at some later time exactly when the limit is at least two. */
  lemma BlockEndsIffLimitAboveOne(r: Record, p: Policy)
    requires Sensible(p) && r.isBlocked
    ensures (exists times: seq<int> :: Accepted(Some(r), times, p) > 0) <==> p.limit >= 2
  {
    if p.limit >= 2 {
      UnblockedBurst(r, r.blockExpiresAt, 1, p);
    } else {
      forall times: seq<int>
        ensures Accepted(Some(r), times, p) == 0
      {
        LimitOneLocksOut(r, times, p);
      }
    }
  }
}
