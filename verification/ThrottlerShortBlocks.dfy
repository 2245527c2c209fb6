/**
 Exactly which policies keep the rate limit of twice `limit` per `ttl`, when a
 block may be shorter than a window.
 */
module ThrottlerShortBlocks {
  import opened Wrappers
  import opened ThrottlerStorage

  /** The requests of `times` come at or after `start` and before `end`, in order. */
  ghost predicate InSpan(times: seq<int>, start: int, end: int) {
    Sorted(times) && NotBefore(times, start) && Until(times, end)
  }

  // ---------- Limit one ----------

  /** With limit one, the rest of a window accepts nothing. */
  lemma OneRestOfWindow(r: Record, times: seq<int>, p: Policy)
    requires p.limit == 1 && p.ttl > 0 && !r.isBlocked && r.totalHits == 1 && Until(times, r.expiresAt)
    ensures Accepted(Some(r), times, p) == 0
  {
    if times != [] {
      LimitOneLocksOut(Next(Some(r), times[0], p), times[1..], p);
    }
  }

  lemma OneNextWindow(r: Record, times: seq<int>, p: Policy)
    requires p.limit == 1 && p.ttl > 0 && !r.isBlocked && r.totalHits == 1
    requires Sorted(times) && Until(times, r.expiresAt + p.ttl)
    ensures Accepted(Some(r), times, p) <= 1
  {
    if times != [] {
      var next := Next(Some(r), times[0], p);
      if times[0] < r.expiresAt {
        LimitOneLocksOut(next, times[1..], p);
      } else {
        OneRestOfWindow(next, times[1..], p);
      }
    }
  }

  lemma OneInterval(stored: Option<Record>, last: int, span: seq<int>, p: Policy)
    requires p.limit == 1 && p.ttl > 0 && Reachable(stored, last, p)
    requires span != [] && last <= span[0] && InSpan(span, span[0], span[0] + p.ttl + 1)
    ensures Accepted(stored, span, p) <= 2
  {
    if stored.Some? && stored.value.isBlocked {
      LimitOneLocksOut(stored.value, span, p);
    } else if stored.Some? && span[0] < stored.value.expiresAt {
      OneNextWindow(stored.value, span, p);
    } else {
      OneNextWindow(Next(stored, span[0], p), span[1..], p);
    }
  }

  // ---------- Limit two, blocks of at least half a window ----------

  ghost predicate HalfWindowBlocks(p: Policy) {
    p.limit == 2 && 0 < p.blockDuration <= p.ttl <= 2 * p.blockDuration
  }

  /** A full window accepts nothing before the block that its next request starts can end. */
  lemma FullAcceptsNone(r: Record, start: int, times: seq<int>, p: Policy)
    requires HalfWindowBlocks(p) && !r.isBlocked && r.totalHits == 2
    requires InSpan(times, start, start + p.blockDuration) && Until(times, r.expiresAt)
    ensures Accepted(Some(r), times, p) == 0
  {
    if times != [] {
      NoneWhileBlocked(Next(Some(r), times[0], p), times[1..], p);
    }
  }

  lemma {:induction false} BlockedAcceptsOne(r: Record, start: int, times: seq<int>, p: Policy)
    requires HalfWindowBlocks(p) && r.isBlocked && InSpan(times, start, r.blockExpiresAt + p.blockDuration)
    ensures Accepted(Some(r), times, p) <= 1
    decreases times
  {
    if times != [] {
      if times[0] < r.blockExpiresAt {
        BlockedAcceptsOne(r, times[0], times[1..], p);
      } else {
        FullAcceptsNone(Next(Some(r), times[0], p), times[0], times[1..], p);
      }
    }
  }

  lemma FullAcceptsOne(r: Record, start: int, times: seq<int>, p: Policy)
    requires HalfWindowBlocks(p) && !r.isBlocked && r.totalHits == 2
    requires InSpan(times, start, start + 2 * p.blockDuration) && Until(times, r.expiresAt)
    ensures Accepted(Some(r), times, p) <= 1
  {
    if times != [] {
      BlockedAcceptsOne(Next(Some(r), times[0], p), times[0], times[1..], p);
    }
  }

  lemma {:induction false} BlockedAcceptsTwo(r: Record, start: int, times: seq<int>, p: Policy)
    requires HalfWindowBlocks(p) && r.isBlocked && InSpan(times, start, r.blockExpiresAt + p.ttl)
    ensures Accepted(Some(r), times, p) <= 2
    decreases times
  {
    if times != [] {
      if times[0] < r.blockExpiresAt {
        BlockedAcceptsTwo(r, times[0], times[1..], p);
      } else {
        FullAcceptsOne(Next(Some(r), times[0], p), times[0], times[1..], p);
      }
    }
  }

  /** A full window up to and including its end. */
  lemma FullToItsEnd(r: Record, start: int, times: seq<int>, p: Policy)
    requires HalfWindowBlocks(p) && !r.isBlocked && r.totalHits == 2
    requires r.expiresAt <= start + p.ttl && InSpan(times, start, r.expiresAt + 1)
    ensures Accepted(Some(r), times, p) <= 2
  {
    if times != [] {
      var next, rest := Next(Some(r), times[0], p), times[1..];
      if times[0] < r.expiresAt {
        BlockedAcceptsTwo(next, times[0], rest, p);
      } else {
        AtOneMoment(next, times[0], rest, p);
      }
    }
  }

  /** A window just opened accepts one more request at the same moment. */
  lemma AtOneMoment(r: Record, t: int, times: seq<int>, p: Policy)
    requires HalfWindowBlocks(p) && !r.isBlocked && r.totalHits == 1 && t < r.expiresAt && InSpan(times, t, t + 1)
    ensures Accepted(Some(r), times, p) <= 1
  {
    if times != [] {
      FullAcceptsNone(Next(Some(r), times[0], p), t, times[1..], p);
    }
  }

  /** A window just opened, up to and including its end. */
  lemma FreshToItsEnd(r: Record, start: int, times: seq<int>, p: Policy)
    requires HalfWindowBlocks(p) && !r.isBlocked && r.totalHits == 1
    requires r.expiresAt == start + p.ttl && InSpan(times, start, r.expiresAt + 1)
    ensures Accepted(Some(r), times, p) <= 3
  {
    if times != [] {
      var next, rest := Next(Some(r), times[0], p), times[1..];
      if times[0] < r.expiresAt {
        FullToItsEnd(next, times[0], rest, p);
      } else {
        AtOneMoment(next, times[0], rest, p);
      }
    }
  }

  /** A full window that ends within the interval that began at `t`. */
  lemma FullAcrossItsEnd(r: Record, t: int, times: seq<int>, p: Policy)
    requires HalfWindowBlocks(p) && !r.isBlocked && r.totalHits == 2
    requires t < r.expiresAt && InSpan(times, t, t + p.ttl + 1)
    ensures Accepted(Some(r), times, p) <= 3
  {
    if times != [] {
      var next, rest := Next(Some(r), times[0], p), times[1..];
      if times[0] < r.expiresAt {
        BlockedAcceptsTwo(next, times[0], rest, p);
      } else if rest != [] {
        FullAcceptsOne(Next(Some(next), rest[0], p), rest[0], rest[1..], p);
      }
    }
  }

  lemma TwoInterval(stored: Option<Record>, last: int, span: seq<int>, p: Policy)
    requires HalfWindowBlocks(p) && Reachable(stored, last, p)
    requires span != [] && last <= span[0] && InSpan(span, span[0], span[0] + p.ttl + 1)
    ensures Accepted(stored, span, p) <= 4
  {
    var t, rest := span[0], span[1..];
    var next := Next(stored, t, p);
    if stored.Some? && stored.value.isBlocked {
      if t < stored.value.blockExpiresAt {
        BlockedAcceptsTwo(stored.value, t, span, p);
      } else {
        FullToItsEnd(next, t, rest, p);
      }
    } else if stored.Some? && t < stored.value.expiresAt {
      if stored.value.totalHits == 2 {
        FullAcrossItsEnd(stored.value, t, span, p);
      } else {
        FullAcrossItsEnd(next, t, rest, p);
      }
    } else {
      FreshToItsEnd(next, t, rest, p);
    }
  }

  // ---------- Limit two, shorter blocks ----------

  /** After the requests of the general counterexample: one that is blocked, and one at the end of that block. */
  lemma VeryShortBlockExceeds(p: Policy)
    requires Sensible(p) && p.limit == 2 && 0 <= 2 * p.blockDuration < p.ttl
    ensures !TwiceLimitHolds(p)
  {
    var b, e := p.ttl + p.blockDuration, p.ttl + 2 * p.blockDuration;
    var head, tail := Burst(p.ttl - 1, 1) + Burst(p.ttl, 2), [p.ttl, b, b, e];
    var times := [0] + (head + tail);
    var filled := ShortBlockPrefix(p);
    var started := Some(Next(None, 0, p));
    RunConcat(started, head, tail, p);
    VeryShortTail(p, tail);
    assert times[..1] == [0] && times[1..|times|] == head + tail;
    assert Run(None, [0], p) == started by { assert [0][1..] == []; }
    assert Sorted(times) && times[|times| - 1] - times[1] <= p.ttl;
  }

  lemma VeryShortTail(p: Policy, tail: seq<int>)
    requires Sensible(p) && p.limit == 2 && 0 <= 2 * p.blockDuration < p.ttl
    requires tail == [p.ttl, p.ttl + p.blockDuration, p.ttl + p.blockDuration, p.ttl + 2 * p.blockDuration]
    ensures Accepted(Some(Record(2, 2 * p.ttl, 0, false)), tail, p) == 2
  {
    var r1 := Next(Some(Record(2, 2 * p.ttl, 0, false)), tail[0], p);
    var r2 := Next(Some(r1), tail[1], p);
    var r3 := Next(Some(r2), tail[2], p);
    var r4 := Next(Some(r3), tail[3], p);
    assert r1.isBlocked && !r2.isBlocked && r3.isBlocked && !r4.isBlocked;
    assert tail[1..][1..] == tail[2..] && tail[2..][1..] == tail[3..] && tail[3..][1..] == [];
    assert Accepted(Some(r3), tail[3..], p) == 1 + Accepted(Some(r4), [], p);
    assert Accepted(Some(r2), tail[2..], p) == Accepted(Some(r3), tail[3..], p);
    assert Accepted(Some(r1), tail[1..], p) == 1 + Accepted(Some(r2), tail[2..], p);
  }

  // ---------- The condition ----------

  /** What an operator can check: the limit and the two durations. */
  predicate KeepsTwiceLimit(p: Policy) {
    p.limit == 1 || p.blockDuration >= p.ttl || (p.limit == 2 && 2 * p.blockDuration >= p.ttl)
  }

  lemma KeepsOneInterval(times: seq<int>, i: nat, j: nat, p: Policy)
    requires Sensible(p) && p.blockDuration >= 0 && KeepsTwiceLimit(p)
    requires Sorted(times) && i < j <= |times| && times[j - 1] - times[i] <= p.ttl
    ensures Accepted(Run(None, times[..i], p), times[i..j], p) <= 2 * p.limit
  {
    if p.blockDuration >= p.ttl {
      AtMostTwiceLimit(times, i, j, p);
    } else {
      var stored, last := Run(None, times[..i], p), if i == 0 then times[0] else times[i - 1];
      RunReachable(None, times[0], times[..i], p);
      var span := times[i..j];
      assert span[0] == times[i] && last <= span[0] && Reachable(stored, last, p);
      assert Sorted(span) && Until(span, span[0] + p.ttl + 1);
      if p.limit == 1 {
        OneInterval(stored, last, span, p);
      } else {
        TwoInterval(stored, last, span, p);
      }
    }
  }

  /**
   At most twice the limit in every interval of every trace: exactly for a limit of one, for blocks of at least
   a window, and for a limit of two with blocks of at least half a window.
   */
  lemma TwiceLimitIff(p: Policy)
    requires Sensible(p) && p.blockDuration >= 0
    ensures TwiceLimitHolds(p) <==> KeepsTwiceLimit(p)
  {
    if KeepsTwiceLimit(p) {
      forall times: seq<int>, i: nat, j: nat
        | Sorted(times) && i < j <= |times| && times[j - 1] - times[i] <= p.ttl
        ensures Accepted(Run(None, times[..i], p), times[i..j], p) <= 2 * p.limit
      {
        KeepsOneInterval(times, i, j, p);
      }
    } else if p.limit == 2 {
      VeryShortBlockExceeds(p);
    } else {
      ShortBlockExceeds(p);
      var times := ShortBlockTrace(p);
      assert times[1..|times|] == times[1..];
    }
  }
}
