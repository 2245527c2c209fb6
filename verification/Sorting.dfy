/** The ordered queries and array sorts of the source, by a caller's comparison. */
module Sorting {
  ghost predicate TotalPreorder<T(!new)>(leq: (T, T) -> bool) {
    && (forall a, b :: leq(a, b) || leq(b, a))
    && (forall a, b, c :: leq(a, b) && leq(b, c) ==> leq(a, c))
  }

  ghost predicate SortedBy<T(!new)>(s: seq<T>, leq: (T, T) -> bool) {
    forall i, j | 0 <= i < j < |s| :: leq(s[i], s[j])
  }

  lemma InsertKeepsOrder<T(!new)>(r: seq<T>, i: nat, x: T, leq: (T, T) -> bool)
    requires SortedBy(r, leq) && i <= |r|
    requires forall j | 0 <= j < i :: leq(r[j], x)
    requires forall j | i <= j < |r| :: leq(x, r[j])
    ensures SortedBy(r[..i] + [x] + r[i..], leq)
  {
    var s := r[..i] + [x] + r[i..];
    forall a, b | 0 <= a < b < |s|
      ensures leq(s[a], s[b])
    {
      var before := if b < i then b else b - 1;
      assert b != i ==> s[b] == r[before];
      assert a < i ==> s[a] == r[a];
      assert a > i ==> s[a] == r[a - 1];
    }
  }

  /** Inserts after the elements that may stay before. */
  method Insert<T(!new)>(r: seq<T>, x: T, leq: (T, T) -> bool) returns (s: seq<T>)
    requires TotalPreorder(leq) && SortedBy(r, leq)
    ensures SortedBy(s, leq)
    ensures multiset(s) == multiset(r) + multiset{x}
  {
    var i := |r|;
    while i > 0 && !leq(r[i - 1], x)
      invariant 0 <= i <= |r|
      invariant forall j | i <= j < |r| :: leq(x, r[j])
    {
      i := i - 1;
    }
    BeforeIsBelow(r, i, x, leq);
    InsertKeepsOrder(r, i, x, leq);
    s := r[..i] + [x] + r[i..];
    assert r == r[..i] + r[i..];
  }

  lemma BeforeIsBelow<T(!new)>(r: seq<T>, i: nat, x: T, leq: (T, T) -> bool)
    requires TotalPreorder(leq) && SortedBy(r, leq) && i <= |r|
    requires i > 0 ==> leq(r[i - 1], x)
    ensures forall j | 0 <= j < i :: leq(r[j], x)
  {
    forall j | 0 <= j < i
      ensures leq(r[j], x)
    {
      assert j < i - 1 ==> leq(r[j], r[i - 1]);
    }
  }

  /** Insertion sort: the same elements, in order. */
  method Sort<T(!new)>(s: seq<T>, leq: (T, T) -> bool) returns (r: seq<T>)
    requires TotalPreorder(leq)
    ensures SortedBy(r, leq)
    ensures multiset(r) == multiset(s)
  {
    r := [];
    for n := 0 to |s|
      invariant SortedBy(r, leq)
      invariant multiset(r) == multiset(s[..n])
    {
      r := Insert(r, s[n], leq);
      assert s[..n + 1] == s[..n] + [s[n]];
    }
    assert s[..|s|] == s;
  }

  ghost predicate Distinct<T>(s: seq<T>) {
    forall i, j | 0 <= i < j < |s| :: s[i] != s[j]
  }

  lemma {:induction false} DistinctCounts<T>(s: seq<T>)
    requires Distinct(s)
    ensures forall x: T :: multiset(s)[x] <= 1
  {
    if s != [] {
      var last := |s| - 1;
      assert s == s[..last] + [s[last]];
      DistinctCounts(s[..last]);
      assert s[last] !in s[..last];
    }
  }

  lemma {:induction false} CountsDistinct<T>(s: seq<T>)
    requires forall x: T :: multiset(s)[x] <= 1
    ensures Distinct(s)
  {
    if s != [] {
      var last := |s| - 1;
      assert s == s[..last] + [s[last]];
      assert forall x: T :: multiset(s[..last])[x] <= multiset(s)[x];
      CountsDistinct(s[..last]);
      assert multiset(s)[s[last]] == multiset(s[..last])[s[last]] + 1;
      assert s[last] !in s[..last];
    }
  }

  /** A permutation of distinct elements has the same elements, still distinct. */
  lemma PermutationKeeps<T>(s: seq<T>, r: seq<T>)
    requires multiset(r) == multiset(s) && Distinct(s)
    ensures Distinct(r) && |r| == |s|
    ensures forall x: T :: x in r <==> x in s
  {
    forall x: T
      ensures x in r <==> x in s
    {
      assert x in r <==> x in multiset(r);
      assert x in s <==> x in multiset(s);
    }
    DistinctCounts(s);
    CountsDistinct(r);
    assert |multiset(r)| == |r| && |multiset(s)| == |s|;
  }
}
