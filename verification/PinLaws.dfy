/** Which keys `sim_static_pin` pins and what `count_keys` counts, in terms of counts and accesses. */
module PinLaws {
  import opened Base
  import opened StaticPin

  // ----- The pinned keys -----

  /** More frequent, or as frequent and smaller. */
  ghost predicate Outranks(counts: seq<int>, j: int, k: int) {
    0 <= j < |counts| && 0 <= k < |counts| && (counts[j] > counts[k] || (counts[j] == counts[k] && j < k))
  }

  ghost predicate IsRanking(counts: seq<int>, order: seq<int>) {
    forall i, j :: 0 <= i < j < |order| ==> Outranks(counts, order[i], order[j])
  }

  lemma {:induction false} InsertRanking(counts: seq<int>, order: seq<int>, k: int)
    requires 0 <= k < |counts| && IsRanking(counts, order) && forall i :: 0 <= i < |order| ==> 0 <= order[i] < k
    ensures IsRanking(counts, Insert(counts, order, k))
  {
    if order != [] {
      var head, rest := order[0], order[1..];
      if counts[head] >= counts[k] {
        InsertRanking(counts, rest, k);
        var ins := Insert(counts, rest, k);
        forall i | 0 <= i < |ins|
          ensures Outranks(counts, head, ins[i])
        {
          InsertMembers(counts, rest, k, ins[i]);
          HeadOutranks(counts, order, ins[i]);
        }
      } else {
        forall i | 0 <= i < |order|
          ensures Outranks(counts, k, order[i])
        {
          assert i > 0 ==> Outranks(counts, head, order[i]);
        }
      }
    }
  }

  lemma HeadOutranks(counts: seq<int>, order: seq<int>, x: int)
    requires order != [] && IsRanking(counts, order)
    ensures x in order[1..] ==> Outranks(counts, order[0], x)
  {
    if x in order[1..] {
      var i :| 0 <= i < |order[1..]| && order[1..][i] == x;
      assert order[i + 1] == x;
    }
  }

  /** The order lists keys most frequent first, and equally frequent ones by number. */
  lemma OrderIsRanking(counts: seq<int>, n: nat)
    requires n <= |counts|
    ensures IsRanking(counts, Order(counts, n))
  {
    for i := 0 to n
      invariant IsRanking(counts, Order(counts, i))
    {
      RankingStep(counts, i, i + 1);
    }
  }

  lemma RankingStep(counts: seq<int>, n: nat, m: nat)
    requires m == n + 1 <= |counts| && IsRanking(counts, Order(counts, n))
    ensures IsRanking(counts, Order(counts, m))
  {
    OrderSorts(counts, n);
    var order := Order(counts, n);
    forall i | 0 <= i < |order|
      ensures 0 <= order[i] < n
    {
      assert order[i] in order;
    }
    InsertRanking(counts, order, n);
  }

  lemma OutrankedBy(counts: seq<int>, order: seq<int>, p: nat)
    requires IsRanking(counts, order) && p < |order|
    requires forall k :: k in order <==> 0 <= k < |counts|
    ensures (set j | 0 <= j < |counts| && Outranks(counts, j, order[p])) == ToSet(order[..p])
  {
    forall j
      ensures 0 <= j < |counts| && Outranks(counts, j, order[p]) <==> j in order[..p]
    {
      if j in order[..p] {
        var i :| 0 <= i < p && order[i] == j;
        assert Outranks(counts, order[i], order[p]);
        assert j in order;
      } else if 0 <= j < |counts| {
        assert j in order;
        var i :| 0 <= i < |order| && order[i] == j;
        assert i >= p;
        assert i > p ==> Outranks(counts, order[p], order[i]);
      }
    }
  }

  /** A key is pinned exactly when fewer than `budget` keys outrank it. */
  lemma PinnedIff(counts: seq<int>, budget: nat, k: Key)
    ensures k in TopPins(counts, budget) <==>
            0 <= k < |counts| && |set j | 0 <= j < |counts| && Outranks(counts, j, k)| < budget
  {
    var order := Order(counts, |counts|);
    OrderSorts(counts, |counts|);
    OrderIsRanking(counts, |counts|);
    var b := Min(budget, |order|);
    if 0 <= k < |counts| {
      assert k in order;
      var p :| 0 <= p < |order| && order[p] == k;
      OutrankedBy(counts, order, p);
      DistinctPrefix(order, p);
      InPrefix(order, p, b);
    } else {
      forall i | 0 <= i < b
        ensures order[i] != k
      {
        assert order[i] in order;
      }
    }
  }

  lemma DistinctPrefix(order: seq<int>, p: nat)
    requires Distinct(order) && p <= |order|
    ensures |ToSet(order[..p])| == p
  {
    DistinctCard(order[..p]);
  }

  lemma InPrefix(order: seq<int>, p: nat, b: nat)
    requires Distinct(order) && p < |order| && b <= |order|
    ensures order[p] in order[..b] <==> p < b
  {
    if p < b {
      assert order[..b][p] == order[p];
    }
  }

  // ----- The counts -----

  lemma {:induction false} GroupCountIs(grp: seq<Key>, n: nat, k: Key)
    requires n <= |grp|
    ensures GroupCount(grp, n, k) == multiset(grp[..n])[k]
  {
    if n > 0 {
      GroupCountIs(grp, n - 1, k);
      assert grp[..n] == grp[..n - 1] + [grp[n - 1]];
      CountAppend(grp[..n - 1], [grp[n - 1]], k);
    }
  }

  /** The count of a key is the number of its accesses. */
  lemma {:induction false} KeyCountIs(trace: Trace, g: nat, k: Key)
    requires g <= |trace|
    ensures KeyCount(trace, g, k) == multiset(Flat(trace, g))[k]
  {
    if g > 0 {
      var grp := trace[g - 1];
      KeyCountIs(trace, g - 1, k);
      GroupCountIs(grp, |grp|, k);
      assert grp[..|grp|] == grp;
      CountAppend(Flat(trace, g - 1), grp, k);
    }
  }
}
