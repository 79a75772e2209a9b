/** The two tiers by reuse distance: which accesses hit where, in terms of the accesses alone. */
module TierLaws {
  import opened Base
  import opened TierCache

  /** Fewer than `c` different keys were used since `k` was. */
  ghost predicate Within(hist: seq<Key>, k: Key, c: nat) {
    exists p :: 0 <= p < |hist| && hist[p] == k && k !in hist[p + 1..] && |ToSet(hist[p + 1..])| < c
  }

  // ----- The recency list -----

  lemma {:induction false} RemoveSet(s: seq<Key>, k: Key)
    ensures ToSet(Remove(s, k)) == ToSet(s) - {k}
  {
    forall x
      ensures x in Remove(s, k) <==> x in s && x != k
    {
      RemoveMembers(s, k, x);
    }
  }

  lemma MoveAround(a: seq<Key>, k: Key, b: seq<Key>, z: Key)
    requires k != z
    ensures MoveToEnd(a + [k] + b, z) == Remove(a, z) + [k] + (Remove(b, z) + [z])
  {
    RemoveAppend(a + [k], b, z);
    RemoveAppend(a, [k], z);
    RemoveAbsent([k], z);
  }

  lemma LastOfFront(hist: seq<Key>, k: Key, p: nat)
    requires p < |hist| - 1 && hist[p] == k && k !in hist[p + 1..]
    ensures var front := hist[..|hist| - 1];
            front[p] == k && k !in front[p + 1..] && hist[p + 1..] == front[p + 1..] + [hist[|hist| - 1]]
    ensures k != hist[|hist| - 1]
  {
    var front := hist[..|hist| - 1];
    assert hist[p + 1..] == front[p + 1..] + [hist[|hist| - 1]];
  }

  /** Behind a key in the recency list stand exactly the keys used since. */
  lemma {:induction false} RecentSplit(hist: seq<Key>, k: Key, p: nat) returns (a: seq<Key>, b: seq<Key>)
    requires p < |hist| && hist[p] == k && k !in hist[p + 1..]
    ensures Recent(hist) == a + [k] + b && ToSet(b) == ToSet(hist[p + 1..])
  {
    var front, z := hist[..|hist| - 1], hist[|hist| - 1];
    if p == |hist| - 1 {
      a, b := Remove(Recent(front), k), [];
      assert hist[p + 1..] == [];
    } else {
      LastOfFront(hist, k, p);
      a, b := RecentSplit(front, k, p);
      MoveAround(a, k, b, z);
      RemoveSet(b, z);
      ToSetAppend(Remove(b, z), [z]);
      ToSetAppend(front[p + 1..], [z]);
      a, b := Remove(a, z), Remove(b, z) + [z];
    }
  }

  lemma DistinctParts(a: seq<Key>, k: Key, b: seq<Key>)
    requires Distinct(a + [k] + b)
    ensures Distinct(b) && k !in a && k !in b
  {
    var s := a + [k] + b;
    forall i, j | 0 <= i < j < |b|
      ensures b[i] != b[j]
    {
      assert s[|a| + 1 + i] == b[i] && s[|a| + 1 + j] == b[j];
    }
    assert s[|a|] == k;
    assert forall i :: 0 <= i < |a| ==> s[i] == a[i];
    assert forall i :: 0 <= i < |b| ==> s[|a| + 1 + i] == b[i];
  }

  lemma TrimSplit(a: seq<Key>, k: Key, b: seq<Key>, c: nat)
    requires k !in a && k !in b
    ensures k in Trim(a + [k] + b, c) <==> |b| < c
  {
    var s := a + [k] + b;
    assert s[|a|] == k;
    if |s| > c {
      var t := s[|s| - c..];
      if |b| < c {
        assert t[c - 1 - |b|] == k;
      } else {
        assert t == b[|b| - c..];
      }
    }
  }

  lemma LruAt(hist: seq<Key>, c: nat, k: Key, p: nat)
    requires p < |hist| && hist[p] == k && k !in hist[p + 1..]
    ensures k in Lru(hist, c) <==> |ToSet(hist[p + 1..])| < c
  {
    var a, b := RecentSplit(hist, k, p);
    RecentMeaning(hist);
    DistinctParts(a, k, b);
    DistinctCard(b);
    LruIsWindow(hist, c);
    TrimSplit(a, k, b, c);
  }

  /** A key is in an lru list of `c` exactly when fewer than `c` others were used since. */
  lemma LruIff(hist: seq<Key>, c: nat, k: Key)
    ensures k in Lru(hist, c) <==> Within(hist, k, c)
  {
    if k in Lru(hist, c) {
      ResidentWasSeen(hist, c, k);
      var p := LastPosition(hist, k);
      LruAt(hist, c, k, p);
    }
    forall p | 0 <= p < |hist| && hist[p] == k && k !in hist[p + 1..] && |ToSet(hist[p + 1..])| < c
      ensures k in Lru(hist, c)
    {
      LruAt(hist, c, k, p);
    }
  }

  // ----- The counters -----

  /** Access `i` finds its key within `c`. */
  ghost predicate HitAt(hist: seq<Key>, c: nat, i: int) {
    0 <= i < |hist| && Within(hist[..i], hist[i], c)
  }

  /** Access `i` is not the first to its key. */
  ghost predicate SeenAt(hist: seq<Key>, i: int) {
    0 <= i < |hist| && hist[i] in hist[..i]
  }

  /** The accesses among the first `n` that find their key within `c`. */
  ghost predicate AreHits(hist: seq<Key>, c: nat, n: nat, hits: set<int>) {
    forall i :: i in hits <==> 0 <= i < n && HitAt(hist, c, i)
  }

  /** The accesses among the first `n` to keys not used before. */
  ghost predicate AreFirsts(hist: seq<Key>, n: nat, firsts: set<int>) {
    forall i :: i in firsts <==> 0 <= i < n && !SeenAt(hist, i)
  }

  lemma HitsStepAt(hist: seq<Key>, n: nat, m: nat, c: nat)
    requires m == n + 1 <= |hist|
    ensures Hits(hist[..m], c) == Hits(hist[..n], c) + if HitAt(hist, c, n) then 1 else 0
  {
    assert hist[..m] == hist[..n] + [hist[n]];
    HitsStep(hist[..n], hist[n], c);
    LruIff(hist[..n], c, hist[n]);
  }

  lemma HitsAreCounted(hist: seq<Key>, c: nat) returns (hits: set<int>)
    ensures AreHits(hist, c, |hist|, hits) && Hits(hist, c) == |hits|
  {
    hits := {};
    for n := 0 to |hist|
      invariant AreHits(hist, c, n, hits) && Hits(hist[..n], c) == |hits|
    {
      HitsStepAt(hist, n, n + 1, c);
      hits := if HitAt(hist, c, n) then hits + {n} else hits;
    }
    assert hist[..|hist|] == hist;
  }

  lemma FirstsStepAt(hist: seq<Key>, n: nat, m: nat)
    requires m == n + 1 <= |hist|
    ensures |ToSet(hist[..m])| == |ToSet(hist[..n])| + if SeenAt(hist, n) then 0 else 1
  {
    assert hist[..m] == hist[..n] + [hist[n]];
    SeenStep(hist[..n], hist[n]);
  }

  lemma FirstsAreCounted(hist: seq<Key>) returns (firsts: set<int>)
    ensures AreFirsts(hist, |hist|, firsts) && |ToSet(hist)| == |firsts|
  {
    firsts := {};
    assert ToSet(hist[..0]) == {};
    for n := 0 to |hist|
      invariant AreFirsts(hist, n, firsts) && |ToSet(hist[..n])| == |firsts|
    {
      FirstsStepAt(hist, n, n + 1);
      firsts := if SeenAt(hist, n) then firsts else firsts + {n};
    }
    assert hist[..|hist|] == hist;
  }

  lemma HitWasSeen(hist: seq<Key>, c: nat, i: int)
    requires HitAt(hist, c, i)
    ensures SeenAt(hist, i)
  {
    var p :| 0 <= p < i && hist[..i][p] == hist[i];
    assert hist[..i][p] in hist[..i];
  }

  lemma WiderHits(hist: seq<Key>, c: nat, c': nat, i: int)
    requires c <= c' && HitAt(hist, c, i)
    ensures HitAt(hist, c', i)
  {
  }

  lemma Nested(hist: seq<Key>, bv: nat, c: nat, near: set<int>, far: set<int>, firsts: set<int>)
    requires bv <= c && AreHits(hist, bv, |hist|, near) && AreHits(hist, c, |hist|, far)
    requires AreFirsts(hist, |hist|, firsts)
    ensures near <= far && far !! firsts && far + firsts <= Indices(|hist|)
  {
    forall i | i in near
      ensures i in far
    {
      WiderHits(hist, bv, c, i);
    }
    forall i | i in far
      ensures i !in firsts
    {
      HitWasSeen(hist, c, i);
    }
  }

  lemma Partition(n: nat, near: set<int>, far: set<int>, firsts: set<int>)
    requires near <= far && far !! firsts && far + firsts <= Indices(n)
    ensures |far - near| == |far| - |near| && |Indices(n) - far - firsts| == n - |far| - |firsts|
  {
    assert far == near + (far - near);
    assert Indices(n) == (far + firsts) + (Indices(n) - far - firsts);
  }

  lemma CountersAre(t: Tiers, hist: seq<Key>, bv: nat, bd: nat, c: nat, near: set<int>, far: set<int>, firsts: set<int>)
    requires CountersExplained(t, hist, bv, bd) && c == bv + bd
    requires Hits(hist, bv) == |near| && Hits(hist, c) == |far| && |ToSet(hist)| == |firsts|
    ensures t.vramHits == |near| && t.dramHits == |far| - |near| && t.compulsory == |firsts|
    ensures t.capacity == |hist| - |far| - |firsts|
  {
  }

  /** By reuse distance: VRAM hits are the accesses with fewer than `bv` different keys since the last
      one to the same key, DRAM hits those with fewer than `bv + bd` that are not VRAM hits, capacity
      misses the other repeated accesses, and compulsory misses the first ones. */
  lemma DistanceLaw(t: Tiers, hist: seq<Key>, bv: nat, bd: nat, c: nat)
    returns (near: set<int>, far: set<int>, firsts: set<int>)
    requires Explained(t, hist, bv, bd) && c == bv + bd
    ensures AreHits(hist, bv, |hist|, near) && AreHits(hist, c, |hist|, far) && AreFirsts(hist, |hist|, firsts)
    ensures t.vramHits == |near| && t.dramHits == |far - near| && t.compulsory == |firsts|
    ensures t.capacity == |Indices(|hist|) - far - firsts|
  {
    near := HitsAreCounted(hist, bv);
    far := HitsAreCounted(hist, c);
    firsts := FirstsAreCounted(hist);
    Nested(hist, bv, c, near, far, firsts);
    Partition(|hist|, near, far, firsts);
    CountersAre(t, hist, bv, bd, c, near, far, firsts);
  }
}
