/** `sim_tiers`: an exclusive VRAM/DRAM pair of lru lists with cascaded eviction. Together the two
    tiers are one plain lru list of the combined capacity. */
module TierCache {
  import opened Base

  // ----- Ordered dictionaries as sequences, least recently used first -----

  function Remove(s: seq<Key>, k: Key): seq<Key> {
    if s == [] then []
    else if s[0] == k then Remove(s[1..], k)
    else [s[0]] + Remove(s[1..], k)
  }

  /** Insert or refresh `k` at the recent end. */
  function MoveToEnd(s: seq<Key>, k: Key): seq<Key> {
    Remove(s, k) + [k]
  }

  /** The most recent `c` entries. */
  function Trim(s: seq<Key>, c: nat): seq<Key> {
    if |s| <= c then s else s[|s| - c..]
  }

  lemma {:induction false} RemoveAppend(a: seq<Key>, b: seq<Key>, k: Key)
    ensures Remove(a + b, k) == Remove(a, k) + Remove(b, k)
  {
    if a == [] {
      assert a + b == b;
    } else {
      assert (a + b)[1..] == a[1..] + b;
      RemoveAppend(a[1..], b, k);
    }
  }

  lemma {:induction false} RemoveMembers(s: seq<Key>, k: Key, x: Key)
    ensures x in Remove(s, k) <==> x in s && x != k
  {
    if s != [] {
      RemoveMembers(s[1..], k, x);
      assert s == [s[0]] + s[1..];
    }
  }

  lemma {:induction false} RemoveAbsent(s: seq<Key>, k: Key)
    requires k !in s
    ensures Remove(s, k) == s
  {
    if s != [] {
      RemoveAbsent(s[1..], k);
    }
  }

  lemma {:induction false} RemoveDistinct(s: seq<Key>, k: Key)
    requires Distinct(s)
    ensures Distinct(Remove(s, k)) && |Remove(s, k)| == |s| - if k in s then 1 else 0
  {
    if s != [] {
      assert s == [s[0]] + s[1..];
      if s[0] == k {
        RemoveAbsent(s[1..], k);
      } else {
        RemoveDistinct(s[1..], k);
        RemoveMembers(s[1..], k, s[0]);
      }
    }
  }

  lemma MoveToEndDistinct(s: seq<Key>, k: Key)
    requires Distinct(s)
    ensures Distinct(MoveToEnd(s, k)) && |MoveToEnd(s, k)| == |s| + if k in s then 0 else 1
  {
    RemoveDistinct(s, k);
    RemoveMembers(s, k, k);
  }

  lemma TrimAppend(a: seq<Key>, b: seq<Key>, c: nat)
    requires |b| >= c
    ensures Trim(a + b, c) == Trim(b, c)
  {
  }

  // ----- Plain lru, and the list it is a window of -----

  /** A plain lru list of capacity `c` after the accesses `hist`. */
  ghost function Lru(hist: seq<Key>, c: nat): seq<Key> {
    if hist == [] then [] else Trim(MoveToEnd(Lru(hist[..|hist| - 1], c), hist[|hist| - 1]), c)
  }

  /** Every key accessed so far, ordered by last access. */
  ghost function Recent(hist: seq<Key>): seq<Key> {
    if hist == [] then [] else MoveToEnd(Recent(hist[..|hist| - 1]), hist[|hist| - 1])
  }

  lemma {:induction false} RecentMeaning(hist: seq<Key>)
    ensures Distinct(Recent(hist)) && ToSet(Recent(hist)) == ToSet(hist)
  {
    if hist != [] {
      var front, k := hist[..|hist| - 1], hist[|hist| - 1];
      RecentMeaning(front);
      MoveToEndDistinct(Recent(front), k);
      assert hist == front + [k];
      forall x
        ensures x in Recent(hist) <==> x in hist
      {
        RemoveMembers(Recent(front), k, x);
        assert x in ToSet(Recent(front)) <==> x in ToSet(front);
      }
    }
  }

  lemma TrimCommutes(r: seq<Key>, k: Key, c: nat)
    requires Distinct(r)
    ensures Trim(MoveToEnd(r, k), c) == Trim(MoveToEnd(Trim(r, c), k), c)
  {
    if |r| > c {
      var p, s := r[..|r| - c], Trim(r, c);
      assert r == p + s;
      RemoveAppend(p, s, k);
      assert MoveToEnd(r, k) == Remove(p, k) + MoveToEnd(s, k);
      RemoveDistinct(s, k);
      TrimAppend(Remove(p, k), MoveToEnd(s, k), c);
    }
  }

  /** The stack property: an lru list is the recent end of one capacity-free list. */
  lemma {:induction false} LruIsWindow(hist: seq<Key>, c: nat)
    ensures Lru(hist, c) == Trim(Recent(hist), c)
  {
    if hist != [] {
      var front := hist[..|hist| - 1];
      LruIsWindow(front, c);
      RecentMeaning(front);
      TrimCommutes(Recent(front), hist[|hist| - 1], c);
    }
  }

  /** Accesses that find their key in a plain lru list of capacity `c`. */
  ghost function Hits(hist: seq<Key>, c: nat): int {
    if hist == [] then 0
    else Hits(hist[..|hist| - 1], c) + if hist[|hist| - 1] in Lru(hist[..|hist| - 1], c) then 1 else 0
  }

  // ----- The tiers -----

  datatype Tiers = Tiers(
    vram: seq<Key>,
    dram: seq<Key>,
    seen: set<Key>,
    vramHits: int,
    dramHits: int,
    compulsory: int,
    capacity: int)

  /** Both lists are plain lru lists... */
  ghost predicate ListsExplained(v: seq<Key>, d: seq<Key>, hist: seq<Key>, bv: nat, bd: nat) {
    v == Lru(hist, bv) && d + v == Lru(hist, bv + bd)
  }

  /** ...and the counters are theirs. */
  ghost predicate CountersExplained(t: Tiers, hist: seq<Key>, bv: nat, bd: nat) {
    && t.seen == ToSet(hist)
    && t.vramHits == Hits(hist, bv)
    && t.dramHits == Hits(hist, bv + bd) - Hits(hist, bv)
    && t.compulsory == |ToSet(hist)|
    && t.capacity == |hist| - Hits(hist, bv + bd) - |ToSet(hist)|
  }

  ghost predicate Explained(t: Tiers, hist: seq<Key>, bv: nat, bd: nat) {
    ListsExplained(t.vram, t.dram, hist, bv, bd) && CountersExplained(t, hist, bv, bd)
  }

  ghost predicate Shape(v: seq<Key>, d: seq<Key>, bv: nat, bd: nat) {
    && Distinct(d + v)
    && |v| <= bv && |d| <= bd
    && (|v| < bv ==> d == [])
  }

  lemma ExplainedShape(v: seq<Key>, d: seq<Key>, hist: seq<Key>, bv: nat, bd: nat)
    requires ListsExplained(v, d, hist, bv, bd)
    ensures Shape(v, d, bv, bd)
  {
    LruIsWindow(hist, bv);
    LruIsWindow(hist, bv + bd);
    RecentMeaning(hist);
    var r := Recent(hist);
    TrimDistinct(r, bv + bd);
    if |r| <= bv {
      assert d + v == v;
      assert |d| == 0;
    }
  }

  lemma TrimDistinct(s: seq<Key>, c: nat)
    requires Distinct(s)
    ensures Distinct(Trim(s, c)) && |Trim(s, c)| == Min(|s|, c)
  {
  }

  /** One cascade: VRAM overflow moves to DRAM, DRAM overflow is dropped. */
  function Spill(v: seq<Key>, d: seq<Key>, bv: nat, bd: nat): seq<Key> {
    Trim(if bd > 0 then d + v[..|v| - |Trim(v, bv)|] else d, bd)
  }

  lemma HitCascade(v: seq<Key>, d: seq<Key>, bv: nat, bd: nat, k: Key)
    requires Shape(v, d, bv, bd) && k in v
    ensures Trim(MoveToEnd(v, k), bv) == MoveToEnd(v, k)
    ensures Spill(MoveToEnd(v, k), d, bv, bd) + MoveToEnd(v, k) == Trim(MoveToEnd(d + v, k), bv + bd)
  {
    RemoveAppend(d, v, k);
    DisjointTiers(v, d);
    RemoveAbsent(d, k);
    SuffixDistinct(d, v);
    MoveToEndDistinct(v, k);
    var w := MoveToEnd(v, k);
    assert w[..|w| - |Trim(w, bv)|] == [];
    assert d + [] == d;
    assert MoveToEnd(d + v, k) == d + w;
  }

  lemma DisjointTiers(v: seq<Key>, d: seq<Key>)
    requires Distinct(d + v)
    ensures forall k :: k in v ==> k !in d
  {
    forall k | k in v
      ensures k !in d
    {
      var i :| 0 <= i < |v| && v[i] == k;
      assert (d + v)[|d| + i] == k;
      assert forall j :: 0 <= j < |d| ==> (d + v)[j] == d[j];
    }
  }

  lemma SuffixDistinct(d: seq<Key>, v: seq<Key>)
    requires Distinct(d + v)
    ensures Distinct(v) && Distinct(d)
  {
    forall i, j | 0 <= i < j < |v|
      ensures v[i] != v[j]
    {
      assert (d + v)[|d| + i] == v[i] && (d + v)[|d| + j] == v[j];
    }
    forall i, j | 0 <= i < j < |d|
      ensures d[i] != d[j]
    {
      assert (d + v)[i] == d[i] && (d + v)[j] == d[j];
    }
  }

  /** Both a DRAM hit and a miss put `k` behind VRAM and spill the front. */
  lemma MissCascade(v: seq<Key>, d: seq<Key>, bv: nat, bd: nat, k: Key)
    requires Shape(v, d, bv, bd) && k !in v
    ensures Spill(v + [k], Remove(d, k), bv, bd) + Trim(v + [k], bv) == Trim(MoveToEnd(d + v, k), bv + bd)
  {
    RemoveAppend(d, v, k);
    RemoveAbsent(v, k);
    SuffixDistinct(d, v);
    RemoveDistinct(d, k);
    var d', w := Remove(d, k), v + [k];
    assert MoveToEnd(d + v, k) == d' + w;
    SpillIsTrim(w, d', bv, bd);
  }

  lemma SpillIsTrim(w: seq<Key>, d: seq<Key>, bv: nat, bd: nat)
    requires |d| <= bd && (|w| < bv ==> d == []) && |w| <= bv + 1
    requires |w| == bv ==> d == []
    ensures Spill(w, d, bv, bd) + Trim(w, bv) == Trim(d + w, bv + bd)
  {
    if |w| <= bv {
      assert d == [] && d + w == w && w[..0] == [];
    } else {
      var rest := w[1..];
      assert Trim(w, bv) == rest && w[..|w| - |rest|] == [w[0]];
      TrimFront(d + [w[0]], rest, bd);
      assert d + w == (d + [w[0]]) + rest;
    }
  }

  lemma TrimFront(e: seq<Key>, rest: seq<Key>, c: nat)
    ensures Trim(e, c) + rest == Trim(e + rest, |rest| + c)
  {
  }

  // ----- One access -----

  lemma HitsStep(hist: seq<Key>, k: Key, c: nat)
    ensures Lru(hist + [k], c) == Trim(MoveToEnd(Lru(hist, c), k), c)
    ensures Hits(hist + [k], c) == Hits(hist, c) + if k in Lru(hist, c) then 1 else 0
  {
    assert (hist + [k])[..|hist|] == hist;
  }

  lemma SeenStep(hist: seq<Key>, k: Key)
    ensures ToSet(hist + [k]) == ToSet(hist) + {k}
    ensures |ToSet(hist + [k])| == |ToSet(hist)| + if k in hist then 0 else 1
  {
    ToSetAppend(hist, [k]);
    assert ToSet([k]) == {k};
    if k in hist {
      assert ToSet(hist) + {k} == ToSet(hist);
    }
  }

  /** A key in either tier has been seen. */
  lemma ResidentWasSeen(hist: seq<Key>, c: nat, k: Key)
    requires k in Lru(hist, c)
    ensures k in hist
  {
    LruIsWindow(hist, c);
    RecentMeaning(hist);
    assert k in ToSet(Recent(hist));
  }

  /** The two cascade loops. */
  method Cascade(v: seq<Key>, d: seq<Key>, bv: nat, bd: nat) returns (vram: seq<Key>, dram: seq<Key>)
    requires Distinct(d + v)
    ensures vram == Trim(v, bv) && dram == Spill(v, d, bv, bd)
  {
    vram, dram := v, d;
    ghost var n := 0;
    while |vram| > bv
      invariant n <= |v| && vram == v[n..] && (n > 0 ==> |vram| >= bv)
      invariant dram == if bd > 0 then d + v[..n] else d
    {
      var ek := vram[0];
      vram := vram[1..];
      if bd > 0 {
        FreshKey(v, d, n);
        RemoveAbsent(dram, ek);
        dram := MoveToEnd(dram, ek);
        assert v[..n + 1] == v[..n] + [ek];
      }
      n := n + 1;
    }
    dram := DropOldest(dram, bd);
  }

  method DropOldest(full: seq<Key>, bd: nat) returns (dram: seq<Key>)
    ensures dram == Trim(full, bd)
  {
    dram := full;
    ghost var m := 0;
    while |dram| > bd
      invariant m <= |full| && dram == full[m..] && (m > 0 ==> |dram| >= bd)
    {
      dram := dram[1..];
      m := m + 1;
    }
  }

  lemma FreshKey(v: seq<Key>, d: seq<Key>, n: nat)
    requires Distinct(d + v) && n < |v|
    ensures v[n] !in d + v[..n]
  {
    forall i | 0 <= i < |d + v[..n]|
      ensures (d + v[..n])[i] != v[n]
    {
      assert (d + v)[i] == (d + v[..n])[i];
      assert (d + v)[|d| + n] == v[n];
    }
  }

  /** Where an access puts `k` before the cascade. */
  function RoutedVram(v: seq<Key>, k: Key): seq<Key> {
    if k in v then MoveToEnd(v, k) else v + [k]
  }

  function RoutedDram(v: seq<Key>, d: seq<Key>, k: Key): seq<Key> {
    if k in v then d else Remove(d, k)
  }

  lemma RoutedIsLru(v: seq<Key>, d: seq<Key>, hist: seq<Key>, bv: nat, bd: nat, k: Key)
    requires ListsExplained(v, d, hist, bv, bd)
    ensures var v', d' := RoutedVram(v, k), RoutedDram(v, d, k);
            Distinct(d' + v') && ListsExplained(Trim(v', bv), Spill(v', d', bv, bd), hist + [k], bv, bd)
  {
    ExplainedShape(v, d, hist, bv, bd);
    HitsStep(hist, k, bv);
    HitsStep(hist, k, bv + bd);
    CascadeIsLru(v, d, bv, bd, k);
  }

  lemma CascadeIsLru(v: seq<Key>, d: seq<Key>, bv: nat, bd: nat, k: Key)
    requires Shape(v, d, bv, bd)
    ensures var v', d' := RoutedVram(v, k), RoutedDram(v, d, k);
            && Distinct(d' + v')
            && Trim(v', bv) == Trim(MoveToEnd(v, k), bv)
            && Spill(v', d', bv, bd) + Trim(v', bv) == Trim(MoveToEnd(d + v, k), bv + bd)
  {
    if k in v {
      HitCascade(v, d, bv, bd, k);
      HitDistinct(v, d, k);
    } else {
      MissCascade(v, d, bv, bd, k);
      RemoveAbsent(v, k);
      MissDistinct(v, d, k);
    }
  }

  ghost function Counted(t: Tiers, k: Key): Tiers {
    if k in t.vram then t.(vramHits := t.vramHits + 1)
    else if k in t.dram then t.(dramHits := t.dramHits + 1)
    else if k in t.seen then t.(capacity := t.capacity + 1)
    else t.(compulsory := t.compulsory + 1, seen := t.seen + {k})
  }

  lemma TierMembership(t: Tiers, hist: seq<Key>, bv: nat, bd: nat, k: Key)
    requires Explained(t, hist, bv, bd)
    ensures k in Lru(hist, bv) <==> k in t.vram
    ensures k in Lru(hist, bv + bd) <==> k in t.dram || k in t.vram
    ensures k in Lru(hist, bv + bd) ==> k in hist
    ensures k in t.seen <==> k in hist
  {
    assert k in t.dram + t.vram <==> k in t.dram || k in t.vram;
    if k in Lru(hist, bv + bd) {
      ResidentWasSeen(hist, bv + bd, k);
    }
  }

  lemma CountedIsLru(t: Tiers, hist: seq<Key>, bv: nat, bd: nat, k: Key)
    requires Explained(t, hist, bv, bd)
    ensures CountersExplained(Counted(t, k), hist + [k], bv, bd)
  {
    TierMembership(t, hist, bv, bd, k);
    HitsStep(hist, k, bv);
    HitsStep(hist, k, bv + bd);
    SeenStep(hist, k);
    assert |hist + [k]| == |hist| + 1;
  }

  method Access(t: Tiers, k: Key, bv: nat, bd: nat, ghost hist: seq<Key>) returns (t': Tiers)
    requires Explained(t, hist, bv, bd)
    ensures Explained(t', hist + [k], bv, bd)
  {
    var vram, dram, seen := t.vram, t.dram, t.seen;
    var vramHits, dramHits, compulsory, capacity := t.vramHits, t.dramHits, t.compulsory, t.capacity;
    RoutedIsLru(vram, dram, hist, bv, bd, k);
    CountedIsLru(t, hist, bv, bd, k);
    if k in vram {
      vram := MoveToEnd(vram, k);
      vramHits := vramHits + 1;
    } else if k in dram {
      dramHits := dramHits + 1;
      dram := Remove(dram, k);
      vram := vram + [k];
    } else {
      if k in seen {
        capacity := capacity + 1;
      } else {
        compulsory := compulsory + 1;
        seen := seen + {k};
      }
      RemoveAbsent(dram, k);
      vram := vram + [k];
    }
    vram, dram := Cascade(vram, dram, bv, bd);
    t' := Tiers(vram, dram, seen, vramHits, dramHits, compulsory, capacity);
  }

  lemma HitDistinct(v: seq<Key>, d: seq<Key>, k: Key)
    requires Distinct(d + v) && k in v
    ensures Distinct(d + MoveToEnd(v, k))
  {
    RemoveAppend(d, v, k);
    DisjointTiers(v, d);
    RemoveAbsent(d, k);
    MoveToEndDistinct(d + v, k);
    assert d + MoveToEnd(v, k) == MoveToEnd(d + v, k);
  }

  lemma MissDistinct(v: seq<Key>, d: seq<Key>, k: Key)
    requires Distinct(d + v) && k !in v
    ensures Distinct(Remove(d, k) + (v + [k]))
  {
    RemoveAppend(d, v, k);
    RemoveAbsent(v, k);
    MoveToEndDistinct(d + v, k);
    assert Remove(d, k) + (v + [k]) == MoveToEnd(d + v, k);
  }

  // ----- Whole runs -----

  ghost function Extend(hist: seq<Key>, grp: seq<Key>, n: nat): seq<Key>
    requires n <= |grp|
  {
    if n == 0 then hist else Extend(hist, grp, n - 1) + [grp[n - 1]]
  }

  lemma {:induction false} ExtendIsAppend(hist: seq<Key>, grp: seq<Key>, n: nat)
    requires n <= |grp|
    ensures Extend(hist, grp, n) == hist + grp[..n]
  {
    if n > 0 {
      ExtendIsAppend(hist, grp, n - 1);
      assert grp[..n] == grp[..n - 1] + [grp[n - 1]];
    }
  }

  method AccessGroup(t: Tiers, grp: seq<Key>, bv: nat, bd: nat, ghost hist: seq<Key>) returns (t': Tiers)
    requires Explained(t, hist, bv, bd)
    ensures Explained(t', hist + grp, bv, bd)
  {
    t' := t;
    for i := 0 to |grp|
      invariant Explained(t', Extend(hist, grp, i), bv, bd)
    {
      t' := Access(t', grp[i], bv, bd, Extend(hist, grp, i));
    }
    ExtendIsAppend(hist, grp, |grp|);
    assert grp[..|grp|] == grp;
  }

  /** `sim_tiers`, for every trace and all capacities. */
  method SimTiers(trace: Trace, bv: nat, bd: nat) returns (t: Tiers)
    ensures Explained(t, Flat(trace, |trace|), bv, bd)
  {
    t := Tiers([], [], {}, 0, 0, 0, 0);
    for g := 0 to |trace|
      invariant Explained(t, Flat(trace, g), bv, bd)
    {
      t := AccessGroup(t, trace[g], bv, bd, Flat(trace, g));
    }
  }

  lemma {:induction false} HitsGrow(hist: seq<Key>, c: nat, c': nat)
    requires c <= c'
    ensures Hits(hist, c) <= Hits(hist, c')
  {
    if hist != [] {
      var front := hist[..|hist| - 1];
      HitsGrow(front, c, c');
      LruIsWindow(front, c);
      LruIsWindow(front, c');
      assert forall k :: k in Trim(Recent(front), c) ==> k in Trim(Recent(front), c');
    }
  }

  lemma {:induction false} HitsBound(hist: seq<Key>, c: nat)
    ensures Hits(hist, c) <= |hist| - |ToSet(hist)|
    ensures c >= |ToSet(hist)| ==> Hits(hist, c) == |hist| - |ToSet(hist)|
  {
    if hist != [] {
      var front, k := hist[..|hist| - 1], hist[|hist| - 1];
      assert hist == front + [k];
      SeenStep(front, k);
      HitsBound(front, c);
      LruIsWindow(front, c);
      RecentMeaning(front);
      if k in Lru(front, c) {
        ResidentWasSeen(front, c, k);
      } else if c >= |ToSet(hist)| {
        RecentLength(front);
        assert k in front ==> k in ToSet(Recent(front));
      }
    }
  }

  lemma RecentLength(hist: seq<Key>)
    ensures |Recent(hist)| == |ToSet(hist)|
  {
    RecentMeaning(hist);
    DistinctCard(Recent(hist));
  }

  /** The four counters account for every access, first touches for every distinct key. */
  lemma TierConservation(hist: seq<Key>, bv: nat, bd: nat, t: Tiers)
    requires Explained(t, hist, bv, bd)
    ensures t.vramHits + t.dramHits + t.compulsory + t.capacity == |hist|
    ensures t.compulsory == |ToSet(hist)|
    ensures t.dramHits >= 0 && t.capacity >= 0
  {
    HitsGrow(hist, bv, bv + bd);
    HitsBound(hist, bv + bd);
  }

  /** VRAM behaves as if DRAM were not there, and a larger VRAM never hits less. */
  lemma VramIgnoresDram(hist: seq<Key>, bv: nat, bd: nat, t: Tiers, bv': nat, bd': nat, t': Tiers)
    requires Explained(t, hist, bv, bd) && Explained(t', hist, bv', bd') && bv <= bv'
    ensures t.vramHits <= t'.vramHits
    ensures bv == bv' ==> t.vramHits == t'.vramHits && t.vram == t'.vram
  {
    HitsGrow(hist, bv, bv');
  }

  /** Avoidable SSD traffic depends on the combined capacity alone, never grows with it, and is
      gone once every distinct key fits. */
  lemma SsdSeesOneCache(hist: seq<Key>, bv: nat, bd: nat, t: Tiers, bv': nat, bd': nat, t': Tiers)
    requires Explained(t, hist, bv, bd) && Explained(t', hist, bv', bd') && bv + bd <= bv' + bd'
    ensures t.capacity >= t'.capacity
    ensures bv + bd == bv' + bd' ==> t.capacity == t'.capacity && t.dram + t.vram == t'.dram + t'.vram
    ensures bv + bd >= |ToSet(hist)| ==> t.capacity == 0
  {
    ActsAsOne(hist, bv, bd, bv + bd, t);
    ActsAsOne(hist, bv', bd', bv' + bd', t');
    LargerIsNoWorse(hist, bv + bd, t, bv' + bd', t');
  }

  /** The tiers hold the list of one lru cache and count its misses. */
  ghost predicate IsOneCache(t: Tiers, hist: seq<Key>, c: nat) {
    t.dram + t.vram == Lru(hist, c) && t.capacity == Misses(hist, c)
  }

  lemma LargerIsNoWorse(hist: seq<Key>, c: nat, t: Tiers, c': nat, t': Tiers)
    requires IsOneCache(t, hist, c) && IsOneCache(t', hist, c') && c <= c'
    ensures t.capacity >= t'.capacity
    ensures c == c' ==> t.capacity == t'.capacity && t.dram + t.vram == t'.dram + t'.vram
    ensures c >= |ToSet(hist)| ==> t.capacity == 0
  {
    LargerMissesLess(hist, c, c');
  }

  lemma ActsAsOne(hist: seq<Key>, bv: nat, bd: nat, c: nat, t: Tiers)
    requires Explained(t, hist, bv, bd) && c == bv + bd
    ensures IsOneCache(t, hist, c)
  {
    OneList(hist, bv, bd, c, t);
    AvoidableMisses(hist, bv, bd, c, t);
  }

  lemma OneList(hist: seq<Key>, bv: nat, bd: nat, c: nat, t: Tiers)
    requires ListsExplained(t.vram, t.dram, hist, bv, bd) && c == bv + bd
    ensures t.dram + t.vram == Lru(hist, c)
  {
  }

  /** Misses of a plain lru list other than first touches. */
  ghost function Misses(hist: seq<Key>, c: nat): int {
    |hist| - Hits(hist, c) - |ToSet(hist)|
  }

  lemma AvoidableMisses(hist: seq<Key>, bv: nat, bd: nat, c: nat, t: Tiers)
    requires CountersExplained(t, hist, bv, bd) && c == bv + bd
    ensures t.capacity == Misses(hist, c)
  {
  }

  lemma LargerMissesLess(hist: seq<Key>, c: nat, c': nat)
    requires c <= c'
    ensures Misses(hist, c) >= Misses(hist, c')
    ensures c >= |ToSet(hist)| ==> Misses(hist, c) == 0
  {
    HitsGrow(hist, c, c');
    HitsBound(hist, c);
  }
}
