/** `sim_hybrid`: an always-on core is pinned and the rest of the budget runs lru. It refines plain
    lru on the trace with the core keys struck out. */
module HybridCache {
  import opened Base
  import opened ExpertCache
  import opened StackInclusion
  import opened StaticPin

  // ----- The core -----

  function CountRank(counts: seq<int>): Key -> Rank {
    k => Rank(if 0 <= k < |counts| then counts[k] else 0, 0)
  }

  function AlwaysOn(counts: seq<int>, numSteps: int): set<Key> {
    set k | 0 <= k < |counts| && counts[k] >= numSteps
  }

  /** The always-on keys, or some `budget` most frequent of them when they do not all fit. */
  ghost predicate IsCore(counts: seq<int>, numSteps: int, budget: nat, core: set<Key>) {
    Retained(AlwaysOn(counts, numSteps), {}, budget, CountRank(counts), core)
  }

  // ----- The simulator -----

  datatype Hybrid = Hybrid(resident: set<Key>, lastUse: map<Key, int>, tick: int, pageIns: int)

  function HybridTouch(core: set<Key>, h: Hybrid, k: Key): Hybrid {
    if k in core then h.(tick := h.tick + 1)
    else Hybrid(h.resident + {k}, h.lastUse[k := h.tick + 1], h.tick + 1, h.pageIns + if k in h.resident then 0 else 1)
  }

  function WithoutCore(grp: seq<Key>, n: nat, core: set<Key>): seq<Key>
    requires n <= |grp|
  {
    if n == 0 then []
    else if grp[n - 1] in core then WithoutCore(grp, n - 1, core)
    else WithoutCore(grp, n - 1, core) + [grp[n - 1]]
  }

  function Uncored(trace: Trace, core: set<Key>): (t: Trace)
    ensures |t| == |trace|
    ensures forall g :: 0 <= g < |trace| ==> t[g] == WithoutCore(trace[g], |trace[g]|, core)
  {
    seq(|trace|, g requires 0 <= g < |trace| => WithoutCore(trace[g], |trace[g]|, core))
  }

  // ----- The simulation relation -----

  /** The recency tables may disagree on ticks, never on the order of two keys. */
  ghost predicate SameRecency(a: map<Key, int>, b: map<Key, int>) {
    && a.Keys == b.Keys
    && forall x, y :: x in a && y in a ==> (a[x] <= a[y] <==> b[x] <= b[y])
  }

  ghost predicate Bounded(m: map<Key, int>, tick: int) {
    forall k :: k in m ==> 0 < m[k] <= tick
  }

  ghost predicate Matches(core: set<Key>, h: Hybrid, s: Sim) {
    && h.resident == core + s.resident
    && core !! s.resident
    && s.resident <= h.lastUse.Keys
    && h.pageIns == s.pageIns
    && SameRecency(h.lastUse, s.lastUse)
    && Bounded(h.lastUse, h.tick) && Bounded(s.lastUse, s.tick)
    && h.tick >= 0 && s.tick >= 0
  }

  lemma RecencyAfterTouch(a: map<Key, int>, b: map<Key, int>, ta: int, tb: int, k: Key)
    requires SameRecency(a, b) && Bounded(a, ta) && Bounded(b, tb) && ta >= 0 && tb >= 0
    ensures SameRecency(a[k := ta + 1], b[k := tb + 1])
    ensures Bounded(a[k := ta + 1], ta + 1) && Bounded(b[k := tb + 1], tb + 1)
  {
  }

  lemma TouchMatches(core: set<Key>, h: Hybrid, s: Sim, k: Key)
    requires Matches(core, h, s)
    ensures Matches(core, HybridTouch(core, h, k), if k in core then s else Touch(s, k))
  {
    if k !in core {
      RecencyAfterTouch(h.lastUse, s.lastUse, h.tick, s.tick, k);
    }
  }

  lemma {:induction false} TouchFirstIgnoresTail(s: Sim, a: seq<Key>, b: seq<Key>, n: nat)
    requires n <= |a|
    ensures TouchFirst(s, a + b, n) == TouchFirst(s, a, n)
  {
    if n > 0 {
      TouchFirstIgnoresTail(s, a, b, n - 1);
    }
  }

  /** Evicting by the hybrid's recency is evicting by lru's. */
  lemma EvictionMatches(loaded: set<Key>, group: set<Key>, group': set<Key>, budget: nat,
                        a: map<Key, int>, b: map<Key, int>, kept: set<Key>)
    requires loaded <= a.Keys && SameRecency(a, b)
    requires group' <= group && forall k :: k in loaded && k in group ==> k in group'
    requires Retained(loaded, group, budget, Recency(a), kept)
    ensures Retained(loaded, group', budget, Recency(b), kept)
  {
    forall v, k | v in loaded && v !in kept && k in kept
      ensures EvictedBefore(group', Recency(b), v, k)
    {
      assert EvictedBefore(group, Recency(a), v, k);
    }
  }

  lemma {:induction false} WithoutCoreSet(grp: seq<Key>, n: nat, core: set<Key>)
    requires n <= |grp|
    ensures ToSet(WithoutCore(grp, n, core)) == ToSet(grp[..n]) - core
  {
    if n > 0 {
      WithoutCoreSet(grp, n - 1, core);
      PrefixSet(grp, n);
      ToSetAppend(WithoutCore(grp, n - 1, core), [grp[n - 1]]);
    }
  }

  // ----- The method -----

  /** The body of the loop over a group: core keys only advance the clock. */
  method TouchKey(core: set<Key>, h: Hybrid, k: Key) returns (t: Hybrid)
    ensures t == HybridTouch(core, h, k)
  {
    var resident, lastUse, tick, pageIns := h.resident, h.lastUse, h.tick + 1, h.pageIns;
    if k !in core {
      if k !in resident {
        pageIns := pageIns + 1;
        resident := resident + {k};
      } else {
        assert resident + {k} == resident;
      }
      lastUse := lastUse[k := tick];
    }
    t := Hybrid(resident, lastUse, tick, pageIns);
  }

  lemma TouchOneMore(s: Sim, grp: seq<Key>, k: Key)
    ensures TouchAll(s, grp + [k]) == Touch(TouchAll(s, grp), k)
  {
    TouchFirstIgnoresTail(s, grp, [k], |grp|);
  }

  method TouchGroupHybrid(core: set<Key>, h: Hybrid, grp: seq<Key>, ghost s: Sim) returns (t: Hybrid)
    requires Matches(core, h, s)
    ensures Matches(core, t, TouchAll(s, WithoutCore(grp, |grp|, core)))
  {
    t := h;
    ghost var u := s;
    for i := 0 to |grp|
      invariant u == TouchAll(s, WithoutCore(grp, i, core))
      invariant Matches(core, t, u)
    {
      var k := grp[i];
      TouchMatches(core, t, u, k);
      t := TouchKey(core, t, k);
      if k !in core {
        TouchOneMore(s, WithoutCore(grp, i, core), k);
        u := Touch(u, k);
      }
    }
  }

  method PickOldest(lastUse: map<Key, int>, cand: set<Key>) returns (victim: Key)
    requires cand != {}
    ensures IsLeast(cand, Recency(lastUse), victim)
  {
    ghost var least := LeastExists(cand, Recency(lastUse));
    victim :| victim in cand && IsLeast(cand, Recency(lastUse), victim);
  }

  method EvictHybrid(core: set<Key>, t: Hybrid, grp: seq<Key>, lruBudget: nat) returns (resident: set<Key>)
    requires core <= t.resident
    ensures core <= resident <= t.resident
    ensures Retained(t.resident - core, ToSet(grp), lruBudget, Recency(t.lastUse), resident - core)
  {
    resident := t.resident;
    var nonCore := resident - core;
    ghost var loaded := nonCore;
    while |nonCore| > lruBudget
      invariant core <= resident <= t.resident && nonCore == resident - core
      invariant Evicting(loaded, ToSet(grp), lruBudget, Recency(t.lastUse), nonCore)
    {
      var protected := ToSet(grp);
      var unprotected := nonCore - protected;
      var cand := if unprotected != {} then unprotected else nonCore;
      var victim := PickOldest(t.lastUse, cand);
      EvictOne(loaded, protected, lruBudget, Recency(t.lastUse), nonCore, victim);
      resident := resident - {victim};
      assert resident - core == nonCore - {victim};
      nonCore := resident - core;
    }
    CardMono(nonCore, loaded);
  }

  /** `sorted(keys, key=counts, reverse=True)`: the set is listed in any order and each key put after
      every listed key at least as frequent. */
  method SortByCount(counts: seq<int>, keys: set<Key>) returns (order: seq<int>)
    requires forall k :: k in keys ==> 0 <= k < |counts|
    ensures Descending(counts, order) && Distinct(order) && ToSet(order) == keys
  {
    order := [];
    var todo := keys;
    while todo != {}
      invariant Descending(counts, order) && Distinct(order)
      invariant todo <= keys && ToSet(order) == keys - todo
      decreases |todo|
    {
      ghost var some := Pick(todo);
      var k :| k in todo;
      assert k !in ToSet(order);
      InsertSorts(counts, order, k);
      InsertSet(counts, order, k);
      order := Insert(counts, order, k);
      todo := todo - {k};
    }
  }

  lemma InsertSet(counts: seq<int>, order: seq<int>, k: int)
    requires 0 <= k < |counts| && forall i :: 0 <= i < |order| ==> 0 <= order[i] < |counts|
    ensures ToSet(Insert(counts, order, k)) == ToSet(order) + {k}
  {
    forall x
      ensures x in ToSet(Insert(counts, order, k)) <==> x in ToSet(order) + {k}
    {
      InsertMembers(counts, order, k, x);
    }
  }

  /** The first `budget` of a descending list are a most frequent part of it. */
  lemma PrefixIsMostFrequent(counts: seq<int>, order: seq<int>, budget: nat)
    requires Descending(counts, order) && Distinct(order) && budget <= |order|
    ensures Retained(ToSet(order), {}, budget, CountRank(counts), ToSet(order[..budget]))
  {
    var kept := ToSet(order[..budget]);
    DistinctCard(order);
    DistinctCard(order[..budget]);
    forall v, k | v in ToSet(order) && v !in kept && k in kept
      ensures EvictedBefore({}, CountRank(counts), v, k)
    {
      var i :| 0 <= i < budget && order[i] == k;
      var j :| 0 <= j < |order| && order[j] == v;
      assert j >= budget;
    }
  }

  /** The always-on keys, cut to the most frequent when they overflow the budget; the order in which a
      set lists equally frequent keys is left open. */
  method PickCore(counts: seq<int>, numSteps: int, budget: nat) returns (core: set<Key>)
    ensures IsCore(counts, numSteps, budget, core)
  {
    core := AlwaysOn(counts, numSteps);
    if |core| > budget {
      var order := SortByCount(counts, core);
      DistinctCard(order);
      PrefixIsMostFrequent(counts, order, budget);
      core := ToSet(order[..budget]);
    }
  }

  ghost function Evict(u: Sim, kept: set<Key>): Sim {
    u.(resident := kept, loadTick := u.loadTick - (u.resident - kept))
  }

  lemma EvictMatches(core: set<Key>, t: Hybrid, u: Sim, resident: set<Key>)
    requires Matches(core, t, u) && core <= resident <= t.resident
    ensures Matches(core, t.(resident := resident), Evict(u, resident - core))
    ensures t.resident - core == u.resident
  {
  }

  /** One group: the hybrid step is an lru step on what is left of the group. */
  lemma StepMatches(core: set<Key>, t: Hybrid, grp: seq<Key>, lruBudget: nat, u: Sim, resident: set<Key>)
    requires Matches(core, t, u) && t.resident - core == u.resident
    requires Retained(u.resident, ToSet(grp), lruBudget, Recency(t.lastUse), resident - core)
    ensures Retained(u.resident, ToSet(WithoutCore(grp, |grp|, core)), lruBudget, Recency(u.lastUse), resident - core)
  {
    WithoutCoreSet(grp, |grp|, core);
    assert grp[..|grp|] == grp;
    EvictionMatches(u.resident, ToSet(grp), ToSet(grp) - core, lruBudget, t.lastUse, u.lastUse, resident - core);
  }

  lemma LruStep(trace: Trace, g: nat, budget: nat, s: Sim, kept: set<Key>)
    requires g < |trace|
    requires var u := TouchAll(s, trace[g]); Retained(u.resident, ToSet(trace[g]), budget, Recency(u.lastUse), kept)
    ensures Step(Lru, trace, g, budget, s, Evict(TouchAll(s, trace[g]), kept))
  {
    var u := TouchAll(s, trace[g]);
    assert PolicyRank(Lru, trace, g, u) == Recency(u.lastUse);
  }

  lemma InitialMatches(core: set<Key>)
    ensures Matches(core, Hybrid(core, map[], 0, 0), INITIAL)
  {
  }

  method HybridGroup(core: set<Key>, h: Hybrid, trace: Trace, g: nat, lruBudget: nat, ghost s: Sim)
    returns (h': Hybrid, ghost s': Sim)
    requires g < |trace| && Matches(core, h, s)
    ensures Matches(core, h', s') && Step(Lru, Uncored(trace, core), g, lruBudget, s, s')
  {
    var grp := trace[g];
    var t := TouchGroupHybrid(core, h, grp, s);
    ghost var rest := Uncored(trace, core);
    ghost var u := TouchAll(s, rest[g]);
    var resident := EvictHybrid(core, t, grp, lruBudget);
    EvictMatches(core, t, u, resident);
    StepMatches(core, t, grp, lruBudget, u, resident);
    LruStep(rest, g, lruBudget, s, resident - core);
    h' := t.(resident := resident);
    s' := Evict(u, resident - core);
  }

  /** For some choice of core, the cost of lru on the trace without the core keys, with the slots the
      core leaves over. */
  ghost predicate HybridCosts(trace: Trace, budget: nat, counts: seq<int>, numSteps: int, pageIns: int) {
    exists core :: IsCore(counts, numSteps, budget, core) && |core| <= budget &&
                   Costs(Lru, Uncored(trace, core), budget - |core|, pageIns)
  }

  /** `sim_hybrid`, for every trace, budget and count table. */
  method SimHybrid(trace: Trace, budget: nat, counts: seq<int>, numSteps: int) returns (pageIns: int)
    ensures HybridCosts(trace, budget, counts, numSteps, pageIns)
  {
    var pins := PickCore(counts, numSteps, budget);
    var lruBudget := if budget >= |pins| then budget - |pins| else 0;
    var h := Hybrid(pins, map[], 0, 0);
    ghost var s := INITIAL;
    ghost var rest := Uncored(trace, pins);
    ghost var run := [s];
    InitialMatches(pins);
    for g := 0 to |trace|
      invariant Matches(pins, h, s)
      invariant IsRunOf(Lru, rest, lruBudget, run, g) && run[g] == s
    {
      h, s := HybridGroup(pins, h, trace, g, lruBudget, s);
      ExtendRun(Lru, rest, lruBudget, run, g, s);
      run := run + [s];
    }
    pageIns := h.pageIns;
    assert IsRun(Lru, rest, lruBudget, run) && IsCore(counts, numSteps, budget, pins);
  }

  /** So it equals `sim_online(..., "lru")` there: every lru run of a trace costs the same. */
  lemma LruCostIsUnique(trace: Trace, budget: nat, a: seq<Sim>, b: seq<Sim>)
    requires IsRun(Lru, trace, budget, a) && IsRun(Lru, trace, budget, b)
    ensures a[|trace|].pageIns == b[|trace|].pageIns
  {
    LruLfuInclusion(Lru, trace, budget, budget, a, b);
    LruLfuInclusion(Lru, trace, budget, budget, b, a);
  }
}
