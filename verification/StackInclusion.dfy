/** Stack inclusion: under lru, lfu, or the oracle with a fixed tie-break, a larger budget always
    holds everything a smaller one holds, so page-ins never rise with the budget. */
module StackInclusion {
  import opened Base
  import opened ExpertCache
  import opened Belady

  // ----- What the recency and frequency tables mean -----

  /** One-based position of the last access to `k`; 0 when there is none. */
  ghost function LastAt(hist: seq<Key>, k: Key): (n: nat)
    ensures n <= |hist|
    ensures n > 0 ==> hist[n - 1] == k
    ensures n == 0 <==> k !in hist
  {
    if hist == [] then 0
    else if hist[|hist| - 1] == k then |hist|
    else
      assert hist == hist[..|hist| - 1] + [hist[|hist| - 1]];
      LastAt(hist[..|hist| - 1], k)
  }

  ghost function Occurrences(hist: seq<Key>, k: Key): nat {
    if hist == [] then 0
    else Occurrences(hist[..|hist| - 1], k) + if hist[|hist| - 1] == k then 1 else 0
  }

  /** The tables record the trace alone, not what happened to be resident. */
  ghost predicate Tracks(s: Sim, hist: seq<Key>) {
    && s.tick == |hist|
    && (forall k :: Get(s.lastUse, k) == LastAt(hist, k))
    && (forall k :: Get(s.freq, k) == Occurrences(hist, k))
  }

  lemma TouchTracks(s: Sim, hist: seq<Key>, k: Key)
    requires Tracks(s, hist)
    ensures Tracks(Touch(s, k), hist + [k])
  {
    assert (hist + [k])[..|hist|] == hist;
  }

  lemma {:induction false} TouchFirstTracks(s: Sim, hist: seq<Key>, grp: seq<Key>, n: nat)
    requires Tracks(s, hist) && n <= |grp|
    ensures Tracks(TouchFirst(s, grp, n), hist + grp[..n])
  {
    if n == 0 {
      assert hist + grp[..0] == hist;
    } else {
      TouchFirstTracks(s, hist, grp, n - 1);
      TouchTracks(TouchFirst(s, grp, n - 1), hist + grp[..n - 1], grp[n - 1]);
      assert hist + grp[..n - 1] + [grp[n - 1]] == hist + grp[..n];
    }
  }

  lemma {:induction false} RunTracks(policy: Policy, trace: Trace, budget: nat, run: seq<Sim>, g: nat)
    requires IsRun(policy, trace, budget, run) && g <= |trace|
    ensures Tracks(run[g], Flat(trace, g))
    ensures g < |trace| ==> Tracks(TouchAll(run[g], trace[g]), Flat(trace, g + 1))
  {
    if g > 0 {
      RunTracks(policy, trace, budget, run, g - 1);
      EvictTracks(policy, trace, budget, run, g - 1, g);
    }
    if g < |trace| {
      GroupTracks(run[g], Flat(trace, g), trace[g]);
    }
  }

  lemma GroupTracks(s: Sim, hist: seq<Key>, grp: seq<Key>)
    requires Tracks(s, hist)
    ensures Tracks(TouchAll(s, grp), hist + grp)
  {
    TouchFirstTracks(s, hist, grp, |grp|);
    assert grp[..|grp|] == grp;
  }

  lemma EvictTracks(policy: Policy, trace: Trace, budget: nat, run: seq<Sim>, g: nat, h: nat)
    requires IsRun(policy, trace, budget, run) && h == g + 1 <= |trace|
    requires Tracks(TouchAll(run[g], trace[g]), Flat(trace, h))
    ensures Tracks(run[h], Flat(trace, h))
  {
    assert StepAt(policy, trace, budget, run, g);
  }

  // ----- Schedules driven by one budget-independent order -----

  ghost predicate RankedAt(trace: Trace, budget: nat, ranks: (nat, Key) -> Rank, res: seq<set<Key>>, g: nat)
    requires g < |trace| && g + 1 < |res|
  {
    Retained(res[g] + ToSet(trace[g]), ToSet(trace[g]), budget, k => ranks(g, k), res[g + 1])
  }

  ghost predicate RankedSchedule(trace: Trace, budget: nat, ranks: (nat, Key) -> Rank, res: seq<set<Key>>) {
    && |res| == |trace| + 1
    && res[0] == {}
    && forall g :: 0 <= g < |trace| ==> RankedAt(trace, budget, ranks, res, g)
  }

  /** No ties among the keys seen by the time of each eviction. */
  ghost predicate TieFree(trace: Trace, ranks: (nat, Key) -> Rank) {
    forall g, a, b ::
      0 <= g < |trace| && a in Flat(trace, g + 1) && b in Flat(trace, g + 1) && ranks(g, a) == ranks(g, b) ==> a == b
  }

  lemma {:induction false} ResidentsWereSeen(trace: Trace, budget: nat, ranks: (nat, Key) -> Rank, res: seq<set<Key>>,
                                             g: nat)
    requires RankedSchedule(trace, budget, ranks, res) && g <= |trace|
    ensures res[g] <= ToSet(Flat(trace, g))
  {
    if g > 0 {
      ResidentsWereSeen(trace, budget, ranks, res, g - 1);
      assert RankedAt(trace, budget, ranks, res, g - 1);
      ToSetAppend(Flat(trace, g - 1), trace[g - 1]);
    }
  }

  /** One eviction keeps the nesting: with `extra` more slots and at most `extra` more keys, the
      larger cache keeps all that the smaller one keeps. */
  lemma NestedEviction(small: set<Key>, large: set<Key>, group: set<Key>, budget: nat, extra: nat, rank: Key -> Rank,
                       keptS: set<Key>, keptL: set<Key>)
    requires small <= large && |large - small| <= extra
    requires forall a, b :: a in large && b in large && rank(a) == rank(b) ==> a == b
    requires Retained(small, group, budget, rank, keptS) && Retained(large, group, budget + extra, rank, keptL)
    ensures keptS <= keptL && |keptL - keptS| <= extra
  {
    assert large == small + (large - small);
    if !(keptS <= keptL) {
      // Everything in the larger cache outranks k; too much of it is in the smaller one.
      var k := PickOutside(keptS, keptL);
      CardMono(keptL, large - {k});
      assert |keptL| == budget + extra;
      forall e | e in keptL && e in small
        ensures e in keptS
      {
        assert EvictedBefore(group, rank, k, e);
        assert e !in keptS ==> EvictedBefore(group, rank, e, k);
      }
      CardMono(keptL - small, large - small);
      CardSplit(keptL, small);
      CardMono(keptL * small + {k}, keptS);
    }
    assert keptL == keptS + (keptL - keptS);
  }

  lemma {:induction false} Inclusion(trace: Trace, small: nat, large: nat, ranks: (nat, Key) -> Rank,
                                     resS: seq<set<Key>>, resL: seq<set<Key>>, g: nat)
    requires small <= large && TieFree(trace, ranks) && g <= |trace|
    requires RankedSchedule(trace, small, ranks, resS) && RankedSchedule(trace, large, ranks, resL)
    ensures resS[g] <= resL[g] && |resL[g] - resS[g]| <= large - small
  {
    if g == 0 {
      assert resL[0] - resS[0] == {};
    } else {
      var h := g - 1;
      Inclusion(trace, small, large, ranks, resS, resL, h);
      ResidentsWereSeen(trace, large, ranks, resL, h);
      ToSetAppend(Flat(trace, h), trace[h]);
      var group := ToSet(trace[h]);
      assert RankedAt(trace, small, ranks, resS, h) && RankedAt(trace, large, ranks, resL, h);
      CardMono(resL[h] + group - (resS[h] + group), resL[h] - resS[h]);
      NestedEviction(resS[h] + group, resL[h] + group, group, small, large - small, k => ranks(h, k), resS[g], resL[g]);
    }
  }

  lemma {:induction false} NestedPageIns(trace: Trace, resS: seq<set<Key>>, resL: seq<set<Key>>, n: nat)
    requires n <= |trace| && n <= |resS| && n <= |resL|
    requires forall g :: 0 <= g < n ==> resS[g] <= resL[g]
    ensures PageIns(trace, resL, n) <= PageIns(trace, resS, n)
  {
    if n > 0 {
      NestedPageIns(trace, resS, resL, n - 1);
      CardMono(ToSet(trace[n - 1]) - resL[n - 1], ToSet(trace[n - 1]) - resS[n - 1]);
    }
  }

  // ----- lru and lfu -----

  /** Recency, and frequency with recency breaking its ties, as properties of the trace. */
  ghost function HistoryRank(policy: Policy, trace: Trace): (nat, Key) -> Rank {
    (g: nat, k: Key) =>
      if g >= |trace| then Rank(0, 0)
      else if policy == Lfu then Rank(Occurrences(Flat(trace, g + 1), k), LastAt(Flat(trace, g + 1), k))
      else Rank(LastAt(Flat(trace, g + 1), k), 0)
  }

  lemma HistoryRankTieFree(policy: Policy, trace: Trace)
    ensures TieFree(trace, HistoryRank(policy, trace))
  {
  }

  lemma RankMeaning(policy: Policy, trace: Trace, g: nat, t: Sim, k: Key)
    requires policy in {Lru, Lfu} && g < |trace| && Tracks(t, Flat(trace, g + 1))
    ensures PolicyRank(policy, trace, g, t)(k) == HistoryRank(policy, trace)(g, k)
  {
  }

  lemma RunIsRanked(policy: Policy, trace: Trace, budget: nat, run: seq<Sim>)
    requires policy in {Lru, Lfu} && IsRun(policy, trace, budget, run)
    ensures RankedSchedule(trace, budget, HistoryRank(policy, trace), Residents(run))
  {
    var ranks, res := HistoryRank(policy, trace), Residents(run);
    forall g | 0 <= g < |trace|
      ensures RankedAt(trace, budget, ranks, res, g)
    {
      assert StepAt(policy, trace, budget, run, g);
      TouchAllLoads(run[g], trace[g]);
      RunTracks(policy, trace, budget, run, g);
      var t := TouchAll(run[g], trace[g]);
      forall k
        ensures PolicyRank(policy, trace, g, t)(k) == ranks(g, k)
      {
        RankMeaning(policy, trace, g, t, k);
      }
      SameOrder(t.resident, ToSet(trace[g]), budget, PolicyRank(policy, trace, g, t), k => ranks(g, k),
                run[g + 1].resident);
    }
  }

  lemma SameOrder(loaded: set<Key>, group: set<Key>, budget: nat, rank: Key -> Rank, rank': Key -> Rank, kept: set<Key>)
    requires Retained(loaded, group, budget, rank, kept)
    requires forall k :: rank(k) == rank'(k)
    ensures Retained(loaded, group, budget, rank', kept)
  {
    forall v, k | v in loaded && v !in kept && k in kept
      ensures EvictedBefore(group, rank', v, k)
    {
      assert EvictedBefore(group, rank, v, k);
    }
  }

  /** `sim_online` under lru or lfu: after every group the larger budget holds everything the
      smaller one holds, and it never pages in more; at equal budgets the runs coincide. */
  lemma LruLfuInclusion(policy: Policy, trace: Trace, small: nat, large: nat, runS: seq<Sim>, runL: seq<Sim>)
    requires policy in {Lru, Lfu} && small <= large
    requires IsRun(policy, trace, small, runS) && IsRun(policy, trace, large, runL)
    ensures forall g :: 0 <= g <= |trace| ==> runS[g].resident <= runL[g].resident
    ensures runL[|trace|].pageIns <= runS[|trace|].pageIns
    ensures small == large ==> forall g :: 0 <= g <= |trace| ==> runS[g].resident == runL[g].resident
  {
    var ranks := HistoryRank(policy, trace);
    HistoryRankTieFree(policy, trace);
    RunIsRanked(policy, trace, small, runS);
    RunIsRanked(policy, trace, large, runL);
    forall g | 0 <= g <= |trace|
      ensures runS[g].resident <= runL[g].resident
      ensures small == large ==> runS[g].resident == runL[g].resident
    {
      Inclusion(trace, small, large, ranks, Residents(runS), Residents(runL), g);
      if small == large {
        Inclusion(trace, small, large, ranks, Residents(runL), Residents(runS), g);
      }
    }
    NestedPageIns(trace, Residents(runS), Residents(runL), |trace|);
    RunPageIns(policy, trace, small, runS, |trace|);
    RunPageIns(policy, trace, large, runL, |trace|);
  }

  // ----- The oracle -----

  ghost predicate Injective(tie: Key -> int) {
    forall a, b :: tie(a) == tie(b) ==> a == b
  }

  /** Farthest next use first, equal distances settled by a fixed order on keys. */
  ghost function TieRank(trace: Trace, tie: Key -> int): (nat, Key) -> Rank {
    (g: nat, k: Key) => if g >= |trace| then Rank(0, 0) else Rank(-FirstUse(trace, g + 1, k), tie(k))
  }

  lemma TieRankIsOracle(trace: Trace, budget: nat, tie: Key -> int, res: seq<set<Key>>)
    requires RankedSchedule(trace, budget, TieRank(trace, tie), res)
    ensures OracleSchedule(trace, budget, res)
  {
    var ranks := TieRank(trace, tie);
    forall g | 0 <= g < |trace|
      ensures OracleAt(trace, budget, res, g)
    {
      assert RankedAt(trace, budget, ranks, res, g);
      var loaded, group := res[g] + ToSet(trace[g]), ToSet(trace[g]);
      forall v, k | v in loaded && v !in res[g + 1] && k in res[g + 1]
        ensures EvictedBefore(group, OracleRank(trace, g), v, k)
      {
        assert EvictedBefore(group, k => ranks(g, k), v, k);
      }
    }
  }

  lemma OracleInclusion(trace: Trace, small: nat, large: nat, tie: Key -> int, resS: seq<set<Key>>, resL: seq<set<Key>>)
    requires small <= large && Injective(tie)
    requires RankedSchedule(trace, small, TieRank(trace, tie), resS)
    requires RankedSchedule(trace, large, TieRank(trace, tie), resL)
    ensures forall g :: 0 <= g <= |trace| ==> resS[g] <= resL[g]
    ensures PageIns(trace, resL, |trace|) <= PageIns(trace, resS, |trace|)
  {
    forall g | 0 <= g <= |trace|
      ensures resS[g] <= resL[g]
    {
      Inclusion(trace, small, large, TieRank(trace, tie), resS, resL, g);
    }
    NestedPageIns(trace, resS, resL, |trace|);
  }

  lemma RetainedExists(loaded: set<Key>, group: set<Key>, budget: nat, rank: Key -> Rank) returns (kept: set<Key>)
    ensures Retained(loaded, group, budget, rank, kept)
  {
    kept := loaded;
    while |kept| > budget
      invariant Evicting(loaded, group, budget, rank, kept)
    {
      var v := LeastExists(if kept - group != {} then kept - group else kept, rank);
      EvictOne(loaded, group, budget, rank, kept, v);
      kept := kept - {v};
    }
    CardMono(kept, loaded);
  }

  lemma RankedExists(trace: Trace, budget: nat, ranks: (nat, Key) -> Rank) returns (res: seq<set<Key>>)
    ensures RankedSchedule(trace, budget, ranks, res)
  {
    res := [{}];
    for g := 0 to |trace|
      invariant |res| == g + 1 && res[0] == {}
      invariant forall h :: 0 <= h < g ==> RankedAt(trace, budget, ranks, res, h)
    {
      var kept := RetainedExists(res[g] + ToSet(trace[g]), ToSet(trace[g]), budget, k => ranks(g, k));
      var longer := res + [kept];
      forall h | 0 <= h < g + 1
        ensures RankedAt(trace, budget, ranks, longer, h)
      {
        assert h < g ==> RankedAt(trace, budget, ranks, res, h);
      }
      res := longer;
    }
  }

  /** The oracle's page-ins never rise with the budget, however either run breaks its ties. */
  lemma OracleMonotone(trace: Trace, small: nat, large: nat, resS: seq<set<Key>>, resL: seq<set<Key>>)
    requires small <= large && OracleSchedule(trace, small, resS) && OracleSchedule(trace, large, resL)
    ensures PageIns(trace, resL, |trace|) <= PageIns(trace, resS, |trace|)
  {
    var tie: Key -> int := k => k;
    var s := RankedExists(trace, small, TieRank(trace, tie));
    var l := RankedExists(trace, large, TieRank(trace, tie));
    TieRankIsOracle(trace, small, tie, s);
    TieRankIsOracle(trace, large, tie, l);
    OracleInclusion(trace, small, large, tie, s, l);
    OracleCostIsUnique(trace, small, s, resS);
    OracleCostIsUnique(trace, large, l, resL);
  }
}
