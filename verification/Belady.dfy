/** Belady's theorem for group-wise demand caching: the oracle policy is the floor that the
    other policies, and every other demand schedule, stay above. */
module Belady {
  import opened Base
  import opened ExpertCache

  // ----- Schedules -----

  /** What demand caching allows after a group: keep only what was there or was just loaded,
      stay within the budget, and keep the group itself before anything else. */
  ghost predicate Demand(before: set<Key>, group: set<Key>, budget: nat, after: set<Key>) {
    && after <= before + group
    && |after| <= budget
    && (if |group| <= budget then group <= after else after <= group)
  }

  ghost predicate DemandAt(trace: Trace, budget: nat, res: seq<set<Key>>, g: nat)
    requires g < |trace| && g + 1 < |res|
  {
    Demand(res[g], ToSet(trace[g]), budget, res[g + 1])
  }

  ghost predicate DemandSchedule(trace: Trace, budget: nat, res: seq<set<Key>>) {
    && |res| == |trace| + 1
    && res[0] == {}
    && forall g :: 0 <= g < |trace| ==> DemandAt(trace, budget, res, g)
  }

  ghost predicate OracleAt(trace: Trace, budget: nat, res: seq<set<Key>>, g: nat)
    requires g < |trace| && g + 1 < |res|
  {
    Retained(res[g] + ToSet(trace[g]), ToSet(trace[g]), budget, OracleRank(trace, g), res[g + 1])
  }

  /** A schedule that always evicts a key of farthest next use, ties broken freely. */
  ghost predicate OracleSchedule(trace: Trace, budget: nat, res: seq<set<Key>>) {
    && |res| == |trace| + 1
    && res[0] == {}
    && forall g :: 0 <= g < |trace| ==> OracleAt(trace, budget, res, g)
  }

  /** Loads of the first `n` groups, each group starting from `res[g]`. */
  ghost function PageIns(trace: Trace, res: seq<set<Key>>, n: nat): (p: int)
    requires n <= |trace| && n <= |res|
  {
    if n == 0 then 0 else PageIns(trace, res, n - 1) + |ToSet(trace[n - 1]) - res[n - 1]|
  }

  // ----- The counting argument -----

  /** The keys of `r` wanted again no later than group `t`, looking from group `from` on. */
  ghost function Near(trace: Trace, from: nat, r: set<Key>, t: int): set<Key>
    requires from <= |trace|
  {
    set k | k in r && FirstUse(trace, from, k) <= t
  }

  /** `r` holds, for every horizon, at most `debt` fewer soon-wanted keys than `s`. */
  ghost predicate Covers(trace: Trace, from: nat, r: set<Key>, s: set<Key>, debt: int)
    requires from <= |trace|
  {
    forall t :: CoversAt(trace, from, r, s, debt, t)
  }

  ghost predicate CoversAt(trace: Trace, from: nat, r: set<Key>, s: set<Key>, debt: int, t: int)
    requires from <= |trace|
  {
    |Near(trace, from, s, t)| <= |Near(trace, from, r, t)| + debt
  }

  lemma NearAfterLoad(trace: Trace, g: nat, r: set<Key>, t: int)
    requires g < |trace|
    ensures var group := ToSet(trace[g]);
            t >= g ==> |Near(trace, g + 1, r + group, t)| ==
                       |Near(trace, g, r, t)| - |r * group| + |Near(trace, g + 1, group, t)|
    ensures t < g ==> Near(trace, g + 1, r + ToSet(trace[g]), t) == {}
  {
    var group := ToSet(trace[g]);
    if t >= g {
      var rest := Near(trace, g + 1, r - group, t);
      forall k
        ensures k in Near(trace, g, r, t) <==> k in (r * group) + rest
      {
      }
      assert Near(trace, g, r, t) == (r * group) + rest;
      assert Near(trace, g + 1, r + group, t) == rest + Near(trace, g + 1, group, t);
    }
  }

  /** Loading a group trades saved misses for debt. */
  lemma CoversAfterLoad(trace: Trace, g: nat, r: set<Key>, s: set<Key>, debt: int)
    requires g < |trace| && Covers(trace, g, r, s, debt)
    ensures var group := ToSet(trace[g]);
            var debt' := debt + |group - s| - |group - r|;
            debt' >= 0 && Covers(trace, g + 1, r + group, s + group, debt')
  {
    var group := ToSet(trace[g]);
    var debt' := debt + |group - s| - |group - r|;
    CardSplit(group, s);
    CardSplit(group, r);
    assert group * s == s * group && group * r == r * group;
    assert CoversAt(trace, g, r, s, debt, g);
    assert Near(trace, g, r, g) == r * group;
    assert Near(trace, g, s, g) == s * group;
    var h, r', s' := g + 1, r + group, s + group;
    forall t
      ensures CoversAt(trace, h, r', s', debt', t)
    {
      assert CoversAt(trace, g, r, s, debt, t);
      NearAfterLoad(trace, g, r, t);
      NearAfterLoad(trace, g, s, t);
    }
  }

  /** Evicting farthest-first never loses ground to another way of meeting the budget. */
  lemma CoversAfterEvict(trace: Trace, g: nat, budget: nat, loaded: set<Key>, kept: set<Key>,
                         other: set<Key>, after: set<Key>, debt: int)
    requires g < |trace| && debt >= 0
    requires ToSet(trace[g]) <= loaded
    requires Covers(trace, g + 1, loaded, other, debt)
    requires Retained(loaded, ToSet(trace[g]), budget, OracleRank(trace, g), kept)
    requires after <= other && Demand(other, ToSet(trace[g]), budget, after)
    ensures Covers(trace, g + 1, kept, after, debt)
  {
    var h := g + 1;
    forall t
      ensures CoversAt(trace, h, kept, after, debt, t)
    {
      assert CoversAt(trace, g + 1, loaded, other, debt, t);
      CoversOneHorizon(trace, g, budget, loaded, kept, other, after, debt, t);
    }
  }

  lemma CoversOneHorizon(trace: Trace, g: nat, budget: nat, loaded: set<Key>, kept: set<Key>,
                         other: set<Key>, after: set<Key>, debt: int, t: int)
    requires g < |trace| && debt >= 0
    requires ToSet(trace[g]) <= loaded
    requires CoversAt(trace, g + 1, loaded, other, debt, t)
    requires Retained(loaded, ToSet(trace[g]), budget, OracleRank(trace, g), kept)
    requires after <= other && Demand(other, ToSet(trace[g]), budget, after)
    ensures CoversAt(trace, g + 1, kept, after, debt, t)
  {
    var group := ToSet(trace[g]);
    var near := Near(trace, g + 1, loaded, t);
    var nearGroup := Near(trace, g + 1, group, t);
    RetainedIsDemand(loaded, group, budget, OracleRank(trace, g), kept);
    if near <= kept {
      // No soon-wanted key was evicted.
      assert Near(trace, g + 1, kept, t) == near;
      CardMono(Near(trace, g + 1, after, t), Near(trace, g + 1, other, t));
    } else if !(nearGroup <= kept) {
      // A soon-wanted member went, so only members stayed and each is wanted at least as soon.
      var v := PickOutside(nearGroup, kept);
      CardMono(Near(trace, g + 1, after, t), after);
      assert forall k :: k in kept ==> EvictedBefore(group, OracleRank(trace, g), v, k);
      assert Near(trace, g + 1, kept, t) == kept;
    } else if |group| > budget {
      CardMono(Near(trace, g + 1, after, t), Near(trace, g + 1, kept, t));
    } else {
      // A soon-wanted outsider went, so every kept outsider is wanted at least as soon.
      var v := PickOutside(near, kept);
      assert forall k :: k in kept ==> EvictedBefore(group, OracleRank(trace, g), v, k);
      assert v !in group by {
        assert v in group ==> v in nearGroup;
      }
      CountOutsiders(trace, g + 1, budget, group, kept, after, t);
    }
  }

  lemma CountOutsiders(trace: Trace, h: nat, budget: nat, group: set<Key>, kept: set<Key>, after: set<Key>, t: int)
    requires h <= |trace|
    requires group <= kept && group <= after && |after| <= |kept|
    requires forall k :: k in kept && k !in group ==> FirstUse(trace, h, k) <= t
    ensures |Near(trace, h, after, t)| <= |Near(trace, h, kept, t)|
  {
    var nearGroup := Near(trace, h, group, t);
    assert Near(trace, h, kept, t) == nearGroup + (kept - group);
    CardMono(Near(trace, h, after, t), nearGroup + (after - group));
    assert after == group + (after - group) && kept == group + (kept - group);
  }

  /** Every rank-driven eviction is a demand step, whatever the ranks. */
  lemma RetainedIsDemand(loaded: set<Key>, group: set<Key>, budget: nat, rank: Key -> Rank, kept: set<Key>)
    requires group <= loaded && Retained(loaded, group, budget, rank, kept)
    ensures Demand(loaded, group, budget, kept)
    ensures kept != loaded ==> |kept| == budget
  {
    if kept != loaded {
      assert kept < loaded;
      var gone := PickOutside(loaded, kept);
      CardMono(kept, loaded - {gone});
    }
    CardMono(group, loaded);
    if |group| <= budget {
      if !(group <= kept) {
        var v := PickOutside(group, kept);
        forall k | k in kept
          ensures k in group
        {
          assert EvictedBefore(group, rank, v, k);
        }
        CardMono(kept, group - {v});
      }
    } else {
      if group <= kept {
        CardMono(group, kept);
      }
      var v := PickOutside(group, kept);
      forall k | k in kept
        ensures k in group
      {
        assert EvictedBefore(group, rank, v, k);
      }
    }
  }

  // ----- Optimality -----

  lemma {:induction false} DebtInvariant(trace: Trace, budget: nat, oracle: seq<set<Key>>, other: seq<set<Key>>, g: nat)
    requires OracleSchedule(trace, budget, oracle) && DemandSchedule(trace, budget, other)
    requires g <= |trace|
    ensures Covers(trace, g, oracle[g], other[g], PageIns(trace, other, g) - PageIns(trace, oracle, g))
  {
    if g == 0 {
      assert oracle[0] == other[0];
    } else {
      var h := g - 1;
      DebtInvariant(trace, budget, oracle, other, h);
      var debt := PageIns(trace, other, h) - PageIns(trace, oracle, h);
      var group := ToSet(trace[h]);
      assert OracleAt(trace, budget, oracle, h) && DemandAt(trace, budget, other, h);
      CoversAfterLoad(trace, h, oracle[h], other[h], debt);
      CoversAfterEvict(trace, h, budget, oracle[h] + group, oracle[g], other[h] + group, other[g],
                       debt + |group - other[h]| - |group - oracle[h]|);
    }
  }

  /** No demand schedule of any trace, at any budget, pages in less than the oracle. */
  lemma OracleIsOptimal(trace: Trace, budget: nat, oracle: seq<set<Key>>, other: seq<set<Key>>)
    requires OracleSchedule(trace, budget, oracle) && DemandSchedule(trace, budget, other)
    ensures PageIns(trace, oracle, |trace|) <= PageIns(trace, other, |trace|)
  {
    DebtInvariant(trace, budget, oracle, other, |trace|);
    assert CoversAt(trace, |trace|, oracle[|trace|], other[|trace|],
                    PageIns(trace, other, |trace|) - PageIns(trace, oracle, |trace|), -1);
    assert Near(trace, |trace|, other[|trace|], -1) == {} == Near(trace, |trace|, oracle[|trace|], -1);
  }

  // ----- The simulator's policies as schedules -----

  ghost function Residents(run: seq<Sim>): (res: seq<set<Key>>)
    ensures |res| == |run|
    ensures forall g :: 0 <= g < |run| ==> res[g] == run[g].resident
  {
    seq(|run|, g requires 0 <= g < |run| => run[g].resident)
  }

  lemma {:induction false} RunPageIns(policy: Policy, trace: Trace, budget: nat, run: seq<Sim>, g: nat)
    requires IsRun(policy, trace, budget, run) && g <= |trace|
    ensures run[g].pageIns == PageIns(trace, Residents(run), g)
  {
    if g > 0 {
      RunPageIns(policy, trace, budget, run, g - 1);
      StepPageIns(policy, trace, budget, run, Residents(run), g - 1, g);
    }
  }

  lemma StepPageIns(policy: Policy, trace: Trace, budget: nat, run: seq<Sim>, res: seq<set<Key>>, g: nat, h: nat)
    requires IsRun(policy, trace, budget, run) && res == Residents(run) && h == g + 1 <= |trace|
    requires run[g].pageIns == PageIns(trace, res, g)
    ensures run[h].pageIns == PageIns(trace, res, h)
  {
    assert StepAt(policy, trace, budget, run, g);
    TouchAllLoads(run[g], trace[g]);
  }

  lemma RunIsDemand(policy: Policy, trace: Trace, budget: nat, run: seq<Sim>)
    requires IsRun(policy, trace, budget, run)
    ensures DemandSchedule(trace, budget, Residents(run))
  {
    var res := Residents(run);
    forall g | 0 <= g < |trace|
      ensures DemandAt(trace, budget, res, g)
    {
      assert StepAt(policy, trace, budget, run, g);
      TouchAllLoads(run[g], trace[g]);
      var t := TouchAll(run[g], trace[g]);
      RetainedIsDemand(t.resident, ToSet(trace[g]), budget, PolicyRank(policy, trace, g, t), run[g + 1].resident);
    }
  }

  lemma OracleRunIsOracle(trace: Trace, budget: nat, run: seq<Sim>)
    requires IsRun(Oracle, trace, budget, run)
    ensures OracleSchedule(trace, budget, Residents(run))
  {
    var res := Residents(run);
    forall g | 0 <= g < |trace|
      ensures OracleAt(trace, budget, res, g)
    {
      assert StepAt(Oracle, trace, budget, run, g);
      TouchAllLoads(run[g], trace[g]);
    }
  }

  /** `sim_online(..., "oracle")` is at most `sim_online` under lru, lfu, fifo or random: for
      every trace, every budget, and however either run breaks its ties. */
  lemma OracleBeatsEveryPolicy(trace: Trace, budget: nat, oracle: seq<Sim>, policy: Policy, run: seq<Sim>)
    requires IsRun(Oracle, trace, budget, oracle) && IsRun(policy, trace, budget, run)
    ensures oracle[|trace|].pageIns <= run[|trace|].pageIns
  {
    OracleRunIsOracle(trace, budget, oracle);
    RunIsDemand(policy, trace, budget, run);
    OracleIsOptimal(trace, budget, Residents(oracle), Residents(run));
    RunPageIns(Oracle, trace, budget, oracle, |trace|);
    RunPageIns(policy, trace, budget, run, |trace|);
  }

  /** The same for the numbers `sim_online` returns. */
  lemma OracleResultIsLeast(trace: Trace, budget: nat, least: int, policy: Policy, pageIns: int)
    requires Costs(Oracle, trace, budget, least) && Costs(policy, trace, budget, pageIns)
    ensures least <= pageIns
  {
    var oracle: seq<Sim> :| IsRun(Oracle, trace, budget, oracle) && oracle[|trace|].pageIns == least;
    var run: seq<Sim> :| IsRun(policy, trace, budget, run) && run[|trace|].pageIns == pageIns;
    OracleBeatsEveryPolicy(trace, budget, oracle, policy, run);
  }

  /** Ties do not matter: all oracle schedules of a trace cost the same. */
  lemma OracleCostIsUnique(trace: Trace, budget: nat, a: seq<set<Key>>, b: seq<set<Key>>)
    requires OracleSchedule(trace, budget, a) && OracleSchedule(trace, budget, b)
    ensures PageIns(trace, a, |trace|) == PageIns(trace, b, |trace|)
  {
    OracleIsDemand(trace, budget, a);
    OracleIsDemand(trace, budget, b);
    OracleIsOptimal(trace, budget, a, b);
    OracleIsOptimal(trace, budget, b, a);
  }

  lemma OracleIsDemand(trace: Trace, budget: nat, res: seq<set<Key>>)
    requires OracleSchedule(trace, budget, res)
    ensures DemandSchedule(trace, budget, res)
  {
    forall g | 0 <= g < |trace|
      ensures DemandAt(trace, budget, res, g)
    {
      assert OracleAt(trace, budget, res, g);
      RetainedIsDemand(res[g] + ToSet(trace[g]), ToSet(trace[g]), budget, OracleRank(trace, g), res[g + 1]);
    }
  }
}
