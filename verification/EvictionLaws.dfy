/** What every eviction of `sim_online` obeys, in terms of the accesses alone: how often and when keys
    were used, when they were loaded and when they are used next. */
module EvictionLaws {
  import opened Base
  import opened ExpertCache
  import opened StackInclusion

  /** Group `g` leaves `v` out of the cache and `k` in it. */
  ghost predicate Evicts(trace: Trace, run: seq<Sim>, g: nat, v: Key, k: Key)
    requires g < |trace| && g + 1 < |run|
  {
    && (v in run[g].resident || v in trace[g]) && v !in run[g + 1].resident
    && k in run[g + 1].resident
  }

  // ----- The tables -----

  lemma {:induction false} OccurrencesAreCounted(hist: seq<Key>, k: Key)
    ensures Occurrences(hist, k) == multiset(hist)[k]
  {
    if hist != [] {
      var front, last := hist[..|hist| - 1], hist[|hist| - 1];
      OccurrencesAreCounted(front, k);
      assert hist == front + [last];
    }
  }

  lemma {:induction false} LastAtIsLast(hist: seq<Key>, k: Key)
    requires k in hist
    ensures 1 <= LastAt(hist, k) <= |hist| && hist[LastAt(hist, k) - 1] == k && k !in hist[LastAt(hist, k)..]
  {
    var front, last := hist[..|hist| - 1], hist[|hist| - 1];
    assert hist == front + [last];
    if last != k {
      LastAtIsLast(front, k);
      var n := LastAt(front, k);
      assert hist[n..] == front[n..] + [last];
    }
  }

  lemma PositionOf(hist: seq<Key>, k: Key) returns (p: nat)
    requires k in hist
    ensures p + 1 == LastAt(hist, k) && p < |hist| && hist[p] == k && k !in hist[p + 1..]
  {
    LastAtIsLast(hist, k);
    p := LastAt(hist, k) - 1;
  }

  lemma {:induction false} ResidentWasAccessed(policy: Policy, trace: Trace, budget: nat, run: seq<Sim>, g: nat, k: Key)
    requires IsRun(policy, trace, budget, run) && g <= |trace| && k in run[g].resident
    ensures k in Flat(trace, g)
  {
    if g > 0 {
      KeptWasThere(policy, trace, budget, run, g - 1, k);
      if k in run[g - 1].resident {
        ResidentWasAccessed(policy, trace, budget, run, g - 1, k);
      }
    }
  }

  lemma KeptWasThere(policy: Policy, trace: Trace, budget: nat, run: seq<Sim>, g: nat, k: Key)
    requires IsRun(policy, trace, budget, run) && g < |trace| && k in run[g + 1].resident
    ensures k in run[g].resident || k in trace[g]
  {
    assert StepAt(policy, trace, budget, run, g);
    TouchAllLoads(run[g], trace[g]);
  }

  /** What a step says of an evicted key and a kept one. */
  lemma EvictionOf(policy: Policy, trace: Trace, budget: nat, run: seq<Sim>, g: nat, v: Key, k: Key)
    requires IsRun(policy, trace, budget, run) && g < |trace| && Evicts(trace, run, g, v, k)
    ensures EvictedBefore(ToSet(trace[g]), PolicyRank(policy, trace, g, TouchAll(run[g], trace[g])), v, k)
    ensures v in Flat(trace, g + 1) && k in Flat(trace, g + 1)
  {
    assert StepAt(policy, trace, budget, run, g);
    TouchAllLoads(run[g], trace[g]);
    if v in run[g].resident {
      ResidentWasAccessed(policy, trace, budget, run, g, v);
    }
    ResidentWasAccessed(policy, trace, budget, run, g + 1, k);
  }

  // ----- All policies -----

  /** A member of the current group leaves only when nothing else is left. */
  lemma GroupIsProtected(policy: Policy, trace: Trace, budget: nat, run: seq<Sim>, g: nat, v: Key, k: Key)
    requires IsRun(policy, trace, budget, run) && g < |trace| && Evicts(trace, run, g, v, k) && v in trace[g]
    ensures k in trace[g]
  {
    EvictionOf(policy, trace, budget, run, g, v, k);
  }

  /** The cache holds as much of what was there and of the group as the budget allows. */
  lemma CacheIsFull(policy: Policy, trace: Trace, budget: nat, run: seq<Sim>, g: nat)
    requires IsRun(policy, trace, budget, run) && g < |trace|
    ensures var before := run[g].resident + (set k | k in trace[g]);
            && run[g + 1].resident <= before
            && |run[g + 1].resident| == (if |before| <= budget then |before| else budget)
    ensures run[g + 1].pageIns == run[g].pageIns + |(set k | k in trace[g]) - run[g].resident|
  {
    assert StepAt(policy, trace, budget, run, g);
    TouchAllLoads(run[g], trace[g]);
  }

  // ----- Lru and lfu -----

  lemma LruRanks(trace: Trace, budget: nat, run: seq<Sim>, g: nat, v: Key, k: Key, hist: seq<Key>)
    requires IsRun(Lru, trace, budget, run) && g < |trace| && Evicts(trace, run, g, v, k) && hist == Flat(trace, g + 1)
    requires v in trace[g] <==> k in trace[g]
    ensures v in hist && k in hist && LastAt(hist, v) <= LastAt(hist, k)
  {
    EvictionOf(Lru, trace, budget, run, g, v, k);
    RunTracks(Lru, trace, budget, run, g);
  }

  /** Of two group members, or two others, lru evicts the one whose last access is earlier. */
  lemma LruEvictsOldest(trace: Trace, budget: nat, run: seq<Sim>, g: nat, v: Key, k: Key) returns (p: nat, r: nat)
    requires IsRun(Lru, trace, budget, run) && g < |trace| && Evicts(trace, run, g, v, k)
    requires v in trace[g] <==> k in trace[g]
    ensures var hist := Flat(trace, g + 1);
            && p < r < |hist| && hist[p] == v && v !in hist[p + 1..] && hist[r] == k && k !in hist[r + 1..]
  {
    var hist := Flat(trace, g + 1);
    LruRanks(trace, budget, run, g, v, k, hist);
    p := PositionOf(hist, v);
    r := PositionOf(hist, k);
  }

  lemma LfuRanks(trace: Trace, budget: nat, run: seq<Sim>, g: nat, v: Key, k: Key, hist: seq<Key>)
    requires IsRun(Lfu, trace, budget, run) && g < |trace| && Evicts(trace, run, g, v, k) && hist == Flat(trace, g + 1)
    requires v in trace[g] <==> k in trace[g]
    ensures v in hist && k in hist && Occurrences(hist, v) <= Occurrences(hist, k)
    ensures Occurrences(hist, v) == Occurrences(hist, k) ==> LastAt(hist, v) <= LastAt(hist, k)
  {
    EvictionOf(Lfu, trace, budget, run, g, v, k);
    RunTracks(Lfu, trace, budget, run, g);
  }

  /** Lfu evicts the one used less often so far, and of two used equally often the one whose last
      access is earlier. */
  lemma LfuEvictsRarest(trace: Trace, budget: nat, run: seq<Sim>, g: nat, v: Key, k: Key) returns (p: nat, r: nat)
    requires IsRun(Lfu, trace, budget, run) && g < |trace| && Evicts(trace, run, g, v, k)
    requires v in trace[g] <==> k in trace[g]
    ensures var hist := Flat(trace, g + 1);
            && p < |hist| && hist[p] == v && v !in hist[p + 1..] && r < |hist| && hist[r] == k && k !in hist[r + 1..]
            && multiset(hist)[v] <= multiset(hist)[k] && (multiset(hist)[v] == multiset(hist)[k] ==> p < r)
  {
    var hist := Flat(trace, g + 1);
    LfuRanks(trace, budget, run, g, v, k, hist);
    OccurrencesAreCounted(hist, v);
    OccurrencesAreCounted(hist, k);
    p := PositionOf(hist, v);
    r := PositionOf(hist, k);
  }

  // ----- The oracle -----

  /** The oracle evicts a key that is not used before the one it keeps. */
  lemma OracleEvictsFarthest(trace: Trace, budget: nat, run: seq<Sim>, g: nat, v: Key, k: Key, j: nat)
    requires IsRun(Oracle, trace, budget, run) && g < |trace| && Evicts(trace, run, g, v, k)
    requires (v in trace[g] <==> k in trace[g]) && g < j < |trace| && v in trace[j]
    ensures exists i :: g < i <= j && k in trace[i]
  {
    EvictionOf(Oracle, trace, budget, run, g, v, k);
    var i := FirstUse(trace, g + 1, k);
    assert FirstUse(trace, g + 1, v) <= j;
    assert k in trace[i];
  }

  // ----- Fifo -----

  /** The residency that `k` has during group `g` began at access `i` of group `h`. */
  ghost predicate CameIn(trace: Trace, run: seq<Sim>, g: nat, k: Key, h: nat, i: nat)
    requires g < |trace| && g < |run|
  {
    && h <= g && i < |trace[h]| && trace[h][i] == k && k !in trace[h][..i]
    && k !in run[h].resident && forall j :: h < j <= g ==> k in run[j].resident
  }

  lemma {:induction false} TouchFirstTick(s: Sim, grp: seq<Key>, n: nat)
    requires n <= |grp|
    ensures TouchFirst(s, grp, n).tick == s.tick + n
  {
    if n > 0 {
      TouchFirstTick(s, grp, n - 1);
    }
  }

  lemma {:induction false} TickUntouched(s: Sim, grp: seq<Key>, n: nat, k: Key)
    requires n <= |grp| && (k in s.resident || k !in grp[..n])
    ensures Get(TouchFirst(s, grp, n).loadTick, k) == Get(s.loadTick, k)
  {
    if n > 0 {
      assert grp[..n] == grp[..n - 1] + [grp[n - 1]];
      TickUntouched(s, grp, n - 1, k);
      TouchFirstResident(s, grp, n - 1);
    }
  }

  lemma {:induction false} TickOfLoad(s: Sim, grp: seq<Key>, n: nat, k: Key, i: nat)
    requires i < n <= |grp| && k !in s.resident && grp[i] == k && k !in grp[..i]
    ensures Get(TouchFirst(s, grp, n).loadTick, k) == s.tick + i + 1
    ensures k in TouchFirst(s, grp, n).resident
  {
    if n == i + 1 {
      TouchFirstTick(s, grp, i);
      TouchFirstResident(s, grp, i);
      LoadedIsSet(grp, i);
    } else {
      TickOfLoad(s, grp, n - 1, k, i);
    }
  }

  /** The load tick is the position of the access that brought the key in. */
  lemma {:induction false} LoadTickIs(policy: Policy, trace: Trace, budget: nat, run: seq<Sim>, g: nat, k: Key,
                                     h: nat, i: nat)
    requires IsRun(policy, trace, budget, run) && g < |trace| && CameIn(trace, run, g, k, h, i)
    ensures Get(TouchAll(run[g], trace[g]).loadTick, k) == |Flat(trace, h)| + i + 1
  {
    if h == g {
      RunTracks(policy, trace, budget, run, g);
      TickOfLoad(run[g], trace[g], |trace[g]|, k, i);
    } else {
      LoadTickIs(policy, trace, budget, run, g - 1, k, h, i);
      assert StepAt(policy, trace, budget, run, g - 1);
      TickUntouched(run[g], trace[g], |trace[g]|, k);
    }
  }

  lemma {:induction false} FlatGrows(trace: Trace, h: nat, g: nat)
    requires h < g <= |trace|
    ensures |Flat(trace, h)| + |trace[h]| <= |Flat(trace, g)|
    decreases g
  {
    FlatStep(trace, g - 1, g);
    if h < g - 1 {
      FlatGrows(trace, h, g - 1);
    }
  }

  lemma FlatStep(trace: Trace, g: nat, h: nat)
    requires h == g + 1 <= |trace|
    ensures |Flat(trace, h)| == |Flat(trace, g)| + |trace[g]|
  {
  }

  /** Every resident of a group has come in at some access. */
  lemma {:induction false} ComesIn(policy: Policy, trace: Trace, budget: nat, run: seq<Sim>, g: nat, k: Key)
    returns (h: nat, i: nat)
    requires IsRun(policy, trace, budget, run) && g < |trace| && (k in run[g].resident || k in trace[g])
    ensures CameIn(trace, run, g, k, h, i)
  {
    if k in run[g].resident {
      KeptWasThere(policy, trace, budget, run, g - 1, k);
      h, i := ComesIn(policy, trace, budget, run, g - 1, k);
    } else {
      h := g;
      i := FirstIndex(trace[g], k);
    }
  }

  lemma {:induction false} FirstIndex(grp: seq<Key>, k: Key) returns (i: nat)
    requires k in grp
    ensures i < |grp| && grp[i] == k && k !in grp[..i]
  {
    var front, last := grp[..|grp| - 1], grp[|grp| - 1];
    assert grp == front + [last];
    if k in front {
      i := FirstIndex(front, k);
      assert grp[..i] == front[..i];
    } else {
      i := |grp| - 1;
    }
  }

  /** Of two group members, or two others, fifo evicts the one that came in earlier. */
  lemma FifoEvictsFirstIn(trace: Trace, budget: nat, run: seq<Sim>, g: nat, v: Key, k: Key)
    returns (h: nat, i: nat, h': nat, i': nat)
    requires IsRun(Fifo, trace, budget, run) && g < |trace| && Evicts(trace, run, g, v, k)
    requires v in trace[g] <==> k in trace[g]
    ensures CameIn(trace, run, g, v, h, i) && CameIn(trace, run, g, k, h', i')
    ensures h < h' || (h == h' && i < i')
  {
    EvictionOf(Fifo, trace, budget, run, g, v, k);
    KeptWasThere(Fifo, trace, budget, run, g, k);
    h, i := ComesIn(Fifo, trace, budget, run, g, v);
    h', i' := ComesIn(Fifo, trace, budget, run, g, k);
    LoadTickIs(Fifo, trace, budget, run, g, v, h, i);
    LoadTickIs(Fifo, trace, budget, run, g, k, h', i');
    if h > h' {
      FlatGrows(trace, h', h);
    }
  }
}
