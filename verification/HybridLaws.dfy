/** Which keys `sim_hybrid` pins and what that saves, in terms of how often keys occur in the trace. */
module HybridLaws {
  import opened Base
  import opened ExpertCache
  import opened Belady
  import opened StaticPin
  import opened HybridCache

  /** The counts of the trace itself. */
  ghost predicate CountsOf(trace: Trace, counts: seq<int>) {
    && (forall g, i :: 0 <= g < |trace| && 0 <= i < |trace[g]| ==> 0 <= trace[g][i] < |counts|)
    && (forall k :: 0 <= k < |counts| ==> counts[k] == multiset(Flat(trace, |trace|))[k])
  }

  /** The keys counted at least `numSteps` times. */
  ghost function Frequent(counts: seq<int>, numSteps: int): set<Key> {
    set k | 0 <= k < |counts| && counts[k] >= numSteps
  }

  /** The core is the frequent keys if they fit, and otherwise as many as fit, none of them less
      frequent than one left out. */
  lemma CoreLaw(counts: seq<int>, numSteps: int, budget: nat, core: set<Key>)
    requires IsCore(counts, numSteps, budget, core)
    ensures var frequent := set k | 0 <= k < |counts| && counts[k] >= numSteps;
            && core <= frequent && (|frequent| <= budget ==> core == frequent)
            && (|frequent| > budget ==> |core| == budget)
            && forall v, k :: v in frequent && v !in core && k in core ==> counts[v] <= counts[k]
  {
    var frequent := set k | 0 <= k < |counts| && counts[k] >= numSteps;
    forall v, k | v in frequent && v !in core && k in core
      ensures counts[v] <= counts[k]
    {
      assert EvictedBefore({}, CountRank(counts), v, k);
    }
    if |frequent| <= budget {
      SameCard(core, frequent);
    }
  }

  // ----- What is charged -----

  /** Positions of the accesses of group `g` and before to keys outside `keys`. */
  ghost function Others(trace: Trace, n: nat, keys: set<Key>): set<(int, int)>
    requires n <= |trace|
  {
    set g, i | 0 <= g < n && 0 <= i < |trace[g]| && trace[g][i] !in keys :: (g, i)
  }

  ghost function GroupOthers(grp: seq<Key>, g: int, n: nat, keys: set<Key>): set<(int, int)>
    requires n <= |grp|
  {
    set i | 0 <= i < n && grp[i] !in keys :: (g, i)
  }

  lemma {:induction false} GroupStreamedCounts(grp: seq<Key>, g: int, n: nat, keys: set<Key>)
    requires n <= |grp|
    ensures GroupStreamed(grp, n, keys) == |GroupOthers(grp, g, n, keys)|
  {
    if n == 0 {
      assert GroupOthers(grp, g, 0, keys) == {};
    } else {
      GroupStreamedCounts(grp, g, n - 1, keys);
      assert GroupOthers(grp, g, n, keys) ==
             GroupOthers(grp, g, n - 1, keys) + if grp[n - 1] in keys then {} else {(g, n - 1)};
    }
  }

  /** What a set of pins streams is the number of accesses to other keys. */
  lemma {:induction false} StreamedCounts(trace: Trace, n: nat, keys: set<Key>)
    requires n <= |trace|
    ensures Streamed(trace, n, keys) == |Others(trace, n, keys)|
  {
    if n == 0 {
      assert Others(trace, 0, keys) == {};
    } else {
      StreamedCounts(trace, n - 1, keys);
      var grp := trace[n - 1];
      GroupStreamedCounts(grp, n - 1, |grp|, keys);
      assert Others(trace, n, keys) == Others(trace, n - 1, keys) + GroupOthers(grp, n - 1, |grp|, keys);
    }
  }

  lemma {:induction false} StruckLength(grp: seq<Key>, n: nat, core: set<Key>)
    requires n <= |grp|
    ensures |WithoutCore(grp, n, core)| == GroupStreamed(grp, n, core)
  {
    if n > 0 {
      StruckLength(grp, n - 1, core);
    }
  }

  lemma {:induction false} UncoredCost(trace: Trace, core: set<Key>, res: seq<set<Key>>, g: nat)
    requires g <= |trace| && |res| >= g
    ensures PageIns(Uncored(trace, core), res, g) <= Streamed(trace, g, core)
  {
    if g > 0 {
      UncoredCost(trace, core, res, g - 1);
      var rest := Uncored(trace, core)[g - 1];
      StruckLength(trace[g - 1], |trace[g - 1]|, core);
      ToSetCard(rest);
      CardMono(ToSet(rest) - res[g - 1], ToSet(rest));
    }
  }

  lemma UncoredPageIns(trace: Trace, core: set<Key>, slots: nat, pageIns: int)
    requires Costs(Lru, Uncored(trace, core), slots, pageIns)
    ensures pageIns <= |Others(trace, |trace|, core)|
  {
    var run: seq<Sim> :| IsRun(Lru, Uncored(trace, core), slots, run) && run[|trace|].pageIns == pageIns;
    RunPageIns(Lru, Uncored(trace, core), slots, run, |trace|);
    UncoredCost(trace, core, Residents(run), |trace|);
    StreamedCounts(trace, |trace|, core);
  }

  /** If the frequent keys fit, no access to one is charged: the page-ins are at most the accesses to
      other keys. */
  lemma FrequentIsFree(trace: Trace, budget: nat, counts: seq<int>, numSteps: int, pageIns: int)
    requires HybridCosts(trace, budget, counts, numSteps, pageIns)
    requires |set k | 0 <= k < |counts| && counts[k] >= numSteps| <= budget
    ensures pageIns <= |set g, i | 0 <= g < |trace| && 0 <= i < |trace[g]| &&
                        !(0 <= trace[g][i] < |counts| && counts[trace[g][i]] >= numSteps) :: (g, i)|
  {
    var core :| IsCore(counts, numSteps, budget, core) && |core| <= budget &&
                Costs(Lru, Uncored(trace, core), budget - |core|, pageIns);
    CoreLaw(counts, numSteps, budget, core);
    UncoredPageIns(trace, core, budget - |core|, pageIns);
    assert Others(trace, |trace|, core) ==
           set g, i | 0 <= g < |trace| && 0 <= i < |trace[g]| &&
                      !(0 <= trace[g][i] < |counts| && counts[trace[g][i]] >= numSteps) :: (g, i);
  }

  // ----- Striking a frequent key -----

  /** The first `n` members of the group, but for `x`. */
  ghost function StrikeFirst(grp: seq<Key>, n: nat, x: Key): seq<Key>
    requires n <= |grp|
  {
    if n == 0 then [] else StrikeFirst(grp, n - 1, x) + if grp[n - 1] == x then [] else [grp[n - 1]]
  }

  ghost function Strike(trace: Trace, x: Key): (t: Trace)
    ensures |t| == |trace| && forall g :: 0 <= g < |trace| ==> t[g] == StrikeFirst(trace[g], |trace[g]|, x)
  {
    seq(|trace|, g requires 0 <= g < |trace| => StrikeFirst(trace[g], |trace[g]|, x))
  }

  /** How often `k` is left when every `x` is struck. */
  ghost predicate LeftOver(all: seq<Key>, left: seq<Key>, x: Key, k: Key) {
    multiset(left)[k] == if k == x then 0 else multiset(all)[k]
  }

  lemma CountBoth(all: seq<Key>, grp: seq<Key>, left: seq<Key>, rest: seq<Key>, x: Key, k: Key)
    requires LeftOver(all, left, x, k) && LeftOver(grp, rest, x, k)
    ensures LeftOver(all + grp, left + rest, x, k)
  {
    CountAppend(all, grp, k);
    CountAppend(left, rest, k);
  }

  lemma StrikeOne(last: Key, x: Key, k: Key)
    ensures LeftOver([last], if last == x then [] else [last], x, k)
  {
  }

  lemma StrikeMore(grp: seq<Key>, n: nat, m: nat, left: seq<Key>, x: Key, k: Key)
    requires m == n + 1 <= |grp| && LeftOver(grp[..n], left, x, k)
    ensures LeftOver(grp[..m], left + if grp[n] == x then [] else [grp[n]], x, k)
  {
    StrikeOne(grp[n], x, k);
    CountBoth(grp[..n], [grp[n]], left, if grp[n] == x then [] else [grp[n]], x, k);
    assert grp[..m] == grp[..n] + [grp[n]];
  }

  lemma {:induction false} StrikeCount(grp: seq<Key>, n: nat, x: Key, k: Key)
    requires n <= |grp|
    ensures LeftOver(grp[..n], StrikeFirst(grp, n, x), x, k)
  {
    if n > 0 {
      StrikeCount(grp, n - 1, x, k);
      StrikeMore(grp, n - 1, n, StrikeFirst(grp, n - 1, x), x, k);
    }
  }

  /** How often `k` is left in the first `n` groups. */
  ghost predicate StruckAt(trace: Trace, struck: Trace, n: nat, x: Key, k: Key)
    requires n <= |trace| == |struck|
  {
    LeftOver(Flat(trace, n), Flat(struck, n), x, k)
  }

  lemma StruckGroup(trace: Trace, struck: Trace, n: nat, x: Key, k: Key)
    requires struck == Strike(trace, x) && n < |trace|
    ensures LeftOver(trace[n], struck[n], x, k)
  {
    StrikeCount(trace[n], |trace[n]|, x, k);
    assert trace[n][..|trace[n]|] == trace[n];
  }

  lemma StrikeStep(trace: Trace, struck: Trace, n: nat, m: nat, x: Key, k: Key)
    requires m == n + 1 <= |trace| == |struck| && StruckAt(trace, struck, n, x, k)
    requires LeftOver(trace[n], struck[n], x, k)
    ensures StruckAt(trace, struck, m, x, k)
  {
    CountBoth(Flat(trace, n), trace[n], Flat(struck, n), struck[n], x, k);
  }

  lemma StrikeCounts(trace: Trace, struck: Trace, x: Key, k: Key)
    requires struck == Strike(trace, x)
    ensures StruckAt(trace, struck, |trace|, x, k)
  {
    for n := 0 to |trace|
      invariant StruckAt(trace, struck, n, x, k)
    {
      StruckGroup(trace, struck, n, x, k);
      StrikeStep(trace, struck, n, n + 1, x, k);
    }
  }

  lemma {:induction false} WithoutCoreIgnoresTail(grp: seq<Key>, more: seq<Key>, n: nat, core: set<Key>)
    requires n <= |grp|
    ensures WithoutCore(grp + more, n, core) == WithoutCore(grp, n, core)
  {
    if n > 0 {
      WithoutCoreIgnoresTail(grp, more, n - 1, core);
    }
  }

  /** Striking a core key first changes nothing of what is left. */
  lemma {:induction false} StrikeThenCore(grp: seq<Key>, n: nat, x: Key, core: set<Key>)
    requires n <= |grp| && x in core
    ensures var left := StrikeFirst(grp, n, x);
            WithoutCore(left, |left|, core - {x}) == WithoutCore(grp, n, core)
  {
    if n > 0 {
      StrikeThenCore(grp, n - 1, x, core);
      var left, k := StrikeFirst(grp, n - 1, x), grp[n - 1];
      if k == x {
        assert StrikeFirst(grp, n, x) == left;
      } else {
        WithoutCoreIgnoresTail(left, [k], |left|, core - {x});
        assert (left + [k])[|left|] == k;
      }
    }
  }

  lemma StrikeUncored(trace: Trace, x: Key, core: set<Key>)
    requires x in core
    ensures Uncored(Strike(trace, x), core - {x}) == Uncored(trace, core)
  {
    forall g | 0 <= g < |trace|
      ensures Uncored(Strike(trace, x), core - {x})[g] == Uncored(trace, core)[g]
    {
      StrikeThenCore(trace[g], |trace[g]|, x, core);
    }
  }

  lemma FittingCore(counts: seq<int>, numSteps: int, budget: nat, core: set<Key>)
    requires |Frequent(counts, numSteps)| <= budget
    ensures IsCore(counts, numSteps, budget, core) <==> core == Frequent(counts, numSteps)
  {
    if IsCore(counts, numSteps, budget, core) {
      CoreLaw(counts, numSteps, budget, core);
    }
  }

  lemma OnlyFrequentCore(trace: Trace, budget: nat, counts: seq<int>, numSteps: int, core: set<Key>, pageIns: int)
    requires core == Frequent(counts, numSteps) && |core| <= budget
    requires HybridCosts(trace, budget, counts, numSteps, pageIns)
    ensures Costs(Lru, Uncored(trace, core), budget - |core|, pageIns)
  {
    var c :| IsCore(counts, numSteps, budget, c) && |c| <= budget &&
             Costs(Lru, Uncored(trace, c), budget - |c|, pageIns);
    FittingCore(counts, numSteps, budget, c);
  }

  /** With fitting frequent keys the cost is that of lru on the other keys, in the slots left. */
  lemma FittingCost(trace: Trace, budget: nat, counts: seq<int>, numSteps: int, core: set<Key>, left: Trace, slots: nat,
                    pageIns: int)
    requires core == Frequent(counts, numSteps) && slots + |core| == budget && left == Uncored(trace, core)
    ensures HybridCosts(trace, budget, counts, numSteps, pageIns) <==> Costs(Lru, left, slots, pageIns)
  {
    FittingCore(counts, numSteps, budget, core);
    if HybridCosts(trace, budget, counts, numSteps, pageIns) {
      OnlyFrequentCore(trace, budget, counts, numSteps, core, pageIns);
    }
  }

  lemma StruckCore(trace: Trace, counts: seq<int>, struck: seq<int>, numSteps: int, x: Key)
    requires CountsOf(trace, counts) && CountsOf(Strike(trace, x), struck) && |struck| == |counts| && numSteps >= 1
    ensures Frequent(struck, numSteps) == Frequent(counts, numSteps) - {x}
  {
    forall k | 0 <= k < |counts|
      ensures struck[k] == if k == x then 0 else counts[k]
    {
      StrikeCounts(trace, Strike(trace, x), x, k);
    }
  }

  lemma OneFewer(core: set<Key>, rest: set<Key>, x: Key)
    requires x in core && rest == core - {x}
    ensures |rest| + 1 == |core|
  {
  }

  lemma StrikeCoreKey(trace: Trace, counts: seq<int>, struck: seq<int>, numSteps: int, budget: nat, x: Key,
                      pageIns: int)
    requires x in Frequent(counts, numSteps) && Frequent(struck, numSteps) == Frequent(counts, numSteps) - {x}
    requires 1 <= budget && |Frequent(counts, numSteps)| <= budget
    ensures HybridCosts(trace, budget, counts, numSteps, pageIns) <==>
            HybridCosts(Strike(trace, x), budget - 1, struck, numSteps, pageIns)
  {
    var core, rest := Frequent(counts, numSteps), Frequent(struck, numSteps);
    var left, slots := Uncored(trace, core), budget - |core|;
    StrikeUncored(trace, x, core);
    OneFewer(core, rest, x);
    FittingCost(trace, budget, counts, numSteps, core, left, slots, pageIns);
    FittingCost(Strike(trace, x), budget - 1, struck, numSteps, rest, left, slots, pageIns);
  }

  /** The keys below `n` that occur at least `numSteps` times. */
  ghost function OftenIn(trace: Trace, n: nat, numSteps: int): set<Key> {
    set k | 0 <= k < n && multiset(Flat(trace, |trace|))[k] >= numSteps
  }

  lemma FrequentIsOften(trace: Trace, counts: seq<int>, numSteps: int)
    requires CountsOf(trace, counts)
    ensures Frequent(counts, numSteps) == OftenIn(trace, |counts|, numSteps)
  {
  }

  /** When the keys that occur at least `numSteps` times fit, each of them takes one slot and nothing
      else: striking it from the trace, with one slot less, leaves the result as it is. */
  lemma StrikingFrequentKey(trace: Trace, counts: seq<int>, struck: seq<int>, numSteps: int, budget: nat, x: Key,
                            pageIns: int)
    requires CountsOf(trace, counts) && CountsOf(Strike(trace, x), struck) && |struck| == |counts|
    requires numSteps >= 1 && budget >= 1
    requires x in OftenIn(trace, |counts|, numSteps) && |OftenIn(trace, |counts|, numSteps)| <= budget
    ensures HybridCosts(trace, budget, counts, numSteps, pageIns) <==>
            HybridCosts(Strike(trace, x), budget - 1, struck, numSteps, pageIns)
  {
    FrequentIsOften(trace, counts, numSteps);
    StruckCore(trace, counts, struck, numSteps, x);
    StrikeCoreKey(trace, counts, struck, numSteps, budget, x, pageIns);
  }
}
