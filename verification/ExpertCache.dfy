/** The single-tier expert-residency simulator, `sim_online`, under its five eviction policies. */
module ExpertCache {
  import opened Base

  datatype Policy = Oracle | Random | Fifo | Lru | Lfu

  // ----- Eviction order -----

  /** What `min` compares: LFU uses a pair, the others only the first component. */
  datatype Rank = Rank(major: int, minor: int)

  predicate RankLe(a: Rank, b: Rank) {
    a.major < b.major || (a.major == b.major && a.minor <= b.minor)
  }

  /** `v` may leave the cache while `k` stays: group members are protected from non-members,
      and within either class the smaller rank goes first. */
  predicate EvictedBefore(group: set<Key>, rank: Key -> Rank, v: Key, k: Key) {
    (v !in group && k in group) || ((v in group <==> k in group) && RankLe(rank(v), rank(k)))
  }

  /** The outcome of the eviction loop: `kept` is a largest affordable part of `loaded`, and
      nothing kept should have left before something evicted. */
  predicate Retained(loaded: set<Key>, group: set<Key>, budget: nat, rank: Key -> Rank, kept: set<Key>) {
    && kept <= loaded
    && |kept| == Min(budget, |loaded|)
    && forall v, k :: v in loaded && v !in kept && k in kept ==> EvictedBefore(group, rank, v, k)
  }

  // ----- Next use -----

  /** The first index at or after `from` whose group holds `k`; `|trace|` plays infinity. */
  function FirstUse(trace: Trace, from: nat, k: Key): (n: int)
    requires from <= |trace|
    ensures from <= n <= |trace|
    ensures n < |trace| ==> k in trace[n]
    ensures forall j :: from <= j < n ==> k !in trace[j]
    decreases |trace| - from
  {
    if from == |trace| || k in trace[from] then from else FirstUse(trace, from + 1, k)
  }

  /** `max(cand, key=nxt)` written as a minimum. */
  function OracleRank(trace: Trace, g: nat): Key -> Rank
    requires g < |trace|
  {
    k => Rank(-FirstUse(trace, g + 1, k), 0)
  }

  // ----- Simulator state -----

  datatype Sim = Sim(
    resident: set<Key>,
    loadTick: map<Key, int>,
    lastUse: map<Key, int>,
    freq: map<Key, int>,
    tick: int,
    pageIns: int)

  const INITIAL := Sim({}, map[], map[], map[], 0, 0)

  /** One access of the inner `for k in grp` loop. */
  function Touch(s: Sim, k: Key): Sim {
    var tick := s.tick + 1;
    var miss := k !in s.resident;
    Sim(s.resident + {k},
        if miss then s.loadTick[k := tick] else s.loadTick,
        s.lastUse[k := tick],
        s.freq[k := Get(s.freq, k) + 1],
        tick,
        s.pageIns + if miss then 1 else 0)
  }

  /** The first `n` accesses of a group. */
  function TouchFirst(s: Sim, grp: seq<Key>, n: nat): Sim
    requires n <= |grp|
  {
    if n == 0 then s else Touch(TouchFirst(s, grp, n - 1), grp[n - 1])
  }

  function TouchAll(s: Sim, grp: seq<Key>): Sim {
    TouchFirst(s, grp, |grp|)
  }

  lemma MissesGrow(loaded: set<Key>, resident: set<Key>, k: Key)
    ensures |loaded + {k} - resident| == |loaded - resident| + if k in resident + loaded then 0 else 1
  {
    if k in resident + loaded {
      assert loaded + {k} - resident == loaded - resident;
    } else {
      assert loaded + {k} - resident == (loaded - resident) + {k};
    }
  }

  /** The keys of the first `n` accesses. */
  ghost function Loaded(grp: seq<Key>, n: nat): set<Key>
    requires n <= |grp|
  {
    if n == 0 then {} else Loaded(grp, n - 1) + {grp[n - 1]}
  }

  lemma {:induction false} LoadedIsSet(grp: seq<Key>, n: nat)
    requires n <= |grp|
    ensures Loaded(grp, n) == ToSet(grp[..n])
  {
    if n > 0 {
      LoadedIsSet(grp, n - 1);
      PrefixSet(grp, n);
    }
  }

  lemma {:induction false} TouchFirstResident(s: Sim, grp: seq<Key>, n: nat)
    requires n <= |grp|
    ensures TouchFirst(s, grp, n).resident == s.resident + Loaded(grp, n)
  {
    if n > 0 {
      TouchFirstResident(s, grp, n - 1);
    }
  }

  /** First touches of absent keys among the first `n` accesses. */
  ghost function Misses(resident: set<Key>, grp: seq<Key>, n: nat): nat
    requires n <= |grp|
  {
    if n == 0 then 0
    else Misses(resident, grp, n - 1) + if grp[n - 1] in resident + Loaded(grp, n - 1) then 0 else 1
  }

  lemma {:induction false} MissesAreDistinct(resident: set<Key>, grp: seq<Key>, n: nat)
    requires n <= |grp|
    ensures Misses(resident, grp, n) == |Loaded(grp, n) - resident|
  {
    if n == 0 {
      assert Loaded(grp, 0) - resident == {};
    } else {
      MissesAreDistinct(resident, grp, n - 1);
      MissesGrow(Loaded(grp, n - 1), resident, grp[n - 1]);
    }
  }

  lemma {:induction false} TouchFirstMisses(s: Sim, grp: seq<Key>, n: nat)
    requires n <= |grp|
    ensures TouchFirst(s, grp, n).pageIns == s.pageIns + Misses(s.resident, grp, n)
  {
    if n > 0 {
      TouchFirstMisses(s, grp, n - 1);
      TouchFirstResident(s, grp, n - 1);
    }
  }

  /** Loading a group costs one page-in per absent member, however often it is repeated. */
  lemma TouchAllLoads(s: Sim, grp: seq<Key>)
    ensures TouchAll(s, grp).resident == s.resident + ToSet(grp)
    ensures TouchAll(s, grp).pageIns == s.pageIns + |ToSet(grp) - s.resident|
  {
    TouchFirstResident(s, grp, |grp|);
    TouchFirstMisses(s, grp, |grp|);
    MissesAreDistinct(s.resident, grp, |grp|);
    LoadedIsSet(grp, |grp|);
    assert grp[..|grp|] == grp;
  }

  function Recency(lastUse: map<Key, int>): Key -> Rank {
    k => Rank(Get(lastUse, k), 0)
  }

  /** The sort key of each policy. Random choice ties everything. */
  function PolicyRank(policy: Policy, trace: Trace, g: nat, s: Sim): Key -> Rank
    requires g < |trace|
  {
    match policy
    case Oracle => OracleRank(trace, g)
    case Random => k => Rank(0, 0)
    case Fifo => k => Rank(Get(s.loadTick, k), 0)
    case Lru => Recency(s.lastUse)
    case Lfu => k => Rank(Get(s.freq, k), Get(s.lastUse, k))
  }

  /** One iteration of the outer loop: touch the group, then evict down to the budget. */
  ghost predicate Step(policy: Policy, trace: Trace, g: nat, budget: nat, s: Sim, s': Sim)
    requires g < |trace|
  {
    var t := TouchAll(s, trace[g]);
    && s' == t.(resident := s'.resident, loadTick := t.loadTick - (t.resident - s'.resident))
    && Retained(t.resident, ToSet(trace[g]), budget, PolicyRank(policy, trace, g, t), s'.resident)
  }

  ghost predicate StepAt(policy: Policy, trace: Trace, budget: nat, run: seq<Sim>, g: nat)
    requires g < |trace| && g + 1 < |run|
  {
    Step(policy, trace, g, budget, run[g], run[g + 1])
  }

  /** The first `n` groups of a run; `run[g]` is the state after `g` groups. */
  ghost predicate IsRunOf(policy: Policy, trace: Trace, budget: nat, run: seq<Sim>, n: nat)
    requires n <= |trace|
  {
    && |run| == n + 1
    && run[0] == INITIAL
    && forall g :: 0 <= g < n ==> StepAt(policy, trace, budget, run, g)
  }

  /** A whole run. Ties may be broken either way at every step. */
  ghost predicate IsRun(policy: Policy, trace: Trace, budget: nat, run: seq<Sim>) {
    IsRunOf(policy, trace, budget, run, |trace|)
  }

  lemma ExtendRun(policy: Policy, trace: Trace, budget: nat, run: seq<Sim>, n: nat, s: Sim)
    requires n < |trace| && IsRunOf(policy, trace, budget, run, n)
    requires Step(policy, trace, n, budget, run[n], s)
    ensures IsRunOf(policy, trace, budget, run + [s], n + 1)
  {
    var longer := run + [s];
    forall g | 0 <= g < n + 1
      ensures StepAt(policy, trace, budget, longer, g)
    {
      assert g < n ==> StepAt(policy, trace, budget, run, g);
    }
  }

  // ----- Finding a victim -----

  predicate IsLeast(cand: set<Key>, rank: Key -> Rank, v: Key) {
    v in cand && forall k :: k in cand ==> RankLe(rank(v), rank(k))
  }

  lemma {:induction false} LeastExists(cand: set<Key>, rank: Key -> Rank) returns (v: Key)
    requires cand != {}
    ensures IsLeast(cand, rank, v)
  {
    v := Pick(cand);
    if cand != {v} {
      var rest := cand - {v};
      var w := LeastExists(rest, rank);
      v := if RankLe(rank(w), rank(v)) then w else v;
    }
  }

  function Uses(future: map<Key, seq<int>>, k: Key): seq<int> {
    if k in future then future[k] else []
  }

  /** One entry `g` for every time the first `n` members of the group name `k`. */
  function Marks(g: nat, grp: seq<Key>, n: nat, k: Key): seq<int>
    requires n <= |grp|
  {
    if n == 0 then [] else Marks(g, grp, n - 1, k) + if grp[n - 1] == k then [g] else []
  }

  function UseList(trace: Trace, n: nat, k: Key): seq<int>
    requires n <= |trace|
  {
    if n == 0 then [] else UseList(trace, n - 1, k) + Marks(n - 1, trace[n - 1], |trace[n - 1]|, k)
  }

  lemma {:induction false} MarksMeaning(g: nat, grp: seq<Key>, n: nat, k: Key)
    requires n <= |grp|
    ensures forall i :: 0 <= i < |Marks(g, grp, n, k)| ==> Marks(g, grp, n, k)[i] == g
    ensures Marks(g, grp, n, k) != [] <==> k in grp[..n]
  {
    if n > 0 {
      MarksMeaning(g, grp, n - 1, k);
      assert grp[..n] == grp[..n - 1] + [grp[n - 1]];
    }
  }

  /** The list ascends and holds exactly the earlier groups that use the key. */
  lemma UseListMeaning(trace: Trace, n: nat, k: Key)
    requires n <= |trace|
    ensures IsUseList(trace, n, k, UseList(trace, n, k))
  {
    for g := 0 to n
      invariant IsUseList(trace, g, k, UseList(trace, g, k))
    {
      MoreUses(trace, g, g + 1, k);
    }
  }

  lemma MoreUses(trace: Trace, g: nat, h: nat, k: Key)
    requires h == g + 1 <= |trace| && IsUseList(trace, g, k, UseList(trace, g, k))
    ensures IsUseList(trace, h, k, UseList(trace, h, k))
  {
    var grp := trace[g];
    MarksMeaning(g, grp, |grp|, k);
    assert grp[..|grp|] == grp;
    AppendUses(trace, g, k, UseList(trace, g, k), Marks(g, grp, |grp|, k));
  }

  ghost predicate IsUseList(trace: Trace, n: nat, k: Key, lst: seq<int>)
    requires n <= |trace|
  {
    && Ascending(lst)
    && (forall i :: 0 <= i < |lst| ==> 0 <= lst[i] < n && k in trace[lst[i]])
    && (forall j :: 0 <= j < n && k in trace[j] ==> j in lst)
  }

  lemma AppendUses(trace: Trace, g: nat, k: Key, lst: seq<int>, marks: seq<int>)
    requires g < |trace| && IsUseList(trace, g, k, lst)
    requires (forall i :: 0 <= i < |marks| ==> marks[i] == g) && (marks != [] <==> k in trace[g])
    ensures IsUseList(trace, g + 1, k, lst + marks)
  {
    if marks != [] {
      assert marks[0] in lst + marks;
    }
  }

  /** The `future` index, a dictionary defaulting to the empty list. */
  ghost predicate IsFuture(trace: Trace, upTo: nat, future: map<Key, seq<int>>)
    requires upTo <= |trace|
  {
    forall k :: Uses(future, k) == UseList(trace, upTo, k)
  }

  predicate Ascending(s: seq<int>) {
    forall i, j :: 0 <= i < j < |s| ==> s[i] <= s[j]
  }

  /** `bisect.bisect_right` on an ascending list. */
  function BisectRight(s: seq<int>, x: int): (i: nat)
    ensures i <= |s|
    ensures Ascending(s) ==> (forall j :: 0 <= j < i ==> s[j] <= x) && (forall j :: i <= j < |s| ==> x < s[j])
  {
    if s == [] then 0
    else if x < s[|s| - 1] then BisectRight(s[..|s| - 1], x)
    else |s|
  }

  /** `nxt(k)`, with `last` standing for infinity. */
  function Nxt(future: map<Key, seq<int>>, g: nat, last: nat, k: Key): int {
    var lst := Uses(future, k);
    var i := BisectRight(lst, g);
    if i < |lst| then lst[i] else last
  }

  lemma {:induction false} NxtIsFirstUse(trace: Trace, g: nat, future: map<Key, seq<int>>, k: Key)
    requires g < |trace| && IsFuture(trace, |trace|, future)
    ensures Nxt(future, g, |trace|, k) == FirstUse(trace, g + 1, k)
  {
    var lst, f := Uses(future, k), FirstUse(trace, g + 1, k);
    var i := BisectRight(lst, g);
    UseListMeaning(trace, |trace|, k);
    if f < |trace| {
      var j :| 0 <= j < |lst| && lst[j] == f;
      assert i <= j;
    }
  }

  ghost predicate Indexed(g: nat, grp: seq<Key>, n: nat, before: map<Key, seq<int>>, after: map<Key, seq<int>>)
    requires n <= |grp|
  {
    forall q :: Uses(after, q) == Uses(before, q) + Marks(g, grp, n, q)
  }

  lemma IndexOne(g: nat, grp: seq<Key>, i: nat, before: map<Key, seq<int>>, after: map<Key, seq<int>>)
    requires i < |grp| && Indexed(g, grp, i, before, after)
    ensures Indexed(g, grp, i + 1, before, after[grp[i] := Uses(after, grp[i]) + [g]])
  {
    var k := grp[i];
    var next := after[k := Uses(after, k) + [g]];
    forall q
      ensures Uses(next, q) == Uses(before, q) + Marks(g, grp, i + 1, q)
    {
      assert Uses(after, q) == Uses(before, q) + Marks(g, grp, i, q);
      assert Uses(next, q) == Uses(after, q) + if q == k then [g] else [];
    }
  }

  method IndexGroup(g: nat, grp: seq<Key>, before: map<Key, seq<int>>) returns (future: map<Key, seq<int>>)
    ensures Indexed(g, grp, |grp|, before, future)
  {
    future := before;
    for i := 0 to |grp|
      invariant Indexed(g, grp, i, before, future)
    {
      IndexOne(g, grp, i, before, future);
      future := future[grp[i] := Uses(future, grp[i]) + [g]];
    }
  }

  method BuildFuture(trace: Trace) returns (future: map<Key, seq<int>>)
    ensures IsFuture(trace, |trace|, future)
  {
    future := map[];
    for g := 0 to |trace|
      invariant IsFuture(trace, g, future)
    {
      future := IndexGroup(g, trace[g], future);
    }
  }

  /** The key function handed to `min`, computed from the simulator's own tables. */
  function VictimRank(policy: Policy, future: map<Key, seq<int>>, g: nat, last: nat,
                      loadTick: map<Key, int>, lastUse: map<Key, int>, freq: map<Key, int>, k: Key): Rank
  {
    match policy
    case Random => Rank(0, 0)
    case Fifo => Rank(Get(loadTick, k), 0)
    case Lru => Rank(Get(lastUse, k), 0)
    case Lfu => Rank(Get(freq, k), Get(lastUse, k))
    case Oracle => Rank(-Nxt(future, g, last, k), 0)
  }

  /** The inner `for k in grp` loop over the simulator's tables. */
  method TouchGroup(s: Sim, grp: seq<Key>) returns (t: Sim)
    ensures t == TouchAll(s, grp)
  {
    var resident, loadTick, lastUse, freq := s.resident, s.loadTick, s.lastUse, s.freq;
    var tick, pageIns := s.tick, s.pageIns;
    for i := 0 to |grp|
      invariant Sim(resident, loadTick, lastUse, freq, tick, pageIns) == TouchFirst(s, grp, i)
    {
      var k := grp[i];
      tick := tick + 1;
      if k !in resident {
        pageIns := pageIns + 1;
        resident := resident + {k};
        loadTick := loadTick[k := tick];
      } else {
        assert resident + {k} == resident;
      }
      lastUse := lastUse[k := tick];
      freq := freq[k := Get(freq, k) + 1];
    }
    t := Sim(resident, loadTick, lastUse, freq, tick, pageIns);
  }

  ghost predicate Evicting(loaded: set<Key>, group: set<Key>, budget: nat, rank: Key -> Rank, resident: set<Key>) {
    && resident <= loaded
    && |resident| >= Min(budget, |loaded|)
    && forall v, k :: v in loaded && v !in resident && k in resident ==> EvictedBefore(group, rank, v, k)
  }

  lemma EvictOne(loaded: set<Key>, group: set<Key>, budget: nat, rank: Key -> Rank, resident: set<Key>, victim: Key)
    requires Evicting(loaded, group, budget, rank, resident) && |resident| > budget
    requires victim in resident && (victim in group ==> resident <= group)
    requires forall k :: k in resident && (k in group <==> victim in group) ==> RankLe(rank(victim), rank(k))
    ensures Evicting(loaded, group, budget, rank, resident - {victim})
  {
  }

  lemma PopOne(m: map<Key, int>, loaded: set<Key>, resident: set<Key>, victim: Key)
    requires resident <= loaded && victim in resident
    ensures m - (loaded - resident) - {victim} == m - (loaded - (resident - {victim}))
  {
    assert loaded - (resident - {victim}) == (loaded - resident) + {victim};
  }

  /** The inner `while len(resident) > budget` loop. */
  method EvictDown(policy: Policy, trace: Trace, g: nat, budget: nat, future: map<Key, seq<int>>, t: Sim)
    returns (resident: set<Key>, loadTick: map<Key, int>)
    requires g < |trace|
    requires policy == Oracle ==> IsFuture(trace, |trace|, future)
    ensures Retained(t.resident, ToSet(trace[g]), budget, PolicyRank(policy, trace, g, t), resident)
    ensures loadTick == t.loadTick - (t.resident - resident)
  {
    resident, loadTick := t.resident, t.loadTick;
    ghost var rank := PolicyRank(policy, trace, g, t);
    while |resident| > budget
      invariant Evicting(t.resident, ToSet(trace[g]), budget, rank, resident)
      invariant loadTick == t.loadTick - (t.resident - resident)
    {
      var protected := ToSet(trace[g]);
      var unprotected := resident - protected;
      var cand := if unprotected != {} then unprotected else resident;
      var victim := PickVictim(policy, trace, g, future, t, loadTick, cand, t.resident - resident);
      EvictOne(t.resident, protected, budget, rank, resident, victim);
      PopOne(t.loadTick, t.resident, resident, victim);
      resident := resident - {victim};
      loadTick := loadTick - {victim};
    }
    CardMono(resident, t.resident);
  }

  /** `min(cand, key=...)`: some candidate of least key, whichever the iteration order favours. */
  method PickVictim(policy: Policy, trace: Trace, g: nat, future: map<Key, seq<int>>, t: Sim,
                    loadTick: map<Key, int>, cand: set<Key>, ghost gone: set<Key>) returns (victim: Key)
    requires g < |trace| && cand != {}
    requires policy == Oracle ==> IsFuture(trace, |trace|, future)
    requires loadTick == t.loadTick - gone && cand !! gone
    ensures IsLeast(cand, PolicyRank(policy, trace, g, t), victim)
  {
    ghost var rank := PolicyRank(policy, trace, g, t);
    forall k | k in cand
      ensures VictimRank(policy, future, g, |trace|, loadTick, t.lastUse, t.freq, k) == rank(k)
    {
      if policy == Oracle {
        NxtIsFirstUse(trace, g, future, k);
      }
    }
    ghost var least := LeastExists(cand, rank);
    victim :| victim in cand && forall k :: k in cand ==>
      RankLe(VictimRank(policy, future, g, |trace|, loadTick, t.lastUse, t.freq, victim),
             VictimRank(policy, future, g, |trace|, loadTick, t.lastUse, t.freq, k));
  }

  /** Some run of the policy ends with this many page-ins. */
  ghost predicate Costs(policy: Policy, trace: Trace, budget: nat, pageIns: int) {
    exists run: seq<Sim> :: IsRun(policy, trace, budget, run) && run[|trace|].pageIns == pageIns
  }

  /** `sim_online`: the page-ins it returns are those of a run of the policy. */
  method SimOnline(trace: Trace, budget: nat, policy: Policy) returns (pageIns: int)
    ensures Costs(policy, trace, budget, pageIns)
  {
    var s := INITIAL;
    ghost var run := [s];
    var future: map<Key, seq<int>> := map[];
    if policy == Oracle {
      future := BuildFuture(trace);
    }
    for g := 0 to |trace|
      invariant IsRunOf(policy, trace, budget, run, g) && run[g] == s
    {
      var t := TouchGroup(s, trace[g]);
      var resident, loadTick := EvictDown(policy, trace, g, budget, future, t);
      s := t.(resident := resident, loadTick := loadTick);
      ExtendRun(policy, trace, budget, run, g, s);
      run := run + [s];
    }
    pageIns := s.pageIns;
    assert IsRun(policy, trace, budget, run);
  }
}
