/** The composed PCIe floor: `static_pin_pcie` (hot pins, first-come batches) and `oracle_pcie`
    (the Belady floor at per-layer granularity), both per request. */
module PcieFloor {
  import opened Base
  import opened ExpertCache
  import opened Belady
  import opened RouteScheduler

  // ----- Pinned batches -----

  /** Keys wanted by the requests from `lo` up to `hi`. */
  ghost function Chunk(reqs: seq<seq<Key>>, lo: nat, hi: nat): set<Key>
    requires lo <= hi <= |reqs|
  {
    if lo == hi then {} else Chunk(reqs, lo, hi - 1) + ToSet(reqs[hi - 1])
  }

  /** What a batch of consecutive requests costs, given the two ends. */
  type Cost = (nat, nat) -> int

  ghost function ChunkCost(reqs: seq<seq<Key>>, pins: set<Key>): Cost {
    (lo: nat, hi: nat) => if lo <= hi <= |reqs| then |Chunk(reqs, lo, hi) - pins| else 0
  }

  /** Total cost of `n` requests from the `i`-th on, in batches of `w`. */
  ghost function BatchSum(cost: Cost, n: nat, w: nat, i: nat): int
    requires w >= 1
    decreases n - i
  {
    if i >= n then 0 else cost(i, Min(i + w, n)) + BatchSum(cost, n, w, i + w)
  }

  ghost function BatchLoads(reqs: seq<seq<Key>>, pins: set<Key>, w: nat): int
    requires w >= 1
  {
    BatchSum(ChunkCost(reqs, pins), |reqs|, w, 0)
  }

  function PerToken(total: int, n: nat): (r: real)
    requires n > 0
    ensures r * n as real == total as real
  {
    total as real / n as real
  }

  /** The union of one batch, request by request and key by key. */
  method UnpinnedUnion(reqs: seq<seq<Key>>, pins: set<Key>, lo: nat, hi: nat) returns (union: set<Key>)
    requires lo <= hi <= |reqs|
    ensures union == Chunk(reqs, lo, hi) - pins
  {
    union := {};
    for r := lo to hi
      invariant union == Chunk(reqs, lo, r) - pins
    {
      for j := 0 to |reqs[r]|
        invariant union == Chunk(reqs, lo, r) - pins + (ToSet(reqs[r][..j]) - pins)
      {
        PrefixSet(reqs[r], j + 1);
        if reqs[r][j] !in pins {
          union := union + {reqs[r][j]};
        }
      }
      assert reqs[r][..|reqs[r]|] == reqs[r];
    }
  }

  ghost predicate CostAt(reqs: seq<seq<Key>>, pins: set<Key>, cost: Cost, lo: nat, hi: nat)
    requires lo <= hi <= |reqs|
  {
    cost(lo, hi) == |Chunk(reqs, lo, hi) - pins|
  }

  /** `cost` counts the unpinned keys of every run of requests. */
  ghost predicate IsCost(reqs: seq<seq<Key>>, pins: set<Key>, cost: Cost) {
    forall lo, hi :: 0 <= lo <= hi <= |reqs| ==> CostAt(reqs, pins, cost, lo, hi)
  }

  method BatchLoad(reqs: seq<seq<Key>>, pins: set<Key>, lo: nat, hi: nat, ghost cost: Cost) returns (loads: int)
    requires lo <= hi <= |reqs| && IsCost(reqs, pins, cost)
    ensures loads == cost(lo, hi)
  {
    assert CostAt(reqs, pins, cost, lo, hi);
    var union := UnpinnedUnion(reqs, pins, lo, hi);
    loads := |union|;
  }

  /** The loop over the batches. */
  method SumLoads(reqs: seq<seq<Key>>, pins: set<Key>, w: nat, ghost cost: Cost) returns (total: int)
    requires w >= 1 && IsCost(reqs, pins, cost)
    ensures total == BatchSum(cost, |reqs|, w, 0)
  {
    total := 0;
    var i := 0;
    while i < |reqs|
      invariant total + BatchSum(cost, |reqs|, w, i) == BatchSum(cost, |reqs|, w, 0)
    {
      var loads := BatchLoad(reqs, pins, i, Min(i + w, |reqs|), cost);
      total := total + loads;
      i := i + w;
    }
  }

  method PinLoads(reqs: seq<seq<Key>>, pins: set<Key>, w: nat) returns (total: int)
    requires w >= 1
    ensures total == BatchLoads(reqs, pins, w)
  {
    total := SumLoads(reqs, pins, w, ChunkCost(reqs, pins));
  }

  /** `static_pin_pcie`: loads per request. A batch size of zero, or no requests, is an error. */
  method StaticPinPcie(reqs: seq<seq<Key>>, pins: set<Key>, w: nat) returns (perToken: Option<real>)
    ensures perToken.Some? <==> w >= 1 && reqs != []
    ensures perToken.Some? ==> perToken.value * |reqs| as real == BatchLoads(reqs, pins, w) as real
  {
    if w == 0 || reqs == [] {
      return None;
    }
    var total := PinLoads(reqs, pins, w);
    perToken := Some(PerToken(total, |reqs|));
  }

  // ----- Wider batches load no more -----

  ghost predicate CostsMoreSplit(cost: Cost, n: nat) {
    && (forall i :: 0 <= i <= n ==> cost(i, i) == 0)
    && (forall lo, mid, hi :: 0 <= lo <= mid <= hi <= n ==> SplitsAt(cost, lo, mid, hi))
  }

  ghost predicate SplitsAt(cost: Cost, lo: nat, mid: nat, hi: nat) {
    cost(lo, hi) <= cost(lo, mid) + cost(mid, hi)
  }

  lemma {:induction false} ChunkSplit(reqs: seq<seq<Key>>, lo: nat, mid: nat, hi: nat)
    requires lo <= mid <= hi <= |reqs|
    ensures Chunk(reqs, lo, hi) == Chunk(reqs, lo, mid) + Chunk(reqs, mid, hi)
  {
    if mid < hi {
      ChunkSplit(reqs, lo, mid, hi - 1);
    }
  }

  lemma UnionMinus(a: set<Key>, b: set<Key>, pins: set<Key>)
    ensures |a + b - pins| <= |a - pins| + |b - pins|
  {
    assert a + b - pins == (a - pins) + (b - pins);
    UnionCard(a - pins, b - pins);
  }

  lemma ChunkCostsMoreSplit(reqs: seq<seq<Key>>, pins: set<Key>)
    ensures CostsMoreSplit(ChunkCost(reqs, pins), |reqs|)
  {
    var cost := ChunkCost(reqs, pins);
    forall i | 0 <= i <= |reqs|
      ensures cost(i, i) == 0
    {
      assert Chunk(reqs, i, i) - pins == {};
    }
    forall lo, mid, hi | 0 <= lo <= mid <= hi <= |reqs|
      ensures SplitsAt(cost, lo, mid, hi)
    {
      ChunkSplit(reqs, lo, mid, hi);
      UnionMinus(Chunk(reqs, lo, mid), Chunk(reqs, mid, hi), pins);
    }
  }

  ghost predicate Multiple(w: nat, span: nat)
    requires w >= 1
  {
    span == 0 || (span >= w && Multiple(w, span - w))
  }

  lemma {:induction false} MultipleOf(w: nat, m: nat)
    requires w >= 1
    ensures w * m >= 0 && Multiple(w, w * m)
  {
    MulMono(w, 0, m);
    if m > 0 {
      MulSucc(w, m - 1);
      MultipleOf(w, m - 1);
    }
  }

  /** One batch of `span` costs no more than the batches of `w` that make it up. */
  lemma {:induction false} CoverWide(cost: Cost, n: nat, w: nat, i: nat, span: nat)
    requires w >= 1 && i <= n && Multiple(w, span) && CostsMoreSplit(cost, n)
    ensures cost(i, Min(i + span, n)) + BatchSum(cost, n, w, i + span) <= BatchSum(cost, n, w, i)
    decreases span
  {
    var hi := Min(i + span, n);
    if span == 0 || i == n {
      assert cost(i, hi) == 0;
    } else if i + w <= n {
      CoverWide(cost, n, w, i + w, span - w);
      assert SplitsAt(cost, i, i + w, hi);
    } else {
      assert hi == Min(i + w, n) && BatchSum(cost, n, w, i + w) == 0;
    }
  }

  lemma {:induction false} WiderFrom(cost: Cost, n: nat, w: nat, span: nat, i: nat)
    requires w >= 1 && span >= 1 && Multiple(w, span) && CostsMoreSplit(cost, n)
    ensures BatchSum(cost, n, span, i) <= BatchSum(cost, n, w, i)
    decreases n - i
  {
    if i < n {
      CoverWide(cost, n, w, i, span);
      WiderFrom(cost, n, w, span, i + span);
    }
  }

  /** Amortising over a multiple of the batch size never raises the total. */
  lemma WiderIsNoWorse(reqs: seq<seq<Key>>, pins: set<Key>, w: nat, m: nat)
    requires w >= 1 && m >= 1
    ensures w * m >= 1 && BatchLoads(reqs, pins, w * m) <= BatchLoads(reqs, pins, w)
  {
    MulMono(w, 1, m);
    MultipleOf(w, m);
    ChunkCostsMoreSplit(reqs, pins);
    WiderFrom(ChunkCost(reqs, pins), |reqs|, w, w * m, 0);
  }

  // ----- Agreement with the first-come scheduler -----

  ghost predicate SameRequests(reqs: seq<seq<Key>>, rs: Requests) {
    |rs| == |reqs| && forall i :: 0 <= i < |reqs| ==> rs[i] == ToSet(reqs[i])
  }

  lemma {:induction false} UnionIsChunk(reqs: seq<seq<Key>>, rs: Requests, lo: nat, hi: nat)
    requires lo <= hi <= |reqs| && SameRequests(reqs, rs)
    ensures Union(rs, Range(lo, hi)) == Chunk(reqs, lo, hi)
  {
    if lo < hi {
      UnionIsChunk(reqs, rs, lo, hi - 1);
      assert Range(lo, hi)[..hi - lo - 1] == Range(lo, hi - 1);
    }
  }

  lemma IotaCost(reqs: seq<seq<Key>>, rs: Requests, cost: Cost, lo: nat, hi: nat)
    requires lo <= hi <= |reqs| && SameRequests(reqs, rs) && IsCost(reqs, {}, cost)
    ensures |Union(rs, Range(lo, hi))| == cost(lo, hi)
  {
    UnionIsChunk(reqs, rs, lo, hi);
    assert CostAt(reqs, {}, cost, lo, hi);
    assert Chunk(reqs, lo, hi) - {} == Chunk(reqs, lo, hi);
  }

  lemma {:induction false} ConsecutiveLoads(rs: Requests, cost: Cost, w: nat, batches: seq<seq<int>>, b: nat)
    requires w >= 1 && b <= |batches|
    requires forall i :: 0 <= i < |batches| ==> NextArrivals(batches, |rs|, w, i)
    requires forall i :: 0 <= i < |batches| ==> BatchCosts(rs, cost, w, batches, i)
    ensures TotalUnion(rs, batches, b) + BatchSum(cost, |rs|, w, |Flat(batches, b)|) == BatchSum(cost, |rs|, w, 0)
  {
    if b > 0 {
      ConsecutiveLoads(rs, cost, w, batches, b - 1);
      assert NextArrivals(batches, |rs|, w, b - 1) && BatchCosts(rs, cost, w, batches, b - 1);
      SumStep(cost, |rs|, w, |Flat(batches, b - 1)|);
    }
  }

  ghost predicate BatchCosts(rs: Requests, cost: Cost, w: nat, batches: seq<seq<int>>, b: nat)
    requires b < |batches|
  {
    var m := |Flat(batches, b)|;
    |Union(rs, batches[b])| == cost(m, Min(m + w, |rs|))
  }

  lemma SumStep(cost: Cost, n: nat, w: nat, m: nat)
    requires w >= 1 && m < n
    ensures BatchSum(cost, n, w, m) == cost(m, Min(m + w, n)) + BatchSum(cost, n, w, Min(m + w, n))
  {
  }

  /** With nothing pinned, `static_pin_pcie` totals what first-come `schedule` loads. */
  lemma FifoMatchesPcie(reqs: seq<seq<Key>>, rs: Requests, w: nat, q: nat, batches: seq<seq<int>>)
    requires 1 <= w <= q && SameRequests(reqs, rs) && IsComplete(rs, w, q, false, batches)
    ensures TotalUnion(rs, batches, |batches|) == BatchLoads(reqs, {}, w)
  {
    FifoArrivals(rs, w, q, batches);
    FifoCosts(reqs, rs, ChunkCost(reqs, {}), w, batches);
    ConsecutiveLoads(rs, ChunkCost(reqs, {}), w, batches, |batches|);
  }

  lemma FifoArrivals(rs: Requests, w: nat, q: nat, batches: seq<seq<int>>)
    requires 1 <= w <= q && IsSchedule(rs, w, q, false, batches)
    ensures forall b :: 0 <= b < |batches| ==> NextArrivals(batches, |rs|, w, b)
  {
    forall b | 0 <= b < |batches|
      ensures NextArrivals(batches, |rs|, w, b)
    {
      FifoBatchAt(rs, w, q, batches, b);
    }
  }

  lemma FifoCosts(reqs: seq<seq<Key>>, rs: Requests, cost: Cost, w: nat, batches: seq<seq<int>>)
    requires SameRequests(reqs, rs) && IsCost(reqs, {}, cost)
    requires forall b :: 0 <= b < |batches| ==> NextArrivals(batches, |rs|, w, b)
    ensures forall b :: 0 <= b < |batches| ==> BatchCosts(rs, cost, w, batches, b)
  {
    forall b | 0 <= b < |batches|
      ensures BatchCosts(rs, cost, w, batches, b)
    {
      FifoCost(reqs, rs, cost, w, batches, b);
    }
  }

  lemma FifoCost(reqs: seq<seq<Key>>, rs: Requests, cost: Cost, w: nat, batches: seq<seq<int>>, b: nat)
    requires SameRequests(reqs, rs) && IsCost(reqs, {}, cost) && b < |batches| && NextArrivals(batches, |rs|, w, b)
    ensures BatchCosts(rs, cost, w, batches, b)
  {
    var m := |Flat(batches, b)|;
    IotaCost(reqs, rs, cost, m, Min(m + w, |reqs|));
  }

  // ----- The oracle at per-layer granularity -----

  /** A request cut into consecutive groups of `k` keys, the last one possibly shorter. */
  function Cut(r: seq<Key>, k: nat): Trace
    requires k >= 1
    decreases |r|
  {
    if r == [] then [] else [r[..Min(k, |r|)]] + Cut(r[Min(k, |r|)..], k)
  }

  lemma CutStep(r: seq<Key>, i: nat, k: nat)
    requires k >= 1 && i < |r|
    ensures var next := Min(i + k, |r|);
            Cut(r[i..], k) == [r[i..next]] + Cut(r[next..], k)
  {
    var next, rest := Min(i + k, |r|), r[i..];
    assert rest[..Min(k, |rest|)] == r[i..next] && rest[Min(k, |rest|)..] == r[next..];
  }

  lemma {:induction false} CutFlat(r: seq<Key>, k: nat)
    requires k >= 1
    ensures Flat(Cut(r, k), |Cut(r, k)|) == r
    decreases |r|
  {
    if r != [] {
      var n := Min(k, |r|);
      var rest := Cut(r[n..], k);
      CutFlat(r[n..], k);
      FlatCons(r[..n], rest, |rest|);
      assert r == r[..n] + r[n..];
    }
  }

  lemma {:induction false} CutSizes(r: seq<Key>, k: nat)
    requires k >= 1
    ensures forall g :: 0 <= g < |Cut(r, k)| ==> 1 <= |Cut(r, k)[g]| <= k
    ensures forall g :: 0 <= g < |Cut(r, k)| - 1 ==> |Cut(r, k)[g]| == k
    decreases |r|
  {
    if r != [] {
      CutSizes(r[Min(k, |r|)..], k);
    }
  }

  /** Cutting keeps every key, in order, in groups of `k` of which only the last may be shorter. */
  lemma CutKeepsKeys(r: seq<Key>, k: nat)
    requires k >= 1
    ensures Flat(Cut(r, k), |Cut(r, k)|) == r
    ensures forall g :: 0 <= g < |Cut(r, k)| ==> 1 <= |Cut(r, k)[g]| <= k
    ensures forall g :: 0 <= g < |Cut(r, k)| - 1 ==> |Cut(r, k)[g]| == k
  {
    CutFlat(r, k);
    CutSizes(r, k);
  }

  lemma {:induction false} FlatCons(head: seq<Key>, tail: Trace, n: nat)
    requires n <= |tail|
    ensures Flat([head] + tail, n + 1) == head + Flat(tail, n)
  {
    if n > 0 {
      FlatCons(head, tail, n - 1);
    }
  }

  ghost function CutAll(reqs: seq<seq<Key>>, k: nat, n: nat): Trace
    requires k >= 1 && n <= |reqs|
  {
    if n == 0 then [] else CutAll(reqs, k, n - 1) + Cut(reqs[n - 1], k)
  }

  lemma FlatStep(t: Trace, n: nat)
    requires 0 < n <= |t|
    ensures Flat(t, n) == Flat(t, n - 1) + t[n - 1]
  {
  }

  lemma {:induction false} FlatAppend(a: Trace, b: Trace, t: Trace, n: nat)
    requires t == a + b && n <= |b|
    ensures Flat(t, |a| + n) == Flat(a, |a|) + Flat(b, n)
  {
    if n == 0 {
      FlatFront(a, b, |a|);
    } else {
      FlatAppend(a, b, t, n - 1);
      FlatStep(t, |a| + n);
      FlatStep(b, n);
      assert t[|a| + n - 1] == b[n - 1];
      Regroup(Flat(a, |a|), Flat(b, n - 1), b[n - 1]);
    }
  }

  lemma Regroup(x: seq<Key>, y: seq<Key>, z: seq<Key>)
    ensures (x + y) + z == x + (y + z)
  {
  }

  lemma {:induction false} FlatFront(a: Trace, b: Trace, n: nat)
    requires n <= |a|
    ensures Flat(a + b, n) == Flat(a, n)
  {
    if n > 0 {
      FlatFront(a, b, n - 1);
    }
  }

  lemma {:induction false} CutAllSizes(reqs: seq<seq<Key>>, k: nat, n: nat)
    requires k >= 1 && n <= |reqs|
    ensures forall g :: 0 <= g < |CutAll(reqs, k, n)| ==> 1 <= |CutAll(reqs, k, n)[g]| <= k
  {
    if n > 0 {
      CutAllSizes(reqs, k, n - 1);
      CutSizes(reqs[n - 1], k);
    }
  }

  lemma FlatJoin(front: Trace, more: Trace, t: Trace)
    requires t == front + more
    ensures Flat(t, |t|) == Flat(front, |front|) + Flat(more, |more|)
  {
    assert |t| == |front| + |more|;
    FlatAppend(front, more, t, |more|);
  }

  lemma {:induction false} CutAllFlat(reqs: seq<seq<Key>>, k: nat, n: nat)
    requires k >= 1 && n <= |reqs|
    ensures Flat(CutAll(reqs, k, n), |CutAll(reqs, k, n)|) == Flat(reqs, n)
  {
    if n > 0 {
      CutAllFlat(reqs, k, n - 1);
      var front, cut := CutAll(reqs, k, n - 1), Cut(reqs[n - 1], k);
      CutFlat(reqs[n - 1], k);
      FlatJoin(front, cut, CutAll(reqs, k, n));
      FlatStep(reqs, n);
    }
  }

  /** The trace holds the keys of all requests, in order, in groups of at most `k`. */
  lemma CutAllKeepsKeys(reqs: seq<seq<Key>>, k: nat)
    requires k >= 1
    ensures var trace := CutAll(reqs, k, |reqs|);
            && Flat(trace, |trace|) == Flat(reqs, |reqs|)
            && (forall g :: 0 <= g < |trace| ==> 1 <= |trace[g]| <= k)
            && (forall g :: 0 <= g < |trace| && |trace[g]| < k ==> EndsRequest(reqs, k, |reqs|, g))
  {
    CutAllFlat(reqs, k, |reqs|);
    CutAllSizes(reqs, k, |reqs|);
    var trace := CutAll(reqs, k, |reqs|);
    forall g | 0 <= g < |trace| && |trace[g]| < k
      ensures EndsRequest(reqs, k, |reqs|, g)
    {
      ShortEndsRequest(reqs, k, |reqs|, g);
    }
  }

  /** Group `g` is the last one cut from one of the first `n` requests. */
  ghost predicate EndsRequest(reqs: seq<seq<Key>>, k: nat, n: nat, g: nat)
    requires k >= 1 && n <= |reqs|
  {
    exists r: nat :: r <= n && |CutAll(reqs, k, r)| == g + 1
  }

  lemma {:induction false} ShortEndsRequest(reqs: seq<seq<Key>>, k: nat, n: nat, g: nat)
    requires k >= 1 && n <= |reqs| && g < |CutAll(reqs, k, n)| && |CutAll(reqs, k, n)[g]| < k
    ensures EndsRequest(reqs, k, n, g)
  {
    var front := CutAll(reqs, k, n - 1);
    if g < |front| {
      ShortEndsRequest(reqs, k, n - 1, g);
    } else {
      CutSizes(reqs[n - 1], k);
      assert |CutAll(reqs, k, n)| == g + 1;
    }
  }

  /** The inner loop over one request's keys in strides of `k`. */
  method CutRequest(r: seq<Key>, k: nat) returns (groups: Trace)
    requires k >= 1
    ensures groups == Cut(r, k)
  {
    groups := [];
    var i := 0;
    while i < |r|
      invariant 0 <= i && groups + Cut(r[Min(i, |r|)..], k) == Cut(r, k)
    {
      var next := Min(i + k, |r|);
      CutStep(r, i, k);
      assert groups + ([r[i..next]] + Cut(r[next..], k)) == (groups + [r[i..next]]) + Cut(r[next..], k);
      groups := groups + [r[i..next]];
      i := i + k;
    }
    assert r[|r|..] == [];
  }

  method CutRequests(reqs: seq<seq<Key>>, k: nat) returns (groups: Trace)
    requires k >= 1
    ensures groups == CutAll(reqs, k, |reqs|)
  {
    groups := [];
    for n := 0 to |reqs|
      invariant groups == CutAll(reqs, k, n)
    {
      var cut := CutRequest(reqs[n], k);
      groups := groups + cut;
    }
  }

  /** The loop of `oracle_pcie`: the oracle step on residents alone. */
  method OracleGroup(trace: Trace, g: nat, budget: nat, future: map<Key, seq<int>>, resident: set<Key>)
    returns (kept: set<Key>, loads: int)
    requires g < |trace| && IsFuture(trace, |trace|, future)
    ensures Retained(resident + ToSet(trace[g]), ToSet(trace[g]), budget, OracleRank(trace, g), kept)
    ensures loads == |ToSet(trace[g]) - resident|
  {
    kept, loads := resident, 0;
    for i := 0 to |trace[g]|
      invariant kept == resident + ToSet(trace[g][..i]) && loads == |ToSet(trace[g][..i]) - resident|
    {
      var k := trace[g][i];
      PrefixSet(trace[g], i + 1);
      MissesGrow(ToSet(trace[g][..i]), resident, k);
      if k !in kept {
        loads := loads + 1;
        kept := kept + {k};
      }
    }
    assert trace[g][..|trace[g]|] == trace[g];
    var t := Sim(kept, map[], map[], map[], 0, 0);
    var loadTick;
    kept, loadTick := EvictDown(Oracle, trace, g, budget, future, t);
  }

  /** Some oracle schedule pages in this much. */
  ghost predicate OracleCosts(trace: Trace, budget: nat, pageIns: int) {
    exists res :: OracleSchedule(trace, budget, res) && PageIns(trace, res, |trace|) == pageIns
  }

  /** No demand schedule pages in less. */
  lemma OracleIsTheFloor(trace: Trace, budget: nat, pageIns: int, other: seq<set<Key>>)
    requires OracleCosts(trace, budget, pageIns) && DemandSchedule(trace, budget, other)
    ensures pageIns <= PageIns(trace, other, |trace|)
  {
    var res :| OracleSchedule(trace, budget, res) && PageIns(trace, res, |trace|) == pageIns;
    OracleIsOptimal(trace, budget, res, other);
  }

  method OraclePageIns(trace: Trace, budget: nat) returns (pageIns: int)
    ensures OracleCosts(trace, budget, pageIns)
  {
    var future := BuildFuture(trace);
    var resident: set<Key> := {};
    ghost var res: seq<set<Key>> := [{}];
    pageIns := 0;
    for g := 0 to |trace|
      invariant |res| == g + 1 && res[0] == {} && res[g] == resident
      invariant pageIns == PageIns(trace, res, g)
      invariant forall h :: 0 <= h < g ==> OracleAt(trace, budget, res, h)
    {
      var kept, loads := OracleGroup(trace, g, budget, future, resident);
      ExtendOracle(trace, budget, res, g, kept);
      res := res + [kept];
      resident := kept;
      pageIns := pageIns + loads;
    }
    assert OracleSchedule(trace, budget, res);
  }

  /** `oracle_pcie` returns the page-ins of an oracle schedule of the cut trace, per request. */
  method OraclePcie(reqs: seq<seq<Key>>, budget: nat, topk: nat) returns (perToken: Option<real>)
    ensures perToken.Some? <==> topk >= 1 && reqs != []
    ensures perToken.Some? ==>
              exists pageIns :: OracleCosts(CutAll(reqs, topk, |reqs|), budget, pageIns) &&
                                perToken.value * |reqs| as real == pageIns as real
  {
    if topk == 0 || reqs == [] {
      return None;
    }
    var trace := CutRequests(reqs, topk);
    var pageIns := OraclePageIns(trace, budget);
    perToken := Some(PerToken(pageIns, |reqs|));
  }

  lemma ExtendOracle(trace: Trace, budget: nat, res: seq<set<Key>>, n: nat, kept: set<Key>)
    requires n < |trace| && |res| == n + 1
    requires forall g :: 0 <= g < n ==> OracleAt(trace, budget, res, g)
    requires Retained(res[n] + ToSet(trace[n]), ToSet(trace[n]), budget, OracleRank(trace, n), kept)
    ensures forall g :: 0 <= g < n + 1 ==> OracleAt(trace, budget, res + [kept], g)
    ensures PageIns(trace, res + [kept], n + 1) == PageIns(trace, res, n) + |ToSet(trace[n]) - res[n]|
  {
    forall g | 0 <= g < n + 1
      ensures OracleAt(trace, budget, res + [kept], g)
    {
      if g < n {
        OracleStays(trace, budget, res, kept, g);
      } else {
        OracleJoins(trace, budget, res, kept, g);
      }
    }
    PageInsPrefix(trace, res, [kept], n);
  }

  lemma OracleStays(trace: Trace, budget: nat, res: seq<set<Key>>, kept: set<Key>, g: nat)
    requires g < |trace| && g + 1 < |res| && OracleAt(trace, budget, res, g)
    ensures OracleAt(trace, budget, res + [kept], g)
  {
  }

  lemma OracleJoins(trace: Trace, budget: nat, res: seq<set<Key>>, kept: set<Key>, g: nat)
    requires g < |trace| && |res| == g + 1
    requires Retained(res[g] + ToSet(trace[g]), ToSet(trace[g]), budget, OracleRank(trace, g), kept)
    ensures OracleAt(trace, budget, res + [kept], g)
  {
  }

  lemma {:induction false} PageInsPrefix(trace: Trace, res: seq<set<Key>>, more: seq<set<Key>>, n: nat)
    requires n <= |trace| && n <= |res|
    ensures PageIns(trace, res + more, n) == PageIns(trace, res, n)
  {
    if n > 0 {
      PageInsPrefix(trace, res, more, n - 1);
    }
  }
}
