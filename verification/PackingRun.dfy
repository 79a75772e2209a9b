/** `eval_packing` over all layers and steps. */
module PackingRun {
  import opened Base
  import opened Packing

  ghost predicate Ranks(ranked: seq<seq<int>>) {
    forall l :: 0 <= l < |ranked| ==> Distinct(ranked[l])
  }

  /** Every selected expert is ranked in its layer. */
  ghost predicate Selects(ranked: seq<seq<int>>, step: seq<seq<int>>) {
    |step| == |ranked| && forall l, i :: 0 <= l < |step| && 0 <= i < |step[l]| ==> step[l][i] in ranked[l]
  }

  // ----- Static totals -----

  /** The sum over the first `l` layers of a cost of their numbers of experts. */
  ghost function TotalOver(ranked: seq<seq<int>>, cost: nat -> int, l: nat): int
    requires l <= |ranked|
  {
    if l == 0 then 0 else TotalOver(ranked, cost, l - 1) + cost(|ranked[l - 1]|)
  }

  ghost function CommitCost(e: nat): nat -> int {
    (n: nat) => Committed(n, e)
  }

  ghost function ExpertCost(): nat -> int {
    (n: nat) => EXPERT * n
  }

  lemma {:induction false} TotalMono(ranked: seq<seq<int>>, a: nat -> int, b: nat -> int, l: nat)
    requires l <= |ranked| && forall n :: a(n) <= b(n)
    ensures TotalOver(ranked, a, l) <= TotalOver(ranked, b, l)
  {
    if l > 0 {
      TotalMono(ranked, a, b, l - 1);
    }
  }

  /** The committed total over all layers never grows when chunks are merged. */
  lemma CoarserCommitsLessInTotal(ranked: seq<seq<int>>, e: nat, m: nat)
    requires e >= 1 && m >= 1
    ensures TotalOver(ranked, CommitCost(m * e), |ranked|) <= TotalOver(ranked, CommitCost(e), |ranked|)
  {
    forall n: nat
      ensures CommitCost(m * e)(n) <= CommitCost(e)(n)
    {
      CoarserCommitsLess(n, e, m);
    }
    TotalMono(ranked, CommitCost(m * e), CommitCost(e), |ranked|);
  }

  /** One layer's two tables. */
  datatype Layer = Layer(chunkOf: map<int, int>, chunkLen: map<int, int>)

  ghost predicate IsLayer(ranked: seq<int>, e: nat, layer: Layer)
    requires e >= 1
  {
    Assigns(ranked, e, layer.chunkOf) && IsPacking(e, |ranked|, layer.chunkLen)
  }

  ghost predicate AreLayers(ranked: seq<seq<int>>, e: nat, layers: seq<Layer>)
    requires e >= 1
  {
    |layers| <= |ranked| && forall l :: 0 <= l < |layers| ==> IsLayer(ranked[l], e, layers[l])
  }

  ghost predicate CommitsAt(e: nat, cost: nat -> int, n: nat) {
    cost(n) == Committed(n, e)
  }

  ghost predicate UsesAt(cost: nat -> int, n: nat) {
    cost(n) == EXPERT * n
  }

  /** The two costs, as functions of the number of experts. */
  ghost predicate AreCosts(e: nat, commit: nat -> int, use: nat -> int) {
    forall n :: CommitsAt(e, commit, n) && UsesAt(use, n)
  }

  method PackOne(ranked: seq<int>, e: nat, ghost commit: nat -> int, ghost use: nat -> int)
      returns (layer: Layer, committed: int, useful: int)
    requires e >= 1 && Distinct(ranked) && AreCosts(e, commit, use)
    ensures IsLayer(ranked, e, layer) && committed == commit(|ranked|) && useful == use(|ranked|)
  {
    assert CommitsAt(e, commit, |ranked|) && UsesAt(use, |ranked|);
    var of, len := PackLayer(ranked, e);
    committed, useful := CommitLayer(len, |ranked|, e);
    layer := Layer(of, len);
  }

  lemma LayersGrow(ranked: seq<seq<int>>, e: nat, layers: seq<Layer>, layer: Layer)
    requires e >= 1 && AreLayers(ranked, e, layers) && |layers| < |ranked| && IsLayer(ranked[|layers|], e, layer)
    ensures AreLayers(ranked, e, layers + [layer])
  {
  }

  /** The packing of every layer and the memory it commits. */
  method PackAll(ranked: seq<seq<int>>, e: nat, ghost commit: nat -> int, ghost use: nat -> int)
      returns (layers: seq<Layer>, committed: int, useful: int)
    requires e >= 1 && Ranks(ranked) && AreCosts(e, commit, use)
    ensures AreLayers(ranked, e, layers) && |layers| == |ranked|
    ensures committed == TotalOver(ranked, commit, |ranked|) && useful == TotalOver(ranked, use, |ranked|)
  {
    layers, committed, useful := [], 0, 0;
    for l := 0 to |ranked|
      invariant AreLayers(ranked, e, layers) && |layers| == l
      invariant committed == TotalOver(ranked, commit, l) && useful == TotalOver(ranked, use, l)
    {
      var layer, more, used := PackOne(ranked[l], e, commit, use);
      LayersGrow(ranked, e, layers, layer);
      layers, committed, useful := layers + [layer], committed + more, useful + used;
    }
  }

  ghost function ChunkCost(e: nat): nat -> int
    requires e >= 1
  {
    (n: nat) => ChunkCount(n, e)
  }

  /** `len(chunk_len)`. */
  method CountChunks(layers: seq<Layer>, ghost ranked: seq<seq<int>>, ghost e: nat) returns (chunks: int)
    requires e >= 1 && AreLayers(ranked, e, layers) && |layers| == |ranked|
    ensures chunks == TotalOver(ranked, ChunkCost(e), |ranked|)
  {
    chunks := 0;
    for l := 0 to |layers|
      invariant chunks == TotalOver(ranked, ChunkCost(e), l)
    {
      assert IsLayer(ranked[l], e, layers[l]);
      PackingSize(e, |ranked[l]|, layers[l].chunkLen);
      chunks := chunks + |layers[l].chunkLen|;
    }
  }

  // ----- One step -----

  /** What one step finds in one layer: the hot chunks, the experts in them, and their memory. */
  datatype Heat = Heat(hot: set<int>, experts: int, size: int)

  ghost predicate IsHeat(ranked: seq<int>, e: nat, sel: seq<int>, heat: Heat)
    requires e >= 1
  {
    && heat.hot == Hot(ranked, e, ToSet(sel))
    && heat.experts == |ResidentFor(ranked, e, ToSet(sel))|
    && heat.size == RoundedHot(e, |ranked|, heat.hot, |ranked|)
  }

  ghost predicate AreHeats(ranked: seq<seq<int>>, e: nat, step: seq<seq<int>>, heats: seq<Heat>)
    requires e >= 1
  {
    |heats| <= |ranked| == |step| && forall l :: 0 <= l < |heats| ==> IsHeat(ranked[l], e, step[l], heats[l])
  }

  method EvalLayer(sel: seq<int>, layer: Layer, ghost ranked: seq<int>, ghost e: nat) returns (heat: Heat)
    requires e >= 1 && Distinct(ranked) && IsLayer(ranked, e, layer)
    requires forall i :: 0 <= i < |sel| ==> sel[i] in ranked
    ensures IsHeat(ranked, e, sel, heat)
  {
    var hot := HotChunks(sel, layer.chunkOf, ranked, e);
    forall c | c in hot
      ensures 0 <= c < |ranked| && c in layer.chunkLen
    {
      HotIsListed(ranked, e, ToSet(sel), layer.chunkLen, c);
    }
    var experts, size := HotSums(hot, layer.chunkLen, ranked, e);
    heat := Heat(hot, experts, size);
  }

  method EvalStep(step: seq<seq<int>>, layers: seq<Layer>, ghost ranked: seq<seq<int>>, ghost e: nat)
    returns (heats: seq<Heat>)
    requires e >= 1 && Ranks(ranked) && Selects(ranked, step) && AreLayers(ranked, e, layers) && |layers| == |ranked|
    ensures AreHeats(ranked, e, step, heats) && |heats| == |ranked|
  {
    heats := [];
    for l := 0 to |step|
      invariant AreHeats(ranked, e, step, heats) && |heats| == l
    {
      assert IsLayer(ranked[l], e, layers[l]);
      var heat := EvalLayer(step[l], layers[l], ranked[l], e);
      heats := heats + [heat];
    }
  }

  // ----- Chunks that are always on -----

  type Counts = map<(int, int), int>

  ghost predicate IsHot(heats: seq<Heat>, k: (int, int)) {
    0 <= k.0 < |heats| && k.1 in heats[k.0].hot
  }

  /** How many of the first `s` steps find a chunk hot. */
  ghost function HotSteps(steps: seq<seq<Heat>>, s: nat, k: (int, int)): nat
    requires s <= |steps|
  {
    if s == 0 then 0 else HotSteps(steps, s - 1, k) + if IsHot(steps[s - 1], k) then 1 else 0
  }

  lemma {:induction false} AlwaysIff(steps: seq<seq<Heat>>, s: nat, k: (int, int))
    requires s <= |steps|
    ensures HotSteps(steps, s, k) <= s
    ensures HotSteps(steps, s, k) == s <==> forall t :: 0 <= t < s ==> IsHot(steps[t], k)
    ensures HotSteps(steps, s, k) == 0 <==> forall t :: 0 <= t < s ==> !IsHot(steps[t], k)
  {
    if s > 0 {
      AlwaysIff(steps, s - 1, k);
    }
  }

  /** `chunk_hot_count` after `s` steps. */
  ghost predicate IsCount(steps: seq<seq<Heat>>, s: nat, counts: Counts)
    requires s <= |steps|
  {
    forall k :: CountsOne(steps, s, counts, k)
  }

  ghost predicate CountsOne(steps: seq<seq<Heat>>, s: nat, counts: Counts, k: (int, int))
    requires s <= |steps|
  {
    Get(counts, k) == HotSteps(steps, s, k) && (k in counts <==> HotSteps(steps, s, k) > 0)
  }

  /** One more for each of `keys`. */
  ghost predicate Bumped(counts: Counts, keys: set<(int, int)>, next: Counts) {
    forall k :: BumpedAt(counts, keys, next, k)
  }

  ghost predicate BumpedAt(counts: Counts, keys: set<(int, int)>, next: Counts, k: (int, int)) {
    Get(next, k) == Get(counts, k) + (if k in keys then 1 else 0) && (k in next <==> k in counts || k in keys)
  }

  lemma BumpOne(counts: Counts, keys: set<(int, int)>, was: Counts, key: (int, int), more: set<(int, int)>,
                next: Counts)
    requires key !in keys && more == keys + {key} && Bumped(counts, keys, was)
    requires next == was[key := Get(was, key) + 1]
    ensures Bumped(counts, more, next)
  {
    forall k
      ensures BumpedAt(counts, more, next, k)
    {
      assert BumpedAt(counts, keys, was, k);
    }
  }

  lemma BumpBoth(counts: Counts, a: set<(int, int)>, mid: Counts, b: set<(int, int)>, next: Counts,
                 both: set<(int, int)>)
    requires a !! b && both == a + b && Bumped(counts, a, mid) && Bumped(mid, b, next)
    ensures Bumped(counts, both, next)
  {
    forall k
      ensures BumpedAt(counts, both, next, k)
    {
      assert BumpedAt(counts, a, mid, k) && BumpedAt(mid, b, next, k);
    }
  }

  lemma OneMoreKey(l: int, done: set<int>, c: int)
    requires c !in done
    ensures (l, c) !in Marked(l, done) && Marked(l, done + {c}) == Marked(l, done) + {(l, c)}
  {
  }

  /** The innermost loop: count the hot chunks of one layer. */
  method BumpLayer(counts: Counts, l: int, hot: set<int>) returns (next: Counts)
    ensures Bumped(counts, Marked(l, hot), next)
  {
    next := counts;
    var todo, done := hot, {};
    while todo != {}
      invariant todo + done == hot && todo !! done
      invariant Bumped(counts, Marked(l, done), next)
      decreases |todo|
    {
      ghost var some := Pick(todo);
      var c :| c in todo;
      var more := next[(l, c) := Get(next, (l, c)) + 1];
      OneMoreKey(l, done, c);
      BumpOne(counts, Marked(l, done), next, (l, c), Marked(l, done + {c}), more);
      next := more;
      todo, done := todo - {c}, done + {c};
    }
    assert done == hot;
  }

  /** The hot chunks of the first `n` layers. */
  ghost function HotKeys(heats: seq<Heat>, n: nat): set<(int, int)>
    requires n <= |heats|
  {
    if n == 0 then {} else HotKeys(heats, n - 1) + Marked(n - 1, heats[n - 1].hot)
  }

  lemma {:induction false} HotKeysMeaning(heats: seq<Heat>, n: nat, k: (int, int))
    requires n <= |heats|
    ensures k in HotKeys(heats, n) <==> k.0 < n && IsHot(heats, k)
  {
    if n > 0 {
      HotKeysMeaning(heats, n - 1, k);
      LayerKeysMeaning(n - 1, heats[n - 1].hot, k);
    }
  }

  lemma LayerKeysMeaning(l: int, hot: set<int>, k: (int, int))
    ensures k in Marked(l, hot) <==> k.0 == l && k.1 in hot
  {
    var c := k.1;
    if c in hot {
      assert (l, c) in Marked(l, hot);
    }
  }

  lemma NewKeys(heats: seq<Heat>, n: nat)
    requires n < |heats|
    ensures HotKeys(heats, n) !! Marked(n, heats[n].hot)
  {
    forall k | k in Marked(n, heats[n].hot)
      ensures k !in HotKeys(heats, n)
    {
      HotKeysMeaning(heats, n, k);
    }
  }

  /** The loop over the layers of one step. */
  method BumpStep(counts: Counts, heats: seq<Heat>) returns (next: Counts)
    ensures Bumped(counts, HotKeys(heats, |heats|), next)
  {
    next := counts;
    for l := 0 to |heats|
      invariant Bumped(counts, HotKeys(heats, l), next)
    {
      ghost var mid := next;
      next := BumpLayer(next, l, heats[l].hot);
      NewKeys(heats, l);
      BumpBoth(counts, HotKeys(heats, l), mid, Marked(l, heats[l].hot), next, HotKeys(heats, l + 1));
    }
  }

  lemma CountStep(steps: seq<seq<Heat>>, s: nat, counts: Counts, next: Counts)
    requires s < |steps| && IsCount(steps, s, counts) && Bumped(counts, HotKeys(steps[s], |steps[s]|), next)
    ensures IsCount(steps, s + 1, next)
  {
    var n := s + 1;
    forall k
      ensures CountsOne(steps, n, next, k)
    {
      assert CountsOne(steps, s, counts, k) && BumpedAt(counts, HotKeys(steps[s], |steps[s]|), next, k);
      HotKeysMeaning(steps[s], |steps[s]|, k);
    }
  }

  lemma {:induction false} CountPrefix(steps: seq<seq<Heat>>, more: seq<seq<Heat>>, s: nat, k: (int, int))
    requires s <= |steps|
    ensures HotSteps(steps + more, s, k) == HotSteps(steps, s, k)
  {
    if s > 0 {
      CountPrefix(steps, more, s - 1, k);
    }
  }

  lemma CountMore(steps: seq<seq<Heat>>, heats: seq<Heat>, counts: Counts)
    requires IsCount(steps, |steps|, counts)
    ensures IsCount(steps + [heats], |steps|, counts)
  {
    forall k
      ensures CountsOne(steps + [heats], |steps|, counts, k)
    {
      assert CountsOne(steps, |steps|, counts, k);
      CountPrefix(steps, [heats], |steps|, k);
    }
  }

  /** The chunks hot in every step. */
  ghost function AlwaysHot(steps: seq<seq<Heat>>): set<(int, int)>
    requires steps != []
  {
    set k | k in HotKeys(steps[0], |steps[0]|) && HotInAll(steps, k)
  }

  ghost predicate HotInAll(steps: seq<seq<Heat>>, k: (int, int)) {
    forall t :: 0 <= t < |steps| ==> IsHot(steps[t], k)
  }

  lemma AlwaysOnIs(steps: seq<seq<Heat>>, counts: Counts)
    requires steps != [] && IsCount(steps, |steps|, counts)
    ensures (set k | k in counts && counts[k] == |steps|) == AlwaysHot(steps)
  {
    forall k
      ensures k in counts && counts[k] == |steps| <==> k in AlwaysHot(steps)
    {
      assert CountsOne(steps, |steps|, counts, k);
      AlwaysIff(steps, |steps|, k);
      HotKeysMeaning(steps[0], |steps[0]|, k);
    }
  }

  // ----- The whole analysis -----

  datatype Metrics = Metrics(committed: int, useful: int, chunks: int, heats: seq<seq<Heat>>, alwaysOn: int)

  ghost predicate HeatsAt(ranked: seq<seq<int>>, e: nat, step: seq<seq<int>>, heats: seq<Heat>)
    requires e >= 1
  {
    |heats| == |ranked| && AreHeats(ranked, e, step, heats)
  }

  /** The memory and the number of chunks over all layers, what every step finds in every layer, and
      the number of chunks that are always hot. */
  ghost predicate IsMetrics(steps: seq<seq<seq<int>>>, ranked: seq<seq<int>>, e: nat, m: Metrics)
    requires e >= 1
  {
    && steps != []
    && m.committed == TotalOver(ranked, CommitCost(e), |ranked|)
    && m.useful == TotalOver(ranked, ExpertCost(), |ranked|)
    && m.chunks == TotalOver(ranked, ChunkCost(e), |ranked|)
    && |m.heats| == |steps|
    && (forall s :: 0 <= s < |steps| ==> HeatsAt(ranked, e, steps[s], m.heats[s]))
    && m.alwaysOn == |AlwaysHot(m.heats)|
  }

  /** `eval_packing` before it averages: an error without experts or without steps. */
  method Measure(steps: seq<seq<seq<int>>>, ranked: seq<seq<int>>, e: nat) returns (r: Option<Metrics>)
    requires e >= 1 && Ranks(ranked) && forall s :: 0 <= s < |steps| ==> Selects(ranked, steps[s])
    ensures r.None? <==> steps == [] || TotalOver(ranked, ExpertCost(), |ranked|) == 0
    ensures r.Some? ==> IsMetrics(steps, ranked, e, r.value)
  {
    var layers, committed, useful := PackAll(ranked, e, CommitCost(e), ExpertCost());
    if useful == 0 || steps == [] {
      return None;
    }
    var chunks := CountChunks(layers, ranked, e);
    var heats, counts := EvalSteps(steps, layers, ranked, e);
    AlwaysOnIs(heats, counts);
    var always := set k | k in counts && counts[k] == |heats|;
    return Some(Metrics(committed, useful, chunks, heats, |always|));
  }

  /** The loop over the steps. */
  method EvalSteps(steps: seq<seq<seq<int>>>, layers: seq<Layer>, ghost ranked: seq<seq<int>>, ghost e: nat)
      returns (heats: seq<seq<Heat>>, counts: Counts)
    requires e >= 1 && Ranks(ranked) && AreLayers(ranked, e, layers) && |layers| == |ranked|
    requires forall s :: 0 <= s < |steps| ==> Selects(ranked, steps[s])
    ensures |heats| == |steps| && IsCount(heats, |heats|, counts)
    ensures forall s :: 0 <= s < |steps| ==> HeatsAt(ranked, e, steps[s], heats[s])
  {
    heats, counts := [], map[];
    for s := 0 to |steps|
      invariant |heats| == s && IsCount(heats, s, counts)
      invariant forall t :: 0 <= t < s ==> HeatsAt(ranked, e, steps[t], heats[t])
    {
      var now := EvalStep(steps[s], layers, ranked, e);
      CountMore(heats, now, counts);
      ghost var was := counts;
      counts := BumpStep(counts, now);
      heats := heats + [now];
      CountStep(heats, s, was, counts);
    }
  }
}
