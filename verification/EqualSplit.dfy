/** `sim_equal_split`: the budget cut into one slice per layer, and why a shared pool of the same
    size cannot do worse under the oracle. */
module EqualSplit {
  import opened Base
  import opened ExpertCache
  import opened Belady
  import opened StaticPin

  // ----- Splitting a trace by layer -----

  /** What `build_groups` produces: each group holds keys of one layer. */
  ghost predicate Layered(trace: Trace, ne: int) {
    && ne > 0
    && forall g :: 0 <= g < |trace| ==> OneLayer(trace[g], ne)
  }

  ghost predicate OneLayer(grp: seq<Key>, ne: int)
    requires ne > 0
  {
    grp != [] && forall i :: 0 <= i < |grp| ==> grp[i] / ne == grp[0] / ne
  }

  function Local(grp: seq<Key>, base: int): (r: seq<Key>)
    ensures |r| == |grp| && forall i :: 0 <= i < |grp| ==> r[i] == grp[i] - base
  {
    seq(|grp|, i requires 0 <= i < |grp| => grp[i] - base)
  }

  /** The groups of layer `l` among the first `g`, with keys local to the layer. */
  function Sub(trace: Trace, ne: int, l: int, g: nat): Trace
    requires ne > 0 && g <= |trace| && forall h :: 0 <= h < |trace| ==> trace[h] != []
  {
    if g == 0 then []
    else if trace[g - 1][0] / ne == l then Sub(trace, ne, l, g - 1) + [Local(trace[g - 1], l * ne)]
    else Sub(trace, ne, l, g - 1)
  }

  lemma {:induction false} SubPrefix(trace: Trace, ne: int, l: int, g: nat, h: nat)
    requires Layered(trace, ne) && g <= h <= |trace|
    ensures Sub(trace, ne, l, g) <= Sub(trace, ne, l, h)
    decreases h
  {
    if g < h {
      SubPrefix(trace, ne, l, g, h - 1);
    }
  }

  /** The next group of its layer's trace is the next group of the whole trace. */
  lemma SubNext(trace: Trace, ne: int, l: int, g: nat)
    requires Layered(trace, ne) && g < |trace| && trace[g][0] / ne == l
    ensures var n := |Sub(trace, ne, l, g)|;
            n < |Sub(trace, ne, l, |trace|)| && Sub(trace, ne, l, |trace|)[n] == Local(trace[g], l * ne)
  {
    SubPrefix(trace, ne, l, g + 1, |trace|);
  }

  /** How many of the first `g` groups start with a key of layer `l`. */
  ghost function GroupsOf(trace: Trace, ne: int, l: int, g: nat): nat
    requires ne > 0 && g <= |trace| && forall h :: 0 <= h < |trace| ==> trace[h] != []
  {
    if g == 0 then 0 else GroupsOf(trace, ne, l, g - 1) + if trace[g - 1][0] / ne == l then 1 else 0
  }

  /** Every group is listed under the layer of its first key, after the earlier ones of that layer, with
      the layer's first key taken off. */
  lemma {:induction false} GroupIsListed(trace: Trace, ne: int, g: nat, n: nat)
    requires ne > 0 && (forall h :: 0 <= h < |trace| ==> trace[h] != []) && g < n <= |trace|
    ensures var l := trace[g][0] / ne;
            && |Sub(trace, ne, l, n)| == GroupsOf(trace, ne, l, n)
            && GroupsOf(trace, ne, l, g) < GroupsOf(trace, ne, l, n)
            && var listed := Sub(trace, ne, l, n)[GroupsOf(trace, ne, l, g)];
            |listed| == |trace[g]| && forall i :: 0 <= i < |listed| ==> listed[i] == trace[g][i] - l * ne
  {
    var l := trace[g][0] / ne;
    if g == n - 1 {
      SubLength(trace, ne, l, g);
    } else {
      GroupIsListed(trace, ne, g, n - 1);
    }
  }

  lemma {:induction false} SubLength(trace: Trace, ne: int, l: int, g: nat)
    requires ne > 0 && (forall h :: 0 <= h < |trace| ==> trace[h] != []) && g <= |trace|
    ensures |Sub(trace, ne, l, g)| == GroupsOf(trace, ne, l, g)
  {
    if g > 0 {
      SubLength(trace, ne, l, g - 1);
    }
  }

  // ----- One pool assembled from the slices -----

  /** A demand schedule of every layer's own trace, each within its slice. */
  ghost predicate SliceSchedules(trace: Trace, ne: int, slots: nat, scheds: int -> seq<set<Key>>)
    requires Layered(trace, ne)
  {
    forall l :: DemandSchedule(Sub(trace, ne, l, |trace|), slots, scheds(l))
  }

  ghost function Slice(trace: Trace, ne: int, scheds: int -> seq<set<Key>>, l: int, g: nat): set<Key>
    requires Layered(trace, ne) && g <= |trace|
  {
    var n := |Sub(trace, ne, l, g)|;
    if n < |scheds(l)| then scheds(l)[n] else {}
  }

  ghost function AllKeys(trace: Trace): set<Key> {
    set g, i | 0 <= g < |trace| && 0 <= i < |trace[g]| :: trace[g][i]
  }

  /** The pool holds, layer by layer, what the slices hold. */
  ghost function Pool(trace: Trace, ne: int, scheds: int -> seq<set<Key>>, g: nat): set<Key>
    requires Layered(trace, ne) && g <= |trace|
  {
    set k | k in AllKeys(trace) && k % ne in Slice(trace, ne, scheds, k / ne, g)
  }

  lemma {:induction false} ShiftCard(a: set<Key>, b: set<Key>, base: int)
    requires forall k :: k in a ==> k - base in b
    ensures |a| <= |b|
  {
    if a != {} {
      var k := Pick(a);
      ShiftCard(a - {k}, b - {k - base}, base);
    }
  }

  lemma DivMod(k: int, ne: int)
    requires ne > 0
    ensures k - (k / ne) * ne == k % ne
  {
  }

  ghost function OfClass(s: set<Key>, cls: Key -> int, c: int): set<Key> {
    set k | k in s && cls(k) == c
  }

  lemma {:induction false} CardByClass(s: set<Key>, cls: Key -> int, classes: set<int>, slots: nat)
    requires forall k :: k in s ==> cls(k) in classes
    requires forall c :: c in classes ==> |OfClass(s, cls, c)| <= slots
    ensures |s| <= |classes| * slots
  {
    if classes == {} {
      if s != {} {
        var k := Pick(s);
      }
    } else {
      var c := Pick(classes);
      var rest := s - OfClass(s, cls, c);
      forall d | d in classes - {c}
        ensures |OfClass(rest, cls, d)| <= slots
      {
        CardMono(OfClass(rest, cls, d), OfClass(s, cls, d));
      }
      CardByClass(rest, cls, classes - {c}, slots);
      CardSplit(s, OfClass(s, cls, c));
      assert s * OfClass(s, cls, c) == OfClass(s, cls, c);
      MulSucc(slots, |classes - {c}|);
    }
  }

  ghost function Layers(trace: Trace, ne: int): set<int>
    requires Layered(trace, ne)
  {
    set g | 0 <= g < |trace| :: trace[g][0] / ne
  }

  lemma SliceFits(trace: Trace, ne: int, slots: nat, scheds: int -> seq<set<Key>>, l: int, g: nat)
    requires Layered(trace, ne) && g <= |trace| && SliceSchedules(trace, ne, slots, scheds)
    ensures |Slice(trace, ne, scheds, l, g)| <= slots
  {
    var sub, n := Sub(trace, ne, l, |trace|), |Sub(trace, ne, l, g)|;
    assert DemandSchedule(sub, slots, scheds(l));
    SubPrefix(trace, ne, l, g, |trace|);
    if n > 0 {
      assert DemandAt(sub, slots, scheds(l), n - 1);
    }
  }

  lemma PoolFits(trace: Trace, ne: int, slots: nat, scheds: int -> seq<set<Key>>, g: nat)
    requires Layered(trace, ne) && g <= |trace| && SliceSchedules(trace, ne, slots, scheds)
    ensures |Pool(trace, ne, scheds, g)| <= |Layers(trace, ne)| * slots
  {
    var pool, layers := Pool(trace, ne, scheds, g), Layers(trace, ne);
    forall k | k in pool
      ensures k / ne in layers
    {
      var h, i :| 0 <= h < |trace| && 0 <= i < |trace[h]| && trace[h][i] == k;
      assert OneLayer(trace[h], ne);
    }
    var layerOf: Key -> int := k => k / ne;
    forall l | l in layers
      ensures |OfClass(pool, layerOf, l)| <= slots
    {
      var here := OfClass(pool, layerOf, l);
      forall k | k in here
        ensures k - l * ne in Slice(trace, ne, scheds, l, g)
      {
        DivMod(k, ne);
      }
      ShiftCard(here, Slice(trace, ne, scheds, l, g), l * ne);
      SliceFits(trace, ne, slots, scheds, l, g);
    }
    CardByClass(pool, layerOf, layers, slots);
  }

  /** Pooling one step: the layer touched moves as its slice does, the others stand still. */
  lemma PoolGrows(trace: Trace, ne: int, slots: nat, scheds: int -> seq<set<Key>>, g: nat, k: Key)
    requires Layered(trace, ne) && g < |trace| && SliceSchedules(trace, ne, slots, scheds)
    requires k in Pool(trace, ne, scheds, g + 1)
    ensures k in Pool(trace, ne, scheds, g) || k in trace[g]
  {
    var grp := trace[g];
    var l := grp[0] / ne;
    var local := Local(grp, l * ne);
    SliceStep(trace, ne, slots, scheds, g);
    if k / ne == l && k % ne !in Slice(trace, ne, scheds, l, g) {
      var i :| 0 <= i < |local| && local[i] == k % ne;
      DivMod(k, ne);
      assert grp[i] == k;
    }
  }

  lemma GroupIsLocal(trace: Trace, ne: int, g: nat, k: Key)
    requires Layered(trace, ne) && g < |trace| && k in trace[g]
    ensures var l := trace[g][0] / ne;
            k / ne == l && k % ne == k - l * ne && k - l * ne in Local(trace[g], l * ne) && k in AllKeys(trace)
  {
    var i :| 0 <= i < |trace[g]| && trace[g][i] == k;
    assert OneLayer(trace[g], ne);
    DivMod(k, ne);
    assert Local(trace[g], (trace[g][0] / ne) * ne)[i] == k - (trace[g][0] / ne) * ne;
  }

  lemma GroupIsPooled(trace: Trace, ne: int, slots: nat, scheds: int -> seq<set<Key>>, g: nat, base: int, k: Key)
    requires Layered(trace, ne) && g < |trace| && SliceSchedules(trace, ne, slots, scheds)
    requires base == (trace[g][0] / ne) * ne && |ToSet(Local(trace[g], base))| <= slots
    requires k in trace[g]
    ensures k in Pool(trace, ne, scheds, g + 1)
  {
    GroupIsLocal(trace, ne, g, k);
    SliceStep(trace, ne, slots, scheds, g);
  }

  lemma PoolDemand(trace: Trace, ne: int, slots: nat, budget: nat, scheds: int -> seq<set<Key>>, g: nat, base: int)
    requires Layered(trace, ne) && g < |trace| && SliceSchedules(trace, ne, slots, scheds)
    requires base == (trace[g][0] / ne) * ne && |ToSet(Local(trace[g], base))| <= slots
    requires |Layers(trace, ne)| * slots <= budget
    ensures Demand(Pool(trace, ne, scheds, g), ToSet(trace[g]), budget, Pool(trace, ne, scheds, g + 1))
  {
    var before, after := Pool(trace, ne, scheds, g), Pool(trace, ne, scheds, g + 1);
    assert after <= before + ToSet(trace[g]) by {
      forall k | k in after
        ensures k in before || k in trace[g]
      {
        PoolGrows(trace, ne, slots, scheds, g, k);
      }
    }
    assert |after| <= budget by {
      PoolFits(trace, ne, slots, scheds, g + 1);
    }
    assert ToSet(trace[g]) <= after by {
      forall k | k in trace[g]
        ensures k in after
      {
        GroupIsPooled(trace, ne, slots, scheds, g, base, k);
      }
    }
    CardMono(ToSet(trace[g]), after);
  }

  lemma MissIsLocal(trace: Trace, ne: int, scheds: int -> seq<set<Key>>, g: nat, base: int, k: Key)
    requires Layered(trace, ne) && g < |trace| && base == (trace[g][0] / ne) * ne
    requires k in trace[g] && k !in Pool(trace, ne, scheds, g)
    ensures k - base in Local(trace[g], base) && k - base !in Slice(trace, ne, scheds, trace[g][0] / ne, g)
  {
    GroupIsLocal(trace, ne, g, k);
  }

  lemma PoolCost(trace: Trace, ne: int, scheds: int -> seq<set<Key>>, g: nat, base: int)
    requires Layered(trace, ne) && g < |trace| && base == (trace[g][0] / ne) * ne
    ensures |ToSet(trace[g]) - Pool(trace, ne, scheds, g)| <=
            |ToSet(Local(trace[g], base)) - Slice(trace, ne, scheds, trace[g][0] / ne, g)|
  {
    var missing := ToSet(trace[g]) - Pool(trace, ne, scheds, g);
    var missing' := ToSet(Local(trace[g], base)) - Slice(trace, ne, scheds, trace[g][0] / ne, g);
    forall k | k in missing
      ensures k - base in missing'
    {
      MissIsLocal(trace, ne, scheds, g, base, k);
    }
    ShiftCard(missing, missing', base);
  }

  lemma SliceStep(trace: Trace, ne: int, slots: nat, scheds: int -> seq<set<Key>>, g: nat)
    requires Layered(trace, ne) && g < |trace| && SliceSchedules(trace, ne, slots, scheds)
    ensures var l := trace[g][0] / ne;
            Demand(Slice(trace, ne, scheds, l, g), ToSet(Local(trace[g], l * ne)), slots,
                   Slice(trace, ne, scheds, l, g + 1))
    ensures forall m :: m != trace[g][0] / ne ==> Slice(trace, ne, scheds, m, g + 1) == Slice(trace, ne, scheds, m, g)
  {
    var l := trace[g][0] / ne;
    var sub := Sub(trace, ne, l, |trace|);
    SubNext(trace, ne, l, g);
    assert DemandSchedule(sub, slots, scheds(l));
    assert DemandAt(sub, slots, scheds(l), |Sub(trace, ne, l, g)|);
  }

  // ----- Costs, summed over layers -----

  ghost function SumOver(layers: seq<int>, f: int -> int): int {
    if layers == [] then 0 else SumOver(layers[..|layers| - 1], f) + f(layers[|layers| - 1])
  }

  lemma {:induction false} SumBump(layers: seq<int>, f: int -> int, f': int -> int, l: int, d: int)
    requires Distinct(layers) && f'(l) == f(l) + d && forall m :: m != l ==> f'(m) == f(m)
    ensures SumOver(layers, f') == SumOver(layers, f) + if l in layers then d else 0
  {
    if layers != [] {
      var front, last := layers[..|layers| - 1], layers[|layers| - 1];
      SumBump(front, f, f', l, d);
      assert layers == front + [last];
    }
  }

  lemma {:induction false} SumZero(layers: seq<int>, f: int -> int)
    requires forall m :: f(m) == 0
    ensures SumOver(layers, f) == 0
  {
    if layers != [] {
      SumZero(layers[..|layers| - 1], f);
    }
  }

  lemma {:induction false} SumSame(layers: seq<int>, f: int -> int, f': int -> int)
    requires forall i :: 0 <= i < |layers| ==> f(layers[i]) == f'(layers[i])
    ensures SumOver(layers, f) == SumOver(layers, f')
  {
    if layers != [] {
      SumSame(layers[..|layers| - 1], f, f');
    }
  }

  /** Page-ins of layer `l` on its own, by the time the whole trace reaches group `g`. */
  ghost function SliceCost(trace: Trace, ne: int, scheds: int -> seq<set<Key>>, l: int, g: nat): int
    requires Layered(trace, ne) && g <= |trace|
  {
    var sub, n := Sub(trace, ne, l, |trace|), |Sub(trace, ne, l, g)|;
    if n <= |sub| && n <= |scheds(l)| then PageIns(sub, scheds(l), n) else 0
  }

  lemma SliceCostStep(trace: Trace, ne: int, slots: nat, scheds: int -> seq<set<Key>>, g: nat, base: int)
    requires Layered(trace, ne) && g < |trace| && SliceSchedules(trace, ne, slots, scheds)
    requires base == (trace[g][0] / ne) * ne
    ensures var l := trace[g][0] / ne;
            SliceCost(trace, ne, scheds, l, g + 1) ==
            SliceCost(trace, ne, scheds, l, g) + |ToSet(Local(trace[g], base)) - Slice(trace, ne, scheds, l, g)|
    ensures forall m :: m != trace[g][0] / ne ==>
              SliceCost(trace, ne, scheds, m, g + 1) == SliceCost(trace, ne, scheds, m, g)
  {
    var l := trace[g][0] / ne;
    SubNext(trace, ne, l, g);
    SubPrefix(trace, ne, l, g + 1, |trace|);
    assert DemandSchedule(Sub(trace, ne, l, |trace|), slots, scheds(l));
  }

  ghost function SliceCosts(trace: Trace, ne: int, scheds: int -> seq<set<Key>>, layers: seq<int>, g: nat): int
    requires Layered(trace, ne) && g <= |trace|
  {
    SumOver(layers, l => SliceCost(trace, ne, scheds, l, g))
  }

  lemma SliceCostsStep(trace: Trace, ne: int, slots: nat, scheds: int -> seq<set<Key>>, layers: seq<int>, g: nat)
    requires Layered(trace, ne) && g < |trace| && SliceSchedules(trace, ne, slots, scheds)
    requires Distinct(layers) && trace[g][0] / ne in layers
    ensures SliceCosts(trace, ne, scheds, layers, g) + |ToSet(trace[g]) - Pool(trace, ne, scheds, g)| <=
            SliceCosts(trace, ne, scheds, layers, g + 1)
  {
    var l := trace[g][0] / ne;
    var base := l * ne;
    PoolCost(trace, ne, scheds, g, base);
    SliceCostStep(trace, ne, slots, scheds, g, base);
    SumBump(layers, m => SliceCost(trace, ne, scheds, m, g), m => SliceCost(trace, ne, scheds, m, g + 1), l,
            |ToSet(Local(trace[g], base)) - Slice(trace, ne, scheds, l, g)|);
  }

  ghost predicate IsPool(trace: Trace, ne: int, scheds: int -> seq<set<Key>>, pool: seq<set<Key>>)
    requires Layered(trace, ne)
  {
    |pool| == |trace| + 1 && forall h :: 0 <= h <= |trace| ==> pool[h] == Pool(trace, ne, scheds, h)
  }

  lemma SliceCostsZero(trace: Trace, ne: int, scheds: int -> seq<set<Key>>, layers: seq<int>)
    requires Layered(trace, ne)
    ensures SliceCosts(trace, ne, scheds, layers, 0) == 0
  {
    SumZero(layers, l => SliceCost(trace, ne, scheds, l, 0));
  }

  lemma {:induction false} PageInsBound(trace: Trace, res: seq<set<Key>>, bound: seq<int>, g: nat)
    requires g <= |trace| && |res| == |bound| == |trace| + 1 && bound[0] >= 0
    requires forall h :: 0 <= h < |trace| ==> StepBound(trace, res, bound, h)
    ensures PageIns(trace, res, g) <= bound[g]
  {
    if g > 0 {
      PageInsBound(trace, res, bound, g - 1);
      assert StepBound(trace, res, bound, g - 1);
    }
  }

  ghost predicate StepBound(trace: Trace, res: seq<set<Key>>, bound: seq<int>, h: nat)
    requires h < |trace| && |res| == |bound| == |trace| + 1
  {
    bound[h] + |ToSet(trace[h]) - res[h]| <= bound[h + 1]
  }

  ghost function CostSeq(trace: Trace, ne: int, scheds: int -> seq<set<Key>>, layers: seq<int>): (bound: seq<int>)
    requires Layered(trace, ne)
    ensures |bound| == |trace| + 1
    ensures forall h :: 0 <= h <= |trace| ==> bound[h] == SliceCosts(trace, ne, scheds, layers, h)
  {
    seq(|trace| + 1, h requires 0 <= h <= |trace| => SliceCosts(trace, ne, scheds, layers, h))
  }

  lemma PoolStepBound(trace: Trace, ne: int, slots: nat, scheds: int -> seq<set<Key>>, layers: seq<int>,
                      pool: seq<set<Key>>, bound: seq<int>, h: nat)
    requires Layered(trace, ne) && SliceSchedules(trace, ne, slots, scheds) && IsPool(trace, ne, scheds, pool)
    requires h < |trace| && Distinct(layers) && trace[h][0] / ne in layers && |bound| == |trace| + 1
    requires bound[h] == SliceCosts(trace, ne, scheds, layers, h)
    requires bound[h + 1] == SliceCosts(trace, ne, scheds, layers, h + 1)
    ensures StepBound(trace, pool, bound, h)
  {
    SliceCostsStep(trace, ne, slots, scheds, layers, h);
    assert pool[h] == Pool(trace, ne, scheds, h);
  }

  lemma PoolCostSum(trace: Trace, ne: int, slots: nat, scheds: int -> seq<set<Key>>, layers: seq<int>,
                    pool: seq<set<Key>>)
    requires Layered(trace, ne) && SliceSchedules(trace, ne, slots, scheds)
    requires Distinct(layers) && forall h :: 0 <= h < |trace| ==> trace[h][0] / ne in layers
    requires IsPool(trace, ne, scheds, pool)
    ensures PageIns(trace, pool, |trace|) <= SliceCosts(trace, ne, scheds, layers, |trace|)
  {
    var bound := CostSeq(trace, ne, scheds, layers);
    SliceCostsZero(trace, ne, scheds, layers);
    forall h | 0 <= h < |trace|
      ensures StepBound(trace, pool, bound, h)
    {
      PoolStepBound(trace, ne, slots, scheds, layers, pool, bound, h);
    }
    PageInsBound(trace, pool, bound, |trace|);
  }

  /** The slices' own schedules, pooled, are a demand schedule of the shared cache. */
  lemma PoolIsDemand(trace: Trace, ne: int, slots: nat, budget: nat, scheds: int -> seq<set<Key>>, pool: seq<set<Key>>)
    requires Layered(trace, ne) && SliceSchedules(trace, ne, slots, scheds)
    requires forall g :: 0 <= g < |trace| ==> |ToSet(Local(trace[g], (trace[g][0] / ne) * ne))| <= slots
    requires |Layers(trace, ne)| * slots <= budget
    requires IsPool(trace, ne, scheds, pool)
    ensures DemandSchedule(trace, budget, pool)
  {
    forall g | 0 <= g < |trace|
      ensures DemandAt(trace, budget, pool, g)
    {
      PoolDemand(trace, ne, slots, budget, scheds, g, (trace[g][0] / ne) * ne);
    }
    assert forall l :: DemandSchedule(Sub(trace, ne, l, |trace|), slots, scheds(l));
    assert Pool(trace, ne, scheds, 0) == {};
  }

  // ----- The simulator -----

  ghost predicate IsSplit(trace: Trace, ne: int, g: nat, layers: seq<int>, byLayer: map<int, Trace>)
    requires ne > 0 && g <= |trace| && forall h :: 0 <= h < |trace| ==> trace[h] != []
  {
    && Distinct(layers)
    && (forall h :: 0 <= h < g ==> trace[h][0] / ne in layers)
    && (forall l :: l in layers <==> l in byLayer)
    && (forall l :: l in byLayer ==> byLayer[l] == Sub(trace, ne, l, g))
    && (forall l :: l !in byLayer ==> Sub(trace, ne, l, g) == [])
  }

  lemma SplitOne(trace: Trace, ne: int, g: nat, layers: seq<int>, byLayer: map<int, Trace>)
    requires ne > 0 && g < |trace| && (forall h :: 0 <= h < |trace| ==> trace[h] != [])
    requires IsSplit(trace, ne, g, layers, byLayer)
    ensures var l := trace[g][0] / ne;
            var before := if l in byLayer then byLayer[l] else [];
            IsSplit(trace, ne, g + 1, if l in byLayer then layers else layers + [l],
                    byLayer[l := before + [Local(trace[g], l * ne)]])
  {
    var l := trace[g][0] / ne;
    assert Sub(trace, ne, l, g) == if l in byLayer then byLayer[l] else [];
  }

  /** The `by_layer` dictionary; `layers` lists its keys in insertion order. */
  method SplitByLayer(trace: Trace, ne: int) returns (layers: seq<int>, byLayer: map<int, Trace>)
    requires ne > 0 && forall h :: 0 <= h < |trace| ==> trace[h] != []
    ensures IsSplit(trace, ne, |trace|, layers, byLayer)
  {
    layers, byLayer := [], map[];
    for g := 0 to |trace|
      invariant IsSplit(trace, ne, g, layers, byLayer)
    {
      SplitOne(trace, ne, g, layers, byLayer);
      var l := trace[g][0] / ne;
      var before := if l in byLayer then byLayer[l] else [];
      layers := if l in byLayer then layers else layers + [l];
      byLayer := byLayer[l := before + [Local(trace[g], l * ne)]];
    }
  }

  /** The `policy` argument: pinning by the layer's own counts, or one of the online policies. */
  datatype SplitPolicy = Pinned | Online(policy: Policy)

  /** How often each expert of a layer is used. */
  ghost function Counts(sub: Trace, ne: nat): (c: seq<int>)
    ensures |c| == ne && forall k :: 0 <= k < ne ==> c[k] == KeyCount(sub, |sub|, k)
  {
    seq(ne, k requires 0 <= k < ne => KeyCount(sub, |sub|, k))
  }

  ghost predicate LayerCost(policy: SplitPolicy, sub: Trace, ne: nat, slots: nat, cost: int) {
    match policy
    case Pinned => cost == Streamed(sub, |sub|, TopPins(Counts(sub, ne), slots))
    case Online(p) => Costs(p, sub, slots, cost)
  }

  /** The loop body: simulate one layer on its own slots. */
  method SimLayer(policy: SplitPolicy, sub: Trace, ne: nat, slots: nat) returns (cost: int)
    requires policy.Pinned? ==> InRange(sub, ne)
    ensures LayerCost(policy, sub, ne, slots, cost)
  {
    match policy
    case Pinned =>
      var counts := CountKeys(sub, ne);
      assert counts == Counts(sub, ne);
      cost := SimStaticPin(sub, slots, counts);
    case Online(p) =>
      cost := SimOnline(sub, slots, p);
  }

  ghost predicate CostAt(policy: SplitPolicy, trace: Trace, ne: nat, slots: nat, costs: map<int, int>, l: int)
    requires ne > 0 && forall h :: 0 <= h < |trace| ==> trace[h] != []
  {
    l in costs && LayerCost(policy, Sub(trace, ne, l, |trace|), ne, slots, costs[l])
  }

  ghost predicate LayerCosts(policy: SplitPolicy, trace: Trace, ne: nat, slots: nat, layers: seq<int>,
                             costs: map<int, int>)
    requires ne > 0 && forall h :: 0 <= h < |trace| ==> trace[h] != []
  {
    forall i :: 0 <= i < |layers| ==> CostAt(policy, trace, ne, slots, costs, layers[i])
  }

  ghost function Cost(costs: map<int, int>, l: int): int {
    if l in costs then costs[l] else 0
  }

  ghost function SplitCost(layers: seq<int>, costs: map<int, int>): int {
    SumOver(layers, l => Cost(costs, l))
  }

  /** What each layer that occurs costs on its own. */
  ghost predicate IsSplitCost(policy: SplitPolicy, trace: Trace, ne: nat, slots: nat, layers: seq<int>,
                              costs: map<int, int>)
    requires ne > 0 && forall h :: 0 <= h < |trace| ==> trace[h] != []
  {
    && Distinct(layers)
    && (forall h :: 0 <= h < |trace| ==> trace[h][0] / ne in layers)
    && LayerCosts(policy, trace, ne, slots, layers, costs)
  }

  /** One simulation for each layer that occurs, adding up to this total. */
  ghost predicate SplitCosts(policy: SplitPolicy, trace: Trace, ne: nat, slots: nat, total: int)
    requires ne > 0 && forall h :: 0 <= h < |trace| ==> trace[h] != []
  {
    exists layers, costs :: IsSplitCost(policy, trace, ne, slots, layers, costs) && total == SplitCost(layers, costs)
  }

  lemma AddLayerCost(policy: SplitPolicy, trace: Trace, ne: nat, slots: nat, layers: seq<int>, costs: map<int, int>,
                     l: int, cost: int)
    requires ne > 0 && (forall h :: 0 <= h < |trace| ==> trace[h] != [])
    requires LayerCosts(policy, trace, ne, slots, layers, costs) && l !in layers
    requires LayerCost(policy, Sub(trace, ne, l, |trace|), ne, slots, cost)
    ensures LayerCosts(policy, trace, ne, slots, layers + [l], costs[l := cost])
    ensures SplitCost(layers + [l], costs[l := cost]) == SplitCost(layers, costs) + cost
  {
    var layers', costs' := layers + [l], costs[l := cost];
    forall i | 0 <= i < |layers'|
      ensures CostAt(policy, trace, ne, slots, costs', layers'[i])
    {
      assert i < |layers| ==> CostAt(policy, trace, ne, slots, costs, layers[i]);
    }
    SumSame(layers, q => Cost(costs, q), q => Cost(costs', q));
    assert layers'[..|layers|] == layers;
  }

  lemma {:induction false} SubInRange(trace: Trace, ne: nat, l: int, g: nat)
    requires Layered(trace, ne) && g <= |trace|
    ensures InRange(Sub(trace, ne, l, g), ne)
  {
    if g > 0 {
      SubInRange(trace, ne, l, g - 1);
      var grp := trace[g - 1];
      if grp[0] / ne == l {
        forall i | 0 <= i < |grp|
          ensures 0 <= grp[i] - l * ne < ne
        {
          assert OneLayer(grp, ne);
          DivMod(grp[i], ne);
        }
      }
    }
  }

  /** `sim_equal_split`: the sum of one simulation per layer. */
  method SimEqualSplit(trace: Trace, ne: nat, slots: nat, policy: SplitPolicy) returns (total: int)
    requires ne > 0 && forall h :: 0 <= h < |trace| ==> trace[h] != []
    requires policy.Pinned? ==> Layered(trace, ne)
    ensures SplitCosts(policy, trace, ne, slots, total)
  {
    var names, byLayer := SplitByLayer(trace, ne);
    ghost var costs: map<int, int> := map[];
    total := 0;
    for i := 0 to |names|
      invariant LayerCosts(policy, trace, ne, slots, names[..i], costs)
      invariant total == SplitCost(names[..i], costs)
    {
      var l := names[i];
      if policy.Pinned? {
        SubInRange(trace, ne, l, |trace|);
      }
      var cost := SimLayer(policy, byLayer[l], ne, slots);
      assert l !in names[..i];
      AddLayerCost(policy, trace, ne, slots, names[..i], costs, l, cost);
      assert names[..i + 1] == names[..i] + [l];
      costs := costs[l := cost];
      total := total + cost;
    }
    assert names[..|names|] == names;
    assert IsSplitCost(policy, trace, ne, slots, names, costs);
  }

  // ----- The shared pool wins -----

  ghost function RunCost(runs: map<int, seq<Sim>>, l: int): int {
    if l in runs && runs[l] != [] then runs[l][|runs[l]| - 1].pageIns else 0
  }

  ghost function RunCosts(layers: seq<int>, runs: map<int, seq<Sim>>): int {
    SumOver(layers, l => RunCost(runs, l))
  }

  /** One run of the policy for each layer that occurs. */
  ghost predicate IsSplitRun(policy: Policy, trace: Trace, ne: int, slots: nat, layers: seq<int>,
                             runs: map<int, seq<Sim>>)
    requires ne > 0 && forall h :: 0 <= h < |trace| ==> trace[h] != []
  {
    && Distinct(layers)
    && (forall h :: 0 <= h < |trace| ==> trace[h][0] / ne in layers)
    && (forall l :: l in layers <==> l in runs)
    && (forall l :: l in runs ==> IsRun(policy, Sub(trace, ne, l, |trace|), slots, runs[l]))
  }

  ghost function RunOf(policy: Policy, trace: Trace, slots: nat, cost: int): (run: seq<Sim>)
    requires Costs(policy, trace, slots, cost)
    ensures IsRun(policy, trace, slots, run) && run[|run| - 1].pageIns == cost
  {
    var run: seq<Sim> :| IsRun(policy, trace, slots, run) && run[|trace|].pageIns == cost;
    run
  }

  /** The runs behind the costs. */
  lemma RunsBehind(policy: Policy, trace: Trace, ne: nat, slots: nat, layers: seq<int>, costs: map<int, int>)
    returns (runs: map<int, seq<Sim>>)
    requires ne > 0 && forall h :: 0 <= h < |trace| ==> trace[h] != []
    requires IsSplitCost(Online(policy), trace, ne, slots, layers, costs)
    ensures IsSplitRun(policy, trace, ne, slots, layers, runs) && RunCosts(layers, runs) == SplitCost(layers, costs)
  {
    forall l | l in layers
      ensures CostAt(Online(policy), trace, ne, slots, costs, l)
    {
    }
    runs := map l | l in layers :: RunOf(policy, Sub(trace, ne, l, |trace|), slots, costs[l]);
    SumSame(layers, l => RunCost(runs, l), l => Cost(costs, l));
  }

  ghost function RunScheds(runs: map<int, seq<Sim>>): int -> seq<set<Key>> {
    l => if l in runs then Residents(runs[l]) else [{}]
  }

  lemma {:induction false} SubOfAbsent(trace: Trace, ne: int, l: int, g: nat)
    requires Layered(trace, ne) && g <= |trace| && forall h :: 0 <= h < |trace| ==> trace[h][0] / ne != l
    ensures Sub(trace, ne, l, g) == []
  {
    if g > 0 {
      SubOfAbsent(trace, ne, l, g - 1);
    }
  }

  lemma RunSchedsAreSlices(trace: Trace, ne: int, slots: nat, layers: seq<int>, runs: map<int, seq<Sim>>, l: int)
    requires Layered(trace, ne) && IsSplitRun(Oracle, trace, ne, slots, layers, runs)
    ensures DemandSchedule(Sub(trace, ne, l, |trace|), slots, RunScheds(runs)(l))
    ensures l in layers ==> SliceCost(trace, ne, RunScheds(runs), l, |trace|) == RunCost(runs, l)
  {
    if l in layers {
      RunIsDemand(Oracle, Sub(trace, ne, l, |trace|), slots, runs[l]);
      RunPageIns(Oracle, Sub(trace, ne, l, |trace|), slots, runs[l], |Sub(trace, ne, l, |trace|)|);
    } else {
      SubOfAbsent(trace, ne, l, |trace|);
    }
  }

  /** With at least as many slots in all, and groups that fit a slice, one shared pool under the
      oracle pages in no more than the per-layer slices do together. */
  lemma SharedPoolBeatsEqualSplit(trace: Trace, ne: int, slots: nat, budget: nat, layers: seq<int>,
                                  runs: map<int, seq<Sim>>, shared: seq<Sim>)
    requires Layered(trace, ne) && forall g :: 0 <= g < |trace| ==> |ToSet(trace[g])| <= slots
    requires |Layers(trace, ne)| * slots <= budget
    requires IsSplitRun(Oracle, trace, ne, slots, layers, runs)
    requires IsRun(Oracle, trace, budget, shared)
    ensures shared[|trace|].pageIns <= RunCosts(layers, runs)
  {
    var scheds := RunScheds(runs);
    forall l
      ensures DemandSchedule(Sub(trace, ne, l, |trace|), slots, scheds(l))
      ensures l in layers ==> SliceCost(trace, ne, scheds, l, |trace|) == RunCost(runs, l)
    {
      RunSchedsAreSlices(trace, ne, slots, layers, runs, l);
    }
    forall g | 0 <= g < |trace|
      ensures |ToSet(Local(trace[g], (trace[g][0] / ne) * ne))| <= slots
    {
      LocalCard(trace[g], (trace[g][0] / ne) * ne);
    }
    var pool := seq(|trace| + 1, g requires 0 <= g <= |trace| => Pool(trace, ne, scheds, g));
    PoolIsDemand(trace, ne, slots, budget, scheds, pool);
    PoolCostSum(trace, ne, slots, scheds, layers, pool);
    SumSame(layers, l => SliceCost(trace, ne, scheds, l, |trace|), l => RunCost(runs, l));
    OracleRunIsOracle(trace, budget, shared);
    OracleIsOptimal(trace, budget, Residents(shared), pool);
    RunPageIns(Oracle, trace, budget, shared, |trace|);
  }

  lemma LocalCard(grp: seq<Key>, base: int)
    ensures |ToSet(Local(grp, base))| <= |ToSet(grp)|
  {
    var local := Local(grp, base);
    forall e | e in ToSet(local)
      ensures e - (-base) in ToSet(grp)
    {
      var i :| 0 <= i < |local| && local[i] == e;
      assert grp[i] == e + base;
    }
    ShiftCard(ToSet(local), ToSet(grp), -base);
  }

  /** The same for the numbers the simulators return. */
  lemma SharedResultIsLess(trace: Trace, ne: nat, slots: nat, budget: nat, split: int, shared: int)
    requires Layered(trace, ne) && forall g :: 0 <= g < |trace| ==> |ToSet(trace[g])| <= slots
    requires |Layers(trace, ne)| * slots <= budget
    requires SplitCosts(Online(Oracle), trace, ne, slots, split) && Costs(Oracle, trace, budget, shared)
    ensures shared <= split
  {
    var layers, costs :|
      IsSplitCost(Online(Oracle), trace, ne, slots, layers, costs) && split == SplitCost(layers, costs);
    var runs := RunsBehind(Oracle, trace, ne, slots, layers, costs);
    var run: seq<Sim> :| IsRun(Oracle, trace, budget, run) && run[|trace|].pageIns == shared;
    SharedPoolBeatsEqualSplit(trace, ne, slots, budget, layers, runs, run);
  }
}
