/** `sim_equal_split` under `static_pin`: pinning each layer's own favourites streams no less than
    pinning the favourites of the whole trace. */
module EqualSplitPin {
  import opened Base
  import opened StaticPin
  import opened EqualSplit

  type PinSets = int -> set<Key>

  /** The pins of layer `l`, as keys local to the layer. */
  ghost function LayerPins(trace: Trace, ne: nat, slots: nat, l: int): set<Key>
    requires Layered(trace, ne)
  {
    TopPins(Counts(Sub(trace, ne, l, |trace|), ne), slots)
  }

  /** All layers' pins together, as keys of the whole trace. */
  ghost function Union(trace: Trace, ne: nat, pins: PinSets): set<Key>
    requires ne > 0
  {
    set k | k in AllKeys(trace) && k % ne in pins(k / ne)
  }

  lemma UnionFits(trace: Trace, ne: nat, slots: nat, pins: PinSets)
    requires Layered(trace, ne) && forall l :: |pins(l)| <= slots
    ensures |Union(trace, ne, pins)| <= |Layers(trace, ne)| * slots
  {
    var union, layers := Union(trace, ne, pins), Layers(trace, ne);
    forall k | k in union
      ensures k / ne in layers
    {
      var h, i :| 0 <= h < |trace| && 0 <= i < |trace[h]| && trace[h][i] == k;
      assert OneLayer(trace[h], ne);
    }
    var layerOf: Key -> int := k => k / ne;
    forall l | l in layers
      ensures |OfClass(union, layerOf, l)| <= slots
    {
      var here := OfClass(union, layerOf, l);
      forall k | k in here
        ensures k - l * ne in pins(l)
      {
        DivMod(k, ne);
      }
      ShiftCard(here, pins(l), l * ne);
    }
    CardByClass(union, layerOf, layers, slots);
  }

  // ----- What the union streams -----

  lemma {:induction false} GroupStreamedSame(grp: seq<Key>, grp': seq<Key>, n: nat, pinned: set<Key>, pinned': set<Key>)
    requires n <= |grp| == |grp'| && forall i :: 0 <= i < |grp| ==> (grp[i] in pinned <==> grp'[i] in pinned')
    ensures GroupStreamed(grp, n, pinned) == GroupStreamed(grp', n, pinned')
  {
    if n > 0 {
      GroupStreamedSame(grp, grp', n - 1, pinned, pinned');
    }
  }

  /** A group streams from the union what it streams from its layer's own pins. */
  lemma GroupStreamsLocally(trace: Trace, ne: nat, pins: PinSets, g: nat, base: int)
    requires Layered(trace, ne) && g < |trace| && base == (trace[g][0] / ne) * ne
    ensures var grp := trace[g];
            GroupStreamed(grp, |grp|, Union(trace, ne, pins)) ==
            GroupStreamed(Local(grp, base), |grp|, pins(grp[0] / ne))
  {
    var grp := trace[g];
    forall i | 0 <= i < |grp|
      ensures grp[i] in Union(trace, ne, pins) <==> Local(grp, base)[i] in pins(grp[0] / ne)
    {
      assert grp[i] in grp;
      GroupIsLocal(trace, ne, g, grp[i]);
    }
    GroupStreamedSame(grp, Local(grp, base), |grp|, Union(trace, ne, pins), pins(grp[0] / ne));
  }

  lemma {:induction false} StreamedOfPrefix(t: Trace, grp: seq<Key>, n: nat, pinned: set<Key>)
    requires n <= |t|
    ensures Streamed(t + [grp], n, pinned) == Streamed(t, n, pinned)
  {
    if n > 0 {
      StreamedOfPrefix(t, grp, n - 1, pinned);
    }
  }

  /** What layer `l` streams on its own by group `g` of the whole trace. */
  ghost function LayerStreamed(trace: Trace, ne: nat, pins: PinSets, g: nat, l: int): int
    requires Layered(trace, ne) && g <= |trace|
  {
    var sub := Sub(trace, ne, l, g);
    Streamed(sub, |sub|, pins(l))
  }

  lemma LayerStreamedStep(trace: Trace, ne: nat, pins: PinSets, g: nat, base: int, l: int)
    requires Layered(trace, ne) && g < |trace| && l == trace[g][0] / ne && base == l * ne
    ensures LayerStreamed(trace, ne, pins, g + 1, l) ==
            LayerStreamed(trace, ne, pins, g, l) + GroupStreamed(Local(trace[g], base), |trace[g]|, pins(l))
    ensures forall m :: m != l ==> LayerStreamed(trace, ne, pins, g + 1, m) == LayerStreamed(trace, ne, pins, g, m)
  {
    var sub, grp := Sub(trace, ne, l, g), Local(trace[g], base);
    assert Sub(trace, ne, l, g + 1) == sub + [grp];
    StreamedOfPrefix(sub, grp, |sub|, pins(l));
  }

  ghost function LayersStreamed(trace: Trace, ne: nat, pins: PinSets, layers: seq<int>, g: nat): int
    requires Layered(trace, ne) && g <= |trace|
  {
    SumOver(layers, l => LayerStreamed(trace, ne, pins, g, l))
  }

  lemma LayersStreamedStep(trace: Trace, ne: nat, pins: PinSets, layers: seq<int>, g: nat)
    requires Layered(trace, ne) && g < |trace| && Distinct(layers) && trace[g][0] / ne in layers
    ensures LayersStreamed(trace, ne, pins, layers, g + 1) ==
            LayersStreamed(trace, ne, pins, layers, g) + GroupStreamed(trace[g], |trace[g]|, Union(trace, ne, pins))
  {
    var l := trace[g][0] / ne;
    var base := l * ne;
    GroupStreamsLocally(trace, ne, pins, g, base);
    LayerStreamedStep(trace, ne, pins, g, base, l);
    SumBump(layers, m => LayerStreamed(trace, ne, pins, g, m), m => LayerStreamed(trace, ne, pins, g + 1, m), l,
            GroupStreamed(Local(trace[g], base), |trace[g]|, pins(l)));
  }

  lemma LayersStreamedZero(trace: Trace, ne: nat, pins: PinSets, layers: seq<int>)
    requires Layered(trace, ne)
    ensures LayersStreamed(trace, ne, pins, layers, 0) == 0
  {
    SumZero(layers, l => LayerStreamed(trace, ne, pins, 0, l));
  }

  /** The union streams what the layers stream together. */
  lemma {:induction false} UnionStreams(trace: Trace, ne: nat, pins: PinSets, layers: seq<int>, g: nat)
    requires Layered(trace, ne) && g <= |trace|
    requires Distinct(layers) && forall h :: 0 <= h < |trace| ==> trace[h][0] / ne in layers
    ensures Streamed(trace, g, Union(trace, ne, pins)) == LayersStreamed(trace, ne, pins, layers, g)
  {
    if g == 0 {
      LayersStreamedZero(trace, ne, pins, layers);
    } else {
      UnionStreams(trace, ne, pins, layers, g - 1);
      LayersStreamedStep(trace, ne, pins, layers, g - 1);
    }
  }

  // ----- The favourites of the whole trace -----

  ghost predicate ArePins(trace: Trace, ne: nat, slots: nat, pins: PinSets)
    requires Layered(trace, ne)
  {
    forall l :: pins(l) == LayerPins(trace, ne, slots, l)
  }

  lemma LayerPinsFit(trace: Trace, ne: nat, slots: nat, pins: PinSets)
    requires Layered(trace, ne) && ArePins(trace, ne, slots, pins)
    ensures |Union(trace, ne, pins)| <= |Layers(trace, ne)| * slots
  {
    forall l
      ensures |pins(l)| <= slots
    {
      TopPinsFit(Counts(Sub(trace, ne, l, |trace|), ne), slots);
    }
    UnionFits(trace, ne, slots, pins);
  }

  lemma CostsAreStreamed(trace: Trace, ne: nat, slots: nat, pins: PinSets, layers: seq<int>, costs: map<int, int>)
    requires Layered(trace, ne) && ArePins(trace, ne, slots, pins)
    requires LayerCosts(Pinned, trace, ne, slots, layers, costs)
    ensures LayersStreamed(trace, ne, pins, layers, |trace|) == SplitCost(layers, costs)
  {
    forall i | 0 <= i < |layers|
      ensures LayerStreamed(trace, ne, pins, |trace|, layers[i]) == Cost(costs, layers[i])
    {
      assert CostAt(Pinned, trace, ne, slots, costs, layers[i]);
    }
    SumSame(layers, l => LayerStreamed(trace, ne, pins, |trace|, l), l => Cost(costs, l));
  }

  /** With at least as many slots in all, pinning by the counts of the whole trace streams no more
      than pinning layer by layer. */
  lemma SharedPinsBeatEqualSplit(trace: Trace, ne: nat, slots: nat, budget: nat, counts: seq<int>, split: int)
    requires Layered(trace, ne) && InSample(trace, counts) && |Layers(trace, ne)| * slots <= budget
    requires SplitCosts(Pinned, trace, ne, slots, split)
    ensures Streamed(trace, |trace|, TopPins(counts, budget)) <= split
  {
    var layers, costs :| IsSplitCost(Pinned, trace, ne, slots, layers, costs) && split == SplitCost(layers, costs);
    var pins: PinSets := l => LayerPins(trace, ne, slots, l);
    LayerPinsFit(trace, ne, slots, pins);
    StaticPinIsOptimal(trace, counts, budget, Union(trace, ne, pins));
    UnionStreams(trace, ne, pins, layers, |trace|);
    CostsAreStreamed(trace, ne, slots, pins, layers, costs);
  }
}
