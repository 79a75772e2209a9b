# Verified models of the MoE residency tools, the conformance codec and the static cache

This project models, in Dafny, the algorithms of the repository's analysis and conformance scripts
and proves what they promise. The simulators are methods with the scripts' own loops, each proved
against a specification on traces, schedules or lists; the theorems are lemmas about those
specifications, for every input.

| module | what it models |
|---|---|
| `Base` | expert keys, sets of sequence elements, cardinality and product facts |
| `ExpertCache` | `sim_online`: one residency pool under oracle, random, fifo, lru and lfu eviction |
| `EvictionLaws` | every eviction, by how often and when keys are used |
| `Belady` | optimality of the oracle among all demand schedules |
| `StackInclusion` | larger budgets contain smaller ones under lru, lfu and the oracle |
| `StaticPin` | `count_keys` and `sim_static_pin`, its optimality and convexity |
| `PinLaws` | which keys are pinned, by their counts |
| `HybridCache` | `sim_hybrid` as lru on the trace without its core |
| `HybridLaws` | which keys form the core and what that saves |
| `EqualSplit` | `sim_equal_split` against one shared pool |
| `EqualSplitPin` | its `static_pin` branch against one shared pin set |
| `TierCache` | `sim_tiers`: two exclusive tiers as windows of one recency list |
| `TierLaws` | the tiers' counters by reuse distance |
| `RouteScheduler` | `schedule`: windowed first-come and route-aware batching |
| `ScheduleLaws` | every batch, by the keys of its requests |
| `DelayRange` | which delays `schedule` can produce, exactly |
| `PcieFloor` | `static_pin_pcie` and `oracle_pcie` |
| `PcieLaws` | what `static_pin_pcie` loads, request by request |
| `IdentityStrip` | `strip_identity_nodes` preserves what a graph computes |
| `StripLaws` | the stripped graph, node by node |
| `TensorWire` | `write_tensor` and `read_tensor` |
| `WireLaws` | tensor files byte by byte, and payloads as rows of rows |
| `Repack` | repacking external tensor data |
| `RepackLaws` | the repacked file, tensor by tensor |
| `RepackAgain` | what repeated repacking does |
| `StaticCache` | the fixed-capacity cache workflow as a step machine |
| `CacheLaws` | every row of the cache, lane by lane and in closed form |
| `Packing` | `granule_round` and the chunks of one layer |
| `PackingRun` | the loops of `eval_packing` over layers and steps |
| `PackingReport` | the averages `eval_packing` returns |
| `PackingLaws` | committed and resident memory in closed form |
| `Gini` | the two Gini computations |

`dafny verify dfyconfig.toml` checks all files together.

The modules named `...Laws` state what the other modules compute without using their definitions: in
counts and positions of accesses, cardinalities, literal bytes and sizes, and single lanes.

## Main results

- Belady's rule is optimal: for every trace and every budget, no schedule that loads on demand, keeps
  the current group and stays within the budget pages in less than any run of the oracle. The proof
  is a counting invariant over horizons; it needs no bound on group sizes and no tie-breaking rule.
- Stack inclusion: after every group, what is resident at a smaller budget is resident at a larger one.
- The two-tier simulator refines plain lru twice over: VRAM is the lru list of its own capacity, and
  DRAM followed by VRAM is the lru list of the combined capacity, for all capacities including zero.
- Route-aware batching cannot starve a request, and the range of its delays is known exactly. With
  batches of W and a lookahead of Q, no request is served more than Q-2 places early (0 if W or Q is 1),
  or more than (W-1)(Q-W) places late if W < Q, and no more places late than early otherwise. For every
  positive W and Q both ends are reached.
- The tiers by reuse distance: an access hits VRAM exactly when fewer different keys than VRAM holds were
  used since the last access to its key, and DRAM likewise for both tiers together.
- Removing Identity nodes leaves a well-formed graph in which every positional output has its value,
  for any meaning of the other operators.
- A fixed-capacity cache row computes exactly the token history an unbounded cache would, until it is
  full; rewinding is a cursor move. Rows share their buffer through one list of scattered writes, and
  the row coordinates of that list keep every row's run its own.
- Repacking keeps every tensor's bytes exactly when its length is recorded, is idempotent exactly
  under a stated order condition on its input, and always reaches a fixed point, entries and file, when
  repeated.

## Where code and documentation differ

The models follow the code in each case.

- `write_tensor` makes its input contiguous, which gives a scalar shape `(1,)`. A round trip therefore
  returns the tensor if and only if its rank is positive and its payload is of a length the reader can
  ask for (`TensorWire.RoundTrip`).
- `repack_external_data.py` reads a missing `length` as 0, while the ONNX IR specification, section
  "External Tensor Data", reads it as the rest of the file. Such a tensor loses its bytes; the exact
  condition is `Repack.TensorIsKeptIff`, and `Repack.MissingLengthLosesBytes` is an input.
- `build_static_cache_workflow.py` says that an inactive row keeps its valid prefix. This holds below
  capacity; a full row has its last slot overwritten while the batch goes on, and keeps the others
  (`StaticCache.InactiveIsFrozenIff`, `StaticCache.FullRowIsOverwritten`, `StaticCache.FullRowKeepsTheRest`).
- `moe_router_skew.py` labels a Gini of 1 as all traffic on one expert. Its formula gives (n-1)/n
  there, and never 1 (`Gini.GiniRange`, `Gini.GiniIsBelowOne`).

## Model

| member | source | states |
|---|---|---|
| `ExpertCache.TouchAllLoads` | scripts/moe_expert_cache_sim.py:86-94 | a group costs one page-in per distinct absent member and ends with all members resident |
| `ExpertCache.TouchGroup` | scripts/moe_expert_cache_sim.py:86-94 | the access loop over its tables computes the group's touch function |
| `ExpertCache.FirstUse` | scripts/moe_expert_cache_sim.py:107-110 | the first group at or after an index that uses a key, and no earlier one does |
| `ExpertCache.BuildFuture` | scripts/moe_expert_cache_sim.py:81-85 | the index lists, for every key, the groups using it, in order and with repetitions |
| `ExpertCache.UseListMeaning` | scripts/moe_expert_cache_sim.py:81-85 | each list ascends and holds exactly the groups that use the key |
| `ExpertCache.NxtIsFirstUse` | scripts/moe_expert_cache_sim.py:107-110 | bisecting the index finds the next use after the current group |
| `ExpertCache.PickVictim` | scripts/moe_expert_cache_sim.py:97-113 | the victim is a candidate of least policy key, ties open |
| `ExpertCache.EvictDown` | scripts/moe_expert_cache_sim.py:95-115 | eviction keeps as many keys as fit, group members before others, later policy keys before earlier, and drops the load ticks of what left |
| `ExpertCache.SimOnline` | scripts/moe_expert_cache_sim.py:74-116 | the returned page-ins are those of a run of the chosen policy |
| `EvictionLaws.CacheIsFull` | scripts/moe_expert_cache_sim.py:86-95 | after every group the cache holds as much of what was there and of the group as the budget allows, and was charged one page-in for each absent member |
| `EvictionLaws.GroupIsProtected` | scripts/moe_expert_cache_sim.py:96-97 | a member of the current group leaves only when nothing else is left |
| `EvictionLaws.FifoEvictsFirstIn` | scripts/moe_expert_cache_sim.py:100-101 | of two members, or two others, fifo evicts the one whose residency began at the earlier access |
| `EvictionLaws.LruEvictsOldest` | scripts/moe_expert_cache_sim.py:102-103 | lru evicts the one whose last access is earlier |
| `EvictionLaws.LfuEvictsRarest` | scripts/moe_expert_cache_sim.py:104-105 | lfu evicts the one accessed less often so far, and of two accessed equally often the one whose last access is earlier |
| `EvictionLaws.OracleEvictsFarthest` | scripts/moe_expert_cache_sim.py:106-112 | the oracle evicts one that is not used before the one it keeps |
| `Belady.OracleIsOptimal` | scripts/moe_expert_cache_sim.py:106-113 | farthest-next-use pages in no more than any demand schedule, for every trace and budget |
| `Belady.DebtInvariant` | scripts/moe_expert_cache_sim.py:86-115 | for every horizon the oracle holds at most its page-in lead fewer soon-needed keys than the other schedule |
| `Belady.CoversAfterEvict` | scripts/moe_expert_cache_sim.py:95-115 | farthest-first eviction loses no ground at any horizon |
| `Belady.RunIsDemand` | scripts/moe_expert_cache_sim.py:86-115 | every policy's run is a demand schedule |
| `Belady.RunPageIns` | scripts/moe_expert_cache_sim.py:88-91 | the page-in counter is the sum of each group's absent members |
| `Belady.OracleBeatsEveryPolicy` | scripts/moe_expert_cache_sim.py:74-116 | oracle page-ins are at most those of random, fifo, lru and lfu |
| `Belady.OracleResultIsLeast` | scripts/moe_expert_cache_sim.py:74-116 | the number the simulator returns for the oracle is at most the one it returns for any policy |
| `Belady.OracleCostIsUnique` | scripts/moe_expert_cache_sim.py:106-113 | all ways of breaking oracle ties cost the same |
| `StackInclusion.RunTracks` | scripts/moe_expert_cache_sim.py:86-94 | recency and frequency tables depend on the trace alone, not on the budget |
| `StackInclusion.NestedEviction` | scripts/moe_expert_cache_sim.py:95-115 | nested caches stay nested through one eviction under a tie-free order |
| `StackInclusion.LruLfuInclusion` | scripts/moe_expert_cache_sim.py:74-116 | for lru and lfu, residents at a smaller budget are residents at a larger one after every group, and page-ins do not rise |
| `StackInclusion.OracleInclusion` | scripts/moe_expert_cache_sim.py:106-113 | the same for the oracle with a fixed tie-break |
| `StackInclusion.OracleMonotone` | scripts/moe_expert_cache_sim.py:74-116 | oracle page-ins never rise with the budget, however ties are broken |
| `StaticPin.CountKeys` | scripts/moe_expert_cache_sim.py:66-71 | the table holds each key's number of accesses |
| `StaticPin.OrderSorts` | scripts/moe_expert_cache_sim.py:121 | the order lists every key once, most frequent first |
| `StaticPin.SimStaticPin` | scripts/moe_expert_cache_sim.py:119-128 | page-ins are the accesses to keys outside the top pins |
| `PinLaws.KeyCountIs` | scripts/moe_expert_cache_sim.py:66-71 | a key's count is its number of occurrences in the accesses |
| `PinLaws.OrderIsRanking` | scripts/moe_expert_cache_sim.py:121 | equally frequent keys are ordered by number |
| `PinLaws.PinnedIff` | scripts/moe_expert_cache_sim.py:121-122 | a key is pinned exactly when fewer than the budget are more frequent, or as frequent and smaller |
| `StaticPin.StaticPinCost` | scripts/moe_expert_cache_sim.py:119-128 | in-sample page-ins are all accesses less the traffic of the top keys |
| `StaticPin.StaticPinIsOptimal` | scripts/moe_expert_cache_sim.py:119-128 | no pin set of that size streams less, with counts from the trace |
| `StaticPin.StaticPinIsConvex` | scripts/moe_expert_cache_sim.py:119-128 | page-ins fall with the budget by less and less |
| `StaticPin.OracleAgainstPinning` | scripts/moe_expert_cache_sim.py:74-128 | with one group of extra slots the oracle pages in at most the streamed accesses plus one load per pin |
| `StaticPin.OracleResultAgainstPinning` | scripts/moe_expert_cache_sim.py:74-128 | the same for the numbers the two simulators return, whatever the counts |
| `HybridCache.SortByCount` | scripts/moe_expert_cache_sim.py:135 | the always-on keys, each once, most frequent first |
| `HybridCache.PrefixIsMostFrequent` | scripts/moe_expert_cache_sim.py:135 | a prefix of the sorted keys is a most frequent part of them of that size |
| `HybridCache.PickCore` | scripts/moe_expert_cache_sim.py:133-135 | sorting and slicing gives the always-on keys, or a most frequent part of them that fits |
| `HybridCache.TouchGroupHybrid` | scripts/moe_expert_cache_sim.py:142-148 | the access loop moves the cache as lru does on the group without its core keys |
| `HybridCache.EvictHybrid` | scripts/moe_expert_cache_sim.py:150-156 | the core always stays; the rest is evicted by recency |
| `HybridCache.EvictionMatches` | scripts/moe_expert_cache_sim.py:150-156 | eviction depends on the order of use only, not on the tick values |
| `HybridCache.SimHybrid` | scripts/moe_expert_cache_sim.py:131-157 | page-ins equal those of lru on the trace without the core, in the slots the core leaves |
| `HybridLaws.CoreLaw` | scripts/moe_expert_cache_sim.py:133-135 | the core is the keys counted at least as often as there are steps, or as many most frequent of them as fit |
| `HybridLaws.FrequentIsFree` | scripts/moe_expert_cache_sim.py:131-157 | if those keys fit, page-ins are at most the accesses to other keys |
| `HybridLaws.StrikingFrequentKey` | scripts/moe_expert_cache_sim.py:131-157 | if they fit, striking one from the trace, with one slot less, leaves the result unchanged |
| `HybridLaws.StreamedCounts` | scripts/moe_expert_cache_sim.py:124-127 | what a pin set streams is the number of accesses to other keys |
| `HybridCache.LruCostIsUnique` | scripts/moe_expert_cache_sim.py:74-116 | every lru run of a trace costs the same |
| `EqualSplit.SplitByLayer` | scripts/moe_expert_cache_sim.py:163-166 | each layer's list is that layer's groups in trace order, keys made local |
| `EqualSplit.GroupIsListed` | scripts/moe_expert_cache_sim.py:163-166 | every group is listed under the layer of its first key, after the earlier ones of that layer, with the layer's first key taken off |
| `EqualSplit.SimLayer` | scripts/moe_expert_cache_sim.py:169-176 | a layer costs what pinning by its own counts streams, or the page-ins of an online run |
| `EqualSplit.SimEqualSplit` | scripts/moe_expert_cache_sim.py:160-177 | the total is the sum of one simulation for each layer that occurs |
| `EqualSplit.PoolIsDemand` | scripts/moe_expert_cache_sim.py:160-177 | the layers' caches taken together are one demand schedule of the whole trace |
| `EqualSplit.SharedPoolBeatsEqualSplit` | scripts/moe_expert_cache_sim.py:160-177 | a shared oracle pool with at least the same total slots pages in no more than the split |
| `EqualSplit.SharedResultIsLess` | scripts/moe_expert_cache_sim.py:160-177 | the same for the numbers the two simulators return |
| `EqualSplitPin.UnionStreams` | scripts/moe_expert_cache_sim.py:169-174 | all layers' pins taken together stream what the layers stream apart |
| `EqualSplitPin.SharedPinsBeatEqualSplit` | scripts/moe_expert_cache_sim.py:160-177 | pinning by the counts of the whole trace, with at least the same total slots, streams no more than the split |
| `TierCache.Cascade` | scripts/moe_tier_sim.py:75-81 | the two spill loops leave each list its most recent entries and push the rest down |
| `TierCache.SimTiers` | scripts/moe_tier_sim.py:50-83 | at the end both lists are plain lru lists and the four counters are their hits and misses |
| `TierCache.Access` | scripts/moe_tier_sim.py:58-81 | one access keeps the lists and counters explained by plain lru |
| `TierCache.MissCascade` | scripts/moe_tier_sim.py:63-81 | promotion from DRAM and a miss move the combined list as one lru access does |
| `TierCache.LruIsWindow` | scripts/moe_tier_sim.py:50-83 | an lru list of any capacity is the recent end of one capacity-free list |
| `TierLaws.LruIff` | scripts/moe_tier_sim.py:50-83 | a key is in an lru list exactly when fewer different keys than its capacity were used since |
| `TierLaws.DistanceLaw` | scripts/moe_tier_sim.py:52-83 | each counter is the number of accesses of a reuse distance: below VRAM, below both tiers, beyond, or first |
| `TierCache.TierConservation` | scripts/moe_tier_sim.py:52-83 | the four counters sum to the accesses; compulsory misses are the distinct keys |
| `TierCache.VramIgnoresDram` | scripts/moe_tier_sim.py:50-83 | VRAM hits do not depend on DRAM and do not fall with VRAM |
| `TierCache.SsdSeesOneCache` | scripts/moe_tier_sim.py:50-83 | capacity misses depend on the combined capacity only, never rise with it, and vanish once all keys fit |
| `RouteScheduler.WindowMeaning` | scripts/moe_route_aware_sched.py:66-70 | the window is the oldest pending requests, in arrival order |
| `RouteScheduler.BestCandidate` | scripts/moe_route_aware_sched.py:78-83 | the scan finds the candidate adding fewest keys, earliest on ties |
| `RouteScheduler.Greedy` | scripts/moe_route_aware_sched.py:74-86 | the batch starts with the oldest request and adds the cheapest next one until full |
| `RouteScheduler.PickBatch` | scripts/moe_route_aware_sched.py:71-86 | the batch is the first-come prefix of the window or a greedy choice from it, and its members are requests |
| `RouteScheduler.UnionOf` | scripts/moe_route_aware_sched.py:87-90 | the union of the picked requests' keys |
| `RouteScheduler.Dispatch` | scripts/moe_route_aware_sched.py:91-95 | picks are marked and each delay is its service rank less its arrival |
| `RouteScheduler.Schedule` | scripts/moe_route_aware_sched.py:58-96 | the batches form a schedule, with at least one request each; loads and delays are those of its batches; all requests are served for a positive lookahead |
| `ScheduleLaws.BatchLaw` | scripts/moe_route_aware_sched.py:66-86 | a batch starts with the oldest request waiting, names none twice, and is full or takes all in view |
| `ScheduleLaws.FifoLaw` | scripts/moe_route_aware_sched.py:71-72 | first come: no request in view that is not picked yet is older than the next pick |
| `ScheduleLaws.GreedyLaw` | scripts/moe_route_aware_sched.py:78-86 | route aware: each further pick adds the fewest keys of all in view, and is the oldest that adds so few |
| `ScheduleLaws.PicksInView` | scripts/moe_route_aware_sched.py:66-70 | the window is the requests not served with fewer than Q older ones waiting |
| `ScheduleLaws.TotalIsPairs` | scripts/moe_route_aware_sched.py:87-90 | the total is the number of pairs of a batch and a key it needs |
| `RouteScheduler.BoundedDelay` | scripts/moe_route_aware_sched.py:66-95 | in every schedule each delay lies between -(Q-2), or 0 if W or Q is 1, and (W-1)(Q-W) if W < Q, or else as far late as early |
| `DelayRange.EarlyIsReached` | scripts/moe_route_aware_sched.py:66-95 | for every W and Q there are requests on which every finished schedule reaches the early end of that range |
| `DelayRange.LateIsReached` | scripts/moe_route_aware_sched.py:66-95 | for every W and Q there are requests on which every finished schedule reaches the late end |
| `DelayRange.ReachBothEnds` | scripts/moe_route_aware_sched.py:58-96 | the scheduler itself returns both extreme delays on those requests |
| `DelayRange.TakesFree` | scripts/moe_route_aware_sched.py:74-86 | a greedy batch takes requests that add no key as long as the window has them |
| `RouteScheduler.BatchKeepsPatience` | scripts/moe_route_aware_sched.py:66-95 | one batch preserves the potential that bounds how often a pending request is overtaken |
| `RouteScheduler.DispatchedOnce` | scripts/moe_route_aware_sched.py:58-96 | a finished schedule serves every request exactly once |
| `RouteScheduler.DelaysCancel` | scripts/moe_route_aware_sched.py:91-95 | delays sum to zero |
| `RouteScheduler.BatchCount` | scripts/moe_route_aware_sched.py:58-96 | with a lookahead of at least a batch there are ceil(n / W) batches |
| `RouteScheduler.LoadBounds` | scripts/moe_route_aware_sched.py:87-90 | the total lies between the distinct keys and the sum of the request sizes |
| `RouteScheduler.FifoHasNoDelay` | scripts/moe_route_aware_sched.py:71-72 | first-come delays are zero |
| `RouteScheduler.FifoBatchAt` | scripts/moe_route_aware_sched.py:71-72 | first-come batch b is the next W arrivals |
| `PcieFloor.StaticPinPcie` | scripts/moe_pcie_floor.py:71-82 | loads per request times requests is the sum over batches of unpinned distinct keys |
| `PcieLaws.LoadLaw` | scripts/moe_pcie_floor.py:71-82 | the total is the number of pairs of a batch of W consecutive requests and an unpinned key it wants |
| `PcieFloor.WiderIsNoWorse` | scripts/moe_pcie_floor.py:71-82 | a multiple of the batch size never raises the total |
| `PcieFloor.FifoMatchesPcie` | scripts/moe_pcie_floor.py:71-82 | with no pins the total equals that of the first-come scheduler |
| `PcieFloor.CutRequests` | scripts/moe_pcie_floor.py:90-93 | the requests are cut into consecutive groups |
| `PcieFloor.CutKeepsKeys` | scripts/moe_pcie_floor.py:90-93 | cutting a request keeps every key in order, in groups of exactly top-k but for a last shorter one |
| `PcieFloor.CutAllKeepsKeys` | scripts/moe_pcie_floor.py:90-93 | the same for all requests in turn; a group shorter than top-k ends its request |
| `PcieFloor.OraclePcie` | scripts/moe_pcie_floor.py:85-115 | the result is the cost of an oracle schedule of the cut trace, per request |
| `PcieFloor.OracleIsTheFloor` | scripts/moe_pcie_floor.py:85-115 | no demand schedule of the cut trace pages in less |
| `IdentityStrip.BuildReplacements` | conformance/run_onnx_tests.py:213-217 | the dictionary maps each forwarded output to the input of its last forwarder, and nothing else |
| `IdentityStrip.Follow` | conformance/run_onnx_tests.py:225-230 | from every name whose chain of replacements ends, the loop reaches that end |
| `IdentityStrip.Graph.StripIdentityNodes` | conformance/run_onnx_tests.py:211-231 | on every graph whose chains end: unchanged if nothing forwards, otherwise the nodes other than Identity, with inputs and outputs at the end of their chains |
| `StripLaws.StripLaw` | conformance/run_onnx_tests.py:211-228 | exactly the nodes that are not Identity are left, in order, with their operator, attributes and outputs, and each input at the end of its chain of one-to-one Identity nodes |
| `StripLaws.OutputLaw` | conformance/run_onnx_tests.py:218-231 | outputs likewise; without a one-to-one Identity node nothing changes |
| `IdentityStrip.SortedCanStrip` | conformance/run_onnx_tests.py:225-230 | on a sorted graph every chain ends |
| `IdentityStrip.StripPreservesMeaning` | conformance/run_onnx_tests.py:211-231 | the graph left is well formed and free of Identity, and every positional output evaluates as before, for any operators and inputs |
| `IdentityStrip.ResolveKnown` | conformance/run_onnx_tests.py:225-230 | a resolved name is defined no later than the name it replaces, and no Identity node produces it |
| `IdentityStrip.StrippedIsWellFormed` | conformance/run_onnx_tests.py:220-227 | the stripped nodes are sorted, name every value once and use known names only |
| `IdentityStrip.NoIdentityLeft` | conformance/run_onnx_tests.py:220-227 | no Identity node is left |
| `TensorWire.RoundTrip` | conformance/run_onnx_tests.py:349-378 | reading what was written gives the tensor back if and only if its rank is positive and its payload length is below the reader's limit |
| `TensorWire.ScalarBecomesVector` | conformance/run_onnx_tests.py:353-359 | a scalar comes back as a vector of one element |
| `TensorWire.ReadIffHeld` | conformance/run_onnx_tests.py:365-378 | exactly which byte files read as a given tensor, for any set of known types, limit on lengths and set of accepted shapes |
| `WireLaws.FileLayout` | conformance/run_onnx_tests.py:353-362 | every byte of a written file: magic, type code, rank in 4 and dimensions and length in 8 little-endian bytes, payload |
| `WireLaws.WriteIff` | conformance/run_onnx_tests.py:358-361 | writing fails exactly when the rank reaches 2^32 or a dimension or the length 2^64 |
| `WireLaws.RowsRoundTrip` | conformance/run_onnx_tests.py:349-378 | whatever is rows of rows of elements of the right size is written and read back |
| `WireLaws.ReadHasRows` | conformance/run_onnx_tests.py:377-378 | whatever is read is rows of rows of its shape |
| `WireLaws.RefusedIff` | conformance/run_onnx_tests.py:370-376 | a file is refused for its magic, or as cut off in its header, exactly when it is |
| `WireLaws.RefusedAfterHeader` | conformance/run_onnx_tests.py:375-378 | which whole headers are refused, and as what |
| `WireLaws.AnyOrderFits` | conformance/run_onnx_tests.py:378 | any order of the dimensions takes payloads of the same length |
| `TensorWire.LimitOnlyRejects` | conformance/run_onnx_tests.py:365-378 | whatever is read under the limit on lengths is read alike without it |
| `TensorWire.WriteDistinguishes` | conformance/run_onnx_tests.py:349-362 | two tensors are written alike only if they agree up to a scalar's shape |
| `TensorWire.CutIsNoticed` | conformance/run_onnx_tests.py:365-378 | every proper prefix of a written tensor is rejected |
| `TensorWire.AddedIsIgnored` | conformance/run_onnx_tests.py:365-378 | bytes after a written tensor change nothing |
| `TensorWire.UnpackPack` | conformance/run_onnx_tests.py:358-361 | little-endian numbers that fit are unpacked to themselves |
| `TensorWire.PackUnpack` | conformance/run_onnx_tests.py:372-374 | packing undoes unpacking |
| `Repack.Model.CollectSpans` | scripts/repack_external_data.py:48-57 | the spans and locations of the external initializers, or failure if a location is missing |
| `Repack.SortSorts` | scripts/repack_external_data.py:67 | the spans in order of offset, ties in model order, none lost |
| `Repack.CopySpan` | scripts/repack_external_data.py:77-84 | the chunked copy appends exactly the span, or fails if the source ends first |
| `Repack.Model.Lay` | scripts/repack_external_data.py:69-95 | the blob and the rewritten entries after every span, or the first span that does not fit |
| `Repack.Model.Run` | scripts/repack_external_data.py:48-95 | the outcome for every model and set of blobs, with each failure's exact condition and the entries rewritten before it |
| `Repack.TensorIsKeptIff` | scripts/repack_external_data.py:48-95 | a tensor reads the same bytes afterwards if and only if its length was recorded or there was nothing to read |
| `RepackLaws.ReadableIff` | scripts/repack_external_data.py:77-84 | a model can be repacked exactly when every tensor with bytes lies inside the file |
| `RepackLaws.LocationsLaw` | scripts/repack_external_data.py:57 | the locations are exactly those the external tensors name |
| `RepackLaws.EntryLaw` | scripts/repack_external_data.py:69-95 | each entry keeps its name, gets a recorded length and an offset that is a multiple of 4096, where its bytes are found |
| `RepackLaws.OrderLaw` | scripts/repack_external_data.py:67-95 | tensors keep their order by offset, ties by listing, and do not overlap |
| `RepackLaws.FirstLaw` | scripts/repack_external_data.py:69-75 | the first tensor is at offset zero |
| `RepackLaws.TightLaw` | scripts/repack_external_data.py:72-75 | every other starts less than 4096 bytes after the one before it ends |
| `RepackLaws.PaddingLaw` | scripts/repack_external_data.py:72-75 | every byte that belongs to no tensor is zero |
| `Repack.WithoutLengthNothingIsRead` | scripts/repack_external_data.py:53-57 | a tensor without a recorded length reads as empty afterwards |
| `Repack.MissingLengthLosesBytes` | scripts/repack_external_data.py:53-57 | a readable model of one byte that comes back empty |
| `Repack.SpanIsCopied` | scripts/repack_external_data.py:72-85 | every span is found at its new offset |
| `Repack.GapIsZero` | scripts/repack_external_data.py:72-75 | every byte outside the spans is zero |
| `Repack.TensorsAreApart` | scripts/repack_external_data.py:72-95 | new offsets are multiples of 4096 and new spans do not overlap |
| `Repack.BlobIsTight` | scripts/repack_external_data.py:72-85 | the new size is at most the sum of lengths plus 4095 per gap |
| `RepackAgain.SecondRepackIsIdentityIff` | scripts/repack_external_data.py:48-95 | a second repack changes nothing if and only if every empty tensor is listed before the next nonempty one in offset order |
| `RepackAgain.SecondRepackIsIdentity` | scripts/repack_external_data.py:48-95 | in particular when all lengths are positive |
| `RepackAgain.EmptyTensorMoves` | scripts/repack_external_data.py:48-95 | a model with an empty tensor that a second repack changes |
| `RepackAgain.PassesOneAtATime` | scripts/repack_external_data.py:67-95 | one repack moves an empty tensor behind at most one nonempty tensor listed before it |
| `RepackAgain.StaysReadable` | scripts/repack_external_data.py:48-95 | a repacked model can be read from its repacked file |
| `RepackAgain.RepackingSettles` | scripts/repack_external_data.py:48-95 | repeated runs reach a model and a file that no later run changes, after at most one run more than there are misplaced pairs |
| `Repack.EmbeddedStays` | scripts/repack_external_data.py:50-51 | embedded initializers are untouched |
| `StaticCache.SetupIsValid` | scripts/build_static_cache_workflow.py:208-211 | setup succeeds exactly for cursors inside the buffer and establishes the invariant |
| `StaticCache.RunStaysValid` | scripts/build_static_cache_workflow.py:246-260 | no number of iterations drives the cursor out of the buffer or breaks the invariant |
| `StaticCache.ActiveAppendsIff` | scripts/build_static_cache_workflow.py:110-135 | a step of an active row appends to its prefix exactly when there is room |
| `StaticCache.InactiveIsFrozenIff` | scripts/build_static_cache_workflow.py:246-260 | a step of an inactive row keeps its prefix exactly below capacity, or when the next token's embedding is what its last slot holds |
| `StaticCache.FullRowIsOverwritten` | scripts/build_static_cache_workflow.py:246-260 | a full row, as setup makes it, whose last slot is overwritten |
| `StaticCache.FullRowKeepsTheRest` | scripts/build_static_cache_workflow.py:246-260 | a full row keeps every slot below the last for the rest of the run |
| `StaticCache.StopsWhenFull` | scripts/build_static_cache_workflow.py:250-256 | an active row stops exactly when its buffer is full |
| `StaticCache.FrozenBelowCapacity` | scripts/build_static_cache_workflow.py:246-260 | a row inactive below capacity keeps its prefix for the rest of the run |
| `StaticCache.RefinesGrowingCache` | scripts/build_static_cache_workflow.py:110-158 | tokens, pooled vectors and slots are those of a decoder with an unbounded cache |
| `CacheLaws.RowLaw` | scripts/build_static_cache_workflow.py:110-158 | after setup and any number of iterations: cursor, length and flag in closed form, each value slot the lanes of its key squared, and the pooled lanes the sums over the valid prefix; every iteration writes the chosen token's embedding at the cursor |
| `CacheLaws.ClosedForm` | scripts/build_static_cache_workflow.py:246-260 | cursor, length and flag after n iterations |
| `CacheLaws.HistoryLaw` | scripts/build_static_cache_workflow.py:136-158 | the pooled lanes of a history are the sums of its embeddings' lanes and their squares |
| `StaticCache.MaskedSumOfStored` | scripts/build_static_cache_workflow.py:136-156 | masking and summing the buffer sums exactly the stored history |
| `StaticCache.PrefixIsKept` | scripts/build_static_cache_workflow.py:246-260 | no step below capacity disturbs an earlier slot |
| `StaticCache.RewindIsACursorMove` | scripts/build_static_cache_workflow.py:110-158 | restoring cursor and length after any number of steps reproduces the original continuation |
| `StaticCache.ScatterIsRejectedIff` | scripts/build_static_cache_workflow.py:117-135 | a list of writes fails exactly when one of them lies outside the cache |
| `StaticCache.ScatterHits` | scripts/build_static_cache_workflow.py:117-135 | when no two writes share a row coordinate, each row named gets exactly its own update |
| `StaticCache.ScatterMisses` | scripts/build_static_cache_workflow.py:117-135 | a row no write names is untouched |
| `StaticCache.SharedSlotKeepsTheLast` | scripts/build_static_cache_workflow.py:117-135 | two writes to one slot would interfere: the later one wins |
| `StaticCache.PooledRow` | scripts/build_static_cache_workflow.py:136-158 | masking and pooling the batch pools each row over its own length |
| `StaticCache.DecodedRow` | scripts/build_static_cache_workflow.py:110-158 | decoding the batch decodes each row |
| `StaticCache.BatchIsRejectedIff` | scripts/build_static_cache_workflow.py:117-135 | the batch is rejected exactly when some cursor is outside the buffer |
| `StaticCache.BodyRow` | scripts/build_static_cache_workflow.py:246-260 | one iteration of the batch is one iteration of each row |
| `StaticCache.SetupStartsRun` | scripts/build_static_cache_workflow.py:166-221 | setting up a batch fails exactly when a start cursor is outside the buffer; otherwise it sets up each row on its own and a run can start from it |
| `StaticCache.RunGoesOn` | scripts/build_static_cache_workflow.py:246-260 | a run from a valid batch, such as setup makes, can always take another step |
| `StaticCache.RowsAreIndependent` | scripts/build_static_cache_workflow.py:117-135 | in every run of a batch each row passes through the states it would pass through alone |
| `StaticCache.LoopEnds` | scripts/build_static_cache_workflow.py:277-285 | the continue flag is down once every active row has had its free slots |
| `CacheLaws.ContinuesIff` | scripts/build_static_cache_workflow.py:277-285 | the loop goes on exactly while some active row had room for one more |
| `Packing.GranuleRound` | scripts/moe_granularity_analysis.py:33-34 | whole granules, and less than one more than the size |
| `Packing.RoundIsLeast` | scripts/moe_granularity_analysis.py:33-34 | the result is whole granules and the least that hold the size |
| `Packing.PackLayer` | scripts/moe_granularity_analysis.py:77-80 | every expert's chunk is its rank divided by the chunk size, and chunk lengths count their experts |
| `Packing.ChunkIsListed` | scripts/moe_granularity_analysis.py:77-80 | which chunks exist and how many experts each holds |
| `Packing.CommitLayer` | scripts/moe_granularity_analysis.py:82-86 | committed and useful memory of a layer |
| `PackingLaws.CommittedLaw` | scripts/moe_granularity_analysis.py:82-86 | a layer commits 3E rounded up to 8 for every full chunk and the rest rounded up likewise |
| `PackingLaws.ResidentLaw` | scripts/moe_granularity_analysis.py:98-104 | an expert is resident exactly when a selected one has a rank with the same quotient by E |
| `Packing.ResidentMemory` | scripts/moe_granularity_analysis.py:98-106 | resident memory is at least that of the resident experts and less than one granule more for each hot chunk |
| `Packing.ResidentIsCommitted` | scripts/moe_granularity_analysis.py:82-106 | resident memory never exceeds the layer's committed memory |
| `PackingRun.Measure` | scripts/moe_granularity_analysis.py:61-110 | fails exactly without steps or experts; otherwise memory and chunks over layers, hot chunks, resident experts and memory of every step and layer, and the number of always-hot chunks |
| `PackingReport.EvalPacking` | scripts/moe_granularity_analysis.py:61-130 | the returned averages and ratios, as exact fractions of those measures |
| `PackingReport.ReportBounds` | scripts/moe_granularity_analysis.py:104-130 | average resident memory lies between what is transferred and less than one granule more a hot chunk, and within the committed memory; always-on chunks are among the average hot ones |
| `PackingReport.WasteIsAtLeastOne` | scripts/moe_granularity_analysis.py:82-87 | the waste factor is at least one |
| `PackingReport.SelectivityIdeal` | scripts/moe_granularity_analysis.py:98-124 | with top-k experts selected every time the selectivity ratio is at least one, and one with one expert a chunk |
| `PackingLaws.ChunkFigures` | scripts/moe_granularity_analysis.py:118-130 | the sizes of one chunk, and ceil(n / E) chunks a layer |
| `PackingLaws.ObjectiveLaw` | scripts/moe_granularity_analysis.py:126-128 | the objective is waste times transferred memory, and no less than the latter |
| `Packing.PackingSize` | scripts/moe_granularity_analysis.py:77-80 | a layer of n experts has ceil(n / E) chunks |
| `PackingRun.AlwaysOnIs` | scripts/moe_granularity_analysis.py:108-110 | chunks counted in every step are those hot in every step |
| `Packing.HotSums` | scripts/moe_granularity_analysis.py:103-104 | the sum of hot chunk lengths is the number of resident experts |
| `Packing.CoarserCommitsLess` | scripts/moe_granularity_analysis.py:82-86 | merging every m chunks never commits more memory |
| `PackingRun.CoarserCommitsLessInTotal` | scripts/moe_granularity_analysis.py:82-86 | the same over all layers |
| `Packing.CoarserKeepsMore` | scripts/moe_granularity_analysis.py:98-106 | merging chunks keeps at least the same experts resident |
| `Packing.FinestIsExact` | scripts/moe_granularity_analysis.py:98-106 | with one expert a chunk exactly the selected experts are resident |
| `Packing.SelectedIsResident` | scripts/moe_granularity_analysis.py:98-106 | selected experts are resident at every chunk size |
| `Packing.NineCommitsMoreThanEight` | scripts/moe_granularity_analysis.py:33-34 | without divisibility a larger chunk can commit more |
| `Gini.GiniOfCurve` | scripts/moe_concentration_curve.py:42-51 | the result is the normalised sum of pairwise differences, or 0 without traffic |
| `Gini.SkewIsGini` | scripts/moe_router_skew.py:123-135 | the other formula gives the same value |
| `Gini.WeightsAreDifferences` | scripts/moe_concentration_curve.py:48-51 | on sorted counts the position weights add up the pairwise differences |
| `Gini.CumulativeTotal` | scripts/moe_router_skew.py:131-134 | the sum of running totals in terms of the weighted sum |
| `Gini.GiniRange` | scripts/moe_concentration_curve.py:42-51 | between 0, exactly for equal counts, and (n-1)/n, exactly when one count has all |
| `Gini.GiniIsBelowOne` | scripts/moe_router_skew.py:134-140 | the coefficient never reaches 1 |
| `Gini.GiniIgnoresOrder` | scripts/moe_concentration_curve.py:43 | sorting the counts does not change it |

## Left out

- File, network, tokenizer, CUDA and ONNX Runtime calls: blobs, traces and weights are parameters.
- Printed reports, JSON output, bandwidth and time conversions, and the ratios printed from counters.
- `build_groups` and `key_counts`, which only flatten a recorded trace.
- `cumulative_share` and the top-k share: sums over a sorted prefix.
- Floating-point rounding and 64-bit integer range: arithmetic is exact.
- The rounding of budget ratios to slot counts: budgets and slots are given as natural numbers.
- An unknown policy or order name, which the scripts reject: policies form a closed type.
- ExpertCache.SimOnline: does not fix which of several equal keys is evicted, because the script leaves that to set iteration order and a random generator.
- HybridCache.SimHybrid: does not fix which of several equally frequent always-on keys are kept when they overflow the budget, because the script leaves that to set iteration order.
- EqualSplit.SimEqualSplit: groups are nonempty, as the script requires when it reads their first key; under `static_pin` each group holds keys of one layer, as `build_groups` makes them.
- RouteScheduler.Schedule: does not model first-come batches of size zero, on which the script does not terminate.
- IdentityStrip.Graph.StripIdentityNodes: does not model a chain of replacements that runs in a circle, on which the script does not terminate.
- IdentityStrip.StripPreservesMeaning: covers sorted graphs, where Identity nodes have one input and one output, as the operator is defined, and no nodes that carry subgraphs.
- TensorWire.RoundTrip: element types are codes with a given element size; conversion between codes and array types is not modelled, and which shapes the array library accepts is a parameter.
- Repack.CopySpan: offsets and lengths are natural numbers; text that is not a number is not modelled.
- StaticCache.RowsAreIndependent: embedding, projection and greedy choice are arbitrary functions; arithmetic is over the reals, so summation order does not matter.
- StaticCache.LoopEnds: the iteration limit of the request is not modelled, since it can only end the loop sooner; an empty batch is not considered.
- Packing.GranuleRound: sizes are whole quarters of a MiB, in which both constants of the script are integers.
