/** `count_keys` and `sim_static_pin`: pinning the most frequent keys and streaming the rest. */
module StaticPin {
  import opened Base
  import opened ExpertCache
  import opened Belady

  ghost predicate InRange(trace: Trace, n: nat) {
    forall g, i :: 0 <= g < |trace| && 0 <= i < |trace[g]| ==> 0 <= trace[g][i] < n
  }

  // ----- Accesses of a trace, one at a time -----

  /** Accesses to keys outside `pinned` among the first `n` of a group. */
  ghost function GroupStreamed(grp: seq<Key>, n: nat, pinned: set<Key>): int
    requires n <= |grp|
  {
    if n == 0 then 0 else GroupStreamed(grp, n - 1, pinned) + if grp[n - 1] in pinned then 0 else 1
  }

  /** Accesses to keys outside `pinned` in the first `g` groups. */
  ghost function Streamed(trace: Trace, g: nat, pinned: set<Key>): int
    requires g <= |trace|
  {
    if g == 0 then 0 else Streamed(trace, g - 1, pinned) + GroupStreamed(trace[g - 1], |trace[g - 1]|, pinned)
  }

  ghost function GroupCount(grp: seq<Key>, n: nat, k: Key): int
    requires n <= |grp|
  {
    if n == 0 then 0 else GroupCount(grp, n - 1, k) + if grp[n - 1] == k then 1 else 0
  }

  ghost function KeyCount(trace: Trace, g: nat, k: Key): int
    requires g <= |trace|
  {
    if g == 0 then 0 else KeyCount(trace, g - 1, k) + GroupCount(trace[g - 1], |trace[g - 1]|, k)
  }

  method CountKeys(trace: Trace, n: nat) returns (c: seq<int>)
    requires InRange(trace, n)
    ensures |c| == n
    ensures forall k :: 0 <= k < n ==> c[k] == KeyCount(trace, |trace|, k)
  {
    c := seq(n, _ => 0);
    for g := 0 to |trace|
      invariant |c| == n
      invariant forall k :: 0 <= k < n ==> c[k] == KeyCount(trace, g, k)
    {
      for i := 0 to |trace[g]|
        invariant |c| == n
        invariant forall k :: 0 <= k < n ==> c[k] == KeyCount(trace, g, k) + GroupCount(trace[g], i, k)
      {
        var k := trace[g][i];
        c := c[k := c[k] + 1];
      }
    }
  }

  // ----- Ranking keys by frequency -----

  /** Insert `k` after every key at least as frequent: what a stable descending sort does. */
  function Insert(counts: seq<int>, order: seq<int>, k: int): seq<int>
    requires 0 <= k < |counts| && forall i :: 0 <= i < |order| ==> 0 <= order[i] < |counts|
  {
    if order == [] then [k]
    else if counts[order[0]] >= counts[k] then [order[0]] + Insert(counts, order[1..], k)
    else [k] + order
  }

  ghost predicate Descending(counts: seq<int>, order: seq<int>) {
    && (forall i :: 0 <= i < |order| ==> 0 <= order[i] < |counts|)
    && (forall i, j :: 0 <= i < j < |order| ==> counts[order[i]] >= counts[order[j]])
  }

  lemma ConsSorts(counts: seq<int>, x: int, s: seq<int>)
    requires 0 <= x < |counts| && Descending(counts, s) && Distinct(s)
    requires forall i :: 0 <= i < |s| ==> counts[x] >= counts[s[i]] && s[i] != x
    ensures Descending(counts, [x] + s) && Distinct([x] + s)
  {
  }

  lemma {:induction false} InsertMembers(counts: seq<int>, order: seq<int>, k: int, x: int)
    requires 0 <= k < |counts| && forall i :: 0 <= i < |order| ==> 0 <= order[i] < |counts|
    ensures x in Insert(counts, order, k) <==> x in order || x == k
  {
    if order != [] && counts[order[0]] >= counts[k] {
      InsertMembers(counts, order[1..], k, x);
      assert order == [order[0]] + order[1..];
    }
  }

  lemma {:induction false} InsertSorts(counts: seq<int>, order: seq<int>, k: int)
    requires 0 <= k < |counts| && Descending(counts, order) && Distinct(order) && k !in order
    ensures Descending(counts, Insert(counts, order, k)) && Distinct(Insert(counts, order, k))
    ensures |Insert(counts, order, k)| == |order| + 1
  {
    if order == [] {
    } else if counts[order[0]] >= counts[k] {
      var head, rest := order[0], order[1..];
      InsertSorts(counts, rest, k);
      var ins := Insert(counts, rest, k);
      forall i | 0 <= i < |ins|
        ensures counts[head] >= counts[ins[i]] && ins[i] != head
      {
        InsertMembers(counts, rest, k, ins[i]);
      }
      ConsSorts(counts, head, ins);
    } else {
      ConsSorts(counts, k, order);
    }
  }

  /** `sorted(range(n), key=lambda k: counts[k], reverse=True)`. */
  function Order(counts: seq<int>, n: nat): (order: seq<int>)
    requires n <= |counts|
    ensures forall i :: 0 <= i < |order| ==> 0 <= order[i] < |counts|
  {
    if n == 0 then [] else
      var front := Order(counts, n - 1);
      var order := Insert(counts, front, n - 1);
      assert forall i :: 0 <= i < |order| ==> 0 <= order[i] < |counts| by {
        InsertInRange(counts, front, n - 1);
      }
      order
  }

  lemma {:induction false} InsertInRange(counts: seq<int>, order: seq<int>, k: int)
    requires 0 <= k < |counts| && forall i :: 0 <= i < |order| ==> 0 <= order[i] < |counts|
    ensures forall i :: 0 <= i < |Insert(counts, order, k)| ==> 0 <= Insert(counts, order, k)[i] < |counts|
  {
    if order != [] {
      InsertInRange(counts, order[1..], k);
    }
  }

  /** `order` lists the first `n` keys, most frequent first. */
  ghost predicate Ranks(counts: seq<int>, order: seq<int>, n: nat) {
    Descending(counts, order) && Distinct(order) && |order| == n && forall k :: k in order <==> 0 <= k < n
  }

  lemma InsertRanks(counts: seq<int>, order: seq<int>, n: nat)
    requires n < |counts| && Ranks(counts, order, n)
    ensures Ranks(counts, Insert(counts, order, n), n + 1)
  {
    InsertSorts(counts, order, n);
    forall k
      ensures k in Insert(counts, order, n) <==> 0 <= k < n + 1
    {
      InsertMembers(counts, order, n, k);
    }
  }

  lemma OrderSorts(counts: seq<int>, n: nat)
    requires n <= |counts|
    ensures Ranks(counts, Order(counts, n), n)
  {
    for i := 0 to n
      invariant Ranks(counts, Order(counts, i), i)
    {
      InsertRanks(counts, Order(counts, i), i);
    }
  }

  function TopPins(counts: seq<int>, budget: nat): set<Key> {
    ToSet(Order(counts, |counts|)[..Min(budget, |Order(counts, |counts|)|)])
  }

  lemma TopPinsFit(counts: seq<int>, budget: nat)
    ensures |TopPins(counts, budget)| <= budget
  {
    var order := Order(counts, |counts|);
    ToSetCard(order[..Min(budget, |order|)]);
  }

  /** `sim_static_pin`: every access to an unpinned key is a page-in. */
  method SimStaticPin(trace: Trace, budget: nat, counts: seq<int>) returns (pageIns: int)
    ensures pageIns == Streamed(trace, |trace|, TopPins(counts, budget))
  {
    var order := Order(counts, |counts|);
    var pinned := ToSet(order[..Min(budget, |order|)]);
    pageIns := 0;
    for g := 0 to |trace|
      invariant pageIns == Streamed(trace, g, pinned)
    {
      for i := 0 to |trace[g]|
        invariant pageIns == Streamed(trace, g, pinned) + GroupStreamed(trace[g], i, pinned)
      {
        if trace[g][i] !in pinned {
          pageIns := pageIns + 1;
        }
      }
    }
  }

  // ----- Optimality over all pin sets -----

  /** Traffic of the keys of `pinned` among the first `m` of `order`. */
  ghost function Weight(counts: seq<int>, order: seq<int>, pinned: set<Key>, m: nat): int
    requires m <= |order| && forall i :: 0 <= i < |order| ==> 0 <= order[i] < |counts|
  {
    if m == 0 then 0
    else Weight(counts, order, pinned, m - 1) + if order[m - 1] in pinned then counts[order[m - 1]] else 0
  }

  /** Traffic of the `m` most frequent keys. */
  ghost function Top(counts: seq<int>, order: seq<int>, m: nat): int
    requires m <= |order| && forall i :: 0 <= i < |order| ==> 0 <= order[i] < |counts|
  {
    if m == 0 then 0 else Top(counts, order, m - 1) + counts[order[m - 1]]
  }

  ghost function Picked(order: seq<int>, pinned: set<Key>, m: nat): (r: nat)
    requires m <= |order|
    ensures r <= m
  {
    if m == 0 then 0 else Picked(order, pinned, m - 1) + if order[m - 1] in pinned then 1 else 0
  }

  /** Any selection of keys carries at most as much traffic as equally many top keys. */
  lemma {:induction false} TopIsHeaviest(counts: seq<int>, order: seq<int>, pinned: set<Key>, m: nat)
    requires Descending(counts, order) && m <= |order|
    ensures Weight(counts, order, pinned, m) <= Top(counts, order, Picked(order, pinned, m))
  {
    if m > 0 {
      TopIsHeaviest(counts, order, pinned, m - 1);
    }
  }

  lemma {:induction false} TopGrows(counts: seq<int>, order: seq<int>, a: nat, b: nat)
    requires a <= b <= |order| && Descending(counts, order)
    requires forall k :: 0 <= k < |counts| ==> counts[k] >= 0
    ensures Top(counts, order, a) <= Top(counts, order, b)
    decreases b
  {
    if a < b {
      TopGrows(counts, order, a, b - 1);
    }
  }

  lemma {:induction false} PickedSet(order: seq<int>, pinned: set<Key>, m: nat) returns (s: set<Key>)
    requires m <= |order| && Distinct(order)
    ensures s <= pinned && |s| == Picked(order, pinned, m)
    ensures forall k :: k in s ==> k in order[..m]
  {
    s := {};
    if m > 0 {
      s := PickedSet(order, pinned, m - 1);
      assert order[m - 1] !in order[..m - 1];
      s := if order[m - 1] in pinned then s + {order[m - 1]} else s;
    }
  }

  lemma {:induction false} TopPinsWeight(counts: seq<int>, order: seq<int>, b: nat, m: nat)
    requires Distinct(order) && m <= |order| && b <= |order|
    requires forall i :: 0 <= i < |order| ==> 0 <= order[i] < |counts|
    ensures Weight(counts, order, ToSet(order[..b]), m) == Top(counts, order, Min(b, m))
  {
    if m > 0 {
      TopPinsWeight(counts, order, b, m - 1);
      assert order[m - 1] in order[..b] <==> m - 1 < b;
    }
  }

  // ----- Traffic of a trace, summed by key -----

  ghost function Accesses(trace: Trace, g: nat): int
    requires g <= |trace|
  {
    if g == 0 then 0 else Accesses(trace, g - 1) + |trace[g - 1]|
  }

  /** `Weight` for counts given as a function. */
  ghost function Mass(cnt: Key -> int, order: seq<int>, pinned: set<Key>, m: nat): int
    requires m <= |order|
  {
    if m == 0 then 0 else Mass(cnt, order, pinned, m - 1) + if order[m - 1] in pinned then cnt(order[m - 1]) else 0
  }

  lemma {:induction false} MassAdd(a: Key -> int, b: Key -> int, sum: Key -> int, order: seq<int>, pinned: set<Key>,
                                   m: nat)
    requires m <= |order| && forall k :: sum(k) == a(k) + b(k)
    ensures Mass(sum, order, pinned, m) == Mass(a, order, pinned, m) + Mass(b, order, pinned, m)
  {
    if m > 0 {
      MassAdd(a, b, sum, order, pinned, m - 1);
    }
  }

  lemma {:induction false} MassOfOne(k: Key, one: Key -> int, order: seq<int>, pinned: set<Key>, m: nat)
    requires m <= |order| && Distinct(order) && forall q :: one(q) == if q == k then 1 else 0
    ensures Mass(one, order, pinned, m) == if k in order[..m] && k in pinned then 1 else 0
  {
    if m > 0 {
      MassOfOne(k, one, order, pinned, m - 1);
      assert order[..m] == order[..m - 1] + [order[m - 1]];
    }
  }

  lemma {:induction false} GroupTraffic(grp: seq<Key>, i: nat, order: seq<int>, pinned: set<Key>)
    requires i <= |grp| && Distinct(order) && forall j :: 0 <= j < |grp| ==> grp[j] in order
    ensures Mass(k => GroupCount(grp, i, k), order, pinned, |order|) == i - GroupStreamed(grp, i, pinned)
  {
    if i == 0 {
      MassOfNone(k => GroupCount(grp, 0, k), order, pinned, |order|);
    } else {
      GroupTraffic(grp, i - 1, order, pinned);
      var one: Key -> int := k => if k == grp[i - 1] then 1 else 0;
      MassOfOne(grp[i - 1], one, order, pinned, |order|);
      assert order[..|order|] == order;
      MassAdd(k => GroupCount(grp, i - 1, k), one, k => GroupCount(grp, i, k), order, pinned, |order|);
    }
  }

  lemma {:induction false} MassOfNone(none: Key -> int, order: seq<int>, pinned: set<Key>, m: nat)
    requires m <= |order| && forall k :: none(k) == 0
    ensures Mass(none, order, pinned, m) == 0
  {
    if m > 0 {
      MassOfNone(none, order, pinned, m - 1);
    }
  }

  lemma {:induction false} TraceTraffic(trace: Trace, g: nat, order: seq<int>, pinned: set<Key>)
    requires g <= |trace| && Distinct(order)
    requires forall h, j :: 0 <= h < |trace| && 0 <= j < |trace[h]| ==> trace[h][j] in order
    ensures Mass(k => KeyCount(trace, g, k), order, pinned, |order|) == Accesses(trace, g) - Streamed(trace, g, pinned)
  {
    if g == 0 {
      MassOfNone(k => KeyCount(trace, 0, k), order, pinned, |order|);
    } else {
      var grp := trace[g - 1];
      TraceTraffic(trace, g - 1, order, pinned);
      GroupTraffic(grp, |grp|, order, pinned);
      MassAdd(k => KeyCount(trace, g - 1, k), k => GroupCount(grp, |grp|, k), k => KeyCount(trace, g, k),
              order, pinned, |order|);
    }
  }

  lemma {:induction false} WeightIsMass(counts: seq<int>, cnt: Key -> int, order: seq<int>, pinned: set<Key>, m: nat)
    requires m <= |order| && forall i :: 0 <= i < |order| ==> 0 <= order[i] < |counts|
    requires forall k :: 0 <= k < |counts| ==> counts[k] == cnt(k)
    ensures Weight(counts, order, pinned, m) == Mass(cnt, order, pinned, m)
  {
    if m > 0 {
      WeightIsMass(counts, cnt, order, pinned, m - 1);
    }
  }

  ghost predicate InSample(trace: Trace, counts: seq<int>) {
    && InRange(trace, |counts|)
    && forall k :: 0 <= k < |counts| ==> counts[k] == KeyCount(trace, |trace|, k)
  }

  /** Page-ins under any pin set: all accesses but the traffic of the pinned keys. */
  lemma StreamedByWeight(trace: Trace, counts: seq<int>, pinned: set<Key>)
    requires InSample(trace, counts)
    ensures Streamed(trace, |trace|, pinned) ==
            Accesses(trace, |trace|) - Weight(counts, Order(counts, |counts|), pinned, |Order(counts, |counts|)|)
  {
    var order := Order(counts, |counts|);
    OrderSorts(counts, |counts|);
    TraceTraffic(trace, |trace|, order, pinned);
    WeightIsMass(counts, k => KeyCount(trace, |trace|, k), order, pinned, |order|);
  }

  /** Page-ins of `sim_static_pin` with counts taken from the trace itself. */
  lemma StaticPinCost(trace: Trace, counts: seq<int>, budget: nat)
    requires InSample(trace, counts)
    ensures |Order(counts, |counts|)| == |counts|
    ensures Streamed(trace, |trace|, TopPins(counts, budget)) ==
            Accesses(trace, |trace|) - Top(counts, Order(counts, |counts|), Min(budget, |counts|))
  {
    var order := Order(counts, |counts|);
    OrderSorts(counts, |counts|);
    StreamedByWeight(trace, counts, TopPins(counts, budget));
    TopPinsWeight(counts, order, Min(budget, |counts|), |counts|);
  }

  lemma {:induction false} CountsNonNegative(trace: Trace, g: nat, k: Key)
    requires g <= |trace|
    ensures KeyCount(trace, g, k) >= 0
  {
    if g > 0 {
      CountsNonNegative(trace, g - 1, k);
      GroupCountNonNegative(trace[g - 1], |trace[g - 1]|, k);
    }
  }

  lemma {:induction false} GroupCountNonNegative(grp: seq<Key>, n: nat, k: Key)
    requires n <= |grp|
    ensures GroupCount(grp, n, k) >= 0
  {
    if n > 0 {
      GroupCountNonNegative(grp, n - 1, k);
    }
  }

  /** In-sample, no pin set of the same size streams less than the top keys do. */
  lemma StaticPinIsOptimal(trace: Trace, counts: seq<int>, budget: nat, other: set<Key>)
    requires InSample(trace, counts) && |other| <= budget
    ensures Streamed(trace, |trace|, TopPins(counts, budget)) <= Streamed(trace, |trace|, other)
  {
    var order := Order(counts, |counts|);
    OrderSorts(counts, |counts|);
    StaticPinCost(trace, counts, budget);
    StreamedByWeight(trace, counts, other);
    TopIsHeaviest(counts, order, other, |order|);
    var picked := PickedSet(order, other, |order|);
    CardMono(picked, other);
    forall k | 0 <= k < |counts|
      ensures counts[k] >= 0
    {
      CountsNonNegative(trace, |trace|, k);
    }
    TopGrows(counts, order, Picked(order, other, |order|), Min(budget, |counts|));
  }

  /** In-sample page-ins fall with the budget, by less and less. */
  lemma StaticPinIsConvex(trace: Trace, counts: seq<int>, budget: nat)
    requires InSample(trace, counts)
    ensures var cost := (b: nat) => Streamed(trace, |trace|, TopPins(counts, b));
            0 <= cost(budget + 1) - cost(budget + 2) <= cost(budget) - cost(budget + 1)
  {
    var order := Order(counts, |counts|);
    OrderSorts(counts, |counts|);
    StaticPinCost(trace, counts, budget);
    StaticPinCost(trace, counts, budget + 1);
    StaticPinCost(trace, counts, budget + 2);
    if budget < |counts| {
      CountsNonNegative(trace, |trace|, order[budget]);
    }
    if budget + 1 < |counts| {
      CountsNonNegative(trace, |trace|, order[budget + 1]);
    }
  }

  // ----- The oracle against pinning -----

  ghost function Seen(trace: Trace, g: nat): set<Key>
    requires g <= |trace|
  {
    if g == 0 then {} else Seen(trace, g - 1) + ToSet(trace[g - 1])
  }

  /** Demand paging in imitation of a pin set: keep the pins met so far and the current group. */
  ghost function PinResident(trace: Trace, pinned: set<Key>, g: nat): set<Key>
    requires g <= |trace|
  {
    if g == 0 then {} else pinned * Seen(trace, g) + ToSet(trace[g - 1])
  }

  ghost predicate ImitatesPins(trace: Trace, pinned: set<Key>, res: seq<set<Key>>) {
    |res| == |trace| + 1 && forall g :: 0 <= g <= |trace| ==> res[g] == PinResident(trace, pinned, g)
  }

  lemma {:induction false} DistinctStreamed(grp: seq<Key>, n: nat, pinned: set<Key>)
    requires n <= |grp|
    ensures |ToSet(grp[..n]) - pinned| <= GroupStreamed(grp, n, pinned)
  {
    if n == 0 {
      assert ToSet(grp[..0]) - pinned == {};
    } else {
      DistinctStreamed(grp, n - 1, pinned);
      PrefixSet(grp, n);
      var before := ToSet(grp[..n - 1]) - pinned;
      CardMono(ToSet(grp[..n]) - pinned, before + if grp[n - 1] in pinned then {} else {grp[n - 1]});
    }
  }

  lemma PinStepCost(trace: Trace, g: nat, pinned: set<Key>)
    requires g < |trace|
    ensures |ToSet(trace[g]) - PinResident(trace, pinned, g)| + |pinned * Seen(trace, g)| <=
            GroupStreamed(trace[g], |trace[g]|, pinned) + |pinned * Seen(trace, g + 1)|
  {
    var group, seen := ToSet(trace[g]), Seen(trace, g);
    DistinctStreamed(trace[g], |trace[g]|, pinned);
    assert trace[g][..|trace[g]|] == trace[g];
    var fresh' := pinned * group - seen;
    CardMono(group - PinResident(trace, pinned, g), (group - pinned) + fresh');
    assert pinned * Seen(trace, g + 1) == pinned * seen + fresh';
  }

  lemma {:induction false} PinResidentsCost(trace: Trace, g: nat, pinned: set<Key>, res: seq<set<Key>>)
    requires g <= |trace| && ImitatesPins(trace, pinned, res)
    ensures PageIns(trace, res, g) <= Streamed(trace, g, pinned) + |pinned * Seen(trace, g)|
  {
    if g == 0 {
      assert pinned * Seen(trace, 0) == {};
    } else {
      var h := g - 1;
      PinResidentsCost(trace, h, pinned, res);
      PinStepCost(trace, h, pinned);
      assert res[h] == PinResident(trace, pinned, h);
    }
  }

  lemma PinStepDemand(trace: Trace, g: nat, pinned: set<Key>, budget: nat)
    requires g < |trace| && |pinned| + |ToSet(trace[g])| <= budget
    ensures Demand(PinResident(trace, pinned, g), ToSet(trace[g]), budget, PinResident(trace, pinned, g + 1))
  {
    var group, kept := ToSet(trace[g]), pinned * Seen(trace, g + 1);
    CardMono(kept, pinned);
    assert |kept + group| == |kept| + |group| - |kept * group|;
  }

  /** Given one group's worth of extra slots, the oracle pages in at most what pinning streams
      plus the first load of each pin, which `sim_static_pin` never charges. */
  lemma OracleAgainstPinning(trace: Trace, budget: nat, groupMax: nat, pinned: set<Key>, oracle: seq<set<Key>>)
    requires |pinned| <= budget && forall g :: 0 <= g < |trace| ==> |ToSet(trace[g])| <= groupMax
    requires OracleSchedule(trace, budget + groupMax, oracle)
    ensures PageIns(trace, oracle, |trace|) <= Streamed(trace, |trace|, pinned) + budget
  {
    var res := seq(|trace| + 1, g requires 0 <= g <= |trace| => PinResident(trace, pinned, g));
    var slots := budget + groupMax;
    forall g | 0 <= g < |trace|
      ensures DemandAt(trace, slots, res, g)
    {
      PinStepDemand(trace, g, pinned, slots);
    }
    OracleIsOptimal(trace, slots, oracle, res);
    PinResidentsCost(trace, |trace|, pinned, res);
    CardMono(pinned * Seen(trace, |trace|), pinned);
  }

  lemma OracleRunAgainstPinning(trace: Trace, budget: nat, groupMax: nat, slots: nat, pinned: set<Key>, run: seq<Sim>)
    requires |pinned| <= budget && slots == budget + groupMax && IsRun(Oracle, trace, slots, run)
    requires forall g :: 0 <= g < |trace| ==> |ToSet(trace[g])| <= groupMax
    ensures run[|trace|].pageIns <= Streamed(trace, |trace|, pinned) + budget
  {
    OracleRunIsOracle(trace, slots, run);
    RunPageIns(Oracle, trace, slots, run, |trace|);
    OracleAgainstPinning(trace, budget, groupMax, pinned, Residents(run));
  }

  /** The same for the numbers the two simulators return, whatever the counts were taken from. */
  lemma OracleResultAgainstPinning(trace: Trace, budget: nat, groupMax: nat, slots: nat, counts: seq<int>, oracle: int)
    requires slots == budget + groupMax && forall g :: 0 <= g < |trace| ==> |ToSet(trace[g])| <= groupMax
    requires Costs(Oracle, trace, slots, oracle)
    ensures oracle <= Streamed(trace, |trace|, TopPins(counts, budget)) + budget
  {
    var run: seq<Sim> :| IsRun(Oracle, trace, slots, run) && run[|trace|].pageIns == oracle;
    TopPinsFit(counts, budget);
    OracleRunAgainstPinning(trace, budget, groupMax, slots, TopPins(counts, budget), run);
  }
}
