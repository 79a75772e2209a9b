/** The averages `eval_packing` reports, and how they bound one another. */
module PackingReport {
  import opened Base
  import opened Packing
  import opened PackingRun

  /** The exact value that a floating-point quotient of the script stands for. */
  datatype Fraction = Fraction(num: int, den: int)

  function Times(a: Fraction, b: Fraction): Fraction {
    Fraction(a.num * b.num, a.den * b.den)
  }

  /** The dictionary the script returns. Sizes are in quarters of a MiB. */
  datatype Report = Report(
    chunkUseful: int,
    chunkCommitted: int,
    wasteFactor: Fraction,
    avgHotChunks: Fraction,
    avgResidentExperts: Fraction,
    selectivity: Fraction,
    avgResidentSize: Fraction,
    transferred: Fraction,
    wasteTimesTransferred: Fraction,
    alwaysOn: int,
    chunksPerLayer: Fraction)

  // ----- Averages -----

  function Column(f: Heat -> int, heats: seq<Heat>): (col: seq<int>)
    ensures |col| == |heats| && forall i :: 0 <= i < |col| ==> col[i] == f(heats[i])
  {
    seq(|heats|, i requires 0 <= i < |heats| => f(heats[i]))
  }

  function Warm(heat: Heat): int {
    |heat.hot|
  }

  function Riding(heat: Heat): int {
    heat.experts
  }

  function Held(heat: Heat): int {
    heat.size
  }

  function Mean(xs: seq<int>): Fraction {
    Fraction(Sum(xs), |xs|)
  }

  /** `heats` lists every step and layer in turn. */
  function ReportOf(m: Metrics, heats: seq<Heat>, layers: nat, e: nat, topK: nat): Report {
    var waste := Fraction(m.committed, m.useful);
    var experts := Mean(Column(Riding, heats));
    var transferred := Fraction(EXPERT * experts.num, experts.den);
    Report(EXPERT * e, GranuleRound(EXPERT * e), waste, Mean(Column(Warm, heats)), experts,
           Fraction(experts.num, topK * experts.den), Mean(Column(Held, heats)), transferred, Times(waste, transferred),
           m.alwaysOn, Fraction(m.chunks, layers))
  }

  lemma {:induction false} FlatLength<T>(groups: seq<seq<T>>, g: nat, n: nat)
    requires g <= |groups| && forall i :: 0 <= i < |groups| ==> |groups[i]| == n
    ensures |Flat(groups, g)| == g * n
  {
    if g > 0 {
      FlatLength(groups, g - 1, n);
      assert g * n == (g - 1) * n + n;
    }
  }

  /** What the script returns for these metrics. */
  ghost predicate IsReport(steps: seq<seq<seq<int>>>, ranked: seq<seq<int>>, e: nat, topK: nat, m: Metrics, r: Report)
    requires e >= 1
  {
    && IsMetrics(steps, ranked, e, m) && m.useful != 0 && ranked != [] && topK > 0
    && Flat(m.heats, |m.heats|) != [] && r == ReportOf(m, Flat(m.heats, |m.heats|), |ranked|, e, topK)
  }

  lemma HeatsExist(steps: seq<seq<seq<int>>>, ranked: seq<seq<int>>, e: nat, m: Metrics)
    requires e >= 1 && IsMetrics(steps, ranked, e, m) && ranked != []
    ensures |Flat(m.heats, |m.heats|)| == |steps| * |ranked| && Flat(m.heats, |m.heats|) != []
  {
    forall s | 0 <= s < |m.heats|
      ensures |m.heats[s]| == |ranked|
    {
      assert HeatsAt(ranked, e, steps[s], m.heats[s]);
    }
    FlatLength(m.heats, |m.heats|, |ranked|);
    MulMono(|ranked|, 1, |steps|);
  }

  /** `eval_packing`: an error without experts or without steps. */
  method EvalPacking(steps: seq<seq<seq<int>>>, ranked: seq<seq<int>>, e: nat, topK: nat) returns (r: Option<Report>)
    requires e >= 1 && topK >= 1 && Ranks(ranked) && forall s :: 0 <= s < |steps| ==> Selects(ranked, steps[s])
    ensures r.None? <==> steps == [] || TotalOver(ranked, ExpertCost(), |ranked|) == 0
    ensures r.Some? ==> exists m :: IsReport(steps, ranked, e, topK, m, r.value)
  {
    var m := Measure(steps, ranked, e);
    if m.None? {
      return None;
    }
    assert ranked != [];
    HeatsExist(steps, ranked, e, m.value);
    var report := ReportOf(m.value, Flat(m.value.heats, |m.value.heats|), |ranked|, e, topK);
    assert IsReport(steps, ranked, e, topK, m.value, report);
    return Some(report);
  }

  // ----- Sums over steps and layers -----

  lemma ColumnAppend(f: Heat -> int, a: seq<Heat>, b: seq<Heat>)
    ensures Sum(Column(f, a + b)) == Sum(Column(f, a)) + Sum(Column(f, b))
  {
    assert Column(f, a + b) == Column(f, a) + Column(f, b);
    SumAppend(Column(f, a), Column(f, b));
  }

  ghost predicate SumsTo(f: Heat -> int, heats: seq<Heat>, lo: int, hi: int) {
    lo <= Sum(Column(f, heats)) <= hi
  }

  /** A bound on every step's sum is a bound on the sum over all steps. */
  lemma {:induction false} FlatSums(f: Heat -> int, groups: seq<seq<Heat>>, g: nat, lo: int, hi: int)
    requires g <= |groups| && forall i :: 0 <= i < |groups| ==> SumsTo(f, groups[i], lo, hi)
    ensures SumsTo(f, Flat(groups, g), g * lo, g * hi)
  {
    if g > 0 {
      FlatSums(f, groups, g - 1, lo, hi);
      ColumnAppend(f, Flat(groups, g - 1), groups[g - 1]);
      OneMoreSum(Sum(Column(f, Flat(groups, g - 1))), Sum(Column(f, groups[g - 1])), g - 1, lo, hi);
    }
  }

  lemma OneMoreSum(total: int, more: int, g: nat, lo: int, hi: int)
    requires g * lo <= total <= g * hi && lo <= more <= hi
    ensures (g + 1) * lo <= total + more <= (g + 1) * hi
  {
  }

  lemma {:induction false} FlatMember<T>(groups: seq<seq<T>>, g: nat, x: T)
    requires g <= |groups| && x in Flat(groups, g)
    ensures exists i :: 0 <= i < g && x in groups[i]
  {
    if x !in groups[g - 1] {
      FlatMember(groups, g - 1, x);
    }
  }

  lemma SumOfFront(f: Heat -> int, heats: seq<Heat>)
    requires heats != []
    ensures Sum(Column(f, heats)) == Sum(Column(f, heats[..|heats| - 1])) + f(heats[|heats| - 1])
  {
    assert Column(f, heats)[..|heats| - 1] == Column(f, heats[..|heats| - 1]);
  }

  // ----- Memory against experts -----

  ghost predicate IsSnug(heat: Heat) {
    EXPERT * Riding(heat) <= Held(heat) <= EXPERT * Riding(heat) + (GRANULE - 1) * Warm(heat)
  }

  lemma {:induction false} SnugInTotal(heats: seq<Heat>)
    requires forall i :: 0 <= i < |heats| ==> IsSnug(heats[i])
    ensures var riding, held, warm := Sum(Column(Riding, heats)), Sum(Column(Held, heats)), Sum(Column(Warm, heats));
            EXPERT * riding <= held <= EXPERT * riding + (GRANULE - 1) * warm
  {
    if heats != [] {
      SnugInTotal(heats[..|heats| - 1]);
      SumOfFront(Riding, heats);
      SumOfFront(Held, heats);
      SumOfFront(Warm, heats);
      assert IsSnug(heats[|heats| - 1]);
    }
  }

  lemma HeatIsSnug(ranked: seq<seq<int>>, e: nat, step: seq<seq<int>>, heats: seq<Heat>, heat: Heat)
    requires e >= 1 && Ranks(ranked) && HeatsAt(ranked, e, step, heats) && heat in heats
    ensures IsSnug(heat)
  {
    var l :| 0 <= l < |heats| && heats[l] == heat;
    assert IsHeat(ranked[l], e, step[l], heats[l]);
    ResidentMemory(ranked[l], e, ToSet(step[l]));
  }

  lemma AllSnug(steps: seq<seq<seq<int>>>, ranked: seq<seq<int>>, e: nat, m: Metrics, heats: seq<Heat>)
    requires e >= 1 && Ranks(ranked) && IsMetrics(steps, ranked, e, m) && heats == Flat(m.heats, |m.heats|)
    ensures forall i :: 0 <= i < |heats| ==> IsSnug(heats[i])
  {
    forall i | 0 <= i < |heats|
      ensures IsSnug(heats[i])
    {
      FlatMember(m.heats, |m.heats|, heats[i]);
      var s :| 0 <= s < |m.heats| && heats[i] in m.heats[s];
      HeatIsSnug(ranked, e, steps[s], m.heats[s], heats[i]);
    }
  }

  // ----- Memory against what is committed -----

  lemma {:induction false} StepHolds(ranked: seq<seq<int>>, e: nat, step: seq<seq<int>>, heats: seq<Heat>, l: nat)
    requires e >= 1 && HeatsAt(ranked, e, step, heats) && l <= |ranked|
    ensures 0 <= Sum(Column(Held, heats[..l])) <= TotalOver(ranked, CommitCost(e), l)
  {
    if l > 0 {
      StepHolds(ranked, e, step, heats, l - 1);
      SumOfFront(Held, heats[..l]);
      assert heats[..l][..l - 1] == heats[..l - 1];
      assert IsHeat(ranked[l - 1], e, step[l - 1], heats[l - 1]);
      ResidentIsCommitted(ranked[l - 1], e, ToSet(step[l - 1]));
      HotIsPositive(e, |ranked[l - 1]|, heats[l - 1].hot, |ranked[l - 1]|);
    }
  }

  lemma {:induction false} HotIsPositive(e: nat, n: nat, hot: set<int>, k: nat)
    requires e >= 1
    ensures RoundedHot(e, n, hot, k) >= 0
  {
    if k > 0 {
      HotIsPositive(e, n, hot, k - 1);
    }
  }

  lemma ResidentTotal(steps: seq<seq<seq<int>>>, ranked: seq<seq<int>>, e: nat, m: Metrics, heats: seq<Heat>)
    requires e >= 1 && IsMetrics(steps, ranked, e, m) && heats == Flat(m.heats, |m.heats|)
    ensures SumsTo(Held, heats, 0, |steps| * m.committed)
  {
    forall s | 0 <= s < |m.heats|
      ensures SumsTo(Held, m.heats[s], 0, m.committed)
    {
      assert HeatsAt(ranked, e, steps[s], m.heats[s]);
      StepHolds(ranked, e, steps[s], m.heats[s], |ranked|);
      assert m.heats[s][..|ranked|] == m.heats[s];
    }
    FlatSums(Held, m.heats, |m.heats|, 0, m.committed);
  }

  // ----- Always-on chunks -----

  lemma {:induction false} StepWarms(heats: seq<Heat>, l: nat)
    requires l <= |heats|
    ensures Sum(Column(Warm, heats[..l])) == |HotKeys(heats, l)|
  {
    if l > 0 {
      StepWarms(heats, l - 1);
      SumOfFront(Warm, heats[..l]);
      assert heats[..l][..l - 1] == heats[..l - 1];
      NewKeys(heats, l - 1);
      MarkedCard(l - 1, heats[l - 1].hot);
    }
  }

  lemma AlwaysOnIsWarm(heats: seq<seq<Heat>>, s: nat)
    requires heats != [] && s < |heats|
    ensures |AlwaysHot(heats)| <= Sum(Column(Warm, heats[s]))
  {
    var keys := HotKeys(heats[s], |heats[s]|);
    forall k | k in AlwaysHot(heats)
      ensures k in keys
    {
      assert IsHot(heats[s], k);
      HotKeysMeaning(heats[s], |heats[s]|, k);
    }
    CardMono(AlwaysHot(heats), keys);
    StepWarms(heats[s], |heats[s]|);
    assert heats[s][..|heats[s]|] == heats[s];
  }

  lemma {:induction false} LargestSum(f: Heat -> int, groups: seq<seq<Heat>>, g: nat) returns (hi: int)
    requires g <= |groups|
    ensures forall i :: 0 <= i < g ==> Sum(Column(f, groups[i])) <= hi
  {
    hi := 0;
    if g > 0 {
      hi := LargestSum(f, groups, g - 1);
      var last := Sum(Column(f, groups[g - 1]));
      hi := if last > hi then last else hi;
    }
  }

  lemma WarmTotal(heats: seq<seq<Heat>>, on: int) returns (hi: int)
    requires heats != [] && on == |AlwaysHot(heats)|
    ensures SumsTo(Warm, Flat(heats, |heats|), |heats| * on, |heats| * hi)
  {
    hi := LargestSum(Warm, heats, |heats|);
    forall s | 0 <= s < |heats|
      ensures SumsTo(Warm, heats[s], on, hi)
    {
      AlwaysOnIsWarm(heats, s);
    }
    FlatSums(Warm, heats, |heats|, on, hi);
  }

  // ----- The ideal -----

  lemma CommittedCoversAll(ranked: seq<seq<int>>, e: nat)
    requires e >= 1
    ensures 0 <= TotalOver(ranked, ExpertCost(), |ranked|) <= TotalOver(ranked, CommitCost(e), |ranked|)
  {
    forall n: nat
      ensures ExpertCost()(n) <= CommitCost(e)(n)
    {
      CommittedCovers(n, e);
    }
    TotalMono(ranked, ExpertCost(), CommitCost(e), |ranked|);
    UsefulIsPositive(ranked, |ranked|);
  }

  lemma {:induction false} UsefulIsPositive(ranked: seq<seq<int>>, l: nat)
    requires l <= |ranked|
    ensures TotalOver(ranked, ExpertCost(), l) >= 0
  {
    if l > 0 {
      UsefulIsPositive(ranked, l - 1);
    }
  }

  /** Every step selects `topK` different experts in every layer. */
  ghost predicate SelectsTop(steps: seq<seq<seq<int>>>, topK: nat) {
    forall s, l :: 0 <= s < |steps| && 0 <= l < |steps[s]| ==> |ToSet(steps[s][l])| == topK
  }

  lemma RidesAtLeast(ranked: seq<int>, e: nat, sel: seq<int>, heat: Heat)
    requires e >= 1 && Distinct(ranked) && IsHeat(ranked, e, sel, heat)
    requires forall i :: 0 <= i < |sel| ==> sel[i] in ranked
    ensures heat.experts >= |ToSet(sel)| && (e == 1 ==> heat.experts == |ToSet(sel)|)
  {
    forall x | x in ToSet(sel)
      ensures x in ResidentFor(ranked, e, ToSet(sel))
    {
      SelectedIsResident(ranked, e, ToSet(sel), x);
    }
    CardMono(ToSet(sel), ResidentFor(ranked, e, ToSet(sel)));
    if e == 1 {
      FinestIsExact(ranked, ToSet(sel));
    }
  }

  ghost predicate Rides(heat: Heat, topK: nat, exact: bool) {
    heat.experts >= topK && (exact ==> heat.experts == topK)
  }

  lemma {:induction false} RideInTotal(heats: seq<Heat>, topK: nat, exact: bool)
    requires forall i :: 0 <= i < |heats| ==> Rides(heats[i], topK, exact)
    ensures Sum(Column(Riding, heats)) >= topK * |heats|
    ensures exact ==> Sum(Column(Riding, heats)) == topK * |heats|
  {
    if heats != [] {
      RideInTotal(heats[..|heats| - 1], topK, exact);
      SumOfFront(Riding, heats);
      MulSucc(topK, |heats| - 1);
      assert Rides(heats[|heats| - 1], topK, exact);
    }
  }

  lemma HeatRides(ranked: seq<seq<int>>, e: nat, step: seq<seq<int>>, heats: seq<Heat>, heat: Heat, topK: nat)
    requires e >= 1 && Ranks(ranked) && HeatsAt(ranked, e, step, heats) && heat in heats && Selects(ranked, step)
    requires forall l :: 0 <= l < |step| ==> |ToSet(step[l])| == topK
    ensures Rides(heat, topK, e == 1)
  {
    var l :| 0 <= l < |heats| && heats[l] == heat;
    assert IsHeat(ranked[l], e, step[l], heats[l]);
    RidesAtLeast(ranked[l], e, step[l], heat);
  }

  lemma AllRide(steps: seq<seq<seq<int>>>, ranked: seq<seq<int>>, e: nat, topK: nat, m: Metrics, heats: seq<Heat>)
    requires e >= 1 && Ranks(ranked) && IsMetrics(steps, ranked, e, m) && heats == Flat(m.heats, |m.heats|)
    requires SelectsTop(steps, topK) && forall s :: 0 <= s < |steps| ==> Selects(ranked, steps[s])
    ensures forall i :: 0 <= i < |heats| ==> Rides(heats[i], topK, e == 1)
  {
    forall i | 0 <= i < |heats|
      ensures Rides(heats[i], topK, e == 1)
    {
      FlatMember(m.heats, |m.heats|, heats[i]);
      var s :| 0 <= s < |m.heats| && heats[i] in m.heats[s];
      HeatRides(ranked, e, steps[s], m.heats[s], heats[i], topK);
    }
  }

  // ----- What a report satisfies -----

  /** The three averages have one denominator, the number of steps times that of layers. By numerators:
      resident memory is what must be transferred plus less than one granule a hot chunk; it is within
      what is committed; and the always-on chunks are among the hot ones. */
  lemma ReportBounds(steps: seq<seq<seq<int>>>, ranked: seq<seq<int>>, e: nat, topK: nat, m: Metrics, r: Report)
    requires e >= 1 && Ranks(ranked) && IsReport(steps, ranked, e, topK, m, r)
    ensures r.avgResidentSize.den == r.transferred.den == r.avgHotChunks.den == |steps| * |ranked| > 0
    ensures r.transferred.num <= r.avgResidentSize.num <= r.transferred.num + (GRANULE - 1) * r.avgHotChunks.num
    ensures r.avgResidentSize.num <= |steps| * m.committed
    ensures |steps| * r.alwaysOn <= r.avgHotChunks.num
  {
    var heats := Flat(m.heats, |m.heats|);
    HeatsExist(steps, ranked, e, m);
    AllSnug(steps, ranked, e, m, heats);
    SnugInTotal(heats);
    ResidentTotal(steps, ranked, e, m, heats);
    var hi := WarmTotal(m.heats, m.alwaysOn);
  }

  /** Padding never saves memory: the waste factor is at least one. */
  lemma WasteIsAtLeastOne(steps: seq<seq<seq<int>>>, ranked: seq<seq<int>>, e: nat, topK: nat, m: Metrics, r: Report)
    requires e >= 1 && IsReport(steps, ranked, e, topK, m, r)
    ensures r.wasteFactor.num >= r.wasteFactor.den > 0
  {
    CommittedCoversAll(ranked, e);
  }

  /** With `topK` different experts selected every time, the selectivity ratio is at least its ideal of
      one, and reaches it with one expert a chunk. */
  lemma SelectivityIdeal(steps: seq<seq<seq<int>>>, ranked: seq<seq<int>>, e: nat, topK: nat, m: Metrics, r: Report)
    requires e >= 1 && Ranks(ranked) && IsReport(steps, ranked, e, topK, m, r)
    requires SelectsTop(steps, topK) && forall s :: 0 <= s < |steps| ==> Selects(ranked, steps[s])
    ensures r.selectivity.num >= r.selectivity.den && (e == 1 ==> r.selectivity.num == r.selectivity.den)
  {
    var heats := Flat(m.heats, |m.heats|);
    AllRide(steps, ranked, e, topK, m, heats);
    RideInTotal(heats, topK, e == 1);
  }
}
