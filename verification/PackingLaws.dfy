/** Committed and resident memory in closed form, with the sizes of the analysis written out: an expert
    is 3 quarters of a MiB and a granule 8. */
module PackingLaws {
  import opened Base
  import opened Packing
  import opened PackingRun
  import opened PackingReport

  /** The least multiple of 8 that is at least `size`. */
  ghost function RoundUp(size: nat): nat {
    (size + 7) / 8 * 8
  }

  lemma FullPart(n: nat, e: nat, c: nat, q: nat)
    requires c < q && q * e <= n
    ensures ChunkOf(Cover(n, e), c) == e
  {
    MulSucc(e, c);
    MulMono(e, c + 1, q);
  }

  /** All chunks but the last are full, and each is rounded up on its own. */
  lemma CommittedLaw(n: nat, e: nat)
    requires e >= 1
    ensures Committed(n, e) == n / e * RoundUp(3 * e) + RoundUp(3 * (n % e))
  {
    var q, r, cov := n / e, n % e, Cover(n, e);
    assert n == q * e + r;
    MulSucc(e, q);
    CommittedByNow(n, e, q + 1);
    forall c | 0 <= c < q
      ensures ChunkOf(cov, c) == e
    {
      FullPart(n, e, c, q);
    }
    RoundedOfEqual(GranuleRound, cov, e, q, GranuleRound(3 * e));
    assert cov(q + 1) - cov(q) == r;
  }

  /** An expert is resident exactly when a selected one has a rank with the same quotient by `e`. */
  lemma ResidentLaw(ranked: seq<int>, e: nat, sel: set<int>, x: int)
    requires e >= 1
    ensures x in ResidentFor(ranked, e, sel) <==>
            exists p, t :: 0 <= p < |ranked| && 0 <= t < |ranked| &&
                           ranked[p] == x && ranked[t] in sel && p / e == t / e
  {
    ResidentMeaning(ranked, e, |ranked|, Hot(ranked, e, sel), x);
    forall p | 0 <= p < |ranked| && ranked[p] == x && ChunkAt(p, e) in Hot(ranked, e, sel)
      ensures exists t :: 0 <= t < |ranked| && ranked[t] in sel && p / e == t / e
    {
      var t :| 0 <= t < |ranked| && ranked[t] in sel && ChunkAt(t, e) == ChunkAt(p, e);
    }
    forall p, t | 0 <= p < |ranked| && 0 <= t < |ranked| && ranked[p] == x && ranked[t] in sel && p / e == t / e
      ensures x in ResidentFor(ranked, e, sel)
    {
      assert ChunkAt(t, e) in Hot(ranked, e, sel);
    }
  }

  // ----- The report -----

  lemma {:induction false} EqualLayers(ranked: seq<seq<int>>, e: nat, n: nat, l: nat)
    requires e >= 1 && l <= |ranked| && forall i :: 0 <= i < |ranked| ==> |ranked[i]| == n
    ensures TotalOver(ranked, ChunkCost(e), l) == l * ((n + e - 1) / e)
  {
    if l > 0 {
      EqualLayers(ranked, e, n, l - 1);
      MulSucc((n + e - 1) / e, l - 1);
    }
  }

  /** The sizes of one chunk, and the number of chunks a layer has when all layers have `n` experts. */
  lemma ChunkFigures(steps: seq<seq<seq<int>>>, ranked: seq<seq<int>>, e: nat, topK: nat, m: Metrics, r: Report, n: nat)
    requires e >= 1 && IsReport(steps, ranked, e, topK, m, r) && forall i :: 0 <= i < |ranked| ==> |ranked[i]| == n
    ensures r.chunkUseful == 3 * e && r.chunkCommitted == RoundUp(3 * e)
    ensures r.chunksPerLayer.den == |ranked| && r.chunksPerLayer.num == |ranked| * ((n + e - 1) / e)
  {
    EqualLayers(ranked, e, n, |ranked|);
  }

  lemma ProductAtLeast(a: Fraction, b: Fraction)
    requires a.num >= a.den > 0 && b.num >= 0 && b.den >= 0
    ensures Times(a, b).num * b.den >= b.num * Times(a, b).den
  {
    var d := b.num * b.den;
    MulMono(d, a.den, a.num);
    assert Times(a, b).num * b.den == d * a.num && b.num * Times(a, b).den == d * a.den;
  }

  lemma {:induction false} RidingIsPositive(heats: seq<Heat>)
    requires forall i :: 0 <= i < |heats| ==> heats[i].experts >= 0
    ensures Sum(Column(Riding, heats)) >= 0
  {
    if heats != [] {
      RidingIsPositive(heats[..|heats| - 1]);
      SumOfFront(Riding, heats);
    }
  }

  /** The objective is the product of waste and transferred memory, and so no less than the latter. */
  lemma ObjectiveLaw(steps: seq<seq<seq<int>>>, ranked: seq<seq<int>>, e: nat, topK: nat, m: Metrics, r: Report)
    requires e >= 1 && IsReport(steps, ranked, e, topK, m, r)
    ensures r.wasteTimesTransferred.num == r.wasteFactor.num * r.transferred.num
    ensures r.wasteTimesTransferred.den == r.wasteFactor.den * r.transferred.den
    ensures r.wasteTimesTransferred.num * r.transferred.den >= r.transferred.num * r.wasteTimesTransferred.den
  {
    var heats := Flat(m.heats, |m.heats|);
    WasteIsAtLeastOne(steps, ranked, e, topK, m, r);
    forall i | 0 <= i < |heats|
      ensures heats[i].experts >= 0
    {
      FlatMember(m.heats, |m.heats|, heats[i]);
      var s :| 0 <= s < |m.heats| && heats[i] in m.heats[s];
      assert HeatsAt(ranked, e, steps[s], m.heats[s]);
    }
    RidingIsPositive(heats);
    ProductAtLeast(r.wasteFactor, r.transferred);
  }
}
