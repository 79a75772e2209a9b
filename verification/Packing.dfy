/** Packing experts into memory chunks: `granule_round` and `eval_packing`. Sizes are in quarters of
    a MiB, so an expert is 3 and a device granule is 8. */
module Packing {
  import opened Base

  const EXPERT := 3
  const GRANULE := 8

  /** The smallest number of whole granules that holds `size`. */
  function GranuleRound(size: int): (r: int)
    ensures size <= r < size + GRANULE && r % GRANULE == 0
  {
    (size + GRANULE - 1) / GRANULE * GRANULE
  }

  /** A whole number of granules, and no fewer would hold the size. */
  lemma RoundIsLeast(size: int, k: int)
    ensures GranuleRound(size) % GRANULE == 0
    ensures size <= k * GRANULE <==> GranuleRound(size) <= k * GRANULE
  {
    var q := (size + GRANULE - 1) / GRANULE;
    assert GranuleRound(size) == q * GRANULE;
  }

  lemma RoundIsSubadditive(a: int, b: int)
    ensures GranuleRound(a + b) <= GranuleRound(a) + GranuleRound(b)
  {
    var p, q, r := (a + 7) / 8, (b + 7) / 8, (a + b + 7) / 8;
    assert a <= 8 * p && b <= 8 * q && 8 * r < a + b + 8;
    assert r < p + q + 1;
  }

  // ----- Chunks -----

  /** The chunk of the expert ranked at position `p`. */
  function ChunkAt(p: nat, e: nat): nat
    requires e >= 1
  {
    p / e
  }

  /** How many of the first `n` positions fall in chunk `c`. */
  ghost function Count(e: nat, n: nat, c: int): nat
    requires e >= 1
  {
    if n == 0 then 0 else Count(e, n - 1, c) + if ChunkAt(n - 1, e) == c then 1 else 0
  }

  /** The experts whose chunk is hot. */
  ghost function Resident(ranked: seq<int>, e: nat, n: nat, hot: set<int>): set<int>
    requires e >= 1 && n <= |ranked|
  {
    if n == 0 then {}
    else if ChunkAt(n - 1, e) in hot then Resident(ranked, e, n - 1, hot) + {ranked[n - 1]}
    else Resident(ranked, e, n - 1, hot)
  }

  lemma {:induction false} ResidentMeaning(ranked: seq<int>, e: nat, n: nat, hot: set<int>, x: int)
    requires e >= 1 && n <= |ranked|
    ensures x in Resident(ranked, e, n, hot) <==> exists p :: 0 <= p < n && ranked[p] == x && ChunkAt(p, e) in hot
  {
    if n > 0 {
      ResidentMeaning(ranked, e, n - 1, hot, x);
    }
  }

  lemma CardAdd(s: set<int>, x: int)
    requires x !in s
    ensures |s + {x}| == |s| + 1
  {
  }

  /** The next expert in rank order is not resident yet. */
  lemma Fresh(ranked: seq<int>, e: nat, n: nat, hot: set<int>)
    requires e >= 1 && n < |ranked| && Distinct(ranked)
    ensures ranked[n] !in Resident(ranked, e, n, hot)
  {
    ResidentMeaning(ranked, e, n, hot, ranked[n]);
  }

  /** How many of the first `n` positions fall in hot chunks. */
  ghost function HotCount(e: nat, n: nat, hot: set<int>): nat
    requires e >= 1
  {
    if n == 0 then 0 else HotCount(e, n - 1, hot) + if ChunkAt(n - 1, e) in hot then 1 else 0
  }

  lemma {:induction false} ResidentSize(ranked: seq<int>, e: nat, n: nat, hot: set<int>)
    requires e >= 1 && n <= |ranked| && Distinct(ranked)
    ensures |Resident(ranked, e, n, hot)| == HotCount(e, n, hot)
  {
    if n > 0 {
      ResidentSize(ranked, e, n - 1, hot);
      if ChunkAt(n - 1, e) in hot {
        Fresh(ranked, e, n - 1, hot);
        CardAdd(Resident(ranked, e, n - 1, hot), ranked[n - 1]);
      }
    }
  }

  /** One more hot chunk adds its own positions. */
  lemma {:induction false} HotCountAdd(e: nat, n: nat, hot: set<int>, c: int)
    requires e >= 1 && c !in hot
    ensures HotCount(e, n, hot + {c}) == HotCount(e, n, hot) + Count(e, n, c)
  {
    if n > 0 {
      HotCountAdd(e, n - 1, hot, c);
    }
  }

  // ----- The size of a chunk -----

  /** Of `n` experts, those in the first `j` chunks. */
  function Covered(n: int, e: int, j: int): int {
    Min(n, j * e)
  }

  function ChunkLen(n: int, e: int, c: int): int {
    Covered(n, e, c + 1) - Covered(n, e, c)
  }

  lemma ChunkBounds(p: nat, e: nat, c: nat)
    requires e >= 1
    ensures ChunkAt(p, e) == c <==> c * e <= p < (c + 1) * e
  {
    var q, r := p / e, p % e;
    assert p == q * e + r && 0 <= r < e;
    MulSucc(e, q);
    if q < c {
      MulMono(e, q + 1, c);
    } else if c < q {
      MulMono(e, c + 1, q);
    }
  }

  lemma ChunkLenStep(n: nat, e: nat, c: nat)
    requires e >= 1
    ensures ChunkLen(n + 1, e, c) == ChunkLen(n, e, c) + if ChunkAt(n, e) == c then 1 else 0
  {
    ChunkBounds(n, e, c);
    MulMono(e, c, c + 1);
  }

  lemma {:induction false} CountIsChunkLen(e: nat, n: nat, c: nat)
    requires e >= 1
    ensures Count(e, n, c) == ChunkLen(n, e, c)
  {
    if n == 0 {
      MulMono(e, 0, c);
      MulMono(e, 0, c + 1);
    } else {
      CountIsChunkLen(e, n - 1, c);
      ChunkLenStep(n - 1, e, c);
    }
  }

  // ----- Committed memory -----

  ghost predicate Subadditive(round: int -> int) {
    round(0) == 0 && forall a, b :: AddsUp(round, a, b)
  }

  ghost predicate AddsUp(round: int -> int, a: int, b: int) {
    round(a + b) <= round(a) + round(b)
  }

  lemma GranuleIsSubadditive()
    ensures Subadditive(GranuleRound)
  {
    forall a, b
      ensures AddsUp(GranuleRound, a, b)
    {
      RoundIsSubadditive(a, b);
    }
  }

  /** The rounded sizes of the chunks from `a` to `b`, where `cov(j)` is the end of the first `j`. */
  ghost function Rounded(round: int -> int, cov: int -> int, a: int, b: int): int
    decreases b - a
  {
    if a >= b then 0 else Rounded(round, cov, a, b - 1) + round(EXPERT * (cov(b) - cov(b - 1)))
  }

  ghost function Cover(n: int, e: int): int -> int {
    j => Covered(n, e, j)
  }

  /** The device memory committed for `n` experts in chunks of `e`. There are at most `n` chunks; any
      further ones are empty. */
  ghost function Committed(n: nat, e: nat): int {
    Rounded(GranuleRound, Cover(n, e), 0, n)
  }

  lemma {:induction false} RoundedSplit(round: int -> int, cov: int -> int, a: int, b: int, c: int)
    requires a <= b <= c
    ensures Rounded(round, cov, a, c) == Rounded(round, cov, a, b) + Rounded(round, cov, b, c)
    decreases c - b
  {
    if b < c {
      RoundedSplit(round, cov, a, b, c - 1);
    }
  }

  /** Rounding a run of chunks as one commits no more than rounding them one by one. */
  lemma {:induction false} RoundedTogether(round: int -> int, cov: int -> int, a: int, b: int)
    requires Subadditive(round) && a <= b
    ensures round(EXPERT * (cov(b) - cov(a))) <= Rounded(round, cov, a, b)
    decreases b - a
  {
    if a < b {
      RoundedTogether(round, cov, a, b - 1);
      var x, y := EXPERT * (cov(b - 1) - cov(a)), EXPERT * (cov(b) - cov(b - 1));
      assert x + y == EXPERT * (cov(b) - cov(a));
      assert AddsUp(round, x, y);
    }
  }

  /** `wide` ends its chunk `c` where `cov` ends its chunk `c * m`. */
  ghost predicate Coarsens(cov: int -> int, wide: int -> int, m: int) {
    forall c :: wide(c) == cov(c * m)
  }

  lemma CoarserStep(round: int -> int, cov: int -> int, wide: int -> int, m: nat, k: nat, a: int)
    requires Subadditive(round) && a >= 0 && wide(k) == cov(a) && wide(k + 1) == cov(a + m)
    ensures Rounded(round, cov, 0, a) + round(EXPERT * (wide(k + 1) - wide(k))) <= Rounded(round, cov, 0, a + m)
  {
    RoundedTogether(round, cov, a, a + m);
    RoundedSplit(round, cov, 0, a, a + m);
  }

  lemma {:induction false} RoundedCoarser(round: int -> int, cov: int -> int, wide: int -> int, m: nat, k: nat,
                                          small: int)
    requires Subadditive(round) && Coarsens(cov, wide, m) && small == k * m
    ensures small >= 0 && Rounded(round, wide, 0, k) <= Rounded(round, cov, 0, small)
  {
    if k > 0 {
      MulSucc(m, k - 1);
      var a := small - m;
      RoundedCoarser(round, cov, wide, m, k - 1, a);
      CoarserStep(round, cov, wide, m, k - 1, a);
    }
  }

  lemma CoverCoarsens(n: int, e: int, m: int)
    ensures Coarsens(Cover(n, e), Cover(n, m * e), m)
  {
    forall c
      ensures Covered(n, m * e, c) == Covered(n, e, c * m)
    {
      Regroup(c, m, e);
    }
  }

  lemma {:induction false} EmptyChunksAreFree(round: int -> int, cov: int -> int, n: int, a: int, b: int)
    requires round(0) == 0 && a <= b && forall j :: j >= a ==> cov(j) == n
    ensures Rounded(round, cov, a, b) == 0
    decreases b - a
  {
    if a < b {
      EmptyChunksAreFree(round, cov, n, a, b - 1);
    }
  }

  lemma AllCovered(n: nat, e: nat, a: nat)
    requires a * e >= n
    ensures forall j :: j >= a ==> Cover(n, e)(j) == n
  {
    forall j | j >= a
      ensures Covered(n, e, j) == n
    {
      MulMono(e, a, j);
    }
  }

  /** Merging every `m` chunks into one never commits more. */
  lemma CoarserCommitsLess(n: nat, e: nat, m: nat)
    requires e >= 1 && m >= 1
    ensures Committed(n, m * e) <= Committed(n, e)
  {
    GranuleIsSubadditive();
    var small := n * m;
    MulMono(n, 1, m);
    MulMono(n, 1, e);
    CoverCoarsens(n, e, m);
    RoundedCoarser(GranuleRound, Cover(n, e), Cover(n, m * e), m, n, small);
    AllCovered(n, e, n);
    EmptyChunksAreFree(GranuleRound, Cover(n, e), n, n, small);
    RoundedSplit(GranuleRound, Cover(n, e), 0, n, small);
  }

  lemma {:induction false} RoundedOfEqual(round: int -> int, cov: int -> int, e: nat, k: nat, r: int)
    requires r == round(EXPERT * e) && forall c :: 0 <= c < k ==> ChunkOf(cov, c) == e
    ensures Rounded(round, cov, 0, k) == k * r
  {
    if k > 0 {
      RoundedOfEqual(round, cov, e, k - 1, r);
      assert ChunkOf(cov, k - 1) == e;
      MulSucc(r, k - 1);
    }
  }

  ghost function ChunkOf(cov: int -> int, c: int): int {
    cov(c + 1) - cov(c)
  }

  lemma FullChunk(n: nat, e: nat, c: nat, k: nat)
    requires c < k && k * e == n
    ensures ChunkOf(Cover(n, e), c) == e
  {
    MulSucc(e, c);
    MulMono(e, c + 1, k);
  }

  /** Committed memory when the experts fill `k` chunks exactly. */
  lemma CommittedWhenFull(n: nat, e: nat, k: nat)
    requires e >= 1 && k * e == n
    ensures Committed(n, e) == k * GranuleRound(EXPERT * e)
  {
    GranuleIsSubadditive();
    MulMono(k, 1, e);
    forall c | 0 <= c < k
      ensures ChunkOf(Cover(n, e), c) == e
    {
      FullChunk(n, e, c, k);
    }
    RoundedOfEqual(GranuleRound, Cover(n, e), e, k, GranuleRound(EXPERT * e));
    AllCovered(n, e, k);
    EmptyChunksAreFree(GranuleRound, Cover(n, e), n, k, n);
    RoundedSplit(GranuleRound, Cover(n, e), 0, k, n);
  }

  /** Without divisibility coarser can commit more: chunks of 9 against chunks of 8. */
  lemma NineCommitsMoreThanEight(k: nat)
    requires k >= 1
    ensures Committed(72 * k, 9) > Committed(72 * k, 8)
  {
    CommittedWhenFull(72 * k, 8, 9 * k);
    CommittedWhenFull(72 * k, 9, 8 * k);
    assert GranuleRound(24) == 24 && GranuleRound(27) == 32;
  }

  // ----- Resident experts -----

  /** The chunks that hold a selected expert. */
  ghost function Hot(ranked: seq<int>, e: nat, sel: set<int>): set<int>
    requires e >= 1
  {
    set t | 0 <= t < |ranked| && ranked[t] in sel :: ChunkAt(t, e)
  }

  ghost function ResidentFor(ranked: seq<int>, e: nat, sel: set<int>): set<int>
    requires e >= 1
  {
    Resident(ranked, e, |ranked|, Hot(ranked, e, sel))
  }

  lemma Sandwich(p: nat, e: nat, q: int, a: int, b: int)
    requires a <= q < b && q * e <= p < (q + 1) * e
    ensures a * e <= p < b * e
  {
    MulMono(e, a, q);
    MulMono(e, q + 1, b);
  }

  lemma Regroup(c: int, m: int, e: int)
    ensures c * (m * e) == (c * m) * e
  {
  }

  lemma CoarserChunk(p: nat, e: nat, m: nat, big: nat)
    requires e >= 1 && m >= 1 && big == m * e >= 1
    ensures ChunkAt(p, big) == ChunkAt(ChunkAt(p, e), m)
  {
    var q := ChunkAt(p, e);
    var c := ChunkAt(q, m);
    ChunkBounds(p, e, q);
    ChunkBounds(q, m, c);
    Sandwich(p, e, q, c * m, (c + 1) * m);
    Regroup(c, m, e);
    Regroup(c + 1, m, e);
    ChunkBounds(p, big, c);
  }

  /** Coarser chunks keep at least the same experts resident. */
  lemma CoarserKeepsMore(ranked: seq<int>, e: nat, m: nat, big: nat, sel: set<int>)
    requires e >= 1 && m >= 1 && big == m * e >= 1
    ensures ResidentFor(ranked, e, sel) <= ResidentFor(ranked, big, sel)
  {
    forall x | x in ResidentFor(ranked, e, sel)
      ensures x in ResidentFor(ranked, big, sel)
    {
      ResidentMeaning(ranked, e, |ranked|, Hot(ranked, e, sel), x);
      var p :| 0 <= p < |ranked| && ranked[p] == x && ChunkAt(p, e) in Hot(ranked, e, sel);
      var t :| 0 <= t < |ranked| && ranked[t] in sel && ChunkAt(t, e) == ChunkAt(p, e);
      CoarserChunk(p, e, m, big);
      CoarserChunk(t, e, m, big);
      ResidentMeaning(ranked, big, |ranked|, Hot(ranked, big, sel), x);
    }
  }

  /** With one expert a chunk exactly the selected experts are resident. */
  lemma FinestIsExact(ranked: seq<int>, sel: set<int>)
    requires Distinct(ranked) && forall x :: x in sel ==> x in ranked
    ensures ResidentFor(ranked, 1, sel) == sel
  {
    forall x
      ensures x in ResidentFor(ranked, 1, sel) <==> x in sel
    {
      ResidentMeaning(ranked, 1, |ranked|, Hot(ranked, 1, sel), x);
    }
  }

  /** Selected experts are always resident. */
  lemma SelectedIsResident(ranked: seq<int>, e: nat, sel: set<int>, x: int)
    requires e >= 1 && x in sel && x in ranked
    ensures x in ResidentFor(ranked, e, sel)
  {
    ResidentMeaning(ranked, e, |ranked|, Hot(ranked, e, sel), x);
    var p :| 0 <= p < |ranked| && ranked[p] == x;
    assert ChunkAt(p, e) in Hot(ranked, e, sel);
  }

  // ----- The analysis -----

  /** What `chunk_len` holds once the first `n` experts of a layer are placed. */
  ghost predicate IsPacking(e: nat, n: nat, chunkLen: map<int, int>)
    requires e >= 1
  {
    && (forall c :: c in chunkLen <==> Count(e, n, c) > 0)
    && (forall c :: c in chunkLen ==> chunkLen[c] == Count(e, n, c))
  }

  lemma PlaceOne(e: nat, n: nat, chunkLen: map<int, int>, c: int)
    requires e >= 1 && IsPacking(e, n, chunkLen) && c == ChunkAt(n, e)
    ensures IsPacking(e, n + 1, chunkLen[c := (if c in chunkLen then chunkLen[c] else 0) + 1])
  {
  }

  /** What `chunk_of` holds for one layer. */
  ghost predicate Assigns(ranked: seq<int>, e: nat, chunkOf: map<int, int>)
    requires e >= 1
  {
    forall p :: 0 <= p < |ranked| ==> ranked[p] in chunkOf && chunkOf[ranked[p]] == ChunkAt(p, e)
  }

  /** The loop that assigns chunks, for one layer. */
  method PackLayer(ranked: seq<int>, e: nat) returns (chunkOf: map<int, int>, chunkLen: map<int, int>)
    requires e >= 1 && Distinct(ranked)
    ensures Assigns(ranked, e, chunkOf) && IsPacking(e, |ranked|, chunkLen)
  {
    chunkOf, chunkLen := map[], map[];
    var p := 0;
    while p < |ranked|
      invariant 0 <= p <= |ranked| && IsPacking(e, p, chunkLen)
      invariant forall q :: 0 <= q < p ==> ranked[q] in chunkOf && chunkOf[ranked[q]] == ChunkAt(q, e)
    {
      var c := ChunkAt(p, e);
      PlaceOne(e, p, chunkLen, c);
      chunkOf := chunkOf[ranked[p] := c];
      chunkLen := chunkLen[c := (if c in chunkLen then chunkLen[c] else 0) + 1];
      p := p + 1;
    }
  }

  lemma ChunkIsListed(e: nat, n: nat, chunkLen: map<int, int>, c: nat)
    requires e >= 1 && IsPacking(e, n, chunkLen)
    ensures c in chunkLen <==> c * e < n
    ensures c in chunkLen ==> chunkLen[c] == ChunkLen(n, e, c)
  {
    CountIsChunkLen(e, n, c);
    MulSucc(e, c);
  }

  /** `n` experts make this many chunks of `e`, the last one perhaps shorter. */
  function ChunkCount(n: nat, e: nat): nat
    requires e >= 1
  {
    (n + e - 1) / e
  }

  lemma ChunkCountMeaning(n: nat, e: nat, c: nat)
    requires e >= 1
    ensures c < ChunkCount(n, e) <==> c * e < n
  {
    var k := ChunkCount(n, e);
    ChunkBounds(n + e - 1, e, k);
    MulSucc(e, c);
    if c < k {
      MulMono(e, c + 1, k);
    } else {
      MulSucc(e, k);
      MulMono(e, k, c);
    }
  }

  lemma {:induction false} NoNegativeChunk(e: nat, n: nat, c: int)
    requires e >= 1 && c < 0
    ensures Count(e, n, c) == 0
  {
    if n > 0 {
      NoNegativeChunk(e, n - 1, c);
    }
  }

  /** The table has one entry a chunk. */
  lemma PackingSize(e: nat, n: nat, chunkLen: map<int, int>)
    requires e >= 1 && IsPacking(e, n, chunkLen)
    ensures |chunkLen| == ChunkCount(n, e)
  {
    forall c
      ensures c in chunkLen <==> c in Indices(ChunkCount(n, e))
    {
      if c < 0 {
        NoNegativeChunk(e, n, c);
      } else {
        ChunkIsListed(e, n, chunkLen, c);
        ChunkCountMeaning(n, e, c);
      }
    }
    assert chunkLen.Keys == Indices(ChunkCount(n, e));
  }

  /** The loop that adds up committed and useful memory, for one layer of `n` experts. */
  method CommitLayer(chunkLen: map<int, int>, ghost n: nat, ghost e: nat) returns (committed: int, useful: int)
    requires e >= 1 && IsPacking(e, n, chunkLen)
    ensures committed == Committed(n, e) && useful == EXPERT * n
  {
    committed, useful := 0, 0;
    var c := 0;
    ChunkIsListed(e, n, chunkLen, c);
    while c in chunkLen
      invariant c >= 0 && (c in chunkLen <==> c * e < n)
      invariant committed == Rounded(GranuleRound, Cover(n, e), 0, c) && useful == EXPERT * Covered(n, e, c)
      decreases n - c * e
    {
      ChunkIsListed(e, n, chunkLen, c);
      ChunkIsListed(e, n, chunkLen, c + 1);
      MulSucc(e, c);
      committed := committed + GranuleRound(chunkLen[c] * EXPERT);
      useful := useful + chunkLen[c] * EXPERT;
      c := c + 1;
    }
    CommittedByNow(n, e, c);
  }

  lemma CommittedByNow(n: nat, e: nat, c: nat)
    requires e >= 1 && c * e >= n
    ensures Committed(n, e) == Rounded(GranuleRound, Cover(n, e), 0, c) && Covered(n, e, c) == n
  {
    GranuleIsSubadditive();
    if c <= n {
      AllCovered(n, e, c);
      EmptyChunksAreFree(GranuleRound, Cover(n, e), n, c, n);
      RoundedSplit(GranuleRound, Cover(n, e), 0, c, n);
    } else {
      MulMono(n, 1, e);
      AllCovered(n, e, n);
      EmptyChunksAreFree(GranuleRound, Cover(n, e), n, n, c);
      RoundedSplit(GranuleRound, Cover(n, e), 0, n, c);
    }
  }

  /** The set of hot chunks of one step and layer. */
  method HotChunks(sel: seq<int>, chunkOf: map<int, int>, ghost ranked: seq<int>, ghost e: nat) returns (hot: set<int>)
    requires e >= 1 && Assigns(ranked, e, chunkOf)
    requires forall i :: 0 <= i < |sel| ==> sel[i] in ranked
    ensures hot == Hot(ranked, e, ToSet(sel))
  {
    hot := {};
    var i := 0;
    while i < |sel|
      invariant 0 <= i <= |sel| && hot == Hot(ranked, e, ToSet(sel[..i]))
    {
      HotAdd(ranked, e, ToSet(sel[..i]), sel[i], chunkOf);
      PrefixSet(sel, i + 1);
      hot := hot + {chunkOf[sel[i]]};
      i := i + 1;
    }
    assert sel[..i] == sel;
  }

  lemma HotAdd(ranked: seq<int>, e: nat, sel: set<int>, x: int, chunkOf: map<int, int>)
    requires e >= 1 && x in ranked && Assigns(ranked, e, chunkOf)
    ensures x in chunkOf && Hot(ranked, e, sel + {x}) == Hot(ranked, e, sel) + {chunkOf[x]}
  {
    var p :| 0 <= p < |ranked| && ranked[p] == x;
    assert ChunkAt(p, e) in Hot(ranked, e, sel + {x});
  }

  /** The rounded sizes of the chunks in `hot`, up to chunk `k`. */
  ghost function RoundedHot(e: nat, n: nat, hot: set<int>, k: nat): int
    requires e >= 1
  {
    if k == 0 then 0
    else RoundedHot(e, n, hot, k - 1) + if k - 1 in hot then GranuleRound(Count(e, n, k - 1) * EXPERT) else 0
  }

  lemma {:induction false} RoundedHotAdd(e: nat, n: nat, hot: set<int>, c: nat, k: nat)
    requires e >= 1 && c !in hot
    ensures RoundedHot(e, n, hot + {c}, k) ==
            RoundedHot(e, n, hot, k) + if c < k then GranuleRound(Count(e, n, c) * EXPERT) else 0
  {
    if k > 0 {
      RoundedHotAdd(e, n, hot, c, k - 1);
    }
  }

  lemma {:induction false} NothingHot(e: nat, n: nat, k: nat)
    requires e >= 1
    ensures HotCount(e, k, {}) == 0 && RoundedHot(e, n, {}, k) == 0
  {
    if k > 0 {
      NothingHot(e, n, k - 1);
    }
  }

  /** The two sums over the hot chunks: how many experts ride along, and the memory they take. */
  method HotSums(hot: set<int>, chunkLen: map<int, int>, ghost ranked: seq<int>, ghost e: nat)
    returns (experts: int, size: int)
    requires e >= 1 && Distinct(ranked) && IsPacking(e, |ranked|, chunkLen)
    requires forall c :: c in hot ==> 0 <= c < |ranked| && c in chunkLen
    ensures experts == |Resident(ranked, e, |ranked|, hot)|
    ensures size == RoundedHot(e, |ranked|, hot, |ranked|)
  {
    experts, size := 0, 0;
    ghost var n := |ranked|;
    var todo, done := hot, {};
    NothingHot(e, n, n);
    while todo != {}
      invariant todo + done == hot && todo !! done
      invariant experts == HotCount(e, n, done) && size == RoundedHot(e, n, done, n)
      decreases |todo|
    {
      ghost var some := Pick(todo);
      var c :| c in todo;
      HotCountAdd(e, n, done, c);
      RoundedHotAdd(e, n, done, c, n);
      experts := experts + chunkLen[c];
      size := size + GranuleRound(chunkLen[c] * EXPERT);
      todo, done := todo - {c}, done + {c};
    }
    assert done == hot;
    ResidentSize(ranked, e, n, hot);
  }

  lemma HotIsListed(ranked: seq<int>, e: nat, sel: set<int>, chunkLen: map<int, int>, c: int)
    requires e >= 1 && IsPacking(e, |ranked|, chunkLen) && c in Hot(ranked, e, sel)
    ensures 0 <= c < |ranked| && c in chunkLen
  {
    var t :| 0 <= t < |ranked| && ranked[t] in sel && ChunkAt(t, e) == c;
    ChunkBounds(t, e, c);
    MulMono(c, 1, e);
    ChunkIsListed(e, |ranked|, chunkLen, c);
  }

  lemma HotIsInside(ranked: seq<int>, e: nat, sel: set<int>, c: int)
    requires e >= 1 && c in Hot(ranked, e, sel)
    ensures 0 <= c < |ranked|
  {
    var t :| 0 <= t < |ranked| && ranked[t] in sel && ChunkAt(t, e) == c;
    ChunkBounds(t, e, c);
    MulMono(c, 1, e);
  }

  // ----- Resident memory -----

  /** The hot chunks before chunk `k`. */
  ghost function Before(hot: set<int>, k: nat): set<int> {
    set c | c in hot && 0 <= c < k
  }

  lemma BeforeGrows(hot: set<int>, k: nat)
    ensures Before(hot, k + 1) == if k in hot then Before(hot, k) + {k} else Before(hot, k)
  {
  }

  /** What the hot chunks before `k` take: their experts, and less than a granule each on top. */
  lemma {:induction false} MemoryOfHot(e: nat, n: nat, hot: set<int>, k: nat)
    requires e >= 1
    ensures var experts := HotCount(e, n, Before(hot, k));
            EXPERT * experts <= RoundedHot(e, n, hot, k) <= EXPERT * experts + (GRANULE - 1) * |Before(hot, k)|
  {
    if k == 0 {
      NothingHot(e, n, n);
      assert Before(hot, 0) == {};
    } else {
      MemoryOfHot(e, n, hot, k - 1);
      BeforeGrows(hot, k - 1);
      if k - 1 in hot {
        HotCountAdd(e, n, Before(hot, k - 1), k - 1);
      }
    }
  }

  /** Resident memory is the experts that ride along plus less than one granule a hot chunk. */
  lemma ResidentMemory(ranked: seq<int>, e: nat, sel: set<int>)
    requires e >= 1 && Distinct(ranked)
    ensures var hot := Hot(ranked, e, sel);
            var experts, size := |ResidentFor(ranked, e, sel)|, RoundedHot(e, |ranked|, hot, |ranked|);
            EXPERT * experts <= size <= EXPERT * experts + (GRANULE - 1) * |hot|
  {
    var hot, n := Hot(ranked, e, sel), |ranked|;
    forall c | c in hot
      ensures c in Before(hot, n)
    {
      HotIsInside(ranked, e, sel, c);
    }
    assert Before(hot, n) == hot;
    MemoryOfHot(e, n, hot, n);
    ResidentSize(ranked, e, n, hot);
  }

  /** No packing commits less than the experts need. */
  lemma CommittedCovers(n: nat, e: nat)
    requires e >= 1
    ensures Committed(n, e) >= EXPERT * n
  {
    GranuleIsSubadditive();
    RoundedTogether(GranuleRound, Cover(n, e), 0, n);
    MulMono(n, 1, e);
    assert Cover(n, e)(n) == n && Cover(n, e)(0) == 0;
  }

  lemma {:induction false} HotIsPartOfAll(e: nat, n: nat, hot: set<int>, k: nat)
    requires e >= 1
    ensures RoundedHot(e, n, hot, k) <= Rounded(GranuleRound, Cover(n, e), 0, k)
  {
    if k > 0 {
      HotIsPartOfAll(e, n, hot, k - 1);
      CountIsChunkLen(e, n, k - 1);
    }
  }

  /** A step keeps no more memory resident than the layer commits. */
  lemma ResidentIsCommitted(ranked: seq<int>, e: nat, sel: set<int>)
    requires e >= 1
    ensures RoundedHot(e, |ranked|, Hot(ranked, e, sel), |ranked|) <= Committed(|ranked|, e)
  {
    HotIsPartOfAll(e, |ranked|, Hot(ranked, e, sel), |ranked|);
  }
}
