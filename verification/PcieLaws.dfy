/** What `static_pin_pcie` loads, in terms of the requests alone. */
module PcieLaws {
  import opened Base
  import opened PcieFloor

  lemma {:induction false} ChunkIff(reqs: seq<seq<Key>>, lo: nat, hi: nat, k: Key)
    requires lo <= hi <= |reqs|
    ensures k in Chunk(reqs, lo, hi) <==> exists r :: lo <= r < hi && k in reqs[r]
  {
    if lo < hi {
      ChunkIff(reqs, lo, hi - 1, k);
    }
  }

  /** Request `r` is served in batch `b` of `w` and wants the unpinned key `k`. */
  ghost predicate Wants(reqs: seq<seq<Key>>, pins: set<Key>, w: nat, r: int, b: int, k: Key)
    requires w >= 1
  {
    0 <= r < |reqs| && b == r / w && k in reqs[r] && k !in pins
  }

  /** The pairs of a batch and an unpinned key it wants, from request `i` on. */
  ghost predicate AreLoads(reqs: seq<seq<Key>>, pins: set<Key>, w: nat, i: nat, loads: set<(int, Key)>)
    requires w >= 1
  {
    && (forall r, b, k :: i <= r && Wants(reqs, pins, w, r, b, k) ==> (b, k) in loads)
    && (forall x :: x in loads ==> exists r :: i <= r && Wants(reqs, pins, w, r, x.0, x.1))
  }

  lemma BatchOf(w: nat, b: nat, r: int)
    requires w >= 1
    ensures b * w <= r < b * w + w <==> r / w == b
    ensures r >= b * w + w ==> r / w > b
  {
    var q, m := r / w, r % w;
    assert r == w * q + m && 0 <= m < w;
    MulSucc(w, b);
    MulSucc(w, q);
    if q < b {
      MulMono(w, q + 1, b);
    } else if q > b {
      MulMono(w, b + 1, q);
    }
  }

  lemma FirstBatch(reqs: seq<seq<Key>>, pins: set<Key>, w: nat, b: nat, i: nat, rest: set<(int, Key)>)
    returns (loads: set<(int, Key)>)
    requires w >= 1 && i == b * w < |reqs| && AreLoads(reqs, pins, w, i + w, rest)
    ensures AreLoads(reqs, pins, w, i, loads)
    ensures |loads| == |Chunk(reqs, i, Min(i + w, |reqs|)) - pins| + |rest|
  {
    var hi := Min(i + w, |reqs|);
    var keys := Chunk(reqs, i, hi) - pins;
    loads := Marked(b, keys) + rest;
    MarkedCard(b, keys);
    forall x | x in rest
      ensures x.0 > b
    {
      var r :| i + w <= r && Wants(reqs, pins, w, r, x.0, x.1);
      BatchOf(w, b, r);
    }
    assert Marked(b, keys) !! rest;
    forall r, c, k | i <= r && Wants(reqs, pins, w, r, c, k)
      ensures (c, k) in loads
    {
      BatchOf(w, b, r);
      ChunkIff(reqs, i, hi, k);
    }
    forall x | x in loads
      ensures exists r :: i <= r && Wants(reqs, pins, w, r, x.0, x.1)
    {
      if x !in rest {
        ChunkIff(reqs, i, hi, x.1);
        var r :| i <= r < hi && x.1 in reqs[r];
        BatchOf(w, b, r);
        assert Wants(reqs, pins, w, r, b, x.1);
      }
    }
  }

  lemma NextBatch(w: nat, b: nat, i: nat) returns (next: nat)
    requires i == b * w
    ensures next == b + 1 && i + w == next * w
  {
    next := b + 1;
    MulSucc(w, b);
  }

  lemma FirstCost(reqs: seq<seq<Key>>, pins: set<Key>, w: nat, i: nat)
    requires w >= 1 && i < |reqs|
    ensures BatchSum(ChunkCost(reqs, pins), |reqs|, w, i) ==
            |Chunk(reqs, i, Min(i + w, |reqs|)) - pins| + BatchSum(ChunkCost(reqs, pins), |reqs|, w, i + w)
  {
  }

  lemma {:induction false} LoadsFrom(reqs: seq<seq<Key>>, pins: set<Key>, w: nat, b: nat, i: nat)
    returns (loads: set<(int, Key)>)
    requires w >= 1 && i == b * w
    ensures AreLoads(reqs, pins, w, i, loads) && BatchSum(ChunkCost(reqs, pins), |reqs|, w, i) == |loads|
    decreases |reqs| - i
  {
    if i >= |reqs| {
      loads := {};
    } else {
      var next := NextBatch(w, b, i);
      var rest := LoadsFrom(reqs, pins, w, next, i + w);
      loads := FirstBatch(reqs, pins, w, b, i, rest);
      FirstCost(reqs, pins, w, i);
    }
  }

  /** The total counts every unpinned key once for each batch of `w` consecutive requests that wants it. */
  lemma LoadLaw(reqs: seq<seq<Key>>, pins: set<Key>, w: nat) returns (loads: set<(int, Key)>)
    requires w >= 1
    ensures BatchLoads(reqs, pins, w) == |loads|
    ensures forall b, k :: (b, k) in loads <==> exists r :: Wants(reqs, pins, w, r, b, k)
  {
    loads := LoadsFrom(reqs, pins, w, 0, 0);
    forall b, k
      ensures (b, k) in loads <==> exists r :: Wants(reqs, pins, w, r, b, k)
    {
      if (b, k) in loads {
        var r :| 0 <= r && Wants(reqs, pins, w, r, (b, k).0, (b, k).1);
      }
    }
  }
}
