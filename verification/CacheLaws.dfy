/** What every row of the static cache workflow obeys, lane by lane and in closed form. */
module CacheLaws {
  import opened Base
  import opened StaticCache

  function LaneA(v: Vec): real {
    v.a
  }

  function LaneB(v: Vec): real {
    v.b
  }

  function LaneC(v: Vec): real {
    v.c
  }

  function LaneD(v: Vec): real {
    v.d
  }

  /** The sum of a lane and of its square over the first `n` vectors. */
  ghost function LaneSum(lane: Vec -> real, vs: seq<Vec>, n: nat): real
    requires n <= |vs|
  {
    if n == 0 then 0.0 else LaneSum(lane, vs, n - 1) + (lane(vs[n - 1]) + lane(vs[n - 1]) * lane(vs[n - 1]))
  }

  ghost predicate IsLane(lane: Vec -> real) {
    (forall x, y :: lane(Add(x, y)) == lane(x) + lane(y)) && lane(ZERO) == 0.0
  }

  ghost predicate SquaresLane(lane: Vec -> real, keys: seq<Vec>, values: seq<Vec>) {
    |keys| == |values| && forall i :: 0 <= i < |keys| ==> lane(values[i]) == lane(keys[i]) * lane(keys[i])
  }

  lemma {:induction false} MaskedLane(lane: Vec -> real, keys: seq<Vec>, values: seq<Vec>, length: nat, n: nat)
    requires IsLane(lane) && n <= |keys| && length <= |keys| && SquaresLane(lane, keys, values)
    ensures lane(MaskedSum(Add, ZERO, keys, length, n)) + lane(MaskedSum(Add, ZERO, values, length, n)) ==
            LaneSum(lane, keys, if n < length then n else length)
  {
    if n > 0 {
      MaskedLane(lane, keys, values, length, n - 1);
    }
  }

  lemma PoolLane(lane: Vec -> real, keys: seq<Vec>, values: seq<Vec>, length: nat)
    requires IsLane(lane) && length <= |keys| && SquaresLane(lane, keys, values)
    ensures lane(Pool(keys, values, length)) == LaneSum(lane, keys, length)
  {
    MaskedLane(lane, keys, values, length, |keys|);
  }

  // ----- The value cache and the pooled vector -----

  /** Every slot of the value cache holds the squares of the lanes of its key. */
  ghost predicate HoldsSquares(row: Row) {
    |row.values| == |row.keys| &&
    forall i :: 0 <= i < |row.keys| ==>
      && row.values[i].a == row.keys[i].a * row.keys[i].a && row.values[i].b == row.keys[i].b * row.keys[i].b
      && row.values[i].c == row.keys[i].c * row.keys[i].c && row.values[i].d == row.keys[i].d * row.keys[i].d
  }

  /** Each lane of the pooled vector is the sum of that lane and its square over the vectors. */
  ghost predicate IsPool(pooled: Vec, vs: seq<Vec>, n: nat)
    requires n <= |vs|
  {
    && pooled.a == LaneSum(LaneA, vs, n) && pooled.b == LaneSum(LaneB, vs, n)
    && pooled.c == LaneSum(LaneC, vs, n) && pooled.d == LaneSum(LaneD, vs, n)
  }

  lemma ValidHoldsSquares(capacity: nat, row: Row)
    requires Valid(capacity, row)
    ensures HoldsSquares(row)
  {
  }

  lemma PooledIsPrefix(capacity: nat, row: Row)
    requires Valid(capacity, row) && Pooled(row)
    ensures IsPool(row.pooled, row.keys, row.length)
  {
    ValidHoldsSquares(capacity, row);
    PoolLane(LaneA, row.keys, row.values, row.length);
    PoolLane(LaneB, row.keys, row.values, row.length);
    PoolLane(LaneC, row.keys, row.values, row.length);
    PoolLane(LaneD, row.keys, row.values, row.length);
  }

  // ----- Closed forms -----

  /** Where the cursor, the length and the flag are after `n` iterations. */
  ghost predicate IsAfter(capacity: nat, row: Row, now: Row, n: nat) {
    && now.write == (if row.write + n < capacity then row.write + n else capacity - 1)
    && now.length == (if !row.active then row.length
                      else if row.length + n < capacity then row.length + n else capacity)
    && (now.active <==> row.active && (n == 0 || row.length + n < capacity))
  }

  lemma {:induction false} ClosedForm(m: Weights, capacity: nat, row: Row, n: nat)
    requires Valid(capacity, row)
    ensures IsAfter(capacity, row, State(m, capacity, row, n), n)
  {
    if n > 0 {
      ClosedForm(m, capacity, row, n - 1);
      StateStep(m, capacity, row, n - 1);
      ClosedStep(m, capacity, row, State(m, capacity, row, n - 1), n - 1);
    }
  }

  lemma ClosedStep(m: Weights, capacity: nat, row: Row, now: Row, n: nat)
    requires Valid(capacity, row) && Valid(capacity, now) && IsAfter(capacity, row, now, n)
    ensures IsAfter(capacity, row, Body(m, capacity, now).value, n + 1)
  {
  }

  /** Every iteration chooses a token from the pooled vector and writes its embedding at the cursor. */
  ghost predicate Writes(m: Weights, now: Row, next: Row) {
    && next.token == m.choose(now.pooled) && 0 <= next.write < |now.keys|
    && next.keys == now.keys[next.write := m.embed(next.token)]
  }

  /** Setup zeroes the buffers but for the first token, written at the start cursor. */
  ghost predicate Starts(m: Weights, capacity: nat, write: int, active: bool, first: Token, row: Row) {
    && row.write == write && row.length == write + 1 && row.active == active && row.token == first
    && |row.keys| == capacity && 0 <= write < capacity && row.keys[write] == m.embed(first)
    && forall i :: 0 <= i < capacity && i != write ==> row.keys[i] == Vec(0.0, 0.0, 0.0, 0.0)
  }

  /** What setup and `n` iterations make of a row. */
  lemma RowLaw(m: Weights, capacity: nat, write: nat, active: bool, first: Token, n: nat)
    requires write < capacity
    ensures var row := Setup(m, capacity, write, active, first).value;
            var now, next := State(m, capacity, row, n), State(m, capacity, row, n + 1);
            && Starts(m, capacity, write, active, first, row)
            && Valid(capacity, now) && IsAfter(capacity, row, now, n) && HoldsSquares(now)
            && IsPool(now.pooled, now.keys, now.length)
            && Writes(m, now, next)
  {
    var row := Setup(m, capacity, write, active, first).value;
    SetupIsValid(m, capacity, write, active, first);
    StateStep(m, capacity, row, n);
    if n > 0 {
      StateStep(m, capacity, row, n - 1);
    }
    var now := State(m, capacity, row, n);
    ClosedForm(m, capacity, row, n);
    ValidHoldsSquares(capacity, now);
    PooledIsPrefix(capacity, now);
  }

  // ----- A history of tokens -----

  lemma {:induction false} TotalLane(lane: Vec -> real, ks: seq<Vec>, vs: seq<Vec>, n: nat)
    requires IsLane(lane) && n <= |ks| && SquaresLane(lane, ks, vs)
    ensures lane(Total(Add, ZERO, ks, n)) + lane(Total(Add, ZERO, vs, n)) == LaneSum(lane, ks, n)
  {
    if n > 0 {
      TotalLane(lane, ks, vs, n - 1);
    }
  }

  lemma TotalsArePool(ks: seq<Vec>, vs: seq<Vec>)
    requires SquaresLane(LaneA, ks, vs) && SquaresLane(LaneB, ks, vs)
    requires SquaresLane(LaneC, ks, vs) && SquaresLane(LaneD, ks, vs)
    ensures IsPool(Add(Total(Add, ZERO, ks, |ks|), Total(Add, ZERO, vs, |vs|)), ks, |ks|)
  {
    TotalLane(LaneA, ks, vs, |ks|);
    TotalLane(LaneB, ks, vs, |ks|);
    TotalLane(LaneC, ks, vs, |ks|);
    TotalLane(LaneD, ks, vs, |ks|);
  }

  lemma SquareAllSquares(ks: seq<Vec>)
    ensures SquaresLane(LaneA, ks, SquareAll(ks)) && SquaresLane(LaneB, ks, SquareAll(ks))
    ensures SquaresLane(LaneC, ks, SquareAll(ks)) && SquaresLane(LaneD, ks, SquareAll(ks))
  {
  }

  /** A decoder without a buffer pools, lane by lane, the embeddings of its tokens and their squares. */
  lemma HistoryLaw(m: Weights, h: seq<Token>, embedded: seq<Vec>)
    requires |embedded| == |h| && forall i :: 0 <= i < |h| ==> embedded[i] == m.embed(h[i])
    ensures IsPool(PoolHistory(m, h), embedded, |h|)
  {
    assert EmbedAll(m, h) == embedded;
    SquareAllSquares(embedded);
    TotalsArePool(embedded, SquareAll(embedded));
  }

  // ----- The loop -----

  /** The loop goes on exactly while some active row had room for one more. */
  lemma ContinuesIff(m: Weights, capacity: nat, run: seq<Batch>, n: nat)
    requires IsRun(m, capacity, run) && 1 <= n < |run|
    ensures Continue(run[n].active) <==>
            exists r :: 0 <= r < |run[0].keys| && run[0].active[r] && run[0].lengths[r] + n < capacity
  {
    RowsAreIndependent(m, capacity, run, n);
    forall r | 0 <= r < |run[0].keys|
      ensures run[n].active[r] <==> run[0].active[r] && run[0].lengths[r] + n < capacity
    {
      assert RunsAlone(m, capacity, run[0], run[n], n, r);
      ClosedForm(m, capacity, RowOf(run[0], r), n);
    }
  }
}
