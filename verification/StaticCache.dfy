/** The fixed-capacity key/value cache workflow: what its decoder, step-update and loop graphs
    compute, and the machine they form when the workflow runs them in turn. */
module StaticCache {
  import opened Base

  type Token = int

  /** A slot: one embedding of four lanes. */
  datatype Vec = Vec(a: real, b: real, c: real, d: real)

  const ZERO := Vec(0.0, 0.0, 0.0, 0.0)

  function Add(x: Vec, y: Vec): Vec {
    Vec(x.a + y.a, x.b + y.b, x.c + y.c, x.d + y.d)
  }

  function Square(x: Vec): Vec {
    Vec(x.a * x.a, x.b * x.b, x.c * x.c, x.d * x.d)
  }

  /** The weights: token embedding, and projection followed by the greedy choice of a token. */
  datatype Weights = Weights(embed: Token -> Vec, choose: Vec -> Token)

  /** One row of every tensor the workflow carries from step to step. */
  datatype Row = Row(keys: seq<Vec>, values: seq<Vec>, write: int, length: int, active: bool, token: Token, pooled: Vec)

  // ----- The graphs, row by row -----

  /** The sum over the first `n` slots with the slots from `length` on masked out. */
  function MaskedSum<T>(add: (T, T) -> T, zero: T, cache: seq<T>, length: int, n: nat): T
    requires n <= |cache|
  {
    if n == 0 then zero
    else add(MaskedSum(add, zero, cache, length, n - 1), if n - 1 < length then cache[n - 1] else zero)
  }

  function Pool(keys: seq<Vec>, values: seq<Vec>, length: int): Vec {
    Add(MaskedSum(Add, ZERO, keys, length, |keys|), MaskedSum(Add, ZERO, values, length, |values|))
  }

  /** The decoder: write the token's embedding and its square at the cursor, pool the valid prefix.
      A destination outside the buffer is rejected. */
  function Decode(m: Weights, row: Row): Option<Row> {
    if 0 <= row.write < |row.keys| && row.write < |row.values| then
      var e := m.embed(row.token);
      var keys, values := row.keys[row.write := e], row.values[row.write := Square(e)];
      Some(row.(keys := keys, values := values, pooled := Pool(keys, values, row.length)))
    else None
  }

  function Update(capacity: nat, row: Row): Row {
    row.(write := Min(row.write + 1, capacity - 1),
         length := if row.active then Min(row.length + 1, capacity) else row.length,
         active := row.active && row.length + 1 < capacity)
  }

  function Initial(capacity: nat, write: int, active: bool, token: Token): Row {
    var zeros := seq(capacity, _ => ZERO);
    Row(zeros, zeros, write, Min(write + 1, capacity), active, token, ZERO)
  }

  /** Setup: state_init, then the decoder. */
  function Setup(m: Weights, capacity: nat, write: int, active: bool, token: Token): Option<Row> {
    Decode(m, Initial(capacity, write, active, token))
  }

  /** One loop iteration: next_token, step_update, then the decoder. */
  function Body(m: Weights, capacity: nat, row: Row): Option<Row> {
    Decode(m, Update(capacity, row.(token := m.choose(row.pooled))))
  }

  ghost function After(m: Weights, capacity: nat, row: Row, n: nat): Option<Row> {
    if n == 0 then Some(row)
    else
      var prev := After(m, capacity, row, n - 1);
      if prev.None? then None else Body(m, capacity, prev.value)
  }

  // ----- What every step keeps -----

  /** The value cache holds the squares of the key cache. */
  ghost predicate InStep(keys: seq<Vec>, values: seq<Vec>) {
    |keys| == |values| && forall i :: 0 <= i < |keys| ==> values[i] == Square(keys[i])
  }

  ghost predicate Valid(capacity: nat, row: Row) {
    && |row.keys| == capacity && InStep(row.keys, row.values)
    && 0 <= row.write < capacity
    && 1 <= row.length <= row.write + 1
    && (row.active ==> row.length == row.write + 1)
  }

  /** The pooled vector is that of the valid prefix, as the decoder leaves it. */
  ghost predicate Pooled(row: Row) {
    row.pooled == Pool(row.keys, row.values, row.length)
  }

  lemma SetupIsValid(m: Weights, capacity: nat, write: int, active: bool, token: Token)
    ensures Setup(m, capacity, write, active, token).Some? <==> 0 <= write < capacity
    ensures 0 <= write < capacity ==> Valid(capacity, Setup(m, capacity, write, active, token).value)
  {
  }

  lemma BodyKeepsValid(m: Weights, capacity: nat, row: Row)
    requires Valid(capacity, row)
    ensures Body(m, capacity, row).Some? && Valid(capacity, Body(m, capacity, row).value)
  {
  }

  /** A start cursor inside the buffer is never driven out of it, however long the loop runs. */
  lemma {:induction false} RunStaysValid(m: Weights, capacity: nat, row: Row, n: nat)
    requires Valid(capacity, row)
    ensures After(m, capacity, row, n).Some? && Valid(capacity, After(m, capacity, row, n).value)
  {
    if n > 0 {
      RunStaysValid(m, capacity, row, n - 1);
      BodyKeepsValid(m, capacity, After(m, capacity, row, n - 1).value);
    }
  }

  /** The row after `n` iterations. */
  ghost function State(m: Weights, capacity: nat, row: Row, n: nat): Row {
    var r := After(m, capacity, row, n);
    if r.Some? then r.value else row
  }

  lemma StateStep(m: Weights, capacity: nat, row: Row, n: nat)
    requires Valid(capacity, row)
    ensures Valid(capacity, State(m, capacity, row, n))
    ensures Some(State(m, capacity, row, n + 1)) == Body(m, capacity, State(m, capacity, row, n))
    ensures Pooled(State(m, capacity, row, n + 1))
  {
    RunStaysValid(m, capacity, row, n);
    RunStaysValid(m, capacity, row, n + 1);
  }

  // ----- Growing and frozen prefixes -----

  /** A step of an active row appends the new embedding to the valid prefix, exactly when the
      buffer has room for it. */
  lemma ActiveAppendsIff(m: Weights, capacity: nat, row: Row)
    requires Valid(capacity, row) && row.active
    ensures var next := Body(m, capacity, row).value;
            next.length == row.length + 1 &&
            next.keys[..next.length] == row.keys[..row.length] + [m.embed(next.token)] <==>
            row.length < capacity
    ensures Body(m, capacity, row).value.active ==> Body(m, capacity, row).value.length < capacity
  {
  }

  /** A step of an inactive row leaves its valid prefix alone exactly when the buffer is not full, or
      the last slot is overwritten with what it already holds. */
  lemma InactiveIsFrozenIff(m: Weights, capacity: nat, row: Row)
    requires Valid(capacity, row) && !row.active
    ensures var next := Body(m, capacity, row).value;
            && next.length == row.length && !next.active
            && (next.keys[..next.length] == row.keys[..row.length] <==>
                row.length < capacity || m.embed(m.choose(row.pooled)) == row.keys[capacity - 1])
  {
    var next := Body(m, capacity, row).value;
    if row.length == capacity {
      assert next.keys[..capacity][capacity - 1] == m.embed(next.token);
    }
  }

  /** A row that stops by itself has filled its buffer. */
  lemma StopsWhenFull(m: Weights, capacity: nat, row: Row)
    requires Valid(capacity, row) && row.active
    ensures var next := Body(m, capacity, row).value;
            !next.active <==> next.length == capacity
  {
  }

  /** Such a row is not frozen: while the batch goes on, its last slot is overwritten. Here a buffer of
      one slot is filled at setup with a token whose embedding is zero. */
  lemma FullRowIsOverwritten(m: Weights)
    requires m.embed(0) == ZERO && m.choose(ZERO) == 1 && m.embed(1) != ZERO
    ensures var row := Setup(m, 1, 0, false, 0).value;
            Valid(1, row) && Body(m, 1, row).value.keys[..row.length] != row.keys[..row.length]
  {
    var row := Setup(m, 1, 0, false, 0).value;
    SetupIsValid(m, 1, 0, false, 0);
    assert row.keys == [ZERO] && row.values == [ZERO];
    OneSlotPool(ZERO, ZERO);
    InactiveIsFrozenIff(m, 1, row);
  }

  lemma OneSlotPool(k: Vec, v: Vec)
    ensures Pool([k], [v], 1) == Add(Add(ZERO, k), Add(ZERO, v))
  {
    assert MaskedSum(Add, ZERO, [k], 1, 1) == Add(MaskedSum(Add, ZERO, [k], 1, 0), k);
    assert MaskedSum(Add, ZERO, [v], 1, 1) == Add(MaskedSum(Add, ZERO, [v], 1, 0), v);
  }

  /** Every other slot of a full row is kept for the rest of the run. */
  lemma {:induction false} FullRowKeepsTheRest(m: Weights, capacity: nat, row: Row, n: nat)
    requires Valid(capacity, row) && row.length == capacity
    ensures var now := State(m, capacity, row, n);
            Valid(capacity, now) && now.length == capacity && now.keys[..capacity - 1] == row.keys[..capacity - 1]
  {
    StateStep(m, capacity, row, n);
    if n > 0 {
      FullRowKeepsTheRest(m, capacity, row, n - 1);
      StateStep(m, capacity, row, n - 1);
      FullStep(m, capacity, State(m, capacity, row, n - 1));
    }
  }

  lemma FullStep(m: Weights, capacity: nat, row: Row)
    requires Valid(capacity, row) && row.length == capacity
    ensures var next := Body(m, capacity, row).value;
            next.length == capacity && |next.keys| == capacity && next.keys[..capacity - 1] == row.keys[..capacity - 1]
  {
  }

  /** A row switched off below capacity is frozen for good. */
  lemma {:induction false} FrozenBelowCapacity(m: Weights, capacity: nat, row: Row, n: nat)
    requires Valid(capacity, row) && !row.active && row.length < capacity
    ensures var now := State(m, capacity, row, n);
            && Valid(capacity, now) && !now.active && now.length == row.length
            && now.keys[..row.length] == row.keys[..row.length]
  {
    StateStep(m, capacity, row, n);
    if n > 0 {
      FrozenBelowCapacity(m, capacity, row, n - 1);
      StateStep(m, capacity, row, n - 1);
      InactiveIsFrozenIff(m, capacity, State(m, capacity, row, n - 1));
    }
  }

  // ----- The loop ends -----

  lemma {:induction false} ActiveRunsOut(m: Weights, capacity: nat, row: Row, n: nat)
    requires Valid(capacity, row) && n > 0 && State(m, capacity, row, n).active
    ensures row.active && State(m, capacity, row, n).length == row.length + n < capacity
  {
    StateStep(m, capacity, row, n - 1);
    if n > 1 {
      ActiveRunsOut(m, capacity, row, n - 1);
    }
  }

  // ----- Refinement of a growing cache -----

  function Total<T>(add: (T, T) -> T, zero: T, vs: seq<T>, n: nat): T
    requires n <= |vs|
  {
    if n == 0 then zero else add(Total(add, zero, vs, n - 1), vs[n - 1])
  }

  /** Pooling a whole history: there is no buffer and nothing to mask. */
  ghost function PoolHistory(m: Weights, h: seq<Token>): Vec {
    var vs := EmbedAll(m, h);
    Add(Total(Add, ZERO, vs, |h|), Total(Add, ZERO, SquareAll(vs), |h|))
  }

  /** The tokens a decoder with an unbounded cache produces. */
  ghost function History(m: Weights, first: Token, n: nat): (h: seq<Token>)
    ensures |h| == n + 1
  {
    if n == 0 then [first]
    else History(m, first, n - 1) + [m.choose(PoolHistory(m, History(m, first, n - 1)))]
  }

  /** The cache holds `vs` from slot `from` on and zeros elsewhere. */
  ghost predicate Stores<T>(zero: T, cache: seq<T>, from: nat, vs: seq<T>) {
    && from + |vs| <= |cache|
    && forall i :: 0 <= i < |cache| ==> cache[i] == if from <= i < from + |vs| then vs[i - from] else zero
  }

  ghost predicate IsZero<T(!new)>(add: (T, T) -> T, zero: T) {
    forall x :: add(x, zero) == x
  }

  lemma {:induction false} MaskedSumOfStored<T(!new)>(add: (T, T) -> T, zero: T, cache: seq<T>, from: nat, vs: seq<T>,
                                                      n: nat)
    requires IsZero(add, zero) && Stores(zero, cache, from, vs) && n <= |cache|
    ensures n <= from ==> MaskedSum(add, zero, cache, from + |vs|, n) == zero
    ensures from <= n <= from + |vs| ==> MaskedSum(add, zero, cache, from + |vs|, n) == Total(add, zero, vs, n - from)
    ensures from + |vs| <= n ==> MaskedSum(add, zero, cache, from + |vs|, n) == Total(add, zero, vs, |vs|)
  {
    if n > 0 {
      MaskedSumOfStored(add, zero, cache, from, vs, n - 1);
    }
  }

  ghost predicate Holds(m: Weights, row: Row, from: nat, h: seq<Token>) {
    && |h| > 0 && row.token == h[|h| - 1] && row.write + 1 == row.length == from + |h|
    && Stores(ZERO, row.keys, from, EmbedAll(m, h)) && row.pooled == PoolHistory(m, h)
  }

  lemma StoredSum(cache: seq<Vec>, from: nat, vs: seq<Vec>)
    requires Stores(ZERO, cache, from, vs)
    ensures MaskedSum(Add, ZERO, cache, from + |vs|, |cache|) == Total(Add, ZERO, vs, |vs|)
  {
    assert IsZero(Add, ZERO);
    MaskedSumOfStored(Add, ZERO, cache, from, vs, |cache|);
  }

  lemma SquaresStored(keys: seq<Vec>, values: seq<Vec>, from: nat, vs: seq<Vec>)
    requires Stores(ZERO, keys, from, vs) && InStep(keys, values)
    ensures Stores(ZERO, values, from, SquareAll(vs))
  {
  }

  lemma PoolOfStored(keys: seq<Vec>, values: seq<Vec>, from: nat, ks: seq<Vec>, vs: seq<Vec>)
    requires Stores(ZERO, keys, from, ks) && Stores(ZERO, values, from, vs) && |ks| == |vs|
    ensures Pool(keys, values, from + |ks|) == Add(Total(Add, ZERO, ks, |ks|), Total(Add, ZERO, vs, |vs|))
  {
    StoredSum(keys, from, ks);
    StoredSum(values, from, vs);
  }

  lemma PoolIsHistory(m: Weights, keys: seq<Vec>, values: seq<Vec>, from: nat, h: seq<Token>, length: int)
    requires InStep(keys, values) && Stores(ZERO, keys, from, EmbedAll(m, h)) && length == from + |h|
    ensures Pool(keys, values, length) == PoolHistory(m, h)
  {
    SquaresStored(keys, values, from, EmbedAll(m, h));
    PoolOfStored(keys, values, from, EmbedAll(m, h), SquareAll(EmbedAll(m, h)));
  }

  lemma SetupHolds(m: Weights, capacity: nat, write: nat, active: bool, token: Token)
    requires write < capacity
    ensures Holds(m, Setup(m, capacity, write, active, token).value, write, [token])
  {
    var row := Setup(m, capacity, write, active, token).value;
    PoolIsHistory(m, row.keys, row.values, write, [token], row.length);
  }

  lemma StoreOne(m: Weights, keys: seq<Vec>, from: nat, h: seq<Token>, t: Token)
    requires Stores(ZERO, keys, from, EmbedAll(m, h)) && from + |h| < |keys|
    ensures Stores(ZERO, keys[from + |h| := m.embed(t)], from, EmbedAll(m, h + [t]))
  {
  }

  lemma BodyWrites(m: Weights, capacity: nat, row: Row)
    requires Valid(capacity, row) && row.active && row.length < capacity
    ensures var next := Body(m, capacity, row).value;
            && next.token == m.choose(row.pooled) && next.write == row.length && next.length == row.length + 1
            && next.keys == row.keys[row.length := m.embed(next.token)] && Pooled(next)
  {
  }

  lemma HoldsNext(m: Weights, row: Row, next: Row, from: nat, h: seq<Token>)
    requires Holds(m, row, from, h) && from + |h| < |row.keys| && InStep(next.keys, next.values) && Pooled(next)
    requires next.write == row.length && next.length == row.length + 1
    requires next.keys == row.keys[row.length := m.embed(next.token)]
    ensures Holds(m, next, from, h + [next.token])
  {
    StoreOne(m, row.keys, from, h, next.token);
    PoolIsHistory(m, next.keys, next.values, from, h + [next.token], next.length);
  }

  lemma BodyHolds(m: Weights, capacity: nat, row: Row, from: nat, h: seq<Token>)
    requires Valid(capacity, row) && Holds(m, row, from, h) && row.active && row.length < capacity
    ensures Holds(m, Body(m, capacity, row).value, from, h + [m.choose(PoolHistory(m, h))])
  {
    BodyKeepsValid(m, capacity, row);
    BodyWrites(m, capacity, row);
    HoldsNext(m, row, Body(m, capacity, row).value, from, h);
  }

  /** Valid, holding `h` from slot `from` on, and active while there is room. */
  ghost predicate Refines(m: Weights, capacity: nat, row: Row, from: nat, h: seq<Token>) {
    Valid(capacity, row) && Holds(m, row, from, h) && (row.length < capacity ==> row.active)
  }

  lemma RefinementStep(m: Weights, capacity: nat, row: Row, n: nat, from: nat, h: seq<Token>)
    requires Valid(capacity, row) && Refines(m, capacity, State(m, capacity, row, n), from, h)
    requires from + |h| < capacity
    ensures Refines(m, capacity, State(m, capacity, row, n + 1), from, h + [m.choose(PoolHistory(m, h))])
  {
    StateStep(m, capacity, row, n);
    BodyKeepsValid(m, capacity, State(m, capacity, row, n));
    BodyHolds(m, capacity, State(m, capacity, row, n), from, h);
  }

  /** While the buffer has room, an active row computes exactly what an unbounded cache would: the
      same tokens, the same pooled vector, and the history in consecutive slots from its start cursor. */
  lemma {:induction false} RefinesGrowingCache(m: Weights, capacity: nat, write: nat, first: Token, n: nat)
    requires write + n < capacity
    ensures var start := Setup(m, capacity, write, true, first).value;
            Valid(capacity, start) && Refines(m, capacity, State(m, capacity, start, n), write, History(m, first, n))
  {
    var start := Setup(m, capacity, write, true, first).value;
    if n == 0 {
      SetupIsValid(m, capacity, write, true, first);
      SetupHolds(m, capacity, write, true, first);
    } else {
      RefinesGrowingCache(m, capacity, write, first, n - 1);
      RefinementStep(m, capacity, start, n - 1, write, History(m, first, n - 1));
    }
  }

  // ----- Rewinding -----

  /** The rows agree on the cursor, the length and the valid prefix; slots above it are free. */
  ghost predicate Alike(a: Row, b: Row) {
    && a.write == b.write && a.length == b.length && a.active == b.active && a.length >= 0
    && |a.keys| == |b.keys| && (forall i :: 0 <= i < a.length && i < |a.keys| ==> a.keys[i] == b.keys[i])
  }

  lemma {:induction false} MaskedSumOfPrefix<T>(add: (T, T) -> T, zero: T, a: seq<T>, b: seq<T>, length: int, n: nat)
    requires n <= |a| && n <= |b| && forall i :: 0 <= i < n && i < length ==> a[i] == b[i]
    ensures MaskedSum(add, zero, a, length, n) == MaskedSum(add, zero, b, length, n)
  {
    if n > 0 {
      MaskedSumOfPrefix(add, zero, a, b, length, n - 1);
    }
  }

  lemma AlikePoolAlike(capacity: nat, a: Row, b: Row)
    requires Valid(capacity, a) && Valid(capacity, b) && Alike(a, b)
    ensures Pool(a.keys, a.values, a.length) == Pool(b.keys, b.values, b.length)
  {
    MaskedSumOfPrefix(Add, ZERO, a.keys, b.keys, a.length, capacity);
    MaskedSumOfPrefix(Add, ZERO, a.values, b.values, a.length, capacity);
  }

  lemma BodyKeepsAlike(m: Weights, capacity: nat, a: Row, b: Row)
    requires Valid(capacity, a) && Valid(capacity, b) && Alike(a, b) && Pooled(a) && Pooled(b)
    ensures Alike(Body(m, capacity, a).value, Body(m, capacity, b).value)
    ensures Body(m, capacity, a).value.token == Body(m, capacity, b).value.token
  {
    AlikePoolAlike(capacity, a, b);
  }

  ghost predicate Twins(capacity: nat, a: Row, b: Row) {
    Valid(capacity, a) && Valid(capacity, b) && Alike(a, b) && Pooled(a) && Pooled(b)
  }

  lemma TwinStep(m: Weights, capacity: nat, a: Row, b: Row, n: nat)
    requires Valid(capacity, a) && Valid(capacity, b)
    requires Twins(capacity, State(m, capacity, a, n), State(m, capacity, b, n))
    ensures Twins(capacity, State(m, capacity, a, n + 1), State(m, capacity, b, n + 1))
    ensures State(m, capacity, a, n + 1).token == State(m, capacity, b, n + 1).token
  {
    StateStep(m, capacity, a, n);
    StateStep(m, capacity, b, n);
    RunStaysValid(m, capacity, a, n + 1);
    RunStaysValid(m, capacity, b, n + 1);
    BodyKeepsAlike(m, capacity, State(m, capacity, a, n), State(m, capacity, b, n));
  }

  lemma {:induction false} RunKeepsAlike(m: Weights, capacity: nat, a: Row, b: Row, n: nat)
    requires Twins(capacity, a, b)
    ensures Twins(capacity, State(m, capacity, a, n), State(m, capacity, b, n))
    ensures n > 0 ==> State(m, capacity, a, n).token == State(m, capacity, b, n).token
  {
    if n > 0 {
      RunKeepsAlike(m, capacity, a, b, n - 1);
      TwinStep(m, capacity, a, b, n - 1);
    }
  }

  ghost predicate Keeps(row: Row, now: Row) {
    now.length >= row.length >= 0 && |now.keys| == |row.keys| &&
    forall i :: 0 <= i < row.length && i < |row.keys| ==> now.keys[i] == row.keys[i]
  }

  lemma StepKeeps(m: Weights, capacity: nat, row: Row, n: nat)
    requires Valid(capacity, row)
    ensures var now, next := State(m, capacity, row, n), State(m, capacity, row, n + 1);
            now.length <= next.length && (now.length < capacity ==> Keeps(now, next))
  {
    StateStep(m, capacity, row, n);
  }

  /** No step below capacity disturbs a slot of the prefix it found. */
  lemma {:induction false} PrefixIsKept(m: Weights, capacity: nat, row: Row, n: nat)
    requires Valid(capacity, row) && (n > 0 ==> State(m, capacity, row, n - 1).length < capacity)
    ensures Keeps(row, State(m, capacity, row, n))
  {
    if n > 0 {
      if n > 1 {
        StepKeeps(m, capacity, row, n - 2);
      }
      PrefixIsKept(m, capacity, row, n - 1);
      StillKept(m, capacity, row, n - 1, n);
    }
  }

  lemma StillKept(m: Weights, capacity: nat, row: Row, n: nat, k: nat)
    requires Valid(capacity, row) && k == n + 1
    requires Keeps(row, State(m, capacity, row, n)) && State(m, capacity, row, n).length < capacity
    ensures Keeps(row, State(m, capacity, row, k))
  {
    StepKeeps(m, capacity, row, n);
  }

  /** Moving the cursor and the length back undoes `n` steps: from there on the run produces the
      same tokens, lengths and prefixes as the original did. */
  lemma RewindIsACursorMove(m: Weights, capacity: nat, row: Row, n: nat, k: nat)
    requires Valid(capacity, row) && Pooled(row) && (n > 0 ==> State(m, capacity, row, n - 1).length < capacity)
    ensures var far := State(m, capacity, row, n);
            var back := far.(write := row.write, length := row.length, active := row.active,
                             pooled := Pool(far.keys, far.values, row.length));
            && Valid(capacity, back)
            && Twins(capacity, State(m, capacity, back, k), State(m, capacity, row, k))
            && (k > 0 ==> State(m, capacity, back, k).token == State(m, capacity, row, k).token)
  {
    var far := State(m, capacity, row, n);
    var back := far.(write := row.write, length := row.length, active := row.active,
                     pooled := Pool(far.keys, far.values, row.length));
    StateStep(m, capacity, row, n);
    PrefixIsKept(m, capacity, row, n);
    RunKeepsAlike(m, capacity, back, row, k);
  }

  // ----- The batch -----

  /** The workflow's tensors: one entry a row. */
  datatype Batch = Batch(keys: seq<seq<Vec>>, values: seq<seq<Vec>>, writes: seq<int>, lengths: seq<int>,
                         active: seq<bool>, tokens: seq<Token>, pooled: seq<Vec>)

  predicate Rectangular(cache: seq<seq<Vec>>, rows: nat, capacity: nat) {
    |cache| == rows && forall r :: 0 <= r < rows ==> |cache[r]| == capacity
  }

  /** `rows` rows in every tensor and `capacity` slots a row in the two caches. */
  predicate Shaped(b: Batch, rows: nat, capacity: nat) {
    && Rectangular(b.keys, rows, capacity) && Rectangular(b.values, rows, capacity)
    && |b.writes| == |b.lengths| == |b.active| == |b.tokens| == |b.pooled| == rows
  }

  predicate HasRow(b: Batch, r: nat) {
    && r < |b.keys| && r < |b.values| && r < |b.writes| && r < |b.lengths|
    && r < |b.active| && r < |b.tokens| && r < |b.pooled|
  }

  function RowOf(b: Batch, r: nat): Row
    requires HasRow(b, r)
  {
    Row(b.keys[r], b.values[r], b.writes[r], b.lengths[r], b.active[r], b.tokens[r], b.pooled[r])
  }

  // ----- The index tensor and ScatterND -----

  /** A (row, slot) pair of the index tensor. */
  datatype Dest = Dest(row: int, slot: int)

  /** Two columns side by side: what the two Unsqueeze nodes and the Concat build. */
  function Beside(rows: seq<int>, slots: seq<int>): (dests: seq<Dest>)
    requires |rows| == |slots|
    ensures |dests| == |rows| && forall k :: 0 <= k < |rows| ==> dests[k] == Dest(rows[k], slots[k])
  {
    seq(|rows|, k requires 0 <= k < |rows| => Dest(rows[k], slots[k]))
  }

  predicate Inside(cache: seq<seq<Vec>>, d: Dest) {
    0 <= d.row < |cache| && 0 <= d.slot < |cache[d.row]|
  }

  function Write(cache: seq<seq<Vec>>, d: Dest, v: Vec): seq<seq<Vec>>
    requires Inside(cache, d)
  {
    cache[d.row := cache[d.row][d.slot := v]]
  }

  /** ScatterND: the first `n` updates, one after another, anywhere in the shared buffer. A
      destination outside it is rejected. */
  function Scatter(cache: seq<seq<Vec>>, dests: seq<Dest>, updates: seq<Vec>, n: nat): Option<seq<seq<Vec>>>
    requires n <= |dests| == |updates|
  {
    if n == 0 then Some(cache)
    else
      var prev := Scatter(cache, dests, updates, n - 1);
      if prev.None? || !Inside(prev.value, dests[n - 1]) then None
      else Some(Write(prev.value, dests[n - 1], updates[n - 1]))
  }

  /** The two buffers have the same rows of the same length. */
  ghost predicate SameShape(a: seq<seq<Vec>>, b: seq<seq<Vec>>) {
    |a| == |b| && forall r :: 0 <= r < |a| ==> |a[r]| == |b[r]|
  }

  lemma WriteKeepsShape(cache: seq<seq<Vec>>, d: Dest, v: Vec)
    requires Inside(cache, d)
    ensures SameShape(cache, Write(cache, d, v))
  {
  }

  lemma {:induction false} ScatterKeepsShape(cache: seq<seq<Vec>>, dests: seq<Dest>, updates: seq<Vec>, n: nat)
    requires n <= |dests| == |updates|
    ensures var r := Scatter(cache, dests, updates, n); r.Some? ==> SameShape(cache, r.value)
  {
    if n > 0 {
      ScatterKeepsShape(cache, dests, updates, n - 1);
      var prev := Scatter(cache, dests, updates, n - 1);
      if prev.Some? && Inside(prev.value, dests[n - 1]) {
        WriteKeepsShape(prev.value, dests[n - 1], updates[n - 1]);
      }
    }
  }

  /** It is rejected exactly when some destination is outside the buffer. */
  lemma {:induction false} ScatterIsRejectedIff(cache: seq<seq<Vec>>, dests: seq<Dest>, updates: seq<Vec>, n: nat)
    requires n <= |dests| == |updates|
    ensures Scatter(cache, dests, updates, n).Some? <==> forall k :: 0 <= k < n ==> Inside(cache, dests[k])
  {
    if n > 0 {
      ScatterIsRejectedIff(cache, dests, updates, n - 1);
      ScatterKeepsShape(cache, dests, updates, n - 1);
    }
  }

  /** A row no destination names is untouched. */
  lemma {:induction false} ScatterMisses(cache: seq<seq<Vec>>, dests: seq<Dest>, updates: seq<Vec>, n: nat, r: nat)
    requires n <= |dests| == |updates| && Scatter(cache, dests, updates, n).Some? && r < |cache|
    requires forall k :: 0 <= k < n ==> dests[k].row != r
    ensures r < |Scatter(cache, dests, updates, n).value| && Scatter(cache, dests, updates, n).value[r] == cache[r]
  {
    if n > 0 {
      ScatterMisses(cache, dests, updates, n - 1, r);
    }
  }

  /** With one destination a row, each row gets exactly its own update. */
  lemma {:induction false} ScatterHits(cache: seq<seq<Vec>>, dests: seq<Dest>, updates: seq<Vec>, n: nat, k: nat)
    requires k < n <= |dests| == |updates| && Scatter(cache, dests, updates, n).Some?
    requires forall i, j :: 0 <= i < j < n ==> dests[i].row != dests[j].row
    ensures Inside(cache, dests[k])
    ensures var r := dests[k].row;
            var out := Scatter(cache, dests, updates, n).value;
            r < |out| && out[r] == cache[r][dests[k].slot := updates[k]]
  {
    ScatterIsRejectedIff(cache, dests, updates, n);
    ScatterKeepsShape(cache, dests, updates, n - 1);
    if k == n - 1 {
      ScatterMisses(cache, dests, updates, k, dests[k].row);
    } else {
      ScatterHits(cache, dests, updates, n - 1, k);
      assert dests[k].row != dests[n - 1].row;
    }
  }

  /** Two destinations in one row do meet: the later update wins. */
  lemma SharedSlotKeepsTheLast(cache: seq<seq<Vec>>, d: Dest, u: Vec, v: Vec)
    requires Inside(cache, d)
    ensures Scatter(cache, [d, d], [u, v], 2) == Some(Write(cache, d, v))
  {
    assert Scatter(cache, [d, d], [u, v], 1) == Some(Write(cache, d, u));
    assert cache[d.row][d.slot := u][d.slot := v] == cache[d.row][d.slot := v];
    assert Write(Write(cache, d, u), d, v) == Write(cache, d, v);
  }

  // ----- Masking and pooling -----

  function EmbedAll(m: Weights, tokens: seq<Token>): (e: seq<Vec>)
    ensures |e| == |tokens| && forall r :: 0 <= r < |tokens| ==> e[r] == m.embed(tokens[r])
  {
    seq(|tokens|, r requires 0 <= r < |tokens| => m.embed(tokens[r]))
  }

  function SquareAll(vs: seq<Vec>): (sq: seq<Vec>)
    ensures |sq| == |vs| && forall r :: 0 <= r < |vs| ==> sq[r] == Square(vs[r])
  {
    seq(|vs|, r requires 0 <= r < |vs| => Square(vs[r]))
  }

  /** slot < cache_lengths[row], over rows and slots. */
  function Valids(lengths: seq<int>, capacity: nat): (mask: seq<seq<bool>>)
    ensures |mask| == |lengths|
    ensures forall r :: 0 <= r < |lengths| ==>
              |mask[r]| == capacity && forall i :: 0 <= i < capacity ==> mask[r][i] == (i < lengths[r])
  {
    seq(|lengths|, r requires 0 <= r < |lengths| => seq(capacity, i => i < lengths[r]))
  }

  function Masked(row: seq<Vec>, mask: seq<bool>): (t: seq<Vec>)
    requires |row| == |mask|
    ensures |t| == |row| && forall i :: 0 <= i < |row| ==> t[i] == if mask[i] then row[i] else ZERO
  {
    seq(|row|, i requires 0 <= i < |row| => if mask[i] then row[i] else ZERO)
  }

  lemma {:induction false} SumOfMasked<T>(add: (T, T) -> T, zero: T, row: seq<T>, t: seq<T>, length: int, n: nat)
    requires n <= |row| == |t| && forall i :: 0 <= i < |row| ==> t[i] == if i < length then row[i] else zero
    ensures Total(add, zero, t, n) == MaskedSum(add, zero, row, length, n)
  {
    if n > 0 {
      SumOfMasked(add, zero, row, t, length, n - 1);
    }
  }

  /** Multiply both caches by the mask, sum over the slots, add. */
  function PoolAll(keys: seq<seq<Vec>>, values: seq<seq<Vec>>, lengths: seq<int>, capacity: nat): (p: seq<Vec>)
    requires Rectangular(keys, |lengths|, capacity) && Rectangular(values, |lengths|, capacity)
    ensures |p| == |lengths|
  {
    var mask := Valids(lengths, capacity);
    seq(|lengths|, r requires 0 <= r < |lengths| =>
      Add(Total(Add, ZERO, Masked(keys[r], mask[r]), capacity), Total(Add, ZERO, Masked(values[r], mask[r]), capacity)))
  }

  lemma PooledRow(keys: seq<seq<Vec>>, values: seq<seq<Vec>>, lengths: seq<int>, capacity: nat, r: nat)
    requires Rectangular(keys, |lengths|, capacity) && Rectangular(values, |lengths|, capacity) && r < |lengths|
    ensures PoolAll(keys, values, lengths, capacity)[r] == Pool(keys[r], values[r], lengths[r])
  {
    var mask := Valids(lengths, capacity)[r];
    SumOfMasked(Add, ZERO, keys[r], Masked(keys[r], mask), lengths[r], capacity);
    SumOfMasked(Add, ZERO, values[r], Masked(values[r], mask), lengths[r], capacity);
  }

  // ----- The graphs on the batch -----

  function Dests(b: Batch): seq<Dest> {
    Beside(Range(0, |b.writes|), b.writes)
  }

  function DecodeBatch(m: Weights, capacity: nat, b: Batch): Option<Batch>
    requires Shaped(b, |b.keys|, capacity)
  {
    var e, n := EmbedAll(m, b.tokens), |b.keys|;
    var keys := Scatter(b.keys, Dests(b), e, n);
    var values := Scatter(b.values, Dests(b), SquareAll(e), n);
    if keys.None? || values.None? then None
    else
      ScatterKeepsShape(b.keys, Dests(b), e, n);
      ScatterKeepsShape(b.values, Dests(b), SquareAll(e), n);
      Some(b.(keys := keys.value, values := values.value,
              pooled := PoolAll(keys.value, values.value, b.lengths, capacity)))
  }

  function UpdateBatch(m: Weights, capacity: nat, b: Batch): Batch
    requires Shaped(b, |b.keys|, capacity)
  {
    var n := |b.keys|;
    b.(writes := seq(n, r requires 0 <= r < n => Min(b.writes[r] + 1, capacity - 1)),
       lengths := seq(n, r requires 0 <= r < n =>
         if b.active[r] then Min(b.lengths[r] + 1, capacity) else b.lengths[r]),
       active := seq(n, r requires 0 <= r < n => b.active[r] && b.lengths[r] + 1 < capacity),
       tokens := seq(n, r requires 0 <= r < n => m.choose(b.pooled[r])))
  }

  function BodyBatch(m: Weights, capacity: nat, b: Batch): Option<Batch>
    requires Shaped(b, |b.keys|, capacity)
  {
    DecodeBatch(m, capacity, UpdateBatch(m, capacity, b))
  }

  /** loop_continue: the maximum of the active flags. */
  predicate Continue(active: seq<bool>) {
    exists r :: 0 <= r < |active| && active[r]
  }

  lemma DecodeKeepsShape(m: Weights, capacity: nat, b: Batch)
    requires Shaped(b, |b.keys|, capacity) && DecodeBatch(m, capacity, b).Some?
    ensures Shaped(DecodeBatch(m, capacity, b).value, |b.keys|, capacity)
  {
    var e, n := EmbedAll(m, b.tokens), |b.keys|;
    ScatterKeepsShape(b.keys, Dests(b), e, n);
    ScatterKeepsShape(b.values, Dests(b), SquareAll(e), n);
  }

  lemma BodyKeepsShape(m: Weights, capacity: nat, b: Batch)
    requires Shaped(b, |b.keys|, capacity)
    ensures var out := BodyBatch(m, capacity, b); out.Some? ==> Shaped(out.value, |b.keys|, capacity)
  {
    var u := UpdateBatch(m, capacity, b);
    if DecodeBatch(m, capacity, u).Some? {
      DecodeKeepsShape(m, capacity, u);
    }
  }

  // ----- Rows do not meet -----

  /** The cursor of row `r` is inside the buffer. */
  ghost predicate CursorInside(b: Batch, capacity: nat, r: nat)
    requires r < |b.writes|
  {
    0 <= b.writes[r] < capacity
  }

  lemma ScatteredRow(cache: seq<seq<Vec>>, rows: nat, capacity: nat, writes: seq<int>, updates: seq<Vec>, r: nat)
    requires Rectangular(cache, rows, capacity) && |writes| == |updates| == rows && r < rows
    requires forall k :: 0 <= k < rows ==> 0 <= writes[k] < capacity
    ensures var out := Scatter(cache, Beside(Range(0, rows), writes), updates, rows);
            out.Some? && Rectangular(out.value, rows, capacity) && out.value[r] == cache[r][writes[r] := updates[r]]
  {
    var dests := Beside(Range(0, rows), writes);
    ScatterIsRejectedIff(cache, dests, updates, rows);
    ScatterKeepsShape(cache, dests, updates, rows);
    ScatterHits(cache, dests, updates, rows, r);
  }

  /** The decoder writes each row's own slot of the shared buffers and nothing else. */
  lemma DecodedRow(m: Weights, capacity: nat, b: Batch, r: nat)
    requires Shaped(b, |b.keys|, capacity) && r < |b.keys|
    requires forall k :: 0 <= k < |b.keys| ==> CursorInside(b, capacity, k)
    ensures var out := DecodeBatch(m, capacity, b);
            out.Some? && Shaped(out.value, |b.keys|, capacity) && Decode(m, RowOf(b, r)) == Some(RowOf(out.value, r))
  {
    var e, n := EmbedAll(m, b.tokens), |b.keys|;
    forall k | 0 <= k < n
      ensures 0 <= b.writes[k] < capacity
    {
      assert CursorInside(b, capacity, k);
    }
    ScatteredRow(b.keys, n, capacity, b.writes, e, r);
    ScatteredRow(b.values, n, capacity, b.writes, SquareAll(e), r);
    var out := DecodeBatch(m, capacity, b).value;
    PooledRow(out.keys, out.values, b.lengths, capacity, r);
  }

  /** One cursor outside the buffer and the whole batch is rejected. */
  lemma BatchIsRejectedIff(m: Weights, capacity: nat, b: Batch)
    requires Shaped(b, |b.keys|, capacity)
    ensures DecodeBatch(m, capacity, b).Some? <==> forall k :: 0 <= k < |b.keys| ==> CursorInside(b, capacity, k)
  {
    var e, n := EmbedAll(m, b.tokens), |b.keys|;
    ScatterIsRejectedIff(b.keys, Dests(b), e, n);
    ScatterIsRejectedIff(b.values, Dests(b), SquareAll(e), n);
    forall k | 0 <= k < n
      ensures CursorInside(b, capacity, k) <==> Inside(b.keys, Dests(b)[k]) && Inside(b.values, Dests(b)[k])
    {
    }
  }

  ghost predicate AllValid(capacity: nat, b: Batch)
    requires Shaped(b, |b.keys|, capacity)
  {
    forall r :: 0 <= r < |b.keys| ==> Valid(capacity, RowOf(b, r))
  }

  lemma UpdatedRow(m: Weights, capacity: nat, b: Batch, r: nat)
    requires Shaped(b, |b.keys|, capacity) && r < |b.keys| && Valid(capacity, RowOf(b, r))
    ensures var u := UpdateBatch(m, capacity, b);
            && Shaped(u, |b.keys|, capacity) && CursorInside(u, capacity, r)
            && Decode(m, RowOf(u, r)) == Body(m, capacity, RowOf(b, r))
  {
    var u := UpdateBatch(m, capacity, b);
    assert RowOf(u, r) == Update(capacity, RowOf(b, r).(token := m.choose(b.pooled[r])));
  }

  /** One loop iteration of the batch is one of each row. */
  lemma BodyRow(m: Weights, capacity: nat, b: Batch, r: nat)
    requires Shaped(b, |b.keys|, capacity) && AllValid(capacity, b) && r < |b.keys|
    ensures var out := BodyBatch(m, capacity, b);
            && out.Some? && Shaped(out.value, |b.keys|, capacity)
            && Some(RowOf(out.value, r)) == Body(m, capacity, RowOf(b, r))
  {
    var u := UpdateBatch(m, capacity, b);
    forall k | 0 <= k < |b.keys|
      ensures CursorInside(u, capacity, k)
    {
      UpdatedRow(m, capacity, b, k);
    }
    UpdatedRow(m, capacity, b, r);
    DecodedRow(m, capacity, u, r);
  }

  // ----- Whole runs -----

  ghost predicate StepAt(m: Weights, capacity: nat, run: seq<Batch>, i: nat)
    requires i + 1 < |run|
  {
    && Shaped(run[i], |run[i].keys|, capacity)
    && BodyBatch(m, capacity, run[i]) == Some(run[i + 1])
  }

  /** The batches after 0, 1, 2, ... iterations. */
  ghost predicate IsRun(m: Weights, capacity: nat, run: seq<Batch>) {
    && run != [] && Shaped(run[0], |run[0].keys|, capacity) && AllValid(capacity, run[0])
    && forall i :: 0 <= i < |run| - 1 ==> StepAt(m, capacity, run, i)
  }

  /** state_init: zeroed caches and the lengths the first write will make valid. */
  function InitialBatch(capacity: nat, writes: seq<int>, active: seq<bool>, tokens: seq<Token>): (b: Batch)
    requires |writes| == |active| == |tokens|
    ensures Shaped(b, |writes|, capacity)
    ensures forall r :: 0 <= r < |writes| ==> RowOf(b, r) == Initial(capacity, writes[r], active[r], tokens[r])
  {
    var n, zeros := |writes|, seq(capacity, _ => ZERO);
    var cache := seq(n, _ => zeros);
    var lengths := seq(n, r requires 0 <= r < n => Min(writes[r] + 1, capacity));
    Batch(cache, cache, writes, lengths, active, tokens, seq(n, _ => ZERO))
  }

  function SetupBatch(m: Weights, capacity: nat, writes: seq<int>, active: seq<bool>, tokens: seq<Token>): Option<Batch>
    requires |writes| == |active| == |tokens|
  {
    DecodeBatch(m, capacity, InitialBatch(capacity, writes, active, tokens))
  }

  lemma SetupRow(m: Weights, capacity: nat, writes: seq<int>, active: seq<bool>, tokens: seq<Token>, r: nat)
    requires |writes| == |active| == |tokens| && r < |writes|
    requires forall k :: 0 <= k < |writes| ==> 0 <= writes[k] < capacity
    ensures var out := SetupBatch(m, capacity, writes, active, tokens);
            && out.Some? && Shaped(out.value, |writes|, capacity) && Valid(capacity, RowOf(out.value, r))
            && Setup(m, capacity, writes[r], active[r], tokens[r]) == Some(RowOf(out.value, r))
  {
    var b := InitialBatch(capacity, writes, active, tokens);
    forall k | 0 <= k < |b.keys|
      ensures CursorInside(b, capacity, k)
    {
      assert RowOf(b, k).write == writes[k];
    }
    DecodedRow(m, capacity, b, r);
    SetupIsValid(m, capacity, writes[r], active[r], tokens[r]);
  }

  /** Setup is rejected exactly when some start cursor is outside the buffer. Otherwise it sets up each
      row on its own, and a run can start from it. */
  lemma SetupStartsRun(m: Weights, capacity: nat, writes: seq<int>, active: seq<bool>, tokens: seq<Token>)
    requires |writes| == |active| == |tokens|
    ensures var out := SetupBatch(m, capacity, writes, active, tokens);
            && (out.Some? <==> forall k :: 0 <= k < |writes| ==> 0 <= writes[k] < capacity)
            && (out.Some? ==> IsRun(m, capacity, [out.value]) && |out.value.keys| == |writes|)
            && (out.Some? ==> forall r :: 0 <= r < |writes| ==>
                  Setup(m, capacity, writes[r], active[r], tokens[r]) == Some(RowOf(out.value, r)))
  {
    var b := InitialBatch(capacity, writes, active, tokens);
    BatchIsRejectedIff(m, capacity, b);
    forall k | 0 <= k < |writes|
      ensures CursorInside(b, capacity, k) <==> 0 <= writes[k] < capacity
    {
      assert RowOf(b, k).write == writes[k];
    }
    if SetupBatch(m, capacity, writes, active, tokens).Some? {
      forall k | 0 <= k < |writes|
        ensures 0 <= writes[k] < capacity
      {
        assert CursorInside(b, capacity, k);
      }
      DecodeKeepsShape(m, capacity, b);
      forall r | 0 <= r < |writes|
        ensures var out := SetupBatch(m, capacity, writes, active, tokens).value;
                && HasRow(out, r) && Valid(capacity, RowOf(out, r))
                && Setup(m, capacity, writes[r], active[r], tokens[r]) == Some(RowOf(out, r))
      {
        SetupRow(m, capacity, writes, active, tokens, r);
      }
    }
  }

  /** Row `r` of batch `now` is what row `r` of `start` becomes when it runs alone for `n` iterations. */
  ghost predicate RunsAlone(m: Weights, capacity: nat, start: Batch, now: Batch, n: nat, r: nat)
    requires HasRow(start, r)
  {
    HasRow(now, r) && RowOf(now, r) == State(m, capacity, RowOf(start, r), n)
  }

  ghost predicate AllAlone(m: Weights, capacity: nat, start: Batch, now: Batch, n: nat)
    requires Shaped(start, |start.keys|, capacity)
  {
    && Shaped(now, |start.keys|, capacity)
    && forall r :: 0 <= r < |start.keys| ==> RunsAlone(m, capacity, start, now, n, r)
  }

  lemma AloneIsValid(m: Weights, capacity: nat, start: Batch, now: Batch, n: nat)
    requires Shaped(start, |start.keys|, capacity) && AllValid(capacity, start) && AllAlone(m, capacity, start, now, n)
    ensures AllValid(capacity, now)
  {
    forall r | 0 <= r < |now.keys|
      ensures Valid(capacity, RowOf(now, r))
    {
      assert RunsAlone(m, capacity, start, now, n, r);
      StateStep(m, capacity, RowOf(start, r), n);
    }
  }

  lemma AloneStep(m: Weights, capacity: nat, start: Batch, now: Batch, next: Batch, n: nat)
    requires Shaped(start, |start.keys|, capacity) && AllValid(capacity, start) && AllAlone(m, capacity, start, now, n)
    requires BodyBatch(m, capacity, now) == Some(next)
    ensures AllAlone(m, capacity, start, next, n + 1)
  {
    AloneIsValid(m, capacity, start, now, n);
    BodyKeepsShape(m, capacity, now);
    var k := n + 1;
    forall r | 0 <= r < |start.keys|
      ensures RunsAlone(m, capacity, start, next, k, r)
    {
      assert RunsAlone(m, capacity, start, now, n, r);
      BodyRow(m, capacity, now, r);
      StateStep(m, capacity, RowOf(start, r), n);
    }
  }

  /** Rows share one buffer and never meet: each runs as if it were alone. */
  lemma {:induction false} RowsAreIndependent(m: Weights, capacity: nat, run: seq<Batch>, n: nat)
    requires IsRun(m, capacity, run) && n < |run|
    ensures AllAlone(m, capacity, run[0], run[n], n)
  {
    if n > 0 {
      RowsAreIndependent(m, capacity, run, n - 1);
      assert StepAt(m, capacity, run, n - 1);
      AloneStep(m, capacity, run[0], run[n - 1], run[n], n - 1);
    }
  }

  /** No iteration is ever rejected: every run goes on. */
  lemma RunGoesOn(m: Weights, capacity: nat, run: seq<Batch>)
    requires IsRun(m, capacity, run)
    ensures var last := run[|run| - 1];
            Shaped(last, |run[0].keys|, capacity) && BodyBatch(m, capacity, last).Some?
  {
    var n := |run| - 1;
    RowsAreIndependent(m, capacity, run, n);
    AloneIsValid(m, capacity, run[0], run[n], n);
    var u := UpdateBatch(m, capacity, run[n]);
    forall k | 0 <= k < |u.keys|
      ensures CursorInside(u, capacity, k)
    {
      UpdatedRow(m, capacity, run[n], k);
    }
    BatchIsRejectedIff(m, capacity, u);
  }

  /** The continue flag is down once there have been as many iterations as any active row has free
      slots, and at least one. */
  lemma LoopEnds(m: Weights, capacity: nat, run: seq<Batch>, n: nat, free: nat)
    requires IsRun(m, capacity, run) && n < |run| && n >= 1 && n >= free
    requires forall r :: 0 <= r < |run[0].keys| && run[0].active[r] ==> capacity - run[0].lengths[r] <= free
    ensures !Continue(run[n].active)
  {
    RowsAreIndependent(m, capacity, run, n);
    forall r | 0 <= r < |run[n].active|
      ensures !run[n].active[r]
    {
      RowStops(m, capacity, run[0], run[n], n, free, r);
    }
  }

  lemma RowStops(m: Weights, capacity: nat, start: Batch, now: Batch, n: nat, free: nat, r: nat)
    requires HasRow(start, r) && Valid(capacity, RowOf(start, r)) && RunsAlone(m, capacity, start, now, n, r)
    requires n >= 1 && n >= free && (start.active[r] ==> capacity - start.lengths[r] <= free)
    ensures !now.active[r]
  {
    if now.active[r] {
      ActiveRunsOut(m, capacity, RowOf(start, r), n);
    }
  }
}
