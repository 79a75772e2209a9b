/** The delay range of `RouteScheduler.BoundedDelay` is exact: for every batch size and lookahead there
    are requests on which every finished route-aware schedule reaches the early end, and others on
    which it reaches the late end. */
module DelayRange {
  import opened Base
  import opened RouteScheduler

  // ----- What a greedy batch prefers -----

  /** While the window holds an unpicked request that adds nothing, the next pick adds nothing. */
  lemma FreeFirst(reqs: Requests, window: seq<int>, pick: seq<int>, j: nat, u: set<Key>, free: int)
    requires j < |pick| && BestAt(reqs, window, pick, j) && u == Union(reqs, pick[..j])
    requires free in window && free !in pick[..j] && KeysOf(reqs, free) <= u
    ensures KeysOf(reqs, pick[j]) <= u
  {
    assert Cheaper(reqs, u, pick[j], free);
    assert u + KeysOf(reqs, free) == u;
    var extra := KeysOf(reqs, pick[j]) - u;
    assert u + KeysOf(reqs, pick[j]) == u + extra && |u + extra| == |u| + |extra|;
  }

  lemma UnionOfOne(reqs: Requests, pick: seq<int>)
    requires pick != []
    ensures Union(reqs, pick[..1]) == KeysOf(reqs, pick[0])
  {
    assert pick[..1][..0] == [];
  }

  lemma UnionStays(reqs: Requests, pick: seq<int>, j: nat)
    requires j < |pick| && KeysOf(reqs, pick[j]) <= Union(reqs, pick[..j])
    ensures Union(reqs, pick[..j + 1]) == Union(reqs, pick[..j])
  {
    assert pick[..j + 1][..j] == pick[..j];
  }

  /** The picks up to `n`, all but the first, satisfy `free`. */
  ghost predicate FreeUpTo(reqs: Requests, pick: seq<int>, n: nat, free: set<int>)
    requires 1 <= n <= |pick|
  {
    && (forall j :: 1 <= j < n ==> pick[j] in free)
    && Union(reqs, pick[..n]) == KeysOf(reqs, pick[0])
  }

  /** A window of more requests than `costly` ones and picks holds a free one not yet picked. */
  lemma FreeIsLeft(window: seq<int>, pick: seq<int>, j: nat, costly: set<int>)
    requires Distinct(window) && 1 <= j <= |pick| && pick[0] in costly && |costly| + j - 1 < |window|
    ensures exists x :: x in window && x !in pick[..j] && x !in costly
  {
    DistinctCard(window);
    ToSetCard(pick[1..j]);
    assert pick[..j] == [pick[0]] + pick[1..j];
    var taken := costly + ToSet(pick[1..j]);
    assert |taken| <= |costly| + |ToSet(pick[1..j])|;
    if ToSet(window) <= taken {
      CardMono(ToSet(window), taken);
    }
    var x :| x in ToSet(window) && x !in taken;
  }

  /** Requests outside `costly` add no key; one of `costly` adds a key that no other has. */
  ghost predicate Splits(reqs: Requests, costly: set<int>) {
    && (forall i :: i !in costly ==> KeysOf(reqs, i) == {})
    && (forall i, k :: i in costly && k in costly && i != k ==> !(KeysOf(reqs, i) <= KeysOf(reqs, k)))
  }

  lemma FreeNext(reqs: Requests, window: seq<int>, pick: seq<int>, j: nat, costly: set<int>, free: set<int>)
    requires Distinct(window) && 1 <= j < |pick| && BestAt(reqs, window, pick, j)
    requires Splits(reqs, costly) && pick[0] in costly && |costly| + j - 1 < |window|
    requires free == ToSet(window) - costly && FreeUpTo(reqs, pick, j, free)
    ensures FreeUpTo(reqs, pick, j + 1, free)
  {
    FreeIsLeft(window, pick, j, costly);
    var x :| x in window && x !in pick[..j] && x !in costly;
    FreeFirst(reqs, window, pick, j, KeysOf(reqs, pick[0]), x);
    assert pick[0] in pick[..j];
    UnionStays(reqs, pick, j);
  }

  /** A greedy batch takes free requests as long as the window has them. */
  lemma TakesFree(reqs: Requests, window: seq<int>, pick: seq<int>, n: nat, costly: set<int>, free: set<int>)
    requires Distinct(window) && 1 <= n <= |pick| && forall j :: 1 <= j < |pick| ==> BestAt(reqs, window, pick, j)
    requires Splits(reqs, costly) && pick[0] in costly && |costly| + n - 1 <= |window|
    requires free == ToSet(window) - costly
    ensures FreeUpTo(reqs, pick, n, free)
  {
    UnionOfOne(reqs, pick);
    for j := 1 to n
      invariant FreeUpTo(reqs, pick, j, free)
    {
      FreeNext(reqs, window, pick, j, costly, free);
    }
  }

  // ----- The requests -----

  /** `n` requests of which the first `c` have a key each and the others none. */
  function Demands(c: nat, n: nat): (reqs: Requests)
    ensures |reqs| == n
    ensures forall i :: 0 <= i < n ==> reqs[i] == if i < c then {i} else {}
  {
    seq(n, i requires 0 <= i < n => if i < c then {i} else {})
  }

  ghost predicate AreBelow(costly: set<int>, c: nat) {
    |costly| == c && forall i :: i in costly <==> 0 <= i < c
  }

  lemma CostlyOnes(reqs: Requests, c: nat, n: nat) returns (costly: set<int>)
    requires c <= n && reqs == Demands(c, n)
    ensures AreBelow(costly, c) && Splits(reqs, costly)
  {
    costly := Indices(c);
  }

  function EarlyRequests(q: nat): Requests
    requires q >= 1
  {
    Demands(q - 1, q)
  }

  function LateRequests(w: nat, q: nat): Requests {
    if w < q then Demands(q - w + 1, (q - w) * w + q) else Demands(Min(2, q), q)
  }

  // ----- From batches to delays -----

  lemma {:induction false} FlatAt(batches: seq<seq<int>>, b: nat, p: nat, n: nat)
    requires b < n <= |batches| && p < |batches[b]|
    ensures |Flat(batches, b)| + p < |Flat(batches, n)|
    ensures Flat(batches, n)[|Flat(batches, b)| + p] == batches[b][p]
  {
    if b < n - 1 {
      FlatAt(batches, b, p, n - 1);
    }
  }

  /** Some request of the schedule has this delay. */
  ghost predicate Shows(batches: seq<seq<int>>, d: int) {
    d in Delays(Flat(batches, |batches|))
  }

  lemma DelayAt(batches: seq<seq<int>>, b: nat, p: nat, d: int)
    requires b < |batches| && p < |batches[b]| && d == |Flat(batches, b)| + p - batches[b][p]
    ensures Shows(batches, d)
  {
    FlatAt(batches, b, p, |batches|);
    var order, r := Flat(batches, |batches|), |Flat(batches, b)| + p;
    assert Delays(order)[r] == d;
  }

  lemma WindowIsDistinct(dispatched: seq<bool>, q: nat)
    ensures Distinct(Window(dispatched, q))
  {
    WindowMeaning(dispatched, q);
  }

  /** The one batch of a window that holds `n` requests, none of them served. */
  ghost predicate PicksFromAll(reqs: Requests, w: nat, n: nat, window: seq<int>, pick: seq<int>) {
    && |window| == n && (forall i :: 0 <= i < n ==> window[i] == i)
    && IsGreedy(reqs, window, w, pick)
  }

  lemma FirstBatch(reqs: Requests, w: nat, q: nat, batches: seq<seq<int>>) returns (window: seq<int>)
    requires w >= 1 && 1 <= |reqs| <= q && IsComplete(reqs, w, q, true, batches)
    ensures batches != [] && PicksFromAll(reqs, w, |reqs|, window, batches[0])
  {
    assert BatchAt(reqs, w, q, true, batches, 0);
    var start := After(|reqs|, batches, 0);
    PendingSuffix(start, 0, |reqs|);
    window := Window(start, q);
    assert window == Range(0, |reqs|);
  }

  // ----- The early end -----

  lemma LastIsSecond(reqs: Requests, w: nat, n: nat, window: seq<int>, pick: seq<int>, costly: set<int>)
    requires w >= 2 && n >= 2 && PicksFromAll(reqs, w, n, window, pick)
    requires AreBelow(costly, n - 1) && Splits(reqs, costly)
    ensures |pick| >= 2 && pick[1] == n - 1
  {
    TakesFree(reqs, window, pick, 2, costly, ToSet(window) - costly);
    assert pick[1] in ToSet(window) - costly;
  }

  lemma FirstOnTime(reqs: Requests, w: nat, q: nat, batches: seq<seq<int>>)
    requires w >= 1 && 1 <= |reqs| <= q && IsComplete(reqs, w, q, true, batches)
    ensures Shows(batches, 0)
  {
    var window := FirstBatch(reqs, w, q, batches);
    DelayAt(batches, 0, 0, 0);
  }

  lemma LastIsEarly(reqs: Requests, w: nat, q: nat, costly: set<int>, batches: seq<seq<int>>)
    requires w >= 2 && |reqs| == q >= 2 && AreBelow(costly, q - 1) && Splits(reqs, costly)
    requires IsComplete(reqs, w, q, true, batches)
    ensures Shows(batches, 2 - q)
  {
    var window := FirstBatch(reqs, w, q, batches);
    LastIsSecond(reqs, w, q, window, batches[0], costly);
    DelayAt(batches, 0, 1, 2 - q);
  }

  /** The last of `q` requests is free and is served right after the first. */
  lemma EarlyIsReached(w: nat, q: nat, batches: seq<seq<int>>)
    requires w >= 1 && q >= 1 && IsComplete(EarlyRequests(q), w, q, true, batches)
    ensures Shows(batches, -Early(w, q))
  {
    var reqs := EarlyRequests(q);
    if w >= 2 && q >= 2 {
      var costly := CostlyOnes(reqs, q - 1, q);
      LastIsEarly(reqs, w, q, costly, batches);
    } else {
      FirstOnTime(reqs, w, q, batches);
    }
  }

  // ----- The late end, when a batch takes the whole window -----

  /** All picks but one avoid request 1, which must be the remaining one. */
  lemma OneIsLast(window: seq<int>, pick: seq<int>, n: nat)
    requires n >= 2 && |window| == n && (forall i :: 0 <= i < n ==> window[i] == i)
    requires Distinct(pick) && |pick| == n && forall i :: i in pick ==> i in window
    requires forall j :: 0 <= j < n - 1 ==> pick[j] != 1
    ensures pick[n - 1] == 1
  {
    DistinctCard(pick);
    DistinctCard(window);
    SameCard(ToSet(pick), ToSet(window));
    assert window[1] in ToSet(window);
    var j :| 0 <= j < |pick| && pick[j] == 1;
  }

  lemma SecondIsLast(reqs: Requests, w: nat, n: nat, window: seq<int>, pick: seq<int>, costly: set<int>)
    requires w >= n >= 2 && PicksFromAll(reqs, w, n, window, pick) && TakesOldest(window, w, pick)
    requires AreBelow(costly, 2) && Splits(reqs, costly)
    ensures |pick| == n && pick[n - 1] == 1
  {
    var free := ToSet(window) - costly;
    TakesFree(reqs, window, pick, n - 1, costly, free);
    forall j | 0 <= j < n - 1
      ensures pick[j] != 1
    {
      assert j >= 1 ==> pick[j] in free;
    }
    OneIsLast(window, pick, n);
  }

  lemma SecondIsLate(reqs: Requests, w: nat, q: nat, costly: set<int>, batches: seq<seq<int>>)
    requires w >= q == |reqs| >= 2 && AreBelow(costly, 2) && Splits(reqs, costly)
    requires IsComplete(reqs, w, q, true, batches)
    ensures Shows(batches, q - 2)
  {
    var window := FirstBatch(reqs, w, q, batches);
    GreedyTakesOldest(reqs, window, w, batches[0]);
    SecondIsLast(reqs, w, q, window, batches[0], costly);
    DelayAt(batches, 0, q - 1, q - 2);
  }

  // ----- The late end, when the window is wider than a batch -----

  /** After `b` batches the first `b` requests with keys are served, no other with keys is, and all
      batches were full. */
  ghost predicate PassesOver(w: nat, c: nat, n: nat, batches: seq<seq<int>>, b: nat)
    requires c <= n && b <= |batches|
  {
    && (forall i :: 0 <= i < c ==> (After(n, batches, b)[i] <==> i < b))
    && |Flat(batches, b)| == b * w
  }

  lemma OldestPending(dispatched: seq<bool>, q: nat, window: seq<int>, b: int)
    requires IsWindow(dispatched, q, window) && window != [] && 0 <= b < |dispatched| && !dispatched[b]
    requires forall i :: 0 <= i < b ==> dispatched[i]
    ensures window[0] == b
  {
    assert window[0] in window;
    if window[0] != b {
      OldestIsFirst(dispatched, q, window, b);
    }
  }

  lemma StartsWithNext(reqs: Requests, w: nat, q: nat, c: nat, batches: seq<seq<int>>, b: nat)
    requires w >= 1 && IsSchedule(reqs, w, q, true, batches) && b < |batches|
    requires b < c <= |reqs| && PassesOver(w, c, |reqs|, batches, b)
    ensures batches[b] != [] && batches[b][0] == b
  {
    assert BatchAt(reqs, w, q, true, batches, b);
    var before := After(|reqs|, batches, b);
    WindowMeaning(before, q);
    OldestPending(before, q, Window(before, q), b);
  }

  lemma TimesMono(a: nat, b: nat, w: nat)
    requires a <= b
    ensures a * w <= b * w
  {
    MulMono(w, a, b);
  }

  lemma FreeButOldest(reqs: Requests, w: nat, c: nat, window: seq<int>, pick: seq<int>, costly: set<int>, b: nat)
    requires Distinct(window) && IsGreedy(reqs, window, w, pick) && |pick| == w && pick[0] == b < c
    requires AreBelow(costly, c) && Splits(reqs, costly) && c + w - 1 <= |window|
    ensures forall i :: 0 <= i < c ==> (i in pick <==> i == b)
  {
    var free := ToSet(window) - costly;
    TakesFree(reqs, window, pick, w, costly, free);
    forall j | 1 <= j < w
      ensures pick[j] >= c || pick[j] < 0
    {
      assert pick[j] in free;
    }
  }

  /** Each of these batches takes the oldest request and otherwise free ones. */
  lemma PassOne(reqs: Requests, w: nat, q: nat, c: nat, costly: set<int>, batches: seq<seq<int>>, b: nat, b': nat)
    requires w >= 1 && c + w - 1 == q && c <= |reqs| && AreBelow(costly, c) && Splits(reqs, costly)
    requires IsSchedule(reqs, w, q, true, batches) && b < c && b' == b + 1 <= |batches| && b * w + q <= |reqs|
    requires PassesOver(w, c, |reqs|, batches, b)
    ensures PassesOver(w, c, |reqs|, batches, b')
  {
    var before := After(|reqs|, batches, b);
    StartsWithNext(reqs, w, q, c, batches, b);
    assert BatchAt(reqs, w, q, true, batches, b);
    WindowIsDistinct(before, q);
    WindowLength(reqs, w, q, true, batches, b);
    FreeButOldest(reqs, w, c, Window(before, q), batches[b], costly, b);
    ServedOne(w, c, |reqs|, batches, b, b');
  }

  lemma ServedOne(w: nat, c: nat, n: nat, batches: seq<seq<int>>, b: nat, b': nat)
    requires c <= n && b' == b + 1 <= |batches| && PassesOver(w, c, n, batches, b) && |batches[b]| == w
    requires forall i :: 0 <= i < c ==> (i in batches[b] <==> i == b)
    ensures PassesOver(w, c, n, batches, b')
  {
    assert b' * w == b * w + w by {
      MulSucc(w, b);
    }
  }

  lemma MoreBatches(reqs: Requests, w: nat, q: nat, batches: seq<seq<int>>, b: nat)
    requires IsComplete(reqs, w, q, true, batches) && b <= |batches| && |Flat(batches, b)| < |reqs|
    ensures b < |batches|
  {
  }

  lemma PassMany(reqs: Requests, w: nat, q: nat, c: nat, costly: set<int>, batches: seq<seq<int>>)
    requires w >= 1 && c >= 1 && c + w - 1 == q && c <= |reqs| && AreBelow(costly, c) && Splits(reqs, costly)
    requires IsComplete(reqs, w, q, true, batches) && (c - 1) * w + q <= |reqs|
    ensures c <= |batches| && PassesOver(w, c, |reqs|, batches, c - 1)
  {
    TimesMono(0, c - 1, w);
    MoreBatches(reqs, w, q, batches, 0);
    for b := 0 to c - 1
      invariant b < |batches| && PassesOver(w, c, |reqs|, batches, b)
    {
      TimesMono(b, c - 1, w);
      PassOne(reqs, w, q, c, costly, batches, b, b + 1);
      TimesMono(b + 1, c - 1, w);
      MoreBatches(reqs, w, q, batches, b + 1);
    }
  }

  lemma TargetIsLate(reqs: Requests, w: nat, q: nat, c: nat, costly: set<int>, batches: seq<seq<int>>)
    requires w >= 1 && c >= 1 && c + w - 1 == q && c <= |reqs| && AreBelow(costly, c) && Splits(reqs, costly)
    requires IsComplete(reqs, w, q, true, batches) && (c - 1) * w + q <= |reqs|
    ensures Shows(batches, (c - 1) * w - (c - 1))
  {
    PassMany(reqs, w, q, c, costly, batches);
    StartsWithNext(reqs, w, q, c, batches, c - 1);
    DelayAt(batches, c - 1, 0, (c - 1) * w - (c - 1));
  }

  lemma LateProduct(w: nat, q: nat)
    requires 1 <= w < q
    ensures Late(w, q) == (q - w) * w - (q - w) && q - w + 1 <= (q - w) * w + q
  {
    TimesMono(1, q - w, w);
  }

  /** A request is passed over by as many full batches as `Slack` allows, or is the last of the one
      batch that takes the whole window. */
  lemma LateIsReached(w: nat, q: nat, batches: seq<seq<int>>)
    requires w >= 1 && q >= 1 && IsComplete(LateRequests(w, q), w, q, true, batches)
    ensures Shows(batches, Late(w, q))
  {
    var reqs := LateRequests(w, q);
    if w < q {
      LateProduct(w, q);
      var costly := CostlyOnes(reqs, q - w + 1, (q - w) * w + q);
      TargetIsLate(reqs, w, q, q - w + 1, costly, batches);
    } else if q >= 2 {
      var costly := CostlyOnes(reqs, 2, q);
      SecondIsLate(reqs, w, q, costly, batches);
    } else {
      FirstOnTime(reqs, w, q, batches);
    }
  }

  /** So the scheduler itself reaches both ends, whatever the batch size and the lookahead. */
  method ReachBothEnds(w: nat, q: nat) returns (early: seq<int>, late: seq<int>)
    requires w >= 1 && q >= 1
    ensures -Early(w, q) in early && Late(w, q) in late
  {
    var total;
    ghost var batches;
    total, early, batches := Schedule(EarlyRequests(q), w, q, true);
    EarlyIsReached(w, q, batches);
    total, late, batches := Schedule(LateRequests(w, q), w, q, true);
    LateIsReached(w, q, batches);
  }
}
