/** `schedule`: windowed batching of queued requests, first-come or greedy by expert overlap. */
module RouteScheduler {
  import opened Base

  /** A request is the set of keys it activates. */
  type Requests = seq<set<Key>>

  // ----- The lookahead window -----

  /** Requests below `n` not yet dispatched, oldest first. */
  function Pending(dispatched: seq<bool>, n: nat): seq<int>
    requires n <= |dispatched|
  {
    if n == 0 then []
    else Pending(dispatched, n - 1) + if dispatched[n - 1] then [] else [n - 1]
  }

  function Window(dispatched: seq<bool>, q: nat): seq<int> {
    var p := Pending(dispatched, |dispatched|);
    p[..Min(q, |p|)]
  }

  ghost predicate Ascending(s: seq<int>) {
    forall i, j :: 0 <= i < j < |s| ==> s[i] < s[j]
  }

  lemma {:induction false} PendingMembers(dispatched: seq<bool>, n: nat, i: int)
    requires n <= |dispatched|
    ensures i in Pending(dispatched, n) <==> 0 <= i < n && !dispatched[i]
  {
    if n > 0 {
      PendingMembers(dispatched, n - 1, i);
    }
  }

  lemma {:induction false} PendingAscends(dispatched: seq<bool>, n: nat)
    requires n <= |dispatched|
    ensures Ascending(Pending(dispatched, n))
  {
    if n > 0 {
      PendingAscends(dispatched, n - 1);
      var front := Pending(dispatched, n - 1);
      forall j | 0 <= j < |front|
        ensures front[j] < n - 1
      {
        PendingMembers(dispatched, n - 1, front[j]);
        assert front[j] in front;
      }
    }
  }

  lemma PendingMeaning(dispatched: seq<bool>, n: nat)
    requires n <= |dispatched|
    ensures Ascending(Pending(dispatched, n))
    ensures forall i :: i in Pending(dispatched, n) <==> 0 <= i < n && !dispatched[i]
  {
    PendingAscends(dispatched, n);
    forall i
      ensures i in Pending(dispatched, n) <==> 0 <= i < n && !dispatched[i]
    {
      PendingMembers(dispatched, n, i);
    }
  }

  /** The `q` oldest of the pending requests. */
  ghost predicate IsWindow(dispatched: seq<bool>, q: nat, window: seq<int>) {
    && Ascending(window)
    && |window| <= q
    && (forall i :: i in window ==> 0 <= i < |dispatched| && !dispatched[i])
    && (forall i :: 0 <= i < |dispatched| && !dispatched[i] && i !in window ==>
          |window| == q && forall w :: w in window ==> w < i)
  }

  lemma WindowMeaning(dispatched: seq<bool>, q: nat)
    ensures IsWindow(dispatched, q, Window(dispatched, q))
  {
    PendingMeaning(dispatched, |dispatched|);
    var p, window := Pending(dispatched, |dispatched|), Window(dispatched, q);
    forall i | i in window
      ensures i in p
    {
    }
    forall i | 0 <= i < |dispatched| && !dispatched[i] && i !in window
      ensures |window| == q && forall w :: w in window ==> w < i
    {
      assert i in p;
      var j :| 0 <= j < |p| && p[j] == i;
      assert forall x :: 0 <= x < |window| ==> p[x] in window;
      forall w | w in window
        ensures w < i
      {
        var x :| 0 <= x < |window| && window[x] == w;
        assert p[x] < p[j];
      }
    }
  }

  // ----- Batches -----

  function KeysOf(reqs: Requests, i: int): set<Key> {
    if 0 <= i < |reqs| then reqs[i] else {}
  }

  ghost function Union(reqs: Requests, pick: seq<int>): set<Key> {
    if pick == [] then {} else Union(reqs, pick[..|pick| - 1]) + KeysOf(reqs, pick[|pick| - 1])
  }

  /** Picking `c` next grows the union no more than any other candidate does, and it is the
      oldest that grows it so little. */
  ghost predicate BestNext(reqs: Requests, window: seq<int>, pick: seq<int>, c: int) {
    var u := Union(reqs, pick);
    && c in window && c !in pick
    && forall d :: d in window && d !in pick ==> Cheaper(reqs, u, c, d)
  }

  /** Pick `j` was the best next after the picks before it. */
  ghost predicate BestAt(reqs: Requests, window: seq<int>, pick: seq<int>, j: nat)
    requires j < |pick|
  {
    BestNext(reqs, window, pick[..j], pick[j])
  }

  predicate Cheaper(reqs: Requests, u: set<Key>, c: int, d: int) {
    var a, b := |u + KeysOf(reqs, c)|, |u + KeysOf(reqs, d)|;
    a < b || (a == b && c <= d)
  }

  /** The oldest request, then greedily the cheapest addition until the batch is full. */
  ghost predicate IsGreedy(reqs: Requests, window: seq<int>, w: nat, pick: seq<int>) {
    && window != [] && pick != [] && pick[0] == window[0]
    && |pick| == Min(w, |window|)
    && forall j :: 1 <= j < |pick| ==> BestAt(reqs, window, pick, j)
  }

  ghost predicate IsBatch(reqs: Requests, w: nat, q: nat, routeAware: bool, dispatched: seq<bool>, pick: seq<int>)
    requires |dispatched| == |reqs|
  {
    var window := Window(dispatched, q);
    if routeAware then IsGreedy(reqs, window, w, pick)
    else window != [] && pick == window[..Min(w, |window|)]
  }

  /** What the delay bound needs of a batch, whichever way it was picked. */
  ghost predicate TakesOldest(window: seq<int>, w: nat, pick: seq<int>) {
    && window != [] && pick != [] && pick[0] == window[0]
    && Distinct(pick) && |pick| == Min(w, |window|)
    && forall i :: i in pick ==> i in window
  }

  lemma GreedyTakesOldest(reqs: Requests, window: seq<int>, w: nat, pick: seq<int>)
    requires IsGreedy(reqs, window, w, pick)
    ensures TakesOldest(window, w, pick)
  {
    forall i, j | 0 <= i < j < |pick|
      ensures pick[i] != pick[j]
    {
      assert BestAt(reqs, window, pick, j);
      assert pick[i] in pick[..j];
    }
    forall j | 0 <= j < |pick|
      ensures pick[j] in window
    {
      if j > 0 {
        assert BestAt(reqs, window, pick, j);
      }
    }
  }

  lemma BatchTakesOldest(reqs: Requests, w: nat, q: nat, routeAware: bool, dispatched: seq<bool>, pick: seq<int>)
    requires |dispatched| == |reqs| && w >= 1 && IsBatch(reqs, w, q, routeAware, dispatched, pick)
    ensures TakesOldest(Window(dispatched, q), w, pick)
  {
    WindowMeaning(dispatched, q);
    if routeAware {
      GreedyTakesOldest(reqs, Window(dispatched, q), w, pick);
    }
  }

  // ----- How far a request can slip -----

  ghost function Mark(dispatched: seq<bool>, pick: seq<int>): (r: seq<bool>)
    ensures |r| == |dispatched|
    ensures forall i :: 0 <= i < |r| ==> r[i] == (dispatched[i] || i in pick)
  {
    seq(|dispatched|, i requires 0 <= i < |dispatched| => dispatched[i] || i in pick)
  }

  /** Pending requests older than `i`. */
  ghost function Older(dispatched: seq<bool>, i: int): set<int>
    requires 0 <= i <= |dispatched|
  {
    set j | 0 <= j < i && !dispatched[j]
  }

  /** Dispatched requests younger than `i`. */
  ghost function Overtakers(dispatched: seq<bool>, i: int): set<int>
    requires 0 <= i < |dispatched|
  {
    set j | i < j < |dispatched| && dispatched[j]
  }

  ghost function Dispatched(dispatched: seq<bool>): set<int> {
    set j | 0 <= j < |dispatched| && dispatched[j]
  }

  /** Rank against arrival: those who overtook, less those still ahead. */
  lemma SlipIsOvertaking(dispatched: seq<bool>, i: int)
    requires 0 <= i < |dispatched| && !dispatched[i]
    ensures |Dispatched(dispatched)| - i == |Overtakers(dispatched, i)| - |Older(dispatched, i)|
  {
    var below := set j | 0 <= j < i && dispatched[j];
    assert Dispatched(dispatched) == below + Overtakers(dispatched, i);
    assert Indices(i) == below + Older(dispatched, i);
  }

  /** How often a batch can still pass over a request with `older` others ahead of it. A batch that
      does so is full, so `w` others of the window are taken: with more than `q - w` ahead there are too
      few younger ones left, and some of those taken are older. */
  function Slack(w: nat, q: nat, older: int): int {
    if older < q - w then q - w - older else 0
  }

  /** A pending request with `older` others ahead has been overtaken at most this often. */
  ghost predicate Patience(w: nat, q: nat, overtakers: int, older: int) {
    overtakers <= (w - 1) * Slack(w, q, older)
  }

  ghost predicate PatientAt(dispatched: seq<bool>, w: nat, q: nat, i: int)
    requires 0 <= i < |dispatched|
  {
    Patience(w, q, |Overtakers(dispatched, i)|, |Older(dispatched, i)|)
  }

  ghost predicate AllPatient(dispatched: seq<bool>, w: nat, q: nat) {
    forall i :: 0 <= i < |dispatched| && !dispatched[i] ==> PatientAt(dispatched, w, q, i)
  }

  /** A batch takes `a` older and `b` younger requests: either none that are younger, or `w` in all. */
  lemma PatienceStep(w: nat, q: nat, overtakers: int, older: int, a: nat, b: nat)
    requires w >= 1 && Patience(w, q, overtakers, older)
    requires b == 0 || (a >= 1 && a + b == w && b <= q - 1 - older)
    ensures Patience(w, q, overtakers + b, older - a)
  {
    var slack, slack' := Slack(w, q, older), Slack(w, q, older - a);
    if b == 0 {
      MulMono(w - 1, slack, slack');
    } else {
      assert slack + 1 <= slack';
      MulSucc(w - 1, slack);
      MulMono(w - 1, slack + 1, slack');
    }
  }

  /** Whoever is in the window has at most `q - 1` others ahead, all of them in the window. */
  lemma OlderInWindow(dispatched: seq<bool>, q: nat, window: seq<int>, i: int)
    requires IsWindow(dispatched, q, window) && i in window
    ensures |Older(dispatched, i)| <= q - 1
  {
    var others := ToSet(window) - {i};
    forall j | j in Older(dispatched, i)
      ensures j in others
    {
    }
    CardMono(Older(dispatched, i), others);
    ToSetCard(window);
    assert ToSet(window) == others + {i};
  }

  /** The window holds a request, those ahead of it and those picked behind it. */
  lemma YoungerInWindow(dispatched: seq<bool>, q: nat, window: seq<int>, pick: seq<int>, i: int)
    requires IsWindow(dispatched, q, window) && i in window && forall j :: j in pick ==> j in window
    ensures |Above(pick, i)| <= q - 1 - |Older(dispatched, i)|
  {
    var older, above := Older(dispatched, i), Above(pick, i);
    assert |older + {i} + above| == |older| + 1 + |above|;
    forall j | j in older + {i} + above
      ensures j in window
    {
    }
    CardMono(older + {i} + above, ToSet(window));
    ToSetCard(window);
  }

  /** A batch that passes over a request of the window is full. */
  lemma PassedOver(window: seq<int>, w: nat, pick: seq<int>, i: int)
    requires TakesOldest(window, w, pick) && i in window && i !in pick
    ensures |pick| == w
  {
    var others := ToSet(window) - {i};
    forall j | j in pick
      ensures j in others
    {
    }
    CardMono(ToSet(pick), others);
    DistinctCard(pick);
    ToSetCard(window);
    assert ToSet(window) == others + {i};
  }

  lemma OldestIsFirst(dispatched: seq<bool>, q: nat, window: seq<int>, i: int)
    requires IsWindow(dispatched, q, window) && window != []
    requires 0 <= i < |dispatched| && !dispatched[i] && i != window[0]
    ensures window[0] < i && window[0] in Older(dispatched, i)
  {
    if i in window {
      var x :| 0 <= x < |window| && window[x] == i;
    }
    assert window[0] in window;
  }

  ghost function Below(pick: seq<int>, i: int): set<int> {
    set j | j in pick && j < i
  }

  ghost function Above(pick: seq<int>, i: int): set<int> {
    set j | j in pick && j > i
  }

  lemma PickSplits(pick: seq<int>, i: int)
    requires Distinct(pick) && i !in pick
    ensures |Below(pick, i)| + |Above(pick, i)| == |pick|
  {
    DistinctCard(pick);
    assert ToSet(pick) == Below(pick, i) + Above(pick, i);
  }

  lemma CountsAfterBatch(dispatched: seq<bool>, pick: seq<int>, i: int)
    requires 0 <= i < |dispatched|
    requires forall j :: j in pick ==> 0 <= j < |dispatched| && !dispatched[j]
    ensures |Older(Mark(dispatched, pick), i)| == |Older(dispatched, i)| - |Below(pick, i)|
    ensures |Overtakers(Mark(dispatched, pick), i)| == |Overtakers(dispatched, i)| + |Above(pick, i)|
  {
    var next := Mark(dispatched, pick);
    assert Older(dispatched, i) == Older(next, i) + Below(pick, i);
    assert Overtakers(next, i) == Overtakers(dispatched, i) + Above(pick, i);
  }

  /** One batch keeps every request that is still pending patient. */
  lemma BatchKeepsPatience(dispatched: seq<bool>, w: nat, q: nat, pick: seq<int>, i: int)
    requires w >= 1 && q >= 1 && TakesOldest(Window(dispatched, q), w, pick)
    requires 0 <= i < |dispatched| && !dispatched[i] && i !in pick && PatientAt(dispatched, w, q, i)
    ensures PatientAt(Mark(dispatched, pick), w, q, i)
  {
    var window := Window(dispatched, q);
    WindowMeaning(dispatched, q);
    PickSplits(pick, i);
    CountsAfterBatch(dispatched, pick, i);
    if i in window {
      PassedOver(window, w, pick, i);
      YoungerInWindow(dispatched, q, window, pick, i);
      OldestIsFirst(dispatched, q, window, i);
      assert pick[0] in Below(pick, i);
      CardMono({pick[0]}, Below(pick, i));
    } else {
      assert Above(pick, i) == {};
    }
    PatienceStep(w, q, |Overtakers(dispatched, i)|, |Older(dispatched, i)|, |Below(pick, i)|, |Above(pick, i)|);
  }

  /** How many places early a request can be served. */
  function Early(w: nat, q: nat): int {
    if w >= 2 && q >= 2 then q - 2 else 0
  }

  /** How many places late a request can be served. */
  function Late(w: nat, q: nat): int {
    if w < q then (w - 1) * (q - w) else Early(w, q)
  }

  lemma SlipArithmetic(w: nat, q: nat, overtakers: nat, older: nat, p: nat)
    requires w >= 1 && q >= 1 && older < q && p < w && p < q && (older == 0 <==> p == 0)
    requires Patience(w, q, overtakers, older)
    ensures -Early(w, q) <= overtakers - older + p <= Late(w, q)
  {
    if older >= q - w {
      if w < q {
        MulMono(w - 1, 1, q - w);
      }
    } else if older >= 1 {
      MulSucc(w - 1, q - w - older);
      MulMono(w - 1, q - w - older + 1, q - w);
    }
  }

  /** The delay a batch records for its `p`-th pick. */
  lemma BatchDelay(dispatched: seq<bool>, w: nat, q: nat, pick: seq<int>, p: nat)
    requires w >= 1 && q >= 1 && TakesOldest(Window(dispatched, q), w, pick) && p < |pick|
    requires AllPatient(dispatched, w, q)
    ensures -Early(w, q) <= |Dispatched(dispatched)| + p - pick[p] <= Late(w, q)
  {
    var window, i := Window(dispatched, q), pick[p];
    WindowMeaning(dispatched, q);
    assert i in window;
    OlderInWindow(dispatched, q, window, i);
    SlipIsOvertaking(dispatched, i);
    assert PatientAt(dispatched, w, q, i);
    PickFits(window, pick);
    if p > 0 {
      OldestIsFirst(dispatched, q, window, i);
    } else {
      NoneOlder(dispatched, q, window);
    }
    SlipArithmetic(w, q, |Overtakers(dispatched, i)|, |Older(dispatched, i)|, p);
  }

  lemma PickFits(window: seq<int>, pick: seq<int>)
    requires Distinct(pick) && forall i :: i in pick ==> i in window
    ensures |pick| <= |window|
  {
    DistinctCard(pick);
    ToSetCard(window);
    CardMono(ToSet(pick), ToSet(window));
  }

  lemma NoneOlder(dispatched: seq<bool>, q: nat, window: seq<int>)
    requires IsWindow(dispatched, q, window) && window != []
    ensures 0 <= window[0] < |dispatched| && Older(dispatched, window[0]) == {}
  {
    assert window[0] in window;
    forall j | 0 <= j < window[0] && !dispatched[j]
      ensures false
    {
      OldestIsFirst(dispatched, q, window, j);
    }
  }

  // ----- Whole schedules -----

  ghost function After(n: nat, batches: seq<seq<int>>, b: nat): (r: seq<bool>)
    requires b <= |batches|
    ensures |r| == n
  {
    if b == 0 then seq(n, _ => false) else Mark(After(n, batches, b - 1), batches[b - 1])
  }

  ghost predicate BatchAt(reqs: Requests, w: nat, q: nat, routeAware: bool, batches: seq<seq<int>>, b: nat)
    requires b < |batches|
  {
    IsBatch(reqs, w, q, routeAware, After(|reqs|, batches, b), batches[b])
  }

  ghost predicate IsSchedule(reqs: Requests, w: nat, q: nat, routeAware: bool, batches: seq<seq<int>>) {
    forall b :: 0 <= b < |batches| ==> BatchAt(reqs, w, q, routeAware, batches, b)
  }

  /** For each request in the order served: its place in that order less its place of arrival. */
  ghost function Delays(order: seq<int>): (d: seq<int>)
    ensures |d| == |order| && forall r :: 0 <= r < |order| ==> d[r] == r - order[r]
  {
    seq(|order|, r requires 0 <= r < |order| => r - order[r])
  }

  lemma MoreDispatched(before: seq<bool>, w: nat, q: nat, front: seq<int>, pick: seq<int>)
    requires ToSet(front) == Dispatched(before) && Distinct(front) && TakesOldest(Window(before, q), w, pick)
    ensures ToSet(front + pick) == Dispatched(Mark(before, pick)) && Distinct(front + pick)
  {
    WindowMeaning(before, q);
    ToSetAppend(front, pick);
    assert Dispatched(Mark(before, pick)) == Dispatched(before) + ToSet(pick);
    forall i | 0 <= i < |front|
      ensures front[i] !in pick
    {
      assert front[i] in ToSet(front);
    }
  }

  lemma {:induction false} OrderIsDispatched(reqs: Requests, w: nat, q: nat, routeAware: bool, batches: seq<seq<int>>,
                                             b: nat)
    requires w >= 1 && IsSchedule(reqs, w, q, routeAware, batches) && b <= |batches|
    ensures ToSet(Flat(batches, b)) == Dispatched(After(|reqs|, batches, b))
    ensures Distinct(Flat(batches, b))
  {
    if b > 0 {
      OrderIsDispatched(reqs, w, q, routeAware, batches, b - 1);
      TakenFrom(reqs, w, q, routeAware, batches, b - 1);
      MoreDispatched(After(|reqs|, batches, b - 1), w, q, Flat(batches, b - 1), batches[b - 1]);
    } else {
      assert Dispatched(After(|reqs|, batches, 0)) == {};
    }
  }

  lemma {:induction false} StaysPatient(reqs: Requests, w: nat, q: nat, routeAware: bool, batches: seq<seq<int>>,
                                        b: nat)
    requires w >= 1 && q >= 1 && IsSchedule(reqs, w, q, routeAware, batches) && b <= |batches|
    ensures AllPatient(After(|reqs|, batches, b), w, q)
  {
    var now := After(|reqs|, batches, b);
    if b == 0 {
      forall i | 0 <= i < |now| && !now[i]
        ensures PatientAt(now, w, q, i)
      {
        assert Overtakers(now, i) == {};
        FreshPatience(w, q, |Older(now, i)|);
      }
    } else {
      StaysPatient(reqs, w, q, routeAware, batches, b - 1);
      var before, pick := After(|reqs|, batches, b - 1), batches[b - 1];
      assert BatchAt(reqs, w, q, routeAware, batches, b - 1);
      BatchTakesOldest(reqs, w, q, routeAware, before, pick);
      forall i | 0 <= i < |now| && !now[i]
        ensures PatientAt(now, w, q, i)
      {
        assert PatientAt(before, w, q, i);
        BatchKeepsPatience(before, w, q, pick, i);
      }
    }
  }

  lemma FreshPatience(w: nat, q: nat, older: nat)
    requires w >= 1
    ensures Patience(w, q, 0, older)
  {
    MulMono(w - 1, 0, Slack(w, q, older));
  }

  lemma LastBatchDelay(reqs: Requests, w: nat, q: nat, routeAware: bool, batches: seq<seq<int>>, b: nat, p: nat)
    requires w >= 1 && q >= 1 && IsSchedule(reqs, w, q, routeAware, batches) && b < |batches| && p < |batches[b]|
    ensures -Early(w, q) <= |Flat(batches, b)| + p - batches[b][p] <= Late(w, q)
  {
    DispatchedSoFar(reqs, w, q, routeAware, batches, b);
    StaysPatient(reqs, w, q, routeAware, batches, b);
    TakenFrom(reqs, w, q, routeAware, batches, b);
    BatchDelay(After(|reqs|, batches, b), w, q, batches[b], p);
  }

  lemma DispatchedSoFar(reqs: Requests, w: nat, q: nat, routeAware: bool, batches: seq<seq<int>>, b: nat)
    requires w >= 1 && IsSchedule(reqs, w, q, routeAware, batches) && b <= |batches|
    ensures |Dispatched(After(|reqs|, batches, b))| == |Flat(batches, b)|
  {
    OrderIsDispatched(reqs, w, q, routeAware, batches, b);
    DistinctCard(Flat(batches, b));
  }

  lemma TakenFrom(reqs: Requests, w: nat, q: nat, routeAware: bool, batches: seq<seq<int>>, b: nat)
    requires w >= 1 && IsSchedule(reqs, w, q, routeAware, batches) && b < |batches|
    ensures TakesOldest(Window(After(|reqs|, batches, b), q), w, batches[b])
  {
    assert BatchAt(reqs, w, q, routeAware, batches, b);
    BatchTakesOldest(reqs, w, q, routeAware, After(|reqs|, batches, b), batches[b]);
  }

  lemma {:induction false} BoundedDelayUpTo(reqs: Requests, w: nat, q: nat, routeAware: bool, batches: seq<seq<int>>,
                                            b: nat, r: nat)
    requires w >= 1 && q >= 1 && IsSchedule(reqs, w, q, routeAware, batches) && b <= |batches|
    requires r < |Flat(batches, b)|
    ensures -Early(w, q) <= r - Flat(batches, b)[r] <= Late(w, q)
  {
    if r < |Flat(batches, b - 1)| {
      BoundedDelayUpTo(reqs, w, q, routeAware, batches, b - 1, r);
    } else {
      LastBatchDelay(reqs, w, q, routeAware, batches, b - 1, r - |Flat(batches, b - 1)|);
    }
  }

  /** No starvation: in any schedule no request is served more than `Early` places before its turn or
      more than `Late` places after it. */
  lemma BoundedDelay(reqs: Requests, w: nat, q: nat, routeAware: bool, batches: seq<seq<int>>)
    requires w >= 1 && q >= 1 && IsSchedule(reqs, w, q, routeAware, batches)
    ensures forall d :: d in Delays(Flat(batches, |batches|)) ==> -Early(w, q) <= d <= Late(w, q)
  {
    var order := Flat(batches, |batches|);
    forall r | 0 <= r < |order|
      ensures -Early(w, q) <= r - order[r] <= Late(w, q)
    {
      BoundedDelayUpTo(reqs, w, q, routeAware, batches, |batches|, r);
    }
  }

  // ----- The scheduler itself -----

  /** The inner `for c in cand` scan: the first candidate of least increment. */
  method BestCandidate(reqs: Requests, union: set<Key>, cand: seq<int>) returns (best: int)
    requires cand != [] && Ascending(cand)
    ensures best in cand && forall d :: d in cand ==> Cheaper(reqs, union, best, d)
  {
    best := cand[0];
    var bestInc := |union + KeysOf(reqs, best)| - |union|;
    for i := 1 to |cand|
      invariant best in cand[..i] && bestInc == |union + KeysOf(reqs, best)| - |union|
      invariant forall j :: 0 <= j < i ==> Cheaper(reqs, union, best, cand[j])
    {
      var inc := |union + KeysOf(reqs, cand[i])| - |union|;
      if inc < bestInc {
        best, bestInc := cand[i], inc;
      }
    }
  }

  /** `cand.remove(best)`. */
  function Without(cand: seq<int>, x: int): seq<int> {
    if cand == [] then [] else if cand[0] == x then cand[1..] else [cand[0]] + Without(cand[1..], x)
  }

  lemma {:induction false} WithoutMembers(cand: seq<int>, x: int, c: int)
    requires Ascending(cand)
    ensures c in Without(cand, x) <==> c in cand && c != x
  {
    if cand != [] {
      assert cand == [cand[0]] + cand[1..];
      if cand[0] == x {
        assert x !in cand[1..];
      } else {
        WithoutMembers(cand[1..], x, c);
      }
    }
  }

  lemma {:induction false} WithoutOrder(cand: seq<int>, x: int)
    requires Ascending(cand) && x in cand
    ensures Ascending(Without(cand, x)) && |Without(cand, x)| == |cand| - 1
  {
    if cand[0] != x {
      var rest := Without(cand[1..], x);
      WithoutOrder(cand[1..], x);
      forall i | 0 <= i < |rest|
        ensures cand[0] < rest[i]
      {
        WithoutMembers(cand[1..], x, rest[i]);
      }
    }
  }

  lemma WithoutMeaning(cand: seq<int>, x: int)
    requires Ascending(cand) && x in cand
    ensures Ascending(Without(cand, x)) && |Without(cand, x)| == |cand| - 1
    ensures forall c :: c in Without(cand, x) <==> c in cand && c != x
  {
    WithoutOrder(cand, x);
    forall c
      ensures c in Without(cand, x) <==> c in cand && c != x
    {
      WithoutMembers(cand, x, c);
    }
  }

  /** Everything the greedy loop maintains. */
  ghost predicate Picking(reqs: Requests, window: seq<int>, pick: seq<int>, cand: seq<int>) {
    && pick != [] && window != [] && pick[0] == window[0]
    && Ascending(cand)
    && |cand| + |pick| == |window|
    && (forall c :: c in cand <==> c in window && c !in pick)
    && (forall j :: 1 <= j < |pick| ==> BestAt(reqs, window, pick, j))
  }

  lemma PickOne(reqs: Requests, window: seq<int>, pick: seq<int>, cand: seq<int>, best: int)
    requires Picking(reqs, window, pick, cand) && best in cand
    requires forall d :: d in cand ==> Cheaper(reqs, Union(reqs, pick), best, d)
    ensures Picking(reqs, window, pick + [best], Without(cand, best))
    ensures Union(reqs, pick + [best]) == Union(reqs, pick) + KeysOf(reqs, best)
  {
    WithoutMeaning(cand, best);
    var more := pick + [best];
    assert more[..|pick|] == pick;
    forall j | 1 <= j < |more|
      ensures BestAt(reqs, window, more, j)
    {
      if j < |pick| {
        assert more[..j] == pick[..j];
        assert BestAt(reqs, window, pick, j);
      }
    }
  }

  /** A route-aware batch holds the oldest request whatever the batch size. */
  function AtLeastOne(w: nat): nat {
    if w == 0 then 1 else w
  }

  method Greedy(reqs: Requests, window: seq<int>, w: nat) returns (pick: seq<int>)
    requires window != [] && Ascending(window)
    ensures IsGreedy(reqs, window, AtLeastOne(w), pick)
  {
    pick := [window[0]];
    var union := KeysOf(reqs, window[0]);
    var cand := window[1..];
    assert window == [window[0]] + cand;
    while |pick| < w && cand != []
      invariant Picking(reqs, window, pick, cand) && union == Union(reqs, pick)
      invariant |pick| <= AtLeastOne(w)
      decreases |cand|
    {
      var best := BestCandidate(reqs, union, cand);
      PickOne(reqs, window, pick, cand, best);
      WithoutMeaning(cand, best);
      pick := pick + [best];
      union := union + KeysOf(reqs, best);
      cand := Without(cand, best);
    }
  }

  ghost function TotalUnion(reqs: Requests, batches: seq<seq<int>>, b: nat): int
    requires b <= |batches|
  {
    if b == 0 then 0 else TotalUnion(reqs, batches, b - 1) + |Union(reqs, batches[b - 1])|
  }

  method UnionOf(reqs: Requests, pick: seq<int>) returns (union: set<Key>)
    ensures union == Union(reqs, pick)
  {
    union := {};
    for i := 0 to |pick|
      invariant union == Union(reqs, pick[..i])
    {
      assert pick[..i + 1][..i] == pick[..i];
      union := union + KeysOf(reqs, pick[i]);
    }
    assert pick[..|pick|] == pick;
  }

  /** The loop that marks a batch and records its delays. */
  method Dispatch(dispatched: seq<bool>, pick: seq<int>, rank: nat) returns (next: seq<bool>, delays: seq<int>)
    requires forall i :: i in pick ==> 0 <= i < |dispatched|
    ensures next == Mark(dispatched, pick)
    ensures |delays| == |pick| && forall p :: 0 <= p < |pick| ==> delays[p] == rank + p - pick[p]
  {
    next, delays := dispatched, [];
    for p := 0 to |pick|
      invariant |next| == |dispatched| && |delays| == p
      invariant forall i :: 0 <= i < |next| ==> next[i] == (dispatched[i] || i in pick[..p])
      invariant forall r :: 0 <= r < p ==> delays[r] == rank + r - pick[r]
    {
      assert pick[p] in pick;
      next := next[pick[p] := true];
      delays := delays + [rank + p - pick[p]];
    }
    assert pick[..|pick|] == pick;
  }

  lemma PendingLength(dispatched: seq<bool>)
    ensures |Pending(dispatched, |dispatched|)| == |dispatched| - |Dispatched(dispatched)|
  {
    var p := Pending(dispatched, |dispatched|);
    PendingMeaning(dispatched, |dispatched|);
    DistinctCard(p);
    assert Indices(|dispatched|) == ToSet(p) + Dispatched(dispatched);
  }

  lemma WindowLength(reqs: Requests, w: nat, q: nat, routeAware: bool, batches: seq<seq<int>>, b: nat)
    requires w >= 1 && IsSchedule(reqs, w, q, routeAware, batches) && b <= |batches|
    ensures |Flat(batches, b)| <= |reqs|
    ensures |Window(After(|reqs|, batches, b), q)| == Min(q, |reqs| - |Flat(batches, b)|)
  {
    OrderIsDispatched(reqs, w, q, routeAware, batches, b);
    DistinctCard(Flat(batches, b));
    PendingLength(After(|reqs|, batches, b));
  }

  lemma {:induction false} AfterIgnoresTail(n: nat, batches: seq<seq<int>>, more: seq<seq<int>>, b: nat)
    requires b <= |batches|
    ensures After(n, batches + more, b) == After(n, batches, b)
    ensures Flat(batches + more, b) == Flat(batches, b)
  {
    if b > 0 {
      AfterIgnoresTail(n, batches, more, b - 1);
    }
  }

  lemma {:induction false} TotalIgnoresTail(reqs: Requests, batches: seq<seq<int>>, more: seq<seq<int>>, b: nat)
    requires b <= |batches|
    ensures TotalUnion(reqs, batches + more, b) == TotalUnion(reqs, batches, b)
  {
    if b > 0 {
      TotalIgnoresTail(reqs, batches, more, b - 1);
    }
  }

  /** What `schedule` has computed after the batches so far. */
  ghost predicate Scheduled(reqs: Requests, w: nat, q: nat, routeAware: bool, batches: seq<seq<int>>,
                            dispatched: seq<bool>, delays: seq<int>, total: int) {
    && IsSchedule(reqs, w, q, routeAware, batches)
    && dispatched == After(|reqs|, batches, |batches|)
    && delays == Delays(Flat(batches, |batches|))
    && total == TotalUnion(reqs, batches, |batches|)
  }

  lemma ExtendSchedule(reqs: Requests, w: nat, q: nat, routeAware: bool, batches: seq<seq<int>>, pick: seq<int>)
    requires IsSchedule(reqs, w, q, routeAware, batches)
    requires IsBatch(reqs, w, q, routeAware, After(|reqs|, batches, |batches|), pick)
    ensures IsSchedule(reqs, w, q, routeAware, batches + [pick])
  {
    BatchesStay(reqs, w, q, routeAware, batches, pick);
    BatchJoins(reqs, w, q, routeAware, batches, pick);
    AllBatches(reqs, w, q, routeAware, batches + [pick], |batches|);
  }

  lemma AllBatches(reqs: Requests, w: nat, q: nat, routeAware: bool, batches: seq<seq<int>>, n: nat)
    requires |batches| == n + 1 && BatchAt(reqs, w, q, routeAware, batches, n)
    requires forall b :: 0 <= b < n ==> BatchAt(reqs, w, q, routeAware, batches, b)
    ensures IsSchedule(reqs, w, q, routeAware, batches)
  {
  }

  lemma BatchesStay(reqs: Requests, w: nat, q: nat, routeAware: bool, batches: seq<seq<int>>, pick: seq<int>)
    requires IsSchedule(reqs, w, q, routeAware, batches)
    ensures forall b :: 0 <= b < |batches| ==> BatchAt(reqs, w, q, routeAware, batches + [pick], b)
  {
    forall b | 0 <= b < |batches|
      ensures BatchAt(reqs, w, q, routeAware, batches + [pick], b)
    {
      BatchStays(reqs, w, q, routeAware, batches, pick, b);
    }
  }

  lemma BatchJoins(reqs: Requests, w: nat, q: nat, routeAware: bool, batches: seq<seq<int>>, pick: seq<int>)
    requires IsBatch(reqs, w, q, routeAware, After(|reqs|, batches, |batches|), pick)
    ensures BatchAt(reqs, w, q, routeAware, batches + [pick], |batches|)
  {
    AfterIgnoresTail(|reqs|, batches, [pick], |batches|);
  }

  lemma BatchStays(reqs: Requests, w: nat, q: nat, routeAware: bool, batches: seq<seq<int>>, pick: seq<int>, b: nat)
    requires b < |batches| && BatchAt(reqs, w, q, routeAware, batches, b)
    ensures BatchAt(reqs, w, q, routeAware, batches + [pick], b)
  {
    AfterIgnoresTail(|reqs|, batches, [pick], b);
  }

  lemma DelaysAppend(order: seq<int>, pick: seq<int>, slips: seq<int>)
    requires |slips| == |pick| && forall p :: 0 <= p < |pick| ==> slips[p] == |order| + p - pick[p]
    ensures Delays(order) + slips == Delays(order + pick)
  {
  }

  lemma ScheduleOne(reqs: Requests, w: nat, q: nat, routeAware: bool, batches: seq<seq<int>>, dispatched: seq<bool>,
                    delays: seq<int>, total: int, pick: seq<int>, slips: seq<int>)
    requires Scheduled(reqs, w, q, routeAware, batches, dispatched, delays, total)
    requires IsBatch(reqs, w, q, routeAware, dispatched, pick)
    requires |slips| == |pick| && forall p :: 0 <= p < |pick| ==> slips[p] == |delays| + p - pick[p]
    ensures Scheduled(reqs, w, q, routeAware, batches + [pick], Mark(dispatched, pick), delays + slips,
                      total + |Union(reqs, pick)|)
  {
    ExtendSchedule(reqs, w, q, routeAware, batches, pick);
    AfterIgnoresTail(|reqs|, batches, [pick], |batches|);
    TotalIgnoresTail(reqs, batches, [pick], |batches|);
    DelaysAppend(Flat(batches, |batches|), pick, slips);
    assert Flat(batches + [pick], |batches| + 1) == Flat(batches, |batches|) + pick;
  }

  lemma ScheduleStep(reqs: Requests, w: nat, q: nat, routeAware: bool, batches: seq<seq<int>>, dispatched: seq<bool>,
                     delays: seq<int>, total: int, pick: seq<int>, slips: seq<int>)
    requires w >= 1 && Scheduled(reqs, w, q, routeAware, batches, dispatched, delays, total)
    requires IsBatch(reqs, w, q, routeAware, dispatched, pick)
    requires |slips| == |pick| && forall p :: 0 <= p < |pick| ==> slips[p] == |delays| + p - pick[p]
    ensures Scheduled(reqs, w, q, routeAware, batches + [pick], Mark(dispatched, pick), delays + slips,
                      total + |Union(reqs, pick)|)
    ensures |delays + slips| <= |reqs| && pick != []
  {
    ScheduleOne(reqs, w, q, routeAware, batches, dispatched, delays, total, pick, slips);
    WindowLength(reqs, w, q, routeAware, batches + [pick], |batches| + 1);
    BatchTakesOldest(reqs, w, q, routeAware, dispatched, pick);
  }

  /** The choice of one batch from a nonempty window. */
  method PickBatch(reqs: Requests, w: nat, q: nat, routeAware: bool, dispatched: seq<bool>, window: seq<int>)
      returns (pick: seq<int>)
    requires |dispatched| == |reqs| && window == Window(dispatched, q) && window != [] && (w >= 1 || routeAware)
    ensures IsBatch(reqs, AtLeastOne(w), q, routeAware, dispatched, pick)
    ensures forall i :: i in pick ==> 0 <= i < |dispatched|
  {
    WindowMeaning(dispatched, q);
    if routeAware {
      pick := Greedy(reqs, window, w);
    } else {
      pick := window[..Min(w, |window|)];
    }
    BatchTakesOldest(reqs, AtLeastOne(w), q, routeAware, dispatched, pick);
  }

  /** `schedule`. First-come batches of size zero would never serve a request; an empty window, which
      only a zero lookahead gives, ends the loop early. */
  method Schedule(reqs: Requests, w: nat, q: nat, routeAware: bool)
    returns (totalUnion: int, delays: seq<int>, ghost batches: seq<seq<int>>)
    requires w >= 1 || routeAware || reqs == []
    ensures IsSchedule(reqs, AtLeastOne(w), q, routeAware, batches)
    ensures delays == Delays(Flat(batches, |batches|))
    ensures totalUnion == TotalUnion(reqs, batches, |batches|)
    ensures q >= 1 ==> |delays| == |reqs|
  {
    var n := |reqs|;
    ghost var size := AtLeastOne(w);
    var dispatched := seq(n, _ => false);
    totalUnion, delays, batches := 0, [], [];
    var done := 0;
    while done < n
      invariant Scheduled(reqs, size, q, routeAware, batches, dispatched, delays, totalUnion)
      invariant done == |delays| <= n
    {
      WindowLength(reqs, size, q, routeAware, batches, |batches|);
      var window := Window(dispatched, q);
      if window == [] {
        break;
      }
      var pick := PickBatch(reqs, w, q, routeAware, dispatched, window);
      var union := UnionOf(reqs, pick);
      var slips: seq<int>;
      var next: seq<bool>;
      next, slips := Dispatch(dispatched, pick, done);
      ScheduleStep(reqs, size, q, routeAware, batches, dispatched, delays, totalUnion, pick, slips);
      totalUnion, delays, dispatched := totalUnion + |union|, delays + slips, next;
      batches := batches + [pick];
      done := done + |pick|;
    }
  }

  // ----- Conservation -----

  ghost function SumAt(order: seq<int>, f: int -> int): int {
    if order == [] then 0 else f(order[0]) + SumAt(order[1..], f)
  }

  ghost function SumBelow(n: nat, f: int -> int): int {
    if n == 0 then 0 else SumBelow(n - 1, f) + f(n - 1)
  }

  lemma {:induction false} SumAtAppend(a: seq<int>, b: seq<int>, f: int -> int)
    ensures SumAt(a + b, f) == SumAt(a, f) + SumAt(b, f)
  {
    if a == [] {
      assert a + b == b;
    } else {
      assert (a + b)[1..] == a[1..] + b;
      SumAtAppend(a[1..], b, f);
    }
  }

  ghost predicate IsPermutation(order: seq<int>, n: nat) {
    Distinct(order) && |order| == n && forall i :: 0 <= i < n ==> 0 <= order[i] < n
  }

  lemma PermutationCovers(order: seq<int>, n: nat, i: int)
    requires IsPermutation(order, n) && 0 <= i < n
    ensures i in order
  {
    DistinctCard(order);
    assert ToSet(order) <= Indices(n);
    if i !in order {
      CardMono(ToSet(order), Indices(n) - {i});
    }
  }

  lemma DropLargest(order: seq<int>, n: nat, x: nat)
    requires n > 0 && IsPermutation(order, n) && x < n && order[x] == n - 1
    ensures IsPermutation(order[..x] + order[x + 1..], n - 1)
  {
    var rest := order[..x] + order[x + 1..];
    forall i | 0 <= i < n - 1
      ensures rest[i] == order[if i < x then i else i + 1]
      ensures 0 <= rest[i] < n - 1
    {
      assert order[if i < x then i else i + 1] != order[x];
    }
  }

  lemma SumSplit(order: seq<int>, x: nat, f: int -> int)
    requires x < |order|
    ensures SumAt(order, f) == SumAt(order[..x] + order[x + 1..], f) + f(order[x])
  {
    SplitAround(order, x);
    SumWithout(order, order[..x], order[x], order[x + 1..], f);
  }

  lemma SplitAround(order: seq<int>, x: nat)
    requires x < |order|
    ensures order == order[..x] + [order[x]] + order[x + 1..]
  {
  }

  lemma SumWithout(order: seq<int>, a: seq<int>, x: int, b: seq<int>, f: int -> int)
    requires order == a + [x] + b
    ensures SumAt(order, f) == SumAt(a + b, f) + f(x)
  {
    SumAtAppend(a + [x], b, f);
    SumAtAppend(a, [x], f);
    SumAtAppend(a, b, f);
  }

  /** Summing over a permutation is summing over the range. */
  lemma {:induction false} PermutationSum(order: seq<int>, n: nat, f: int -> int)
    requires IsPermutation(order, n)
    ensures SumAt(order, f) == SumBelow(n, f)
  {
    if n > 0 {
      PermutationCovers(order, n, n - 1);
      var x :| 0 <= x < n && order[x] == n - 1;
      DropLargest(order, n, x);
      PermutationSum(order[..x] + order[x + 1..], n - 1, f);
      SumSplit(order, x, f);
    }
  }

  ghost predicate IsComplete(reqs: Requests, w: nat, q: nat, routeAware: bool, batches: seq<seq<int>>) {
    IsSchedule(reqs, w, q, routeAware, batches) && |Flat(batches, |batches|)| == |reqs|
  }

  /** Every request is dispatched exactly once. */
  lemma DispatchedOnce(reqs: Requests, w: nat, q: nat, routeAware: bool, batches: seq<seq<int>>)
    requires w >= 1 && IsComplete(reqs, w, q, routeAware, batches)
    ensures IsPermutation(Flat(batches, |batches|), |reqs|)
  {
    var order := Flat(batches, |batches|);
    OrderIsDispatched(reqs, w, q, routeAware, batches, |batches|);
    forall i | 0 <= i < |order|
      ensures 0 <= order[i] < |reqs|
    {
      assert order[i] in ToSet(order);
    }
  }

  lemma {:induction false} DelaySumUpTo(order: seq<int>, n: nat)
    requires n <= |order|
    ensures Sum(Delays(order)[..n]) == SumBelow(n, i => i) - SumAt(order[..n], i => i)
  {
    if n > 0 {
      DelaySumUpTo(order, n - 1);
      var d := Delays(order);
      assert d[..n] == d[..n - 1] + [d[n - 1]];
      SumAppend(d[..n - 1], [d[n - 1]]);
      assert order[..n] == order[..n - 1] + [order[n - 1]];
      SumAtAppend(order[..n - 1], [order[n - 1]], i => i);
    }
  }

  /** What some requests gain others lose: the delays of a finished schedule cancel. */
  lemma DelaysCancel(reqs: Requests, w: nat, q: nat, routeAware: bool, batches: seq<seq<int>>)
    requires w >= 1 && IsComplete(reqs, w, q, routeAware, batches)
    ensures Sum(Delays(Flat(batches, |batches|))) == 0
  {
    var order := Flat(batches, |batches|);
    DispatchedOnce(reqs, w, q, routeAware, batches);
    DelaySumUpTo(order, |order|);
    PermutationSum(order, |order|, i => i);
    assert Delays(order)[..|order|] == Delays(order) && order[..|order|] == order;
  }

  // ----- Number of batches -----

  lemma BatchSize(reqs: Requests, w: nat, q: nat, routeAware: bool, batches: seq<seq<int>>, b: nat)
    requires 1 <= w <= q && IsSchedule(reqs, w, q, routeAware, batches) && b < |batches|
    ensures |Flat(batches, b)| < |reqs| && |batches[b]| == Min(w, |reqs| - |Flat(batches, b)|)
  {
    WindowLength(reqs, w, q, routeAware, batches, b);
    assert BatchAt(reqs, w, q, routeAware, batches, b);
  }

  lemma {:induction false} FullBatches(reqs: Requests, w: nat, q: nat, routeAware: bool, batches: seq<seq<int>>, b: nat)
    requires 1 <= w <= q && IsSchedule(reqs, w, q, routeAware, batches) && b <= |batches|
    ensures |Flat(batches, b)| == Min(w * b, |reqs|)
  {
    if b > 0 {
      FullBatches(reqs, w, q, routeAware, batches, b - 1);
      BatchSize(reqs, w, q, routeAware, batches, b - 1);
      MulSucc(w, b - 1);
    }
  }

  /** With a lookahead of at least one batch there are ceil(n / w) batches. */
  lemma BatchCount(reqs: Requests, w: nat, q: nat, routeAware: bool, batches: seq<seq<int>>)
    requires 1 <= w <= q && IsComplete(reqs, w, q, routeAware, batches)
    ensures |reqs| <= w * |batches| < |reqs| + w
  {
    FullBatches(reqs, w, q, routeAware, batches, |batches|);
    if |batches| > 0 {
      FullBatches(reqs, w, q, routeAware, batches, |batches| - 1);
      BatchSize(reqs, w, q, routeAware, batches, |batches| - 1);
      MulSucc(w, |batches| - 1);
    }
  }

  // ----- Expert loads -----

  lemma {:induction false} UnionAppend(reqs: Requests, a: seq<int>, b: seq<int>)
    ensures Union(reqs, a + b) == Union(reqs, a) + Union(reqs, b)
  {
    if b == [] {
      assert a + b == a;
    } else {
      var front := b[..|b| - 1];
      assert (a + b)[..|a + b| - 1] == a + front;
      UnionAppend(reqs, a, front);
    }
  }

  ghost predicate FitsSum(reqs: Requests, pick: seq<int>) {
    |Union(reqs, pick)| <= SumAt(pick, Size(reqs))
  }

  lemma UnionCost(reqs: Requests, pick: seq<int>)
    ensures |Union(reqs, pick)| <= SumAt(pick, Size(reqs))
  {
    for n := 0 to |pick|
      invariant FitsSum(reqs, pick[..n])
    {
      CostOfOneMore(reqs, pick[..n], pick[n], pick[..n + 1]);
    }
    assert pick[..|pick|] == pick;
  }

  lemma CostOfOneMore(reqs: Requests, front: seq<int>, last: int, pick: seq<int>)
    requires pick == front + [last] && FitsSum(reqs, front)
    ensures FitsSum(reqs, pick)
  {
    assert pick[..|pick| - 1] == front;
    SumAtAppend(front, [last], Size(reqs));
    UnionCard(Union(reqs, front), KeysOf(reqs, last));
  }

  lemma UnionCard(a: set<Key>, b: set<Key>)
    ensures |a + b| <= |a| + |b|
  {
    assert |a + b| == |a| + |b - a|;
    CardMono(b - a, b);
  }

  lemma TotalAtLeast(reqs: Requests, batches: seq<seq<int>>, b: nat)
    requires b <= |batches|
    ensures |Union(reqs, Flat(batches, b))| <= TotalUnion(reqs, batches, b)
  {
    for n := 0 to b
      invariant CoversUnion(reqs, batches, n)
    {
      CoversNext(reqs, batches, n, n + 1);
    }
  }

  ghost predicate CoversUnion(reqs: Requests, batches: seq<seq<int>>, b: nat)
    requires b <= |batches|
  {
    |Union(reqs, Flat(batches, b))| <= TotalUnion(reqs, batches, b)
  }

  lemma CoversNext(reqs: Requests, batches: seq<seq<int>>, b: nat, c: nat)
    requires c == b + 1 <= |batches| && CoversUnion(reqs, batches, b)
    ensures CoversUnion(reqs, batches, c)
  {
    UnionAppend(reqs, Flat(batches, b), batches[b]);
    UnionCard(Union(reqs, Flat(batches, b)), Union(reqs, batches[b]));
  }

  ghost function Size(reqs: Requests): int -> int {
    i => |KeysOf(reqs, i)|
  }

  lemma TotalAtMost(reqs: Requests, batches: seq<seq<int>>, b: nat)
    requires b <= |batches|
    ensures TotalUnion(reqs, batches, b) <= SumAt(Flat(batches, b), Size(reqs))
  {
    for n := 0 to b
      invariant TotalUnion(reqs, batches, n) <= SumAt(Flat(batches, n), Size(reqs))
    {
      AtMostNext(reqs, batches, n, n + 1);
    }
  }

  lemma AtMostNext(reqs: Requests, batches: seq<seq<int>>, b: nat, c: nat)
    requires c == b + 1 <= |batches| && TotalUnion(reqs, batches, b) <= SumAt(Flat(batches, b), Size(reqs))
    ensures TotalUnion(reqs, batches, c) <= SumAt(Flat(batches, c), Size(reqs))
  {
    UnionCost(reqs, batches[b]);
    SumAtAppend(Flat(batches, b), batches[b], Size(reqs));
  }

  lemma {:induction false} UnionHolds(reqs: Requests, pick: seq<int>, i: int)
    requires i in pick
    ensures KeysOf(reqs, i) <= Union(reqs, pick)
  {
    var front, last := pick[..|pick| - 1], pick[|pick| - 1];
    assert pick == front + [last];
    if i != last {
      UnionHolds(reqs, front, i);
    }
  }

  /** Batching never loads less than each distinct key once, nor more than every request alone. */
  lemma LoadBounds(reqs: Requests, w: nat, q: nat, routeAware: bool, batches: seq<seq<int>>, keys: set<Key>)
    requires w >= 1 && IsComplete(reqs, w, q, routeAware, batches)
    requires forall k :: k in keys ==> exists i :: 0 <= i < |reqs| && k in reqs[i]
    ensures |keys| <= TotalUnion(reqs, batches, |batches|) <= SumBelow(|reqs|, Size(reqs))
  {
    var order := Flat(batches, |batches|);
    DispatchedOnce(reqs, w, q, routeAware, batches);
    TotalAtLeast(reqs, batches, |batches|);
    TotalAtMost(reqs, batches, |batches|);
    PermutationSum(order, |reqs|, Size(reqs));
    forall k | k in keys
      ensures k in Union(reqs, order)
    {
      var i :| 0 <= i < |reqs| && k in reqs[i];
      PermutationCovers(order, |reqs|, i);
      UnionHolds(reqs, order, i);
    }
    CardMono(keys, Union(reqs, order));
  }

  // ----- First come, first served -----

  /** The first `m` requests are gone and the rest are pending. */
  ghost predicate GoneBelow(dispatched: seq<bool>, m: nat) {
    forall i :: 0 <= i < |dispatched| ==> (dispatched[i] <==> i < m)
  }

  lemma PendingSuffix(dispatched: seq<bool>, m: nat, n: nat)
    requires n <= |dispatched| && GoneBelow(dispatched, m)
    ensures PendingIs(dispatched, m, n)
  {
    for i := 0 to n
      invariant PendingIs(dispatched, m, i)
    {
      PendingNext(dispatched, m, i, i + 1);
    }
  }

  ghost predicate PendingIs(dispatched: seq<bool>, m: nat, n: nat)
    requires n <= |dispatched|
  {
    Pending(dispatched, n) == if n <= m then [] else Range(m, n)
  }

  lemma PendingNext(dispatched: seq<bool>, m: nat, n: nat, n': nat)
    requires n' == n + 1 <= |dispatched| && GoneBelow(dispatched, m) && PendingIs(dispatched, m, n)
    ensures PendingIs(dispatched, m, n')
  {
    if m <= n {
      assert Range(m, n') == Range(m, n) + [n];
    }
  }

  lemma FifoBatch(reqs: Requests, w: nat, q: nat, dispatched: seq<bool>, m: nat, pick: seq<int>)
    requires |dispatched| == |reqs| && m <= |reqs| && GoneBelow(dispatched, m)
    requires IsBatch(reqs, w, q, false, dispatched, pick)
    ensures m < |reqs| && pick == Range(m, Min(m + Min(w, q), |reqs|))
    ensures GoneBelow(Mark(dispatched, pick), m + |pick|)
  {
    PendingSuffix(dispatched, m, |reqs|);
    var hi := Min(m + Min(w, q), |reqs|);
    assert m < |reqs|;
    assert pick == Range(m, hi);
    forall i | 0 <= i < |reqs|
      ensures i in pick <==> m <= i < hi
    {
      if m <= i < hi {
        assert pick[i - m] == i;
      }
    }
  }

  /** First-come batches are consecutive runs of arrivals. */
  lemma {:induction false} FifoPrefix(reqs: Requests, w: nat, q: nat, batches: seq<seq<int>>, b: nat)
    requires w >= 1 && IsSchedule(reqs, w, q, false, batches) && b <= |batches|
    ensures |Flat(batches, b)| <= |reqs| && Flat(batches, b) == Range(0, |Flat(batches, b)|)
    ensures GoneBelow(After(|reqs|, batches, b), |Flat(batches, b)|)
  {
    if b > 0 {
      FifoPrefix(reqs, w, q, batches, b - 1);
      assert BatchAt(reqs, w, q, false, batches, b - 1);
      FifoBatch(reqs, w, q, After(|reqs|, batches, b - 1), |Flat(batches, b - 1)|, batches[b - 1]);
    }
  }

  /** Batch `b` is the next `w` arrivals, or what is left of them. */
  ghost predicate NextArrivals(batches: seq<seq<int>>, n: nat, w: nat, b: nat)
    requires b < |batches|
  {
    var m := |Flat(batches, b)|;
    m < n && batches[b] == Range(m, Min(m + w, n))
  }

  lemma FifoBatchAt(reqs: Requests, w: nat, q: nat, batches: seq<seq<int>>, b: nat)
    requires 1 <= w <= q && IsSchedule(reqs, w, q, false, batches) && b < |batches|
    ensures NextArrivals(batches, |reqs|, w, b)
  {
    FifoPrefix(reqs, w, q, batches, b);
    assert BatchAt(reqs, w, q, false, batches, b);
    FifoBatch(reqs, w, q, After(|reqs|, batches, b), |Flat(batches, b)|, batches[b]);
    assert Min(w, q) == w;
  }

  /** First-come batches serve every request in its turn. */
  lemma FifoHasNoDelay(reqs: Requests, w: nat, q: nat, batches: seq<seq<int>>)
    requires w >= 1 && IsSchedule(reqs, w, q, false, batches)
    ensures forall d :: d in Delays(Flat(batches, |batches|)) ==> d == 0
  {
    FifoPrefix(reqs, w, q, batches, |batches|);
  }
}
