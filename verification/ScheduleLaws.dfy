/** What every schedule obeys, in terms of the requests' keys and of what was served before. */
module ScheduleLaws {
  import opened Base
  import opened RouteScheduler

  /** Request `d` is waiting and fewer than `q` older ones are. */
  ghost predicate InView(n: nat, served: seq<int>, q: nat, d: int) {
    0 <= d < n && d !in served && |set i | 0 <= i < d && i !in served| < q
  }

  /** All keys of the picked requests. */
  ghost function KeysOfAll(reqs: Requests, pick: seq<int>): set<Key> {
    set i, k | 0 <= i < |pick| && 0 <= pick[i] < |reqs| && k in reqs[pick[i]] :: k
  }

  lemma {:induction false} UnionIsKeys(reqs: Requests, pick: seq<int>)
    ensures Union(reqs, pick) == KeysOfAll(reqs, pick)
  {
    if pick != [] {
      var front, last := pick[..|pick| - 1], pick[|pick| - 1];
      UnionIsKeys(reqs, front);
      forall k
        ensures k in KeysOfAll(reqs, pick) <==> k in KeysOfAll(reqs, front) || k in KeysOf(reqs, last)
      {
        if k in KeysOfAll(reqs, front) {
          var i :| 0 <= i < |front| && 0 <= front[i] < |reqs| && k in reqs[front[i]];
          assert pick[i] == front[i];
        }
        if k in KeysOfAll(reqs, pick) {
          var i :| 0 <= i < |pick| && 0 <= pick[i] < |reqs| && k in reqs[pick[i]];
          assert i < |front| ==> front[i] == pick[i];
        }
      }
    }
  }

  // ----- The window -----

  lemma OlderIs(dispatched: seq<bool>, served: seq<int>, d: int)
    requires ToSet(served) == Dispatched(dispatched) && 0 <= d <= |dispatched|
    ensures Older(dispatched, d) == set i | 0 <= i < d && i !in served
  {
    forall i | 0 <= i < d
      ensures dispatched[i] <==> i in served
    {
      assert i in ToSet(served) <==> i in Dispatched(dispatched);
    }
  }

  lemma WindowIsInView(dispatched: seq<bool>, served: seq<int>, q: nat, d: int)
    requires ToSet(served) == Dispatched(dispatched)
    ensures d in Window(dispatched, q) <==> InView(|dispatched|, served, q, d)
  {
    var window := Window(dispatched, q);
    WindowMeaning(dispatched, q);
    if 0 <= d < |dispatched| {
      assert d in ToSet(served) <==> d in Dispatched(dispatched);
      OlderIs(dispatched, served, d);
      if d in window {
        OlderInWindow(dispatched, q, window, d);
      } else if !dispatched[d] {
        assert ToSet(window) <= Older(dispatched, d);
        CardMono(ToSet(window), Older(dispatched, d));
        DistinctCard(window);
      }
    }
  }

  /** A batch picks from those in view. */
  lemma PicksInView(reqs: Requests, w: nat, q: nat, routeAware: bool, batches: seq<seq<int>>, b: nat, d: int)
    requires w >= 1 && IsSchedule(reqs, w, q, routeAware, batches) && b < |batches|
    ensures d in Window(After(|reqs|, batches, b), q) <==> InView(|reqs|, Flat(batches, b), q, d)
    ensures d in batches[b] ==> InView(|reqs|, Flat(batches, b), q, d)
  {
    OrderIsDispatched(reqs, w, q, routeAware, batches, b);
    WindowIsInView(After(|reqs|, batches, b), Flat(batches, b), q, d);
    TakenFrom(reqs, w, q, routeAware, batches, b);
  }

  // ----- Every batch -----

  /** A batch starts with the oldest request waiting, names no request twice, and is full or takes
      everything in view. */
  lemma BatchLaw(reqs: Requests, w: nat, q: nat, routeAware: bool, batches: seq<seq<int>>, b: nat)
    requires w >= 1 && IsSchedule(reqs, w, q, routeAware, batches) && b < |batches|
    ensures var pick, served := batches[b], Flat(batches, b);
            && 1 <= |pick| <= w && (forall i :: 0 <= i < pick[0] ==> i in served)
            && (forall i, j :: 0 <= i < j < |pick| ==> pick[i] != pick[j])
            && (|pick| < w ==> forall d :: InView(|reqs|, served, q, d) ==> d in pick)
  {
    var pick, served, before := batches[b], Flat(batches, b), After(|reqs|, batches, b);
    TakenFrom(reqs, w, q, routeAware, batches, b);
    OrderIsDispatched(reqs, w, q, routeAware, batches, b);
    WindowMeaning(before, q);
    NoneOlder(before, q, Window(before, q));
    OlderIs(before, served, pick[0]);
    forall i | 0 <= i < pick[0]
      ensures i in served
    {
      assert i !in Older(before, pick[0]);
    }
    forall d | InView(|reqs|, served, q, d) && |pick| < w
      ensures d in pick
    {
      PicksInView(reqs, w, q, routeAware, batches, b, d);
      if d !in pick {
        PassedOver(Window(before, q), w, pick, d);
      }
    }
  }

  /** First come, first served: a batch ascends, and whoever is in view but not picked is younger. */
  lemma FifoLaw(reqs: Requests, w: nat, q: nat, batches: seq<seq<int>>, b: nat, j: nat, d: int)
    requires w >= 1 && IsSchedule(reqs, w, q, false, batches) && b < |batches| && j < |batches[b]|
    requires InView(|reqs|, Flat(batches, b), q, d) && d !in batches[b][..j]
    ensures batches[b][j] <= d
  {
    PicksInView(reqs, w, q, false, batches, b, d);
    assert BatchAt(reqs, w, q, false, batches, b);
    var window, pick := Window(After(|reqs|, batches, b), q), batches[b];
    WindowMeaning(After(|reqs|, batches, b), q);
    var x :| 0 <= x < |window| && window[x] == d;
    forall i | 0 <= i < j
      ensures window[i] in pick[..j]
    {
      assert pick[..j][i] == window[i];
    }
  }

  /** Route aware: each further pick adds the fewest keys of all in view that are left, and is the
      oldest that adds so few. */
  lemma GreedyLaw(reqs: Requests, w: nat, q: nat, batches: seq<seq<int>>, b: nat, j: nat, d: int)
    requires w >= 1 && IsSchedule(reqs, w, q, true, batches) && b < |batches| && 1 <= j < |batches[b]|
    requires InView(|reqs|, Flat(batches, b), q, d) && d !in batches[b][..j]
    ensures var c := batches[b][j];
            var u := KeysOfAll(reqs, batches[b][..j]);
            && 0 <= c < |reqs|
            && (|u + reqs[c]| < |u + reqs[d]| || (|u + reqs[c]| == |u + reqs[d]| && c <= d))
  {
    var pick := batches[b];
    PicksInView(reqs, w, q, true, batches, b, d);
    PicksInView(reqs, w, q, true, batches, b, pick[j]);
    assert BatchAt(reqs, w, q, true, batches, b);
    assert BestAt(reqs, Window(After(|reqs|, batches, b), q), pick, j);
    UnionIsKeys(reqs, pick[..j]);
  }

  // ----- The total -----

  ghost function Pairs(reqs: Requests, batches: seq<seq<int>>, n: nat): set<(int, Key)>
    requires n <= |batches|
  {
    set b, k | 0 <= b < n && k in KeysOfAll(reqs, batches[b]) :: (b, k)
  }

  lemma MorePairs(reqs: Requests, batches: seq<seq<int>>, n: nat, m: nat)
    requires m == n + 1 <= |batches|
    ensures var last := Marked(n, KeysOfAll(reqs, batches[n]));
            Pairs(reqs, batches, m) == Pairs(reqs, batches, n) + last && Pairs(reqs, batches, n) !! last
  {
  }

  lemma PairsOfBatch(reqs: Requests, batches: seq<seq<int>>, n: nat, m: nat)
    requires m == n + 1 <= |batches|
    ensures |Pairs(reqs, batches, m)| == |Pairs(reqs, batches, n)| + |Union(reqs, batches[n])|
  {
    UnionIsKeys(reqs, batches[n]);
    MarkedCard(n, KeysOfAll(reqs, batches[n]));
    MorePairs(reqs, batches, n, m);
  }

  /** The total counts each key once for every batch that needs it. */
  lemma {:induction false} TotalIsPairs(reqs: Requests, batches: seq<seq<int>>, n: nat)
    requires n <= |batches|
    ensures TotalUnion(reqs, batches, n) == |Pairs(reqs, batches, n)|
  {
    if n == 0 {
      assert Pairs(reqs, batches, 0) == {};
    } else {
      TotalIsPairs(reqs, batches, n - 1);
      PairsOfBatch(reqs, batches, n - 1, n);
    }
  }
}
