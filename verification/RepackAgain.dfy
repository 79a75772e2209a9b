/** Repacking a model that was already repacked. */
module RepackAgain {
  import opened Base
  import opened Repack

  /** Rounding up twice is rounding up once, and 0 needs no rounding. */
  ghost predicate Settles(up: Rounding) {
    RoundsUp(up) && up(0) == 0 && forall w: nat :: up(up(w)) == up(w)
  }

  ghost function MovedAt(up: Rounding, order: seq<Span>, k: nat): Span
    requires k < |order|
  {
    Span(Start(up, order, k), order[k].length, order[k].index)
  }

  /** The spans as the rewritten model lists them. */
  ghost function Moved(up: Rounding, order: seq<Span>): (moved: seq<Span>)
    ensures |moved| == |order|
    ensures forall k :: 0 <= k < |order| ==> moved[k] == MovedAt(up, order, k)
  {
    seq(|order|, k requires 0 <= k < |order| => MovedAt(up, order, k))
  }

  /** Laying the spans out again would leave every one where it is. */
  ghost predicate InPlace(up: Rounding, order: seq<Span>) {
    forall i :: 0 <= i < |order| ==> Start(up, order, i) == order[i].offset
  }

  /** An empty span `a` at the offset of a nonempty span `b`. */
  ghost predicate Shares(a: Span, b: Span) {
    a.offset == b.offset && a.length == 0 < b.length
  }

  /** An empty span that shares its offset with a nonempty one comes first in the model. */
  ghost predicate EmptyFirst(spans: seq<Span>) {
    forall a, b :: a in spans && b in spans && Shares(a, b) ==> a.index < b.index
  }

  ghost predicate SameSpans(a: seq<Span>, b: seq<Span>) {
    forall x :: x in a <==> x in b
  }

  ghost predicate Apart(a: Span, b: Span) {
    a.offset + a.length <= b.offset
  }

  ghost predicate Next(up: Rounding, a: Span, b: Span) {
    b.offset == up(a.offset + a.length)
  }

  /** The spans follow one another, each where the previous one, padded, ends. */
  ghost predicate LaidOut(up: Rounding, moved: seq<Span>) {
    && (forall a, b :: 0 <= a < b < |moved| ==> Apart(moved[a], moved[b]))
    && (forall a, b :: 0 <= a < |moved| && b == a + 1 < |moved| ==> Next(up, moved[a], moved[b]))
    && (forall a :: 0 <= a < |moved| ==> up(moved[a].offset) == moved[a].offset)
    && (moved != [] ==> moved[0].offset == 0)
  }

  lemma MovedApart(up: Rounding, order: seq<Span>, a: nat, b: nat)
    requires RoundsUp(up) && a < b < |order|
    ensures Apart(MovedAt(up, order, a), MovedAt(up, order, b))
  {
    SpansApart(up, order, a, b);
  }

  lemma MovedNext(up: Rounding, order: seq<Span>, a: nat)
    requires a + 1 < |order|
    ensures Next(up, MovedAt(up, order, a), MovedAt(up, order, a + 1))
  {
  }

  lemma MovedIsRounded(up: Rounding, order: seq<Span>, a: nat)
    requires Settles(up) && a < |order|
    ensures up(MovedAt(up, order, a).offset) == MovedAt(up, order, a).offset
  {
  }

  lemma MovedIsLaidOut(up: Rounding, order: seq<Span>)
    requires Settles(up)
    ensures LaidOut(up, Moved(up, order))
  {
    forall a, b | 0 <= a < b < |order|
      ensures Apart(MovedAt(up, order, a), MovedAt(up, order, b))
    {
      MovedApart(up, order, a, b);
    }
    forall a, b | 0 <= a < |order| && b == a + 1 < |order|
      ensures Next(up, MovedAt(up, order, a), MovedAt(up, order, b))
    {
      MovedNext(up, order, a);
    }
    forall a | 0 <= a < |order|
      ensures up(MovedAt(up, order, a).offset) == MovedAt(up, order, a).offset
    {
      MovedIsRounded(up, order, a);
    }
  }

  /** An empty span listed after a nonempty one at the same offset is pushed away. */
  lemma InPlaceNeedsEmptyFirst(up: Rounding, again: seq<Span>, a: Span, b: Span)
    requires RoundsUp(up) && Ordered(again) && InPlace(up, again) && a in again && b in again && Shares(a, b)
    ensures a.index < b.index
  {
    var p := PositionOf(again, b);
    var q := PositionOf(again, a);
    assert Start(up, again, p) == b.offset && Start(up, again, q) == a.offset;
    if p < q {
      MovedApart(up, again, p, q);
    }
  }

  lemma {:induction false} LastBelow(moved: seq<Span>, a: nat, b: nat, v: nat) returns (k: nat)
    requires a < b < |moved| && moved[a].offset < v <= moved[b].offset
    ensures a <= k < b && moved[k].offset < v <= moved[k + 1].offset
    decreases b - a
  {
    if v <= moved[a + 1].offset {
      k := a;
    } else {
      k := LastBelow(moved, a + 1, b, v);
    }
  }

  /** The span whose padded end is the offset of `y`, a later span than `x`. */
  lemma Reaching(up: Rounding, moved: seq<Span>, x: Span, y: Span) returns (z: Span)
    requires LaidOut(up, moved) && x in moved && y in moved && x.offset < y.offset
    ensures z in moved && Next(up, z, y) && x.offset <= z.offset < y.offset && z.length > 0
    ensures z == x || Apart(x, z)
  {
    var a := PositionOf(moved, x);
    var b := PositionOf(moved, y);
    var k := LastBelow(moved, a, b, y.offset);
    z := moved[k];
    assert Next(up, moved[k], moved[k + 1]) && up(z.offset) == z.offset;
    assert k + 1 < b ==> Apart(moved[k + 1], moved[b]);
    assert a < k ==> Apart(moved[a], moved[k]);
  }

  /** The last span of its group is the one that reaches the next group. */
  lemma LastReaches(again: seq<Span>, i: nat, z: Span)
    requires Ordered(again) && i + 1 < |again| && z in again && z.length > 0
    requires again[i].offset <= z.offset < again[i + 1].offset
    requires z == again[i] || Apart(again[i], z)
    requires Shares(again[i], z) ==> again[i].index < z.index
    ensures z == again[i]
  {
    var p := PositionOf(again, z);
    assert p > i + 1 ==> Before(again[i + 1], again[p]);
    assert p < i ==> Before(again[p], again[i]);
  }

  lemma SharedOffsetIsEmpty(up: Rounding, moved: seq<Span>, x: Span, y: Span)
    requires LaidOut(up, moved) && x in moved && y in moved && Before(x, y) && x.offset == y.offset
    requires Shares(y, x) ==> y.index < x.index
    ensures x.length == 0
  {
    var a := PositionOf(moved, x);
    var b := PositionOf(moved, y);
    assert a < b ==> Apart(moved[a], moved[b]);
    assert b < a ==> Apart(moved[b], moved[a]);
  }

  lemma NeighboursFollow(up: Rounding, moved: seq<Span>, again: seq<Span>, i: nat)
    requires LaidOut(up, moved) && EmptyFirst(moved) && Ordered(again) && SameSpans(again, moved) && i + 1 < |again|
    ensures Next(up, again[i], again[i + 1])
  {
    var x, y := again[i], again[i + 1];
    assert x in again && y in again && Before(x, y);
    if x.offset == y.offset {
      SharedOffsetIsEmpty(up, moved, x, y);
      var a := PositionOf(moved, x);
    } else {
      var z := Reaching(up, moved, x, y);
      LastReaches(again, i, z);
    }
  }

  lemma FirstIsAtZero(up: Rounding, moved: seq<Span>, again: seq<Span>)
    requires LaidOut(up, moved) && Ordered(again) && SameSpans(again, moved) && again != []
    ensures again[0].offset == 0
  {
    assert again[0] in moved && moved[0] in again;
    var p := PositionOf(again, moved[0]);
  }

  lemma {:induction false} FollowingStays(up: Rounding, again: seq<Span>, i: nat)
    requires up(0) == 0 && i < |again| && again[0].offset == 0
    requires forall a, b :: 0 <= a < |again| && b == a + 1 < |again| ==> Next(up, again[a], again[b])
    ensures Start(up, again, i) == again[i].offset
  {
    if i > 0 {
      FollowingStays(up, again, i - 1);
      assert Next(up, again[i - 1], again[i]);
    }
  }

  /** Laying the moved spans out again leaves every one in place exactly when empty spans come
      before nonempty ones at the same offset. */
  lemma InPlaceIff(up: Rounding, moved: seq<Span>, again: seq<Span>)
    requires Settles(up) && LaidOut(up, moved) && Ordered(again) && SameSpans(again, moved)
    ensures InPlace(up, again) <==> EmptyFirst(moved)
  {
    if InPlace(up, again) {
      forall a, b | a in moved && b in moved && Shares(a, b)
        ensures a.index < b.index
      {
        InPlaceNeedsEmptyFirst(up, again, a, b);
      }
    }
    if EmptyFirst(moved) && again != [] {
      FirstIsAtZero(up, moved, again);
      forall a, b | 0 <= a < |again| && b == a + 1 < |again|
        ensures Next(up, again[a], again[b])
      {
        NeighboursFollow(up, moved, again, a);
      }
      forall i | 0 <= i < |again|
        ensures Start(up, again, i) == again[i].offset
      {
        FollowingStays(up, again, i);
      }
    }
  }

  lemma EndCovers(up: Rounding, order: seq<Span>, i: nat)
    requires RoundsUp(up) && InPlace(up, order) && i < |order|
    ensures order[i].offset + order[i].length <= End(up, order, |order|)
  {
    assert Start(up, order, i) == order[i].offset;
    SpansApart(up, order, i, |order|);
  }

  lemma MovedEnd(up: Rounding, order: seq<Span>, x: Span)
    requires RoundsUp(up) && x in Moved(up, order)
    ensures x.offset + x.length <= End(up, order, |order|)
  {
    var k := PositionOf(Moved(up, order), x);
    SpansApart(up, order, k, |order|);
  }

  lemma EndBelow(up: Rounding, order: seq<Span>, again: seq<Span>)
    requires RoundsUp(up) && SameSpans(again, Moved(up, order)) && InPlace(up, again)
    ensures End(up, again, |again|) <= End(up, order, |order|)
  {
    if again != [] {
      var n := |again| - 1;
      assert again[n] in again && Start(up, again, n) == again[n].offset;
      MovedEnd(up, order, again[n]);
    }
  }

  lemma EndAbove(up: Rounding, order: seq<Span>, again: seq<Span>)
    requires RoundsUp(up) && SameSpans(again, Moved(up, order)) && InPlace(up, again)
    ensures End(up, order, |order|) <= End(up, again, |again|)
  {
    if order != [] {
      var n := |order| - 1;
      assert Moved(up, order)[n] in Moved(up, order);
      var q := PositionOf(again, MovedAt(up, order, n));
      EndCovers(up, again, q);
    }
  }

  lemma SameByte(up: Rounding, src: seq<byte>, order: seq<Span>, again: seq<Span>, p: nat)
    requires RoundsUp(up) && SameSpans(again, Moved(up, order)) && InPlace(up, again) && AllFit(src, order, |order|)
    requires var blob := Blob(up, src, order, |order|);
             AllFit(blob, again, |again|) && p < |blob| == |Blob(up, blob, again, |again|)|
    ensures var blob := Blob(up, src, order, |order|);
            Blob(up, blob, again, |again|)[p] == blob[p]
  {
    var blob := Blob(up, src, order, |order|);
    if i :| 0 <= i < |again| && Covers(up, again, i, p) {
      SpanIsCopied(up, blob, again, i, |again|);
      FoundByte(Blob(up, blob, again, |again|), blob, again[i], p);
    } else {
      forall j | 0 <= j < |order|
        ensures !Covers(up, order, j, p)
      {
        assert Moved(up, order)[j] in Moved(up, order);
        var i := PositionOf(again, MovedAt(up, order, j));
        assert !Covers(up, again, i, p);
      }
      GapIsZero(up, src, order, |order|, p);
      GapIsZero(up, blob, again, |again|, p);
    }
  }

  lemma FoundByte(blob: seq<byte>, src: seq<byte>, s: Span, p: nat)
    requires s.offset <= p < s.offset + s.length && Fits(src, s) && FoundAt(blob, s.offset, Bytes(src, s))
    ensures p < |blob| && p < |src| && blob[p] == src[p]
  {
    assert blob[p] == blob[s.offset..s.offset + s.length][p - s.offset];
  }

  lemma SameBlob(up: Rounding, src: seq<byte>, order: seq<Span>, again: seq<Span>)
    requires RoundsUp(up) && SameSpans(again, Moved(up, order)) && InPlace(up, again) && AllFit(src, order, |order|)
    ensures var blob := Blob(up, src, order, |order|);
            AllFit(blob, again, |again|) && Blob(up, blob, again, |again|) == blob
  {
    var blob := Blob(up, src, order, |order|);
    BlobLength(up, src, order, |order|);
    EndBelow(up, order, again);
    EndAbove(up, order, again);
    forall i | 0 <= i < |again|
      ensures Fits(blob, again[i])
    {
      assert again[i] in again;
      MovedEnd(up, order, again[i]);
    }
    BlobLength(up, blob, again, |again|);
    forall p | 0 <= p < |blob|
      ensures Blob(up, blob, again, |again|)[p] == blob[p]
    {
      SameByte(up, src, order, again, p);
    }
  }

  lemma AlignSettles()
    ensures Settles(Align)
  {
    forall w: nat
      ensures w <= Align(w) && Align(Align(w)) == Align(w)
    {
      AlignMeaning(w);
    }
  }

  // ----- A second repack -----

  lemma SecondPlan(inits: seq<Initializer>, location: string)
    ensures SameSpans(Plan(NewModel(inits, location)), Moved(Align, Plan(inits)))
  {
    var model, order := NewModel(inits, location), Plan(inits);
    PlanMeaning(inits);
    PlanMeaning(model);
    forall x
      ensures x in Plan(model) <==> x in Moved(Align, order)
    {
      if x in Plan(model) {
        MovedWhenListed(inits, location, x);
      }
      if x in Moved(Align, order) {
        var k := PositionOf(Moved(Align, order), x);
        assert order[k] in order;
        ListedWhenMoved(inits, location, k);
      }
    }
  }

  lemma MovedWhenListed(inits: seq<Initializer>, location: string, x: Span)
    requires IsSpan(NewModel(inits, location), |inits|, x)
    ensures x in Moved(Align, Plan(inits))
  {
    if inits[x.index].Embedded? {
      EmbeddedStays(inits, location, x.index);
    } else {
      var k := WhereItWent(inits, location, x.index);
      assert Moved(Align, Plan(inits))[k] == x;
    }
  }

  lemma ListedWhenMoved(inits: seq<Initializer>, location: string, k: nat)
    requires k < |Plan(inits)|
    ensures IsSpan(NewModel(inits, location), |inits|, MovedAt(Align, Plan(inits), k))
  {
    PlanIndexes(inits);
    RewrittenAt(Align, inits, location, Plan(inits), |Plan(inits)|, k);
  }

  /** The second rewrite changes nothing exactly when every span stays in place. */
  lemma RewriteIsIdentityIff(inits: seq<Initializer>, location: string)
    requires forall i :: 0 <= i < |inits| && inits[i].External? ==>
               inits[i].location == Some(location) && inits[i].offset.Some? && inits[i].length.Some?
    ensures NewModel(inits, location) == inits <==> InPlace(Align, Plan(inits))
  {
    var model, order := NewModel(inits, location), Plan(inits);
    if model == inits {
      PlanMeaning(inits);
      forall k | 0 <= k < |order|
        ensures Start(Align, order, k) == order[k].offset
      {
        assert order[k] in order;
        ListedWhenMoved(inits, location, k);
      }
    }
    if InPlace(Align, order) {
      forall i | 0 <= i < |inits|
        ensures model[i] == inits[i]
      {
        if inits[i].Embedded? {
          EmbeddedStays(inits, location, i);
        } else {
          var k := WhereItWent(inits, location, i);
          assert Start(Align, order, k) == order[k].offset;
        }
      }
    }
  }

  lemma NewModelIsExplicit(inits: seq<Initializer>, location: string, i: nat)
    requires i < |inits| && NewModel(inits, location)[i].External?
    ensures var a := NewModel(inits, location)[i];
            a.location == Some(location) && a.offset.Some? && a.length.Some?
  {
    if inits[i].Embedded? {
      EmbeddedStays(inits, location, i);
    } else {
      var k := WhereItWent(inits, location, i);
    }
  }

  lemma SecondRewriteIsIdentityIff(inits: seq<Initializer>, location: string)
    ensures var model := NewModel(inits, location);
            && (NewModel(model, location) == model <==> EmptyFirst(Moved(Align, Plan(inits))))
            && (InPlace(Align, Plan(model)) <==> EmptyFirst(Moved(Align, Plan(inits))))
  {
    var model := NewModel(inits, location);
    AlignSettles();
    SecondPlan(inits, location);
    PlanMeaning(model);
    MovedIsLaidOut(Align, Plan(inits));
    InPlaceIff(Align, Moved(Align, Plan(inits)), Plan(model));
    forall i | 0 <= i < |model| && model[i].External?
      ensures model[i].location == Some(location) && model[i].offset.Some? && model[i].length.Some?
    {
      NewModelIsExplicit(inits, location, i);
    }
    RewriteIsIdentityIff(model, location);
  }

  // ----- The condition on the input -----

  /** The empty span at position `a` of the plan comes right before the nonempty one at `b`, but for
      other empty ones. */
  ghost predicate LeadsTo(order: seq<Span>, a: nat, b: nat)
    requires a < |order| && b < |order|
  {
    a < b && order[a].length == 0 < order[b].length && forall c :: a < c < b ==> order[c].length == 0
  }

  /** Every empty span is listed before the next nonempty span of the plan. */
  ghost predicate EmptiesLead(order: seq<Span>) {
    forall a, b :: 0 <= a < |order| && 0 <= b < |order| && LeadsTo(order, a, b) ==> order[a].index < order[b].index
  }

  lemma {:induction false} EmptiesStay(up: Rounding, order: seq<Span>, a: nat, b: nat)
    requires Settles(up) && a <= b < |order| && forall c :: a <= c < b ==> order[c].length == 0
    ensures Start(up, order, a) == Start(up, order, b)
  {
    if a < b {
      EmptiesStay(up, order, a, b - 1);
      MovedNext(up, order, b - 1);
      MovedIsRounded(up, order, b - 1);
    }
  }

  /** Two spans share a new offset exactly when one leads to the other. */
  lemma SharesIff(up: Rounding, order: seq<Span>, a: nat, b: nat)
    requires Settles(up) && a < |order| && b < |order|
    ensures Shares(MovedAt(up, order, a), MovedAt(up, order, b)) <==> LeadsTo(order, a, b)
  {
    if LeadsTo(order, a, b) {
      EmptiesStay(up, order, a, b);
    }
    if Shares(MovedAt(up, order, a), MovedAt(up, order, b)) {
      if b < a {
        MovedApart(up, order, b, a);
      }
      forall c | a < c < b
        ensures order[c].length == 0
      {
        MovedApart(up, order, a, c);
        MovedApart(up, order, c, b);
      }
    }
  }

  lemma EmptiesLeadIff(up: Rounding, order: seq<Span>)
    requires Settles(up)
    ensures EmptyFirst(Moved(up, order)) <==> EmptiesLead(order)
  {
    var moved := Moved(up, order);
    if EmptyFirst(moved) {
      forall a, b | 0 <= a < |order| && 0 <= b < |order| && LeadsTo(order, a, b)
        ensures order[a].index < order[b].index
      {
        SharesIff(up, order, a, b);
        assert moved[a] in moved && moved[b] in moved;
      }
    }
    if EmptiesLead(order) {
      forall x, y | x in moved && y in moved && Shares(x, y)
        ensures x.index < y.index
      {
        var a := PositionOf(moved, x);
        var b := PositionOf(moved, y);
        SharesIff(up, order, a, b);
      }
    }
  }

  /** A second repack returns the same model and the same blob exactly when every empty tensor is
      listed before the next nonempty one in order of offset. */
  lemma SecondRepackIsIdentityIff(inits: seq<Initializer>, location: string, src: seq<byte>)
    requires Readable(inits, src)
    ensures var model, blob := NewModel(inits, location), NewBlob(inits, src);
            NewModel(model, location) == model && Readable(model, blob) && NewBlob(model, blob) == blob <==>
            EmptiesLead(Plan(inits))
  {
    var again := Plan(NewModel(inits, location));
    AlignSettles();
    EmptiesLeadIff(Align, Plan(inits));
    SecondRewriteIsIdentityIff(inits, location);
    if InPlace(Align, again) {
      SecondPlan(inits, location);
      SameBlob(Align, src, Plan(inits), again);
    }
  }

  /** In particular when no tensor is empty. */
  lemma SecondRepackIsIdentity(inits: seq<Initializer>, location: string, src: seq<byte>)
    requires Readable(inits, src) && forall k :: 0 <= k < |Plan(inits)| ==> Plan(inits)[k].length > 0
    ensures var model, blob := NewModel(inits, location), NewBlob(inits, src);
            NewModel(model, location) == model && NewBlob(model, blob) == blob
  {
    SecondRepackIsIdentityIff(inits, location, src);
  }

  /** An empty tensor stored before a nonempty one but listed after it moves behind it on the second
      repack. */
  lemma EmptyTensorMoves(location: string)
    ensures var w := External("w", Some(location), Some(1), Some(5));
            var inits := [w, External("e", Some(location), Some(0), Some(0))];
            var src: seq<byte> := [0, 1, 2, 3, 4, 5];
            && Readable(inits, src)
            && NewModel(NewModel(inits, location), location) != NewModel(inits, location)
  {
    var w, e := External("w", Some(location), Some(1), Some(5)), External("e", Some(location), Some(0), Some(0));
    var inits, src: seq<byte> := [w, e], [0, 1, 2, 3, 4, 5];
    assert Spans(inits, 1) == [Span(1, 5, 0)];
    assert Spans(inits, 2) == [Span(1, 5, 0), Span(0, 0, 1)];
    var order := Plan(inits);
    assert Sort(Spans(inits, 2), 1) == [Span(1, 5, 0)];
    assert order == Insert(Span(0, 0, 1), []) + [Span(1, 5, 0)] == [Span(0, 0, 1), Span(1, 5, 0)];
    AlignMeaning(0);
    assert End(Align, order, 1) == 0;
    var moved := Moved(Align, order);
    assert moved == [Span(0, 0, 1), Span(0, 5, 0)];
    assert Shares(moved[0], moved[1]) && moved[0] in moved && moved[1] in moved;
    assert !EmptyFirst(moved);
    SecondRewriteIsIdentityIff(inits, location);
  }

  // ----- Repacking until nothing changes -----

  /** The empty tensor `i` is stored before the nonempty tensor `j` and listed after it. */
  ghost predicate Lags(inits: seq<Initializer>, i: int, j: int) {
    && 0 <= j < i < |inits| && inits[i].External? && inits[j].External?
    && OrZero(inits[i].length) == 0 < OrZero(inits[j].length)
    && OrZero(inits[i].offset) < OrZero(inits[j].offset)
  }

  ghost function Lagging(inits: seq<Initializer>): set<(int, int)> {
    set i, j | 0 <= i < |inits| && 0 <= j < |inits| && Lags(inits, i, j) :: (i, j)
  }

  lemma StillExternal(inits: seq<Initializer>, location: string, i: nat)
    requires i < |inits| && NewModel(inits, location)[i].External?
    ensures inits[i].External?
  {
    if inits[i].Embedded? {
      EmbeddedStays(inits, location, i);
    }
  }

  /** Plan order, for the spans of two tensors. */
  lemma PlannedBefore(inits: seq<Initializer>, k: nat, l: nat)
    requires k < l < |Plan(inits)|
    ensures Before(Plan(inits)[k], Plan(inits)[l])
  {
    PlanMeaning(inits);
  }

  /** A tensor that lags after a repack lagged before it. */
  lemma LagIsOld(inits: seq<Initializer>, location: string, i: int, j: int)
    requires Lags(NewModel(inits, location), i, j)
    ensures Lags(inits, i, j)
  {
    StillExternal(inits, location, i);
    StillExternal(inits, location, j);
    var k := WhereItWent(inits, location, i);
    var l := WhereItWent(inits, location, j);
    AlignSettles();
    if l < k {
      MovedApart(Align, Plan(inits), l, k);
    } else {
      PlannedBefore(inits, k, l);
    }
  }

  /** Empty and nonempty at one new offset, in the wrong order: a lag the repack has removed. */
  lemma LagIsGone(inits: seq<Initializer>, location: string, k: nat, l: nat)
    requires k < |Plan(inits)| && l < |Plan(inits)| && Plan(inits)[k].index > Plan(inits)[l].index
    requires Shares(MovedAt(Align, Plan(inits), k), MovedAt(Align, Plan(inits), l))
    ensures var i, j := Plan(inits)[k].index, Plan(inits)[l].index;
            Lags(inits, i, j) && !Lags(NewModel(inits, location), i, j)
  {
    var order := Plan(inits);
    PlanMeaning(inits);
    assert order[k] in order && order[l] in order;
    AlignSettles();
    if l < k {
      MovedApart(Align, order, l, k);
    } else {
      PlannedBefore(inits, k, l);
    }
    PlanIndexes(inits);
    RewrittenAt(Align, inits, location, order, |order|, k);
    RewrittenAt(Align, inits, location, order, |order|, l);
  }

  /** Unless the second repack changes nothing, the first removes a lag; none ever appears. */
  lemma LagsShrink(inits: seq<Initializer>, location: string)
    ensures var model := NewModel(inits, location);
            && Lagging(model) <= Lagging(inits)
            && (NewModel(model, location) != model ==> Lagging(model) < Lagging(inits))
  {
    var model := NewModel(inits, location);
    forall p | p in Lagging(model)
      ensures p in Lagging(inits)
    {
      LagIsOld(inits, location, p.0, p.1);
    }
    SecondRewriteIsIdentityIff(inits, location);
    if NewModel(model, location) != model {
      var i, j := WrongPair(inits, location);
      assert (i, j) in Lagging(inits) && (i, j) !in Lagging(model);
    }
  }

  lemma OutOfOrder(moved: seq<Span>) returns (k: nat, l: nat)
    requires !EmptyFirst(moved)
    ensures k < |moved| && l < |moved| && Shares(moved[k], moved[l]) && moved[k].index >= moved[l].index
  {
    var a, b :| a in moved && b in moved && Shares(a, b) && a.index >= b.index;
    k := PositionOf(moved, a);
    l := PositionOf(moved, b);
  }

  lemma WrongPair(inits: seq<Initializer>, location: string) returns (i: int, j: int)
    requires !EmptyFirst(Moved(Align, Plan(inits)))
    ensures Lags(inits, i, j) && !Lags(NewModel(inits, location), i, j)
  {
    var k, l := OutOfOrder(Moved(Align, Plan(inits)));
    PlanIndexes(inits);
    LagIsGone(inits, location, k, l);
    i, j := Plan(inits)[k].index, Plan(inits)[l].index;
  }

  /** One repack moves an empty tensor behind at most one nonempty tensor listed before it. */
  lemma PassesOneAtATime(inits: seq<Initializer>, location: string, i: int, j: int, j': int)
    requires Lags(inits, i, j) && !Lags(NewModel(inits, location), i, j)
    requires Lags(inits, i, j') && !Lags(NewModel(inits, location), i, j')
    ensures j == j'
  {
    var k := WhereItWent(inits, location, i);
    var l := WhereItWent(inits, location, j);
    var l' := WhereItWent(inits, location, j');
    var order := Plan(inits);
    SameOffset(inits, location, i, j, k, l);
    SameOffset(inits, location, i, j', k, l');
    AlignSettles();
    if l < l' {
      MovedApart(Align, order, l, l');
    } else if l' < l {
      MovedApart(Align, order, l', l);
    }
  }

  lemma SameOffset(inits: seq<Initializer>, location: string, i: int, j: int, k: nat, l: nat)
    requires Lags(inits, i, j) && !Lags(NewModel(inits, location), i, j)
    requires k < |Plan(inits)| && l < |Plan(inits)|
    requires Plan(inits)[k] == SpanOf(inits[i], i) && Plan(inits)[l] == SpanOf(inits[j], j)
    ensures Start(Align, Plan(inits), k) == Start(Align, Plan(inits), l)
  {
    PlanIndexes(inits);
    RewrittenAt(Align, inits, location, Plan(inits), |Plan(inits)|, k);
    RewrittenAt(Align, inits, location, Plan(inits), |Plan(inits)|, l);
    AlignSettles();
    if l < k {
      PlannedBefore(inits, l, k);
    } else {
      MovedApart(Align, Plan(inits), k, l);
    }
  }

  ghost function Iterate<T>(f: T -> T, x: T, n: nat): T {
    if n == 0 then x else f(Iterate(f, x, n - 1))
  }

  lemma {:induction false} IterateShift<T>(f: T -> T, x: T, n: nat)
    ensures Iterate(f, f(x), n) == Iterate(f, x, n + 1)
  {
    if n > 0 {
      IterateShift(f, x, n - 1);
    }
  }

  /** One application makes the size smaller, unless another would change nothing. */
  ghost predicate Shrinks<T>(f: T -> T, size: T -> nat, x: T) {
    f(f(x)) == f(x) || size(f(x)) < size(x)
  }

  lemma IterateSettles<T(!new)>(f: T -> T, size: T -> nat, x: T) returns (n: nat)
    requires forall y :: Shrinks(f, size, y)
    ensures 1 <= n <= size(x) + 1 && f(Iterate(f, x, n)) == Iterate(f, x, n)
    decreases size(x)
  {
    assert Iterate(f, x, 1) == f(Iterate(f, x, 0));
    if f(f(x)) == f(x) {
      n := 1;
    } else {
      assert Shrinks(f, size, x);
      var m := IterateSettles(f, size, f(x));
      IterateShift(f, x, m);
      n := m + 1;
    }
  }

  lemma {:induction false} IterateStays<T>(f: T -> T, x: T, n: nat, m: nat)
    requires f(Iterate(f, x, n)) == Iterate(f, x, n) && n <= m
    ensures Iterate(f, x, m) == Iterate(f, x, n)
    decreases m
  {
    if n < m {
      IterateStays(f, x, n, m - 1);
    }
  }

  lemma {:induction false} IterateKeeps<T(!new)>(f: T -> T, good: T -> bool, x: T, n: nat)
    requires good(x) && forall y :: good(y) ==> good(f(y))
    ensures good(Iterate(f, x, n))
  {
    if n > 0 {
      IterateKeeps(f, good, x, n - 1);
    }
  }

  lemma {:induction false} IterateMaps<S(!new), T>(f: S -> S, g: T -> T, p: S -> T, x: S, n: nat)
    requires forall y :: p(f(y)) == g(p(y))
    ensures p(Iterate(f, x, n)) == Iterate(g, p(x), n)
  {
    if n > 0 {
      IterateMaps(f, g, p, x, n - 1);
    }
  }

  ghost function Repacker(location: string): seq<Initializer> -> seq<Initializer> {
    inits => NewModel(inits, location)
  }

  ghost function LagCount(): seq<Initializer> -> nat {
    inits => |Lagging(inits)|
  }

  lemma RepackShrinks(location: string, inits: seq<Initializer>)
    ensures Shrinks(Repacker(location), LagCount(), inits)
  {
    LagsShrink(inits, location);
    if NewModel(NewModel(inits, location), location) != NewModel(inits, location) {
      StrictCard(Lagging(NewModel(inits, location)), Lagging(inits));
    }
  }

  /** A model and the file its external tensors are read from. */
  datatype Stored = Stored(model: seq<Initializer>, blob: seq<byte>)

  /** The repacked model can be read from the repacked file. */
  lemma StaysReadable(inits: seq<Initializer>, location: string, src: seq<byte>)
    requires Readable(inits, src)
    ensures Readable(NewModel(inits, location), NewBlob(inits, src))
  {
    SecondPlan(inits, location);
    var order, again := Plan(inits), Plan(NewModel(inits, location));
    AlignSettles();
    BlobLength(Align, src, order, |order|);
    forall i | 0 <= i < |again|
      ensures Fits(NewBlob(inits, src), again[i])
    {
      assert again[i] in again;
      MovedEnd(Align, order, again[i]);
    }
  }

  /** One run of the script, which names the file `location`. */
  ghost function Script(location: string): Stored -> Stored {
    (s: Stored) => Stored(NewModel(s.model, location), NewBlob(s.model, s.blob))
  }

  ghost function CanRead(): Stored -> bool {
    (s: Stored) => Readable(s.model, s.blob)
  }

  ghost function ModelOf(): Stored -> seq<Initializer> {
    (s: Stored) => s.model
  }

  lemma ScriptStaysReadable(location: string)
    ensures forall s: Stored :: CanRead()(s) ==> CanRead()(Script(location)(s))
  {
    forall s: Stored | CanRead()(s)
      ensures CanRead()(Script(location)(s))
    {
      StaysReadable(s.model, location, s.blob);
    }
  }

  /** A repack that will not move the entries again will not change the file again. */
  lemma BlobSettlesToo(s: Stored, location: string, t: Stored)
    requires Readable(s.model, s.blob) && t == Script(location)(s) && NewModel(t.model, location) == t.model
    ensures Script(location)(t) == t
  {
    SecondRewriteIsIdentityIff(s.model, location);
    AlignSettles();
    SecondPlan(s.model, location);
    SameBlob(Align, s.blob, Plan(s.model), Plan(t.model));
  }

  lemma SettlesAt(s: Stored, location: string, n: nat)
    requires Readable(s.model, s.blob) && n >= 1
    requires Repacker(location)(Iterate(Repacker(location), s.model, n)) == Iterate(Repacker(location), s.model, n)
    ensures Script(location)(Iterate(Script(location), s, n)) == Iterate(Script(location), s, n)
  {
    IterateMaps(Script(location), Repacker(location), ModelOf(), s, n);
    ScriptStaysReadable(location);
    IterateKeeps(Script(location), CanRead(), s, n - 1);
    BlobSettlesToo(Iterate(Script(location), s, n - 1), location, Iterate(Script(location), s, n));
  }

  /** Running the script again and again reaches a model and a file that no further run changes, after
      one run and at most one more for each lag of the input. */
  lemma RepackingSettles(s: Stored, location: string) returns (n: nat)
    requires Readable(s.model, s.blob)
    ensures 1 <= n <= |Lagging(s.model)| + 1
    ensures forall m: nat :: m >= n ==> Iterate(Script(location), s, m) == Iterate(Script(location), s, n)
  {
    RepackAlwaysShrinks(location);
    n := IterateSettles(Repacker(location), LagCount(), s.model);
    SettlesAt(s, location, n);
    forall m: nat | m >= n
      ensures Iterate(Script(location), s, m) == Iterate(Script(location), s, n)
    {
      IterateStays(Script(location), s, n, m);
    }
  }

  lemma RepackAlwaysShrinks(location: string)
    ensures forall inits :: Shrinks(Repacker(location), LagCount(), inits)
  {
    forall inits
      ensures Shrinks(Repacker(location), LagCount(), inits)
    {
      RepackShrinks(location, inits);
    }
  }

  lemma StrictCard<T>(a: set<T>, b: set<T>)
    requires a < b
    ensures |a| < |b|
  {
    var x := PickOutside(b, a);
    CardMono(a, b - {x});
  }
}
