/** The repacked file, tensor by tensor, in terms of the entries of the model. */
module RepackLaws {
  import opened Base
  import opened Repack

  /** An entry left out counts as zero. */
  ghost function Given(n: Option<nat>): nat {
    match n
    case None => 0
    case Some(value) => value
  }

  /** Tensor `i` is stored before tensor `j`: at a smaller offset, or at the same and listed earlier. */
  ghost predicate Precedes(inits: seq<Initializer>, i: int, j: int) {
    && 0 <= i < |inits| && 0 <= j < |inits| && inits[i].External? && inits[j].External?
    && (Given(inits[i].offset) < Given(inits[j].offset) || (Given(inits[i].offset) == Given(inits[j].offset) && i < j))
  }

  /** A model can be repacked exactly when every tensor with bytes lies inside the file. */
  lemma ReadableIff(inits: seq<Initializer>, src: seq<byte>)
    ensures Readable(inits, src) <==>
            forall i :: 0 <= i < |inits| && inits[i].External? ==>
              Given(inits[i].length) == 0 || Given(inits[i].offset) + Given(inits[i].length) <= |src|
  {
    var order := Plan(inits);
    PlanMeaning(inits);
    if Readable(inits, src) {
      forall i | 0 <= i < |inits| && inits[i].External?
        ensures Given(inits[i].length) == 0 || Given(inits[i].offset) + Given(inits[i].length) <= |src|
      {
        var k := PositionOfInitializer(inits, i);
        assert Fits(src, order[k]);
      }
    } else {
      var k :| 0 <= k < |order| && !Fits(src, order[k]);
      assert order[k] in order;
      assert IsSpan(inits, |inits|, order[k]);
    }
  }

  // ----- One tensor -----

  /** A repacked tensor keeps its name and is found, byte by byte, at a multiple of 4096. */
  lemma EntryLaw(inits: seq<Initializer>, location: string, src: seq<byte>, i: nat) returns (o: nat)
    requires Readable(inits, src) && i < |inits| && inits[i].External?
    ensures var off, len, blob := Given(inits[i].offset), Given(inits[i].length), NewBlob(inits, src);
            && NewModel(inits, location)[i] == External(inits[i].name, Some(location), Some(o), Some(len))
            && o % 4096 == 0
            && (len > 0 ==> o + len <= |blob| && off + len <= |src| && blob[o..o + len] == src[off..off + len])
  {
    var k := WhereItWent(inits, location, i);
    var order := Plan(inits);
    o := Start(Align, order, k);
    AlignMeaning(End(Align, order, k));
    AlignRoundsUp();
    SpanIsCopied(Align, src, order, k, |order|);
    assert Fits(src, order[k]);
  }

  // ----- Two tensors -----

  lemma PlanOrder(inits: seq<Initializer>, i: nat, j: nat, k: nat, l: nat)
    requires Precedes(inits, i, j) && k < |Plan(inits)| && l < |Plan(inits)|
    requires Plan(inits)[k] == SpanOf(inits[i], i) && Plan(inits)[l] == SpanOf(inits[j], j)
    ensures k < l
  {
    PlanMeaning(inits);
  }

  /** Tensors keep their order in the file and do not overlap. */
  lemma OrderLaw(inits: seq<Initializer>, location: string, i: nat, j: nat)
    requires Precedes(inits, i, j)
    ensures var a, b := NewModel(inits, location)[i], NewModel(inits, location)[j];
            a.External? && b.External? && Given(a.offset) + Given(inits[i].length) <= Given(b.offset)
  {
    var k := WhereItWent(inits, location, i);
    var l := WhereItWent(inits, location, j);
    PlanOrder(inits, i, j, k, l);
    AlignRoundsUp();
    SpansApart(Align, Plan(inits), k, l);
  }

  /** Tensor `i` is the last one stored before tensor `j`. */
  ghost predicate JustPrecedes(inits: seq<Initializer>, i: int, j: int) {
    Precedes(inits, i, j) && forall k :: Precedes(inits, k, j) ==> k == i || Precedes(inits, k, i)
  }

  ghost function OffsetOf(init: Initializer): nat {
    match init
    case Embedded(_) => 0
    case External(_, _, offset, _) => Given(offset)
  }

  /** The first tensor is at zero. */
  lemma FirstLaw(inits: seq<Initializer>, location: string, j: nat)
    requires j < |inits| && inits[j].External? && forall i :: !Precedes(inits, i, j)
    ensures OffsetOf(NewModel(inits, location)[j]) == 0
  {
    var l := WhereItWent(inits, location, j);
    if l > 0 {
      SpanBefore(inits, 0, l);
    }
    AlignMeaning(0);
  }

  /** No room is wasted: any other is at the next multiple of 4096 after the one stored before it. */
  lemma TightLaw(inits: seq<Initializer>, location: string, i: nat, j: nat)
    requires JustPrecedes(inits, i, j)
    ensures var end := OffsetOf(NewModel(inits, location)[i]) + Given(inits[i].length);
            end <= OffsetOf(NewModel(inits, location)[j]) < end + 4096
  {
    var k := WhereItWent(inits, location, i);
    var l := WhereItWent(inits, location, j);
    PlanOrder(inits, i, j, k, l);
    Adjacent(inits, i, j, k, l);
    AlignMeaning(End(Align, Plan(inits), l));
  }

  lemma Adjacent(inits: seq<Initializer>, i: nat, j: nat, k: nat, l: nat)
    requires JustPrecedes(inits, i, j) && k < l < |Plan(inits)|
    requires Plan(inits)[k] == SpanOf(inits[i], i) && Plan(inits)[l] == SpanOf(inits[j], j)
    ensures l == k + 1
  {
    if k + 1 < l {
      SpanBefore(inits, k, k + 1);
      SpanBefore(inits, k + 1, l);
    }
  }

  lemma SpanBefore(inits: seq<Initializer>, k: nat, l: nat)
    requires k < l < |Plan(inits)|
    ensures Precedes(inits, Plan(inits)[k].index, Plan(inits)[l].index)
  {
    PlanMeaning(inits);
    var order := Plan(inits);
    assert order[k] in order && order[l] in order;
    assert IsSpan(inits, |inits|, order[k]) && IsSpan(inits, |inits|, order[l]);
    assert Before(order[k], order[l]);
  }

  /** A byte that belongs to no tensor is zero. */
  lemma PaddingLaw(inits: seq<Initializer>, location: string, src: seq<byte>, p: nat)
    requires Readable(inits, src) && p < |NewBlob(inits, src)|
    requires forall i :: 0 <= i < |inits| && inits[i].External? ==>
               var o := OffsetOf(NewModel(inits, location)[i]); !(o <= p < o + Given(inits[i].length))
    ensures NewBlob(inits, src)[p] == 0
  {
    var order := Plan(inits);
    PlanMeaning(inits);
    AlignRoundsUp();
    forall k | 0 <= k < |order|
      ensures !Covers(Align, order, k, p)
    {
      assert order[k] in order;
      assert IsSpan(inits, |inits|, order[k]);
      var i := order[k].index;
      var l := WhereItWent(inits, location, i);
      PlanIndexes(inits);
      assert k == l;
    }
    GapIsZero(Align, src, order, |order|, p);
  }

  // ----- What is refused -----

  /** The locations are those the external tensors name; one is missing exactly when a tensor has none. */
  lemma {:induction false} LocationsLaw(inits: seq<Initializer>, n: nat, x: string)
    requires n <= |inits|
    ensures x in Locations(inits, n) <==> exists i :: 0 <= i < n && Names(inits[i], x)
  {
    if n > 0 {
      LocationsLaw(inits, n - 1, x);
    }
  }

  ghost predicate Names(init: Initializer, x: string) {
    init.External? && init.location == Some(x)
  }
}
