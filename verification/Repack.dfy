/** Repacking a model's external data: the span sort, pad, chunked copy and offset-rewrite loop. */
module Repack {
  import opened Base

  const ALIGN: nat := 4096
  const COPY_CHUNK: nat := 33554432

  /** An initializer with the external-data entries it carries. */
  datatype Initializer =
    | Embedded(name: string)
    | External(name: string, location: Option<string>, offset: Option<nat>, length: Option<nat>)

  datatype Span = Span(offset: nat, length: nat, index: nat)

  datatype Error = MissingLocation | NotOneBlob | NoSuchBlob | UnexpectedEof

  datatype Outcome = Repacked(location: string, blob: seq<byte>) | Failed(error: Error)

  function OrZero(n: Option<nat>): nat {
    if n.Some? then n.value else 0
  }

  /** What a reader of the model gets, by the "External Tensor Data" section of the ONNX IR
      specification: the offset defaults to 0, the length to the rest of the file. */
  function ReadExternal(init: Initializer, blob: seq<byte>): seq<byte>
    requires init.External?
  {
    var from := Min(OrZero(init.offset), |blob|);
    var until := if init.length.Some? then Min(from + init.length.value, |blob|) else |blob|;
    blob[from..until]
  }

  // ----- Collecting and sorting spans -----

  function SpanOf(init: Initializer, index: nat): Span
    requires init.External?
  {
    Span(OrZero(init.offset), OrZero(init.length), index)
  }

  /** The external initializers among the first `n`, in model order. */
  ghost function Spans(inits: seq<Initializer>, n: nat): (spans: seq<Span>)
    requires n <= |inits|
    ensures forall k :: 0 <= k < |spans| ==> spans[k].index < n
  {
    if n == 0 then []
    else if inits[n - 1].External? then Spans(inits, n - 1) + [SpanOf(inits[n - 1], n - 1)]
    else Spans(inits, n - 1)
  }

  ghost predicate Located(inits: seq<Initializer>, n: nat)
    requires n <= |inits|
  {
    forall i :: 0 <= i < n && inits[i].External? ==> inits[i].location.Some?
  }

  ghost function Locations(inits: seq<Initializer>, n: nat): set<string>
    requires n <= |inits|
  {
    if n == 0 then {}
    else Locations(inits, n - 1) +
         if inits[n - 1].External? && inits[n - 1].location.Some? then {inits[n - 1].location.value} else {}
  }

  /** Before, in a stable sort by offset of spans listed by index. */
  predicate Before(a: Span, b: Span) {
    a.offset < b.offset || (a.offset == b.offset && a.index < b.index)
  }

  function Insert(s: Span, order: seq<Span>): seq<Span> {
    if order == [] then [s]
    else
      var last := order[|order| - 1];
      if Before(last, s) then order + [s] else Insert(s, order[..|order| - 1]) + [last]
  }

  function Sort(spans: seq<Span>, n: nat): seq<Span>
    requires n <= |spans|
  {
    if n == 0 then [] else Insert(spans[n - 1], Sort(spans, n - 1))
  }

  ghost predicate Ordered(order: seq<Span>) {
    forall i, j :: 0 <= i < j < |order| ==> Before(order[i], order[j])
  }

  lemma {:induction false} InsertSorts(s: Span, order: seq<Span>)
    requires Ordered(order) && forall k :: 0 <= k < |order| ==> order[k].index != s.index
    ensures Ordered(Insert(s, order)) && |Insert(s, order)| == |order| + 1
    ensures forall x :: x in Insert(s, order) <==> x == s || x in order
  {
    if order != [] {
      var front, last := order[..|order| - 1], order[|order| - 1];
      assert order == front + [last];
      if !Before(last, s) {
        InsertSorts(s, front);
        var inner := Insert(s, front);
        forall i | 0 <= i < |inner|
          ensures Before(inner[i], last)
        {
          assert inner[i] in inner;
        }
      }
    }
  }

  ghost predicate ByIndex(spans: seq<Span>) {
    forall i, j :: 0 <= i < j < |spans| ==> spans[i].index < spans[j].index
  }

  lemma {:induction false} SortSorts(spans: seq<Span>, n: nat)
    requires n <= |spans| && ByIndex(spans)
    ensures Ordered(Sort(spans, n)) && |Sort(spans, n)| == n
    ensures forall x :: x in Sort(spans, n) <==> x in spans[..n]
  {
    if n > 0 {
      SortSorts(spans, n - 1);
      var order := Sort(spans, n - 1);
      forall k | 0 <= k < |order|
        ensures order[k].index != spans[n - 1].index
      {
        assert order[k] in spans[..n - 1];
      }
      InsertSorts(spans[n - 1], order);
      assert spans[..n] == spans[..n - 1] + [spans[n - 1]];
    }
  }

  lemma {:induction false} SpansByIndex(inits: seq<Initializer>, n: nat)
    requires n <= |inits|
    ensures ByIndex(Spans(inits, n))
  {
    if n > 0 {
      SpansByIndex(inits, n - 1);
    }
  }

  ghost predicate IsSpan(inits: seq<Initializer>, n: nat, x: Span)
    requires n <= |inits|
  {
    x.index < n && inits[x.index].External? && x == SpanOf(inits[x.index], x.index)
  }

  lemma {:induction false} SpansMeaning(inits: seq<Initializer>, n: nat, x: Span)
    requires n <= |inits|
    ensures x in Spans(inits, n) <==> IsSpan(inits, n, x)
  {
    if n > 0 {
      SpansMeaning(inits, n - 1, x);
    }
  }

  /** The order in which the spans are laid out. */
  ghost function Plan(inits: seq<Initializer>): seq<Span> {
    var spans := Spans(inits, |inits|);
    Sort(spans, |spans|)
  }

  lemma PlanMeaning(inits: seq<Initializer>)
    ensures Ordered(Plan(inits)) && |Plan(inits)| == |Spans(inits, |inits|)|
    ensures forall x :: x in Plan(inits) <==> IsSpan(inits, |inits|, x)
  {
    var spans := Spans(inits, |inits|);
    SpansByIndex(inits, |inits|);
    SortSorts(spans, |spans|);
    assert spans[..|spans|] == spans;
    forall x
      ensures x in Plan(inits) <==> IsSpan(inits, |inits|, x)
    {
      SpansMeaning(inits, |inits|, x);
    }
  }

  // ----- Laying spans out -----

  /** A rule that rounds a position up to where the next span may start. */
  type Rounding = nat -> nat

  ghost predicate RoundsUp(up: Rounding) {
    forall w: nat :: w <= up(w)
  }

  /** Bytes written once the first `k` spans are laid out. */
  ghost function End(up: Rounding, order: seq<Span>, k: nat): nat
    requires k <= |order|
  {
    if k == 0 then 0 else up(End(up, order, k - 1)) + order[k - 1].length
  }

  /** The new offset of span `k`. */
  ghost function Start(up: Rounding, order: seq<Span>, k: nat): nat
    requires k <= |order|
  {
    up(End(up, order, k))
  }

  function Zeros(n: nat): (z: seq<byte>)
    ensures |z| == n
  {
    seq(n, _ => 0)
  }

  /** `out` with zeros added until its length is `size`. */
  function Padded(out: seq<byte>, size: nat): seq<byte> {
    if |out| <= size then out + Zeros(size - |out|) else out
  }

  predicate Fits(src: seq<byte>, s: Span) {
    s.length == 0 || s.offset + s.length <= |src|
  }

  function Bytes(src: seq<byte>, s: Span): seq<byte> {
    if s.offset + s.length <= |src| then src[s.offset..s.offset + s.length] else []
  }

  ghost predicate AllFit(src: seq<byte>, order: seq<Span>, k: nat)
    requires k <= |order|
  {
    forall j :: 0 <= j < k ==> Fits(src, order[j])
  }

  /** The new blob once the first `k` spans are laid out. */
  ghost function Blob(up: Rounding, src: seq<byte>, order: seq<Span>, k: nat): seq<byte>
    requires k <= |order|
  {
    if k == 0 then []
    else Padded(Blob(up, src, order, k - 1), Start(up, order, k - 1)) + Bytes(src, order[k - 1])
  }

  lemma PaddedLength(out: seq<byte>, size: nat)
    requires |out| <= size
    ensures |Padded(out, size)| == size
  {
  }

  lemma BytesLength(src: seq<byte>, s: Span)
    requires Fits(src, s)
    ensures |Bytes(src, s)| == s.length
  {
  }

  lemma {:induction false} BlobLength(up: Rounding, src: seq<byte>, order: seq<Span>, k: nat)
    requires RoundsUp(up) && k <= |order| && AllFit(src, order, k)
    ensures |Blob(up, src, order, k)| == End(up, order, k)
  {
    if k > 0 {
      BlobLength(up, src, order, k - 1);
      assert End(up, order, k - 1) <= Start(up, order, k - 1);
      PaddedLength(Blob(up, src, order, k - 1), Start(up, order, k - 1));
      BytesLength(src, order[k - 1]);
    }
  }

  lemma {:induction false} SpansApart(up: Rounding, order: seq<Span>, j: nat, k: nat)
    requires RoundsUp(up) && j < k <= |order|
    ensures Start(up, order, j) + order[j].length <= End(up, order, k)
  {
    if j < k - 1 {
      SpansApart(up, order, j, k - 1);
    }
  }

  /** `part` is found in `blob` from offset `from`. */
  ghost predicate FoundAt(blob: seq<byte>, from: nat, part: seq<byte>) {
    from + |part| <= |blob| && blob[from..from + |part|] == part
  }

  lemma FoundAtEnd(front: seq<byte>, part: seq<byte>)
    ensures FoundAt(front + part, |front|, part)
  {
  }

  lemma FoundInFront(blob: seq<byte>, more: seq<byte>, from: nat, part: seq<byte>)
    requires FoundAt(blob, from, part)
    ensures FoundAt(blob + more, from, part)
  {
    assert (blob + more)[from..from + |part|] == blob[from..from + |part|];
  }

  lemma FoundInPadded(blob: seq<byte>, size: nat, from: nat, part: seq<byte>)
    requires FoundAt(blob, from, part)
    ensures FoundAt(Padded(blob, size), from, part)
  {
    if |blob| <= size {
      FoundInFront(blob, Zeros(size - |blob|), from, part);
    }
  }

  /** Every span is found at its new offset. */
  lemma {:induction false} SpanIsCopied(up: Rounding, src: seq<byte>, order: seq<Span>, j: nat, k: nat)
    requires RoundsUp(up) && j < k <= |order| && AllFit(src, order, k)
    ensures FoundAt(Blob(up, src, order, k), Start(up, order, j), Bytes(src, order[j]))
  {
    var m := k - 1;
    if j == m {
      LastIsCopied(up, src, order, j);
    } else {
      SpanIsCopied(up, src, order, j, m);
      var front, from, part := Blob(up, src, order, m), Start(up, order, j), Bytes(src, order[j]);
      FoundInPadded(front, Start(up, order, m), from, part);
      FoundInFront(Padded(front, Start(up, order, m)), Bytes(src, order[m]), from, part);
    }
  }

  lemma LastIsCopied(up: Rounding, src: seq<byte>, order: seq<Span>, k: nat)
    requires RoundsUp(up) && k < |order| && AllFit(src, order, k)
    ensures FoundAt(Blob(up, src, order, k + 1), Start(up, order, k), Bytes(src, order[k]))
  {
    BlobLength(up, src, order, k);
    assert End(up, order, k) <= Start(up, order, k);
    PaddedLength(Blob(up, src, order, k), Start(up, order, k));
    FoundAtEnd(Padded(Blob(up, src, order, k), Start(up, order, k)), Bytes(src, order[k]));
  }

  /** Position `p` of the new blob belongs to span `j`. */
  ghost predicate Covers(up: Rounding, order: seq<Span>, j: nat, p: nat)
    requires j < |order|
  {
    Start(up, order, j) <= p < Start(up, order, j) + order[j].length
  }

  /** Bytes outside every span are padding. */
  lemma {:induction false} GapIsZero(up: Rounding, src: seq<byte>, order: seq<Span>, k: nat, p: nat)
    requires RoundsUp(up) && k <= |order| && AllFit(src, order, k) && p < |Blob(up, src, order, k)|
    requires forall j :: 0 <= j < k ==> !Covers(up, order, j, p)
    ensures Blob(up, src, order, k)[p] == 0
  {
    var m := k - 1;
    BlobLength(up, src, order, m);
    assert !Covers(up, order, m, p);
    if p < |Blob(up, src, order, m)| {
      GapIsZero(up, src, order, m, p);
    }
  }

  // ----- The alignment -----

  function Align(written: nat): nat {
    written + (0 - written) % ALIGN
  }

  lemma AlignMeaning(w: nat)
    ensures Align(w) % ALIGN == 0 && w <= Align(w) < w + ALIGN && Align(Align(w)) == Align(w)
  {
  }

  lemma AlignRoundsUp()
    ensures RoundsUp(Align)
  {
    forall w: nat
      ensures w <= Align(w)
    {
      AlignMeaning(w);
    }
  }

  ghost function TotalLength(order: seq<Span>, k: nat): nat
    requires k <= |order|
  {
    if k == 0 then 0 else TotalLength(order, k - 1) + order[k - 1].length
  }

  /** Nothing is stored but the referenced bytes and less than one page between neighbours. */
  lemma {:induction false} LayoutIsTight(order: seq<Span>, k: nat)
    requires k <= |order|
    ensures Start(Align, order, k) % ALIGN == 0
    ensures TotalLength(order, k) <= End(Align, order, k)
    ensures k > 0 ==> End(Align, order, k) <= TotalLength(order, k) + (ALIGN - 1) * (k - 1)
  {
    AlignMeaning(End(Align, order, k));
    if k > 0 {
      LayoutIsTight(order, k - 1);
      AlignMeaning(End(Align, order, k - 1));
    }
  }

  // ----- Rewriting the model -----

  lemma PositionOf(order: seq<Span>, x: Span) returns (i: nat)
    requires x in order
    ensures i < |order| && order[i] == x
  {
    i :| 0 <= i < |order| && order[i] == x;
  }

  function Placed(init: Initializer, location: string, offset: nat, length: nat): Initializer {
    External(init.name, Some(location), Some(offset), Some(length))
  }

  ghost predicate Indexes(inits: seq<Initializer>, order: seq<Span>) {
    && (forall k :: 0 <= k < |order| ==> order[k].index < |inits|)
    && (forall j, k :: 0 <= j < k < |order| ==> order[j].index != order[k].index)
  }

  /** The initializers once the first `k` spans are laid out. */
  ghost function Rewritten(up: Rounding, inits: seq<Initializer>, location: string, order: seq<Span>,
                           k: nat): (r: seq<Initializer>)
    requires k <= |order| && Indexes(inits, order)
    ensures |r| == |inits|
  {
    if k == 0 then inits
    else
      var prev := Rewritten(up, inits, location, order, k - 1);
      var s := order[k - 1];
      prev[s.index := Placed(prev[s.index], location, Start(up, order, k - 1), s.length)]
  }

  lemma {:induction false} RewrittenKept(up: Rounding, inits: seq<Initializer>, location: string, order: seq<Span>,
                                         k: nat, i: nat)
    requires k <= |order| && Indexes(inits, order) && i < |inits| && forall j :: 0 <= j < k ==> order[j].index != i
    ensures Rewritten(up, inits, location, order, k)[i] == inits[i]
  {
    if k > 0 {
      RewrittenKept(up, inits, location, order, k - 1, i);
    }
  }

  lemma {:induction false} RewrittenAt(up: Rounding, inits: seq<Initializer>, location: string, order: seq<Span>,
                                       k: nat, j: nat)
    requires j < k <= |order| && Indexes(inits, order)
    ensures Rewritten(up, inits, location, order, k)[order[j].index] ==
            Placed(inits[order[j].index], location, Start(up, order, j), order[j].length)
  {
    if j < k - 1 {
      RewrittenAt(up, inits, location, order, k - 1, j);
    } else {
      RewrittenKept(up, inits, location, order, j, order[j].index);
    }
  }

  lemma PlanIndexes(inits: seq<Initializer>)
    ensures Indexes(inits, Plan(inits))
  {
    PlanMeaning(inits);
    var order := Plan(inits);
    forall k | 0 <= k < |order|
      ensures order[k].index < |inits|
    {
      assert order[k] in order;
    }
    forall j, k | 0 <= j < k < |order|
      ensures order[j].index != order[k].index
    {
      assert order[j] in order && order[k] in order && Before(order[j], order[k]);
    }
  }

  lemma PositionOfInitializer(inits: seq<Initializer>, i: nat) returns (k: nat)
    requires i < |inits| && inits[i].External?
    ensures k < |Plan(inits)| && Plan(inits)[k] == SpanOf(inits[i], i)
  {
    PlanMeaning(inits);
    assert IsSpan(inits, |inits|, SpanOf(inits[i], i));
    k := PositionOf(Plan(inits), SpanOf(inits[i], i));
  }

  /** The model and the blob after a repack. */
  ghost function NewModel(inits: seq<Initializer>, location: string): seq<Initializer> {
    PlanIndexes(inits);
    Rewritten(Align, inits, location, Plan(inits), |Plan(inits)|)
  }

  ghost function NewBlob(inits: seq<Initializer>, src: seq<byte>): seq<byte> {
    Blob(Align, src, Plan(inits), |Plan(inits)|)
  }

  ghost predicate Readable(inits: seq<Initializer>, src: seq<byte>) {
    AllFit(src, Plan(inits), |Plan(inits)|)
  }

  // ----- What a repack keeps -----

  /** Where an external initializer ends up. */
  lemma WhereItWent(inits: seq<Initializer>, location: string, i: nat) returns (k: nat)
    requires i < |inits| && inits[i].External?
    ensures k < |Plan(inits)| && Plan(inits)[k] == SpanOf(inits[i], i)
    ensures NewModel(inits, location)[i] ==
            Placed(inits[i], location, Start(Align, Plan(inits), k), OrZero(inits[i].length))
  {
    k := PositionOfInitializer(inits, i);
    PlanIndexes(inits);
    RewrittenAt(Align, inits, location, Plan(inits), |Plan(inits)|, k);
  }

  lemma EmbeddedStays(inits: seq<Initializer>, location: string, i: nat)
    requires i < |inits| && inits[i].Embedded?
    ensures NewModel(inits, location)[i] == inits[i]
  {
    PlanMeaning(inits);
    PlanIndexes(inits);
    var order := Plan(inits);
    forall j | 0 <= j < |order|
      ensures order[j].index != i
    {
      assert order[j] in order;
    }
    RewrittenKept(Align, inits, location, order, |order|, i);
  }

  /** A tensor reads the same bytes after the repack exactly when its length is recorded, or there
      was nothing to read. */
  lemma TensorIsKeptIff(inits: seq<Initializer>, location: string, src: seq<byte>, i: nat)
    requires Readable(inits, src) && i < |inits| && inits[i].External?
    ensures NewModel(inits, location)[i].External?
    ensures ReadExternal(NewModel(inits, location)[i], NewBlob(inits, src)) == ReadExternal(inits[i], src) <==>
            inits[i].length.Some? || |src| <= OrZero(inits[i].offset)
  {
    var k := WhereItWent(inits, location, i);
    var order := Plan(inits);
    AlignRoundsUp();
    SpanIsCopied(Align, src, order, k, |order|);
    ReadPlaced(inits[i], NewModel(inits, location)[i], src, NewBlob(inits, src), order[k]);
  }

  lemma ReadPlaced(was: Initializer, now: Initializer, src: seq<byte>, blob: seq<byte>, s: Span)
    requires was.External? && now.External? && s == SpanOf(was, s.index) && Fits(src, s)
    requires now.offset.Some? && now.length == Some(s.length) && FoundAt(blob, now.offset.value, Bytes(src, s))
    ensures ReadExternal(now, blob) == Bytes(src, s)
    ensures ReadExternal(was, src) == Bytes(src, s) <==> was.length.Some? || |src| <= s.offset
  {
  }

  /** A tensor without a recorded length reads as empty afterwards. */
  lemma WithoutLengthNothingIsRead(inits: seq<Initializer>, location: string, src: seq<byte>, i: nat)
    requires Readable(inits, src) && i < |inits| && inits[i].External? && inits[i].length.None?
    ensures NewModel(inits, location)[i].External?
    ensures ReadExternal(NewModel(inits, location)[i], NewBlob(inits, src)) == []
  {
    var k := WhereItWent(inits, location, i);
  }

  /** So a tensor of one byte whose length is left to the end of the file is lost. */
  lemma MissingLengthLosesBytes(location: string)
    ensures var inits := [External("w", Some(location), Some(0), None)];
            && Readable(inits, [7]) && NewModel(inits, location)[0].External?
            && ReadExternal(inits[0], [7]) == [7]
            && ReadExternal(NewModel(inits, location)[0], NewBlob(inits, [7])) == []
  {
    var inits := [External("w", Some(location), Some(0), None)];
    var src: seq<byte> := [7];
    PlanMeaning(inits);
    forall j | 0 <= j < |Plan(inits)|
      ensures Fits(src, Plan(inits)[j])
    {
      assert Plan(inits)[j] in Plan(inits);
    }
    WithoutLengthNothingIsRead(inits, location, src, 0);
  }

  /** New offsets are page-aligned and tensors do not overlap. */
  lemma TensorsAreApart(inits: seq<Initializer>, location: string, i: nat, j: nat)
    requires i < |inits| && j < |inits| && i != j && inits[i].External? && inits[j].External?
    ensures var a, b := NewModel(inits, location)[i], NewModel(inits, location)[j];
            && a.External? && b.External? && a.offset.Some? && b.offset.Some? && a.length.Some? && b.length.Some?
            && a.offset.value % ALIGN == 0 && b.offset.value % ALIGN == 0
            && (a.offset.value + a.length.value <= b.offset.value || b.offset.value + b.length.value <= a.offset.value)
  {
    var k := WhereItWent(inits, location, i);
    var l := WhereItWent(inits, location, j);
    var order := Plan(inits);
    LayoutIsTight(order, k);
    LayoutIsTight(order, l);
    AlignRoundsUp();
    if k < l {
      SpansApart(Align, order, k, l);
    } else {
      SpansApart(Align, order, l, k);
    }
  }

  /** The new blob holds the referenced bytes and less than one page of padding between neighbours. */
  lemma BlobIsTight(inits: seq<Initializer>, src: seq<byte>)
    requires Readable(inits, src)
    ensures var n := |Plan(inits)|;
            && TotalLength(Plan(inits), n) <= |NewBlob(inits, src)|
            && (n > 0 ==> |NewBlob(inits, src)| <= TotalLength(Plan(inits), n) + (ALIGN - 1) * (n - 1))
  {
    AlignRoundsUp();
    BlobLength(Align, src, Plan(inits), |Plan(inits)|);
    LayoutIsTight(Plan(inits), |Plan(inits)|);
  }

  // ----- The script -----

  /** The entries when the source ends early: rewritten up to the first span that does not fit. */
  ghost predicate StoppedEarly(inits: seq<Initializer>, location: string, src: seq<byte>, now: seq<Initializer>) {
    PlanIndexes(inits);
    exists k :: 0 <= k < |Plan(inits)| && AllFit(src, Plan(inits), k) && !Fits(src, Plan(inits)[k]) &&
                now == Rewritten(Align, inits, location, Plan(inits), k)
  }

  /** The inner loop: copy one span in chunks, or stop at the end of the source. */
  method CopySpan(src: seq<byte>, s: Span, out: seq<byte>) returns (r: Option<seq<byte>>)
    ensures r == if Fits(src, s) then Some(out + Bytes(src, s)) else None
  {
    var position, remaining, copied := s.offset, s.length, [];
    while remaining > 0
      invariant position + remaining == s.offset + s.length && position >= s.offset && remaining >= 0
      invariant position == s.offset || position <= |src|
      invariant copied == if position <= |src| then src[s.offset..position] else []
    {
      var until := Min(position + Min(COPY_CHUNK, remaining), |src|);
      if until <= position {
        return None;
      }
      assert src[s.offset..position] + src[position..until] == src[s.offset..until];
      copied := copied + src[position..until];
      remaining := remaining - (until - position);
      position := until;
    }
    assert copied == Bytes(src, s);
    return Some(out + copied);
  }

  lemma LayOne(src: seq<byte>, order: seq<Span>, k: nat, out: seq<byte>)
    requires k < |order| && AllFit(src, order, k) && out == Blob(Align, src, order, k)
    ensures |out| == End(Align, order, k) && Align(|out|) == Start(Align, order, k)
    ensures Padded(out, Align(|out|)) + Bytes(src, order[k]) == Blob(Align, src, order, k + 1)
    ensures End(Align, order, k + 1) == Align(|out|) + order[k].length
  {
    AlignRoundsUp();
    BlobLength(Align, src, order, k);
  }

  /** Where the second loop stands after `k` spans. */
  ghost predicate Laid(src: seq<byte>, location: string, order: seq<Span>, k: nat, inits: seq<Initializer>,
                       out: seq<byte>, written: nat, now: seq<Initializer>) {
    && k <= |order| && Indexes(inits, order) && AllFit(src, order, k)
    && out == Blob(Align, src, order, k) && written == End(Align, order, k) == |out|
    && now == Rewritten(Align, inits, location, order, k)
  }

  lemma LaidStep(src: seq<byte>, location: string, order: seq<Span>, k: nat, inits: seq<Initializer>,
                 out: seq<byte>, written: nat, now: seq<Initializer>)
    requires k < |order| && Laid(src, location, order, k, inits, out, written, now) && Fits(src, order[k])
    ensures var s, start := order[k], Align(written);
            && s.index < |now|
            && Laid(src, location, order, k + 1, inits, Padded(out, start) + Bytes(src, s), start + s.length,
                    now[s.index := Placed(now[s.index], location, start, s.length)])
  {
    LayOne(src, order, k, out);
    AlignRoundsUp();
    BlobLength(Align, src, order, k + 1);
  }

  /** Zeros up to the next page. */
  method PadOut(out: seq<byte>, written: nat) returns (padded: seq<byte>, size: nat)
    requires written == |out|
    ensures size == Align(written) && padded == Padded(out, size)
  {
    var pad := (0 - written) % ALIGN;
    padded, size := out + Zeros(pad), written + pad;
  }

  /** Pad to the next page, then copy one span. */
  method AppendSpan(src: seq<byte>, s: Span, out: seq<byte>, written: nat) returns (r: Option<seq<byte>>, start: nat)
    requires written == |out|
    ensures start == Align(written)
    ensures r == if Fits(src, s) then Some(Padded(out, start) + Bytes(src, s)) else None
  {
    var padded;
    padded, start := PadOut(out, written);
    r := CopySpan(src, s, padded);
  }

  datatype Progress = Progress(out: seq<byte>, written: nat, inits: seq<Initializer>)

  /** One iteration of the second loop. */
  method LaySpan(src: seq<byte>, location: string, order: seq<Span>, k: nat, p: Progress, ghost inits: seq<Initializer>)
      returns (r: Option<Progress>)
    requires k < |order| && Laid(src, location, order, k, inits, p.out, p.written, p.inits)
    ensures r.Some? <==> Fits(src, order[k])
    ensures r.Some? ==> Laid(src, location, order, k + 1, inits, r.value.out, r.value.written, r.value.inits)
  {
    var s := order[k];
    var copied, start := AppendSpan(src, s, p.out, p.written);
    if copied.None? {
      return None;
    }
    LaidStep(src, location, order, k, inits, p.out, p.written, p.inits);
    var rewritten := p.inits[s.index := Placed(p.inits[s.index], location, start, s.length)];
    return Some(Progress(copied.value, start + s.length, rewritten));
  }

  class Model {
    var initializers: seq<Initializer>

    constructor (initializers: seq<Initializer>)
      ensures this.initializers == initializers
    {
      this.initializers := initializers;
    }

    /** The first loop: the spans and the blobs they name, or nothing if a location is missing. */
    method CollectSpans() returns (spans: Option<seq<Span>>, locations: set<string>)
      ensures spans == if Located(initializers, |initializers|) then Some(Spans(initializers, |initializers|)) else None
      ensures spans.Some? ==> locations == Locations(initializers, |initializers|)
    {
      var found: seq<Span> := [];
      locations := {};
      var n := 0;
      while n < |initializers|
        invariant 0 <= n <= |initializers| && Located(initializers, n)
        invariant found == Spans(initializers, n) && locations == Locations(initializers, n)
      {
        var init := initializers[n];
        if init.External? {
          if init.location.None? {
            return None, {};
          }
          found := found + [SpanOf(init, n)];
          locations := locations + {init.location.value};
        }
        n := n + 1;
      }
      spans := Some(found);
    }

    /** The second loop: pad, copy and rewrite, span by span. */
    method Lay(src: seq<byte>, location: string, order: seq<Span>) returns (r: Option<seq<byte>>, ghost done: nat)
      requires Indexes(initializers, order)
      modifies this
      ensures done <= |order| && AllFit(src, order, done)
      ensures initializers == Rewritten(Align, old(initializers), location, order, done)
      ensures r.Some? ==> done == |order| && r.value == Blob(Align, src, order, |order|)
      ensures r.None? ==> done < |order| && !Fits(src, order[done])
    {
      var out: seq<byte> := [];
      var written: nat := 0;
      var k := 0;
      while k < |order|
        invariant 0 <= k <= |order| && Laid(src, location, order, k, old(initializers), out, written, initializers)
      {
        var next := LaySpan(src, location, order, k, Progress(out, written, initializers), old(initializers));
        if next.None? {
          return None, k;
        }
        out, written := next.value.out, next.value.written;
        initializers := next.value.inits;
        k := k + 1;
      }
      return Some(out), k;
    }

    /** The whole script, on the blobs of the source directory. */
    method Run(blobs: map<string, seq<byte>>) returns (r: Outcome)
      modifies this
      ensures var inits := old(initializers);
              var n := |inits|;
              if !Located(inits, n) then r == Failed(MissingLocation) && initializers == inits
              else if |Locations(inits, n)| != 1 then r == Failed(NotOneBlob) && initializers == inits
              else if Locations(inits, n) !! blobs.Keys then r == Failed(NoSuchBlob) && initializers == inits
              else
                exists location :: Locations(inits, n) == {location} && location in blobs &&
                  if Readable(inits, blobs[location]) then
                    && r == Repacked(location, NewBlob(inits, blobs[location]))
                    && initializers == NewModel(inits, location)
                  else r == Failed(UnexpectedEof) && StoppedEarly(inits, location, blobs[location], initializers)
    {
      var spans, locations := CollectSpans();
      if spans.None? {
        return Failed(MissingLocation);
      }
      if |locations| != 1 {
        return Failed(NotOneBlob);
      }
      var location :| location in locations;
      OnlyOne(locations, location);
      if location !in blobs {
        return Failed(NoSuchBlob);
      }
      var order := Sort(spans.value, |spans.value|);
      PlanIndexes(initializers);
      var out, done := Lay(blobs[location], location, order);
      if out.None? {
        return Failed(UnexpectedEof);
      }
      return Repacked(location, out.value);
    }
  }

  lemma OnlyOne(s: set<string>, x: string)
    requires |s| == 1 && x in s
    ensures s == {x}
  {
    assert |s - {x}| == 0;
  }
}
