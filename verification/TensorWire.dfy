/** The tensor files exchanged with the conformance runner: `write_tensor` and `read_tensor`. */
module TensorWire {
  import opened Base

  /** "NXRTCF01". */
  const MAGIC: seq<byte> := [78, 88, 82, 84, 67, 70, 48, 49]

  datatype Tensor = Tensor(dtype: byte, shape: seq<nat>, payload: seq<byte>)

  datatype Error = BadMagic | Truncated | UnknownDtype | WrongSize | OutOfRange | TooLong | BadShape

  datatype Result<T> = Ok(value: T) | Err(error: Error)

  // ----- Little-endian integers -----

  function Pow256(n: nat): (p: nat)
    ensures p >= 1
  {
    if n == 0 then 1 else 256 * Pow256(n - 1)
  }

  /** The low `width` bytes of `n`, least significant first. */
  function Pack(n: nat, width: nat): (b: seq<byte>)
    ensures |b| == width
  {
    if width == 0 then [] else [n % 256] + Pack(n / 256, width - 1)
  }

  function Unpack(b: seq<byte>): nat {
    if b == [] then 0 else b[0] + 256 * Unpack(b[1..])
  }

  lemma {:induction false} UnpackPack(n: nat, width: nat)
    requires n < Pow256(width)
    ensures Unpack(Pack(n, width)) == n
  {
    if width > 0 {
      UnpackPack(n / 256, width - 1);
    }
  }

  lemma {:induction false} PackUnpack(b: seq<byte>)
    ensures Unpack(b) < Pow256(|b|) && Pack(Unpack(b), |b|) == b
  {
    if b != [] {
      PackUnpack(b[1..]);
      var rest := Unpack(b[1..]);
      assert (b[0] + 256 * rest) / 256 == rest && (b[0] + 256 * rest) % 256 == b[0];
      assert b == [b[0]] + b[1..];
    }
  }

  function PackShape(shape: seq<nat>): (b: seq<byte>)
    ensures |b| == 8 * |shape|
  {
    if shape == [] then [] else Pack(shape[0], 8) + PackShape(shape[1..])
  }

  function UnpackShape(b: seq<byte>, rank: nat): (shape: seq<nat>)
    requires |b| == 8 * rank
    ensures |shape| == rank
  {
    if rank == 0 then [] else [Unpack(b[..8])] + UnpackShape(b[8..], rank - 1)
  }

  ghost predicate DimsFit(shape: seq<nat>) {
    forall i :: 0 <= i < |shape| ==> shape[i] < Pow256(8)
  }

  lemma {:induction false} UnpackPackShape(shape: seq<nat>)
    requires DimsFit(shape)
    ensures UnpackShape(PackShape(shape), |shape|) == shape
  {
    if shape != [] {
      UnpackPackShape(shape[1..]);
      UnpackPack(shape[0], 8);
      var b := PackShape(shape);
      assert b[..8] == Pack(shape[0], 8) && b[8..] == PackShape(shape[1..]);
    }
  }

  lemma {:induction false} PackUnpackShape(b: seq<byte>, rank: nat)
    requires |b| == 8 * rank
    ensures PackShape(UnpackShape(b, rank)) == b && DimsFit(UnpackShape(b, rank))
  {
    if rank > 0 {
      PackUnpackShape(b[8..], rank - 1);
      PackUnpack(b[..8]);
      var shape := UnpackShape(b, rank);
      assert shape[1..] == UnpackShape(b[8..], rank - 1);
      assert b == b[..8] + b[8..];
    }
  }

  // ----- Writing -----

  /** `np.ascontiguousarray` returns an array of rank at least one. */
  function Contiguous(shape: seq<nat>): seq<nat> {
    if shape == [] then [1] else shape
  }

  /** Everything between the magic and the payload. */
  function Header(dtype: byte, shape: seq<nat>, length: nat): (b: seq<byte>)
    ensures |b| == 13 + 8 * |shape|
  {
    [dtype] + (Pack(|shape|, 4) + (PackShape(shape) + Pack(length, 8)))
  }

  predicate Packable(shape: seq<nat>, length: nat) {
    |shape| < Pow256(4) && length < Pow256(8) && forall i :: 0 <= i < |shape| ==> shape[i] < Pow256(8)
  }

  /** `write_tensor`; `struct.pack` refuses numbers that do not fit their field. */
  function Write(t: Tensor): Result<seq<byte>> {
    var shape := Contiguous(t.shape);
    if Packable(shape, |t.payload|) then Ok(MAGIC + (Header(t.dtype, shape, |t.payload|) + t.payload))
    else Err(OutOfRange)
  }

  // ----- Reading -----

  function Product(shape: seq<nat>): nat {
    if shape == [] then 1 else shape[0] * Product(shape[1..])
  }

  /** What the reader depends on: the element size of every known type code, the first length a single
      read refuses, 2^63 where file sizes are signed 64-bit numbers, and the shapes the array library
      accepts, which bounds their rank and their dimensions. */
  datatype Reader = Reader(sizes: map<int, nat>, limit: nat, accepts: (int, seq<nat>) -> bool)

  /** The payload views as an array of the shape exactly when the shape is one of the library's and the
      payload's length is the element count times the element size. */
  predicate Viewable(rd: Reader, dtype: byte, shape: seq<nat>, payload: seq<byte>) {
    dtype in rd.sizes && rd.accepts(dtype, shape) && |payload| == Product(shape) * rd.sizes[dtype]
  }

  /** `t` is an array of the library, and so is its contiguous copy. */
  predicate IsArray(rd: Reader, t: Tensor) {
    Viewable(rd, t.dtype, t.shape, t.payload) && rd.accepts(t.dtype, Contiguous(t.shape))
  }

  function ReadBody(rd: Reader, dtype: byte, shape: seq<nat>, b: seq<byte>): Result<Tensor> {
    if |b| < 8 then Err(Truncated)
    else
      var length := Unpack(b[..8]);
      var payload := b[8..][..Min(length, |b| - 8)];
      if length >= rd.limit then Err(TooLong)
      else if dtype !in rd.sizes then Err(UnknownDtype)
      else if !rd.accepts(dtype, shape) then Err(BadShape)
      else if !Viewable(rd, dtype, shape, payload) then Err(WrongSize)
      else Ok(Tensor(dtype, shape, payload))
  }

  function ReadShape(rd: Reader, dtype: byte, b: seq<byte>): Result<Tensor> {
    if |b| < 4 then Err(Truncated)
    else
      var rank := Unpack(b[..4]);
      var rest := b[4..];
      if |rest| < 8 * rank then Err(Truncated)
      else ReadBody(rd, dtype, UnpackShape(rest[..8 * rank], rank), rest[8 * rank..])
  }

  /** `read_tensor`. Bytes after the payload are ignored, and a payload cut short by the end of
      the file is taken as it is. */
  function Read(rd: Reader, b: seq<byte>): Result<Tensor> {
    if |b| < 8 || b[..8] != MAGIC then Err(BadMagic)
    else if |b| < 9 then Err(Truncated)
    else ReadShape(rd, b[8], b[9..])
  }

  // ----- What reading accepts -----

  lemma ReadShapeOf(rd: Reader, dtype: byte, shape: seq<nat>, tail: seq<byte>)
    requires |shape| < Pow256(4) && DimsFit(shape)
    ensures ReadShape(rd, dtype, Pack(|shape|, 4) + (PackShape(shape) + tail)) == ReadBody(rd, dtype, shape, tail)
  {
    var b := Pack(|shape|, 4) + (PackShape(shape) + tail);
    assert b[..4] == Pack(|shape|, 4) && b[4..] == PackShape(shape) + tail;
    UnpackPack(|shape|, 4);
    assert b[4..][..8 * |shape|] == PackShape(shape) && b[4..][8 * |shape|..] == tail;
    UnpackPackShape(shape);
  }

  lemma Regroup(dtype: byte, rank: seq<byte>, dims: seq<byte>, length: seq<byte>, body: seq<byte>)
    ensures ([dtype] + (rank + (dims + length))) + body == [dtype] + (rank + (dims + (length + body)))
  {
    assert (dims + length) + body == dims + (length + body);
    assert (rank + (dims + length)) + body == rank + ((dims + length) + body);
  }

  /** Reading back a file laid out as `write_tensor` lays it out, whatever follows. */
  lemma ReadOf(rd: Reader, dtype: byte, shape: seq<nat>, length: nat, body: seq<byte>)
    requires Packable(shape, length)
    ensures Read(rd, MAGIC + (Header(dtype, shape, length) + body)) ==
            ReadBody(rd, dtype, shape, Pack(length, 8) + body)
  {
    var tail := Pack(length, 8) + body;
    var dims := Pack(|shape|, 4) + (PackShape(shape) + tail);
    Regroup(dtype, Pack(|shape|, 4), PackShape(shape), Pack(length, 8), body);
    ReadMagic(rd, dtype, dims);
    ReadShapeOf(rd, dtype, shape, tail);
  }

  lemma ReadMagic(rd: Reader, dtype: byte, rest: seq<byte>)
    ensures Read(rd, MAGIC + ([dtype] + rest)) == ReadShape(rd, dtype, rest)
  {
    var b := MAGIC + ([dtype] + rest);
    assert b[..8] == MAGIC && b[8] == dtype && b[9..] == rest;
  }

  /** How a file holds `t`: its header, the payload, then bytes nobody reads. A length field larger
      than the payload is possible only at the end of the file. */
  ghost predicate Holds(b: seq<byte>, t: Tensor, length: nat, trailing: seq<byte>, limit: nat) {
    && Packable(t.shape, length) && length < limit
    && b == MAGIC + (Header(t.dtype, t.shape, length) + (t.payload + trailing))
    && (length == |t.payload| || (length > |t.payload| && trailing == []))
  }

  lemma ReadHeld(rd: Reader, b: seq<byte>, t: Tensor, length: nat, trailing: seq<byte>)
    requires Holds(b, t, length, trailing, rd.limit) && Viewable(rd, t.dtype, t.shape, t.payload)
    ensures Read(rd, b) == Ok(t)
  {
    var body := t.payload + trailing;
    ReadOf(rd, t.dtype, t.shape, length, body);
    UnpackPack(length, 8);
    var tail := Pack(length, 8) + body;
    assert tail[..8] == Pack(length, 8) && tail[8..] == body;
    assert body[..Min(length, |body|)] == t.payload;
  }

  lemma ShapeParts(b: seq<byte>, rank: nat)
    requires |b| >= 4 && rank == Unpack(b[..4]) && |b[4..]| >= 8 * rank
    ensures var shape := UnpackShape(b[4..][..8 * rank], rank);
            b == Pack(|shape|, 4) + (PackShape(shape) + b[4..][8 * rank..]) && DimsFit(shape) && rank < Pow256(4)
  {
    PackUnpack(b[..4]);
    var rest := b[4..];
    PackUnpackShape(rest[..8 * rank], rank);
    assert rest == rest[..8 * rank] + rest[8 * rank..];
    assert b == b[..4] + rest;
  }

  lemma BodyParts(rd: Reader, dtype: byte, shape: seq<nat>, b: seq<byte>) returns (length: nat, trailing: seq<byte>)
    requires ReadBody(rd, dtype, shape, b).Ok?
    ensures var payload := ReadBody(rd, dtype, shape, b).value.payload;
            && b == Pack(length, 8) + (payload + trailing) && length < Pow256(8) && length < rd.limit
            && (length == |payload| || (length > |payload| && trailing == []))
  {
    PackUnpack(b[..8]);
    length := Unpack(b[..8]);
    var body := b[8..];
    var k := Min(length, |body|);
    trailing := body[k..];
    assert body == body[..k] + trailing;
    assert b == b[..8] + body;
  }

  /** What follows the type code of a file that holds `t`. */
  ghost predicate HoldsShape(b: seq<byte>, t: Tensor, length: nat, trailing: seq<byte>, limit: nat) {
    && Packable(t.shape, length) && length < limit
    && b == Pack(|t.shape|, 4) + (PackShape(t.shape) + (Pack(length, 8) + (t.payload + trailing)))
    && (length == |t.payload| || (length > |t.payload| && trailing == []))
  }

  lemma ShapeHeld(rd: Reader, dtype: byte, b: seq<byte>) returns (length: nat, trailing: seq<byte>)
    requires ReadShape(rd, dtype, b).Ok?
    ensures HoldsShape(b, ReadShape(rd, dtype, b).value, length, trailing, rd.limit)
    ensures ReadShape(rd, dtype, b).value.dtype == dtype
  {
    var t := ReadShape(rd, dtype, b).value;
    var rank := Unpack(b[..4]);
    ShapeParts(b, rank);
    length, trailing := BodyParts(rd, dtype, t.shape, b[4..][8 * rank..]);
  }

  lemma HeldWhenRead(rd: Reader, b: seq<byte>) returns (length: nat, trailing: seq<byte>)
    requires Read(rd, b).Ok?
    ensures Holds(b, Read(rd, b).value, length, trailing, rd.limit)
  {
    var t := Read(rd, b).value;
    length, trailing := ShapeHeld(rd, b[8], b[9..]);
    assert b == MAGIC + ([t.dtype] + b[9..]);
    Regroup(t.dtype, Pack(|t.shape|, 4), PackShape(t.shape), Pack(length, 8), t.payload + trailing);
  }

  /** Exactly which files are read as `t`. */
  lemma ReadIffHeld(rd: Reader, b: seq<byte>, t: Tensor)
    ensures Read(rd, b) == Ok(t) <==>
            && Viewable(rd, t.dtype, t.shape, t.payload)
            && exists length, trailing :: Holds(b, t, length, trailing, rd.limit)
  {
    if Read(rd, b) == Ok(t) {
      var length, trailing := HeldWhenRead(rd, b);
    }
    if Viewable(rd, t.dtype, t.shape, t.payload) {
      forall length, trailing | Holds(b, t, length, trailing, rd.limit)
        ensures Read(rd, b) == Ok(t)
      {
        ReadHeld(rd, b, t, length, trailing);
      }
    }
  }

  // ----- Round trip -----

  /** What is written within the reader's limit is read back, except that a scalar comes back as a
      vector of one element. */
  lemma RoundTrip(rd: Reader, t: Tensor)
    requires IsArray(rd, t) && Write(t).Ok?
    ensures |t.payload| < rd.limit ==> Read(rd, Write(t).value) == Ok(t.(shape := Contiguous(t.shape)))
    ensures Read(rd, Write(t).value) == Ok(t) <==> t.shape != [] && |t.payload| < rd.limit
  {
    var sent := t.(shape := Contiguous(t.shape));
    assert Product([1]) == Product([]) * 1;
    assert t.payload + [] == t.payload;
    if |t.payload| < rd.limit {
      ReadHeld(rd, Write(t).value, sent, |t.payload|, []);
    } else {
      ReadTooLong(rd, sent, t.payload);
    }
  }

  lemma ReadTooLong(rd: Reader, t: Tensor, body: seq<byte>)
    requires Packable(t.shape, |t.payload|) && |t.payload| >= rd.limit
    ensures Read(rd, MAGIC + (Header(t.dtype, t.shape, |t.payload|) + body)) == Err(TooLong)
  {
    var n := |t.payload|;
    ReadOf(rd, t.dtype, t.shape, n, body);
    UnpackPack(n, 8);
    assert (Pack(n, 8) + body)[..8] == Pack(n, 8);
  }

  /** A scalar does not survive: four bytes of type 1 and shape () come back with shape (1,). */
  lemma ScalarBecomesVector(rd: Reader)
    requires rd.sizes == map[1 := 4] && rd.limit > 4 && rd.accepts(1, []) && rd.accepts(1, [1])
    ensures Read(rd, Write(Tensor(1, [], [0, 0, 128, 63])).value) == Ok(Tensor(1, [1], [0, 0, 128, 63]))
  {
    var t := Tensor(1, [], [0, 0, 128, 63]);
    PowersAreLarge();
    assert Product(t.shape) == 1;
    RoundTrip(rd, t);
  }

  lemma PowersAreLarge()
    ensures Pow256(4) >= 256 && Pow256(8) >= 256
  {
    assert Pow256(4) == 256 * Pow256(3) && Pow256(8) == 256 * Pow256(7);
  }

  /** A reader without a limit of its own. */
  function Patient(rd: Reader): Reader {
    rd.(limit := Pow256(8))
  }

  lemma LimitOnlyRejects(rd: Reader, b: seq<byte>)
    requires Read(rd, b).Ok?
    ensures Read(Patient(rd), b) == Read(rd, b)
  {
    var rest := b[9..][4..];
    var tail := rest[8 * Unpack(b[9..][..4])..];
    PackUnpack(tail[..8]);
  }

  /** Two tensors are written alike exactly when they differ at most in a scalar's shape. */
  lemma WriteDistinguishes(rd: Reader, a: Tensor, b: Tensor)
    requires IsArray(rd, a) && IsArray(rd, b)
    requires Write(a).Ok? && Write(b).Ok?
    ensures Write(a) == Write(b) <==>
            a.dtype == b.dtype && Contiguous(a.shape) == Contiguous(b.shape) && a.payload == b.payload
  {
    RoundTrip(Patient(rd), a);
    RoundTrip(Patient(rd), b);
  }

  /** What follows an accepted file cannot change the type, shape and size that are read. */
  lemma FrontDecides(rd: Reader, part: seq<byte>, more: seq<byte>, u: Tensor, v: Tensor)
    requires Read(rd, part) == Ok(u) && Read(rd, part + more) == Ok(v)
    ensures u.shape == v.shape && |u.payload| == |v.payload|
    ensures |part| >= 21 + 8 * |u.shape| + |u.payload|
  {
    var length, trailing := HeldWhenRead(rd, part);
    var body := u.payload + trailing;
    Extend(Header(u.dtype, u.shape, length), body, more);
    ReadOf(rd, u.dtype, u.shape, length, body + more);
    ReadIffHeld(rd, part, u);
    ReadIffHeld(rd, part + more, v);
  }

  /** A proper prefix of a file that holds exactly a tensor is not read. */
  lemma PrefixIsRefused(rd: Reader, part: seq<byte>, more: seq<byte>, v: Tensor)
    requires Read(rd, part + more) == Ok(v) && more != [] && |part + more| == 21 + 8 * |v.shape| + |v.payload|
    ensures Read(rd, part).Err?
  {
    if Read(rd, part).Ok? {
      FrontDecides(rd, part, more, Read(rd, part).value, v);
    }
  }

  /** Any bytes cut from a written tensor are noticed. */
  lemma CutIsNoticed(rd: Reader, t: Tensor, k: nat)
    requires IsArray(rd, t) && Write(t).Ok? && k < |Write(t).value|
    ensures Read(rd, Write(t).value[..k]).Err?
  {
    var whole := Write(t).value;
    var part, more := whole[..k], whole[k..];
    assert whole == part + more;
    RoundTrip(Patient(rd), t);
    PrefixIsRefused(Patient(rd), part, more, t.(shape := Contiguous(t.shape)));
    if Read(rd, part).Ok? {
      LimitOnlyRejects(rd, part);
    }
  }

  lemma Extend(header: seq<byte>, body: seq<byte>, more: seq<byte>)
    ensures (MAGIC + (header + body)) + more == MAGIC + (header + (body + more))
  {
    assert (header + body) + more == header + (body + more);
  }

  /** Bytes added after a written tensor are not. */
  lemma AddedIsIgnored(rd: Reader, t: Tensor, more: seq<byte>)
    requires IsArray(rd, t) && Write(t).Ok?
    ensures Read(rd, Write(t).value + more) == Read(rd, Write(t).value)
  {
    var sent := t.(shape := Contiguous(t.shape));
    Extend(Header(sent.dtype, sent.shape, |t.payload|), t.payload, more);
    if |t.payload| < rd.limit {
      RoundTrip(rd, t);
      ReadHeld(rd, Write(t).value + more, sent, |t.payload|, more);
    } else {
      ReadTooLong(rd, sent, t.payload);
      ReadTooLong(rd, sent, t.payload + more);
    }
  }
}
