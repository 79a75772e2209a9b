/** Tensor files byte by byte, and the payload of a tensor as rows laid end to end. */
module WireLaws {
  import opened Base
  import opened TensorWire

  // ----- Byte order -----

  lemma DivDiv(n: nat, a: nat, b: nat)
    requires a > 0 && b > 0
    ensures a * b > 0 && n / a / b == n / (a * b)
  {
    var q, r := n / a, n % a;
    var s, u := q / b, q % b;
    assert n == a * q + r && q == b * s + u;
    assert n == (a * b) * s + (a * u + r) by {
      assert a * (b * s + u) == (a * b) * s + a * u;
    }
    assert 0 <= a * u + r < a * b by {
      MulMono(a, u + 1, b);
      MulSucc(a, u);
    }
    Quotient(n, a * b, s, a * u + r);
  }

  lemma Quotient(n: nat, d: nat, s: nat, r: nat)
    requires n == d * s + r && r < d
    ensures n / d == s
  {
    var t := n / d;
    assert n == d * t + n % d;
    if t < s {
      MulMono(d, t + 1, s);
    } else if t > s {
      MulMono(d, s + 1, t);
    }
  }

  /** Byte `i`, least significant first. */
  lemma {:induction false} PackByte(n: nat, width: nat, i: nat, power: nat)
    requires i < width && power == Pow256(i)
    ensures Pack(n, width)[i] == n / power % 256
  {
    if i > 0 {
      PackByte(n / 256, width - 1, i - 1, Pow256(i - 1));
      DivDiv(n, 256, Pow256(i - 1));
    }
  }

  lemma Powers()
    ensures Pow256(0) == 1 && Pow256(1) == 256 && Pow256(2) == 65536 && Pow256(3) == 16777216
    ensures Pow256(4) == 4294967296 && Pow256(5) == 1099511627776 && Pow256(6) == 281474976710656
    ensures Pow256(7) == 72057594037927936 && Pow256(8) == 18446744073709551616
  {
    assert Pow256(1) == 256 * Pow256(0);
    assert Pow256(2) == 256 * Pow256(1);
    assert Pow256(3) == 256 * Pow256(2);
    assert Pow256(4) == 256 * Pow256(3);
    assert Pow256(5) == 256 * Pow256(4);
    assert Pow256(6) == 256 * Pow256(5);
    assert Pow256(7) == 256 * Pow256(6);
  }

  ghost predicate IsWord(b: seq<byte>, n: nat) {
    |b| == 4 && b[0] == n % 256 && b[1] == n / 256 % 256 && b[2] == n / 65536 % 256 && b[3] == n / 16777216 % 256
  }

  ghost predicate IsLong(b: seq<byte>, n: nat) {
    && |b| == 8 && IsWord(b[..4], n) && b[4] == n / 4294967296 % 256 && b[5] == n / 1099511627776 % 256
    && b[6] == n / 281474976710656 % 256 && b[7] == n / 72057594037927936 % 256
  }

  lemma PackWord(n: nat)
    ensures IsWord(Pack(n, 4), n)
  {
    Powers();
    PackByte(n, 4, 0, 1);
    PackByte(n, 4, 1, 256);
    PackByte(n, 4, 2, 65536);
    PackByte(n, 4, 3, 16777216);
  }

  lemma PackLong(n: nat)
    ensures IsLong(Pack(n, 8), n)
  {
    Powers();
    PackByte(n, 8, 0, 1);
    PackByte(n, 8, 1, 256);
    PackByte(n, 8, 2, 65536);
    PackByte(n, 8, 3, 16777216);
    PackByte(n, 8, 4, 4294967296);
    PackByte(n, 8, 5, 1099511627776);
    PackByte(n, 8, 6, 281474976710656);
    PackByte(n, 8, 7, 72057594037927936);
  }

  lemma {:induction false} PackShapeAt(shape: seq<nat>, i: nat)
    requires i < |shape|
    ensures PackShape(shape)[8 * i..8 * i + 8] == Pack(shape[i], 8)
  {
    var b := PackShape(shape);
    if i == 0 {
      assert b[..8] == Pack(shape[0], 8);
    } else {
      PackShapeAt(shape[1..], i - 1);
      assert b[8..] == PackShape(shape[1..]);
      assert b[8 * i..8 * i + 8] == b[8..][8 * (i - 1)..8 * (i - 1) + 8];
    }
  }

  // ----- The file -----

  lemma SliceOfSlice(b: seq<byte>, lo: nat, hi: nat, i: nat, j: nat)
    requires lo <= hi <= |b| && i <= j <= hi - lo
    ensures b[lo..hi][i..j] == b[lo + i..lo + j]
  {
    forall k | 0 <= k < j - i
      ensures b[lo..hi][i..j][k] == b[lo + i..lo + j][k]
    {
    }
  }

  /** The parts of a written file, by position. */
  lemma FileParts(magic: seq<byte>, dtype: byte, rank: seq<byte>, dims: seq<byte>, length: seq<byte>,
                  payload: seq<byte>)
    requires |magic| == 8 && |rank| == 4 && |length| == 8
    ensures var b := magic + (([dtype] + (rank + (dims + length))) + payload);
            && |b| == 21 + |dims| + |payload| && b[..8] == magic && b[8] == dtype && b[9..13] == rank
            && b[13..13 + |dims|] == dims && b[13 + |dims|..21 + |dims|] == length && b[21 + |dims|..] == payload
  {
    var b := magic + (([dtype] + (rank + (dims + length))) + payload);
    assert b == magic + [dtype] + rank + dims + length + payload;
  }

  /** The fields of a written file, packed. */
  ghost predicate HasFields(b: seq<byte>, dtype: byte, shape: seq<nat>, payload: seq<byte>) {
    var r := 8 * |shape|;
    && |b| == 21 + r + |payload| && b[8] == dtype && b[9..13] == Pack(|shape|, 4)
    && b[13..13 + r] == PackShape(shape) && b[13 + r..21 + r] == Pack(|payload|, 8) && b[21 + r..] == payload
  }

  lemma WrittenFields(t: Tensor, shape: seq<nat>)
    requires Write(t).Ok? && shape == Contiguous(t.shape)
    ensures Write(t).value[..8] == MAGIC && HasFields(Write(t).value, t.dtype, shape, t.payload)
  {
    FileParts(MAGIC, t.dtype, Pack(|shape|, 4), PackShape(shape), Pack(|t.payload|, 8), t.payload);
  }

  lemma DimensionAt(b: seq<byte>, dtype: byte, shape: seq<nat>, payload: seq<byte>, i: nat)
    requires HasFields(b, dtype, shape, payload) && i < |shape|
    ensures IsLong(b[13 + 8 * i..21 + 8 * i], shape[i])
  {
    PackShapeAt(shape, i);
    PackLong(shape[i]);
    SliceOfSlice(b, 13, 13 + 8 * |shape|, 8 * i, 8 * i + 8);
  }

  /** A file is "NXRTCF01", the type code, the rank in four bytes, every dimension and the payload's
      length in eight bytes each, and the payload. */
  lemma FileLayout(t: Tensor, shape: seq<nat>)
    requires Write(t).Ok? && shape == (if t.shape == [] then [1] else t.shape)
    ensures var b, r := Write(t).value, 8 * |shape|;
            && |b| == 21 + r + |t.payload|
            && b[..8] == [78, 88, 82, 84, 67, 70, 48, 49] && b[8] == t.dtype && IsWord(b[9..13], |shape|)
            && (forall i :: 0 <= i < |shape| ==> IsLong(b[13 + 8 * i..21 + 8 * i], shape[i]))
            && IsLong(b[13 + r..21 + r], |t.payload|) && b[21 + r..] == t.payload
  {
    WrittenFields(t, shape);
    PackWord(|shape|);
    PackLong(|t.payload|);
    forall i | 0 <= i < |shape|
      ensures IsLong(Write(t).value[13 + 8 * i..21 + 8 * i], shape[i])
    {
      DimensionAt(Write(t).value, t.dtype, shape, t.payload, i);
    }
  }

  /** Writing fails exactly when a number does not fit its field. */
  lemma WriteIff(t: Tensor, shape: seq<nat>)
    requires shape == (if t.shape == [] then [1] else t.shape)
    ensures Write(t).Ok? <==>
            && |shape| < 4294967296 && |t.payload| < 18446744073709551616
            && forall i :: 0 <= i < |shape| ==> shape[i] < 18446744073709551616
  {
    Powers();
  }

  // ----- Rows -----

  /** An array is one element, or rows of arrays. */
  datatype Nested = Cell(bytes: seq<byte>) | Rows(rows: seq<Nested>)

  ghost predicate HasShape(a: Nested, shape: seq<nat>, size: nat)
    decreases shape
  {
    match a
    case Cell(bytes) => shape == [] && |bytes| == size
    case Rows(rows) =>
      shape != [] && |rows| == shape[0] && forall i :: 0 <= i < |rows| ==> HasShape(rows[i], shape[1..], size)
  }

  /** The bytes of the elements, rows end to end. */
  ghost function Lay(a: Nested): seq<byte> {
    match a
    case Cell(bytes) => bytes
    case Rows(rows) => LayRows(rows)
  }

  ghost function LayRows(rows: seq<Nested>): seq<byte> {
    if rows == [] then [] else Lay(rows[0]) + LayRows(rows[1..])
  }

  lemma LaySize(a: Nested, shape: seq<nat>, size: nat)
    requires HasShape(a, shape, size)
    ensures |Lay(a)| == Product(shape) * size
    decreases |shape|, 1, 0
  {
    if a.Rows? {
      LayRowsSize(a.rows, shape[1..], size, Product(shape[1..]) * size);
      assert shape[0] * (Product(shape[1..]) * size) == shape[0] * Product(shape[1..]) * size;
    }
  }

  lemma LayRowsSize(rows: seq<Nested>, shape: seq<nat>, size: nat, row: nat)
    requires row == Product(shape) * size && forall i :: 0 <= i < |rows| ==> HasShape(rows[i], shape, size)
    ensures |LayRows(rows)| == |rows| * row
    decreases |shape|, 2, |rows|
  {
    if rows != [] {
      LaySize(rows[0], shape, size);
      LayRowsSize(rows[1..], shape, size, row);
      OneMoreRow(|rows|, row);
    }
  }

  lemma OneMoreRow(n: nat, row: nat)
    requires n > 0
    ensures row + (n - 1) * row == n * row
  {
    MulSucc(row, n - 1);
  }

  /** Whatever has rows of the right shape is written and read back. */
  lemma RowsRoundTrip(rd: Reader, dtype: byte, shape: seq<nat>, a: Nested)
    requires dtype in rd.sizes && HasShape(a, shape, rd.sizes[dtype]) && shape != [] && rd.accepts(dtype, shape)
    requires |shape| < 4294967296 && |Lay(a)| < rd.limit && |Lay(a)| < 18446744073709551616
    requires forall i :: 0 <= i < |shape| ==> shape[i] < 18446744073709551616
    ensures var t := Tensor(dtype, shape, Lay(a));
            Write(t).Ok? && Read(rd, Write(t).value) == Ok(t)
  {
    var t := Tensor(dtype, shape, Lay(a));
    LaySize(a, shape, rd.sizes[dtype]);
    WriteIff(t, shape);
    RoundTrip(rd, t);
  }

  /** Cut bytes into rows. */
  ghost function Split(b: seq<byte>, shape: seq<nat>, size: nat): (a: Nested)
    requires |b| == Product(shape) * size
    ensures HasShape(a, shape, size) && Lay(a) == b
    decreases |shape|, 1, 0
  {
    if shape == [] then Cell(b) else
      assert shape[0] * Product(shape[1..]) * size == shape[0] * (Product(shape[1..]) * size);
      Rows(SplitRows(b, shape[0], shape[1..], size, Product(shape[1..]) * size))
  }

  ghost function SplitRows(b: seq<byte>, n: nat, shape: seq<nat>, size: nat, row: nat): (rows: seq<Nested>)
    requires row == Product(shape) * size && |b| == n * row
    ensures |rows| == n && LayRows(rows) == b && forall i :: 0 <= i < n ==> HasShape(rows[i], shape, size)
    decreases |shape|, 2, n
  {
    if n == 0 then [] else
      OneRow(|b|, n, row);
      var first, rest := Split(b[..row], shape, size), SplitRows(b[row..], n - 1, shape, size, row);
      ConsRows(b, row, first, rest);
      [first] + rest
  }

  lemma OneRow(length: nat, n: nat, row: nat)
    requires length == n * row && n > 0
    ensures row <= length && length - row == (n - 1) * row
  {
    MulSucc(row, n - 1);
  }

  lemma ConsRows(b: seq<byte>, row: nat, first: Nested, rest: seq<Nested>)
    requires row <= |b| && Lay(first) == b[..row] && LayRows(rest) == b[row..]
    ensures LayRows([first] + rest) == b
  {
    assert ([first] + rest)[1..] == rest;
  }

  /** What is read has rows of the shape that is read. */
  lemma ReadHasRows(rd: Reader, b: seq<byte>) returns (a: Nested)
    requires Read(rd, b).Ok?
    ensures var t := Read(rd, b).value;
            t.dtype in rd.sizes && HasShape(a, t.shape, rd.sizes[t.dtype]) && Lay(a) == t.payload
  {
    var t := Read(rd, b).value;
    ReadIffHeld(rd, b, t);
    a := Split(t.payload, t.shape, rd.sizes[t.dtype]);
  }

  // ----- The order of the dimensions -----

  ghost function Without(s: seq<nat>, i: nat): seq<nat>
    requires i < |s|
  {
    s[..i] + s[i + 1..]
  }

  lemma {:induction false} ProductWithout(s: seq<nat>, i: nat)
    requires i < |s|
    ensures Product(s) == s[i] * Product(Without(s, i))
  {
    if i == 0 {
      assert Without(s, 0) == s[1..];
    } else {
      ProductWithout(s[1..], i - 1);
      assert Without(s, i) == [s[0]] + Without(s[1..], i - 1);
      assert Without(s, i)[1..] == Without(s[1..], i - 1);
      Exchange(s[0], s[i], Product(Without(s[1..], i - 1)));
    }
  }

  lemma Exchange(a: nat, b: nat, c: nat)
    ensures a * (b * c) == b * (a * c)
  {
  }

  lemma {:induction false} ProductIgnoresOrder(s: seq<nat>, t: seq<nat>)
    requires multiset(s) == multiset(t)
    ensures Product(s) == Product(t)
  {
    if s == [] {
      assert |multiset(t)| == 0;
    } else {
      assert s[0] in multiset(t);
      var i :| 0 <= i < |t| && t[i] == s[0];
      WithoutOne(s, 0);
      WithoutOne(t, i);
      ProductIgnoresOrder(Without(s, 0), Without(t, i));
      ProductWithout(s, 0);
      ProductWithout(t, i);
    }
  }

  lemma WithoutOne(s: seq<nat>, i: nat)
    requires i < |s|
    ensures multiset(Without(s, i)) == multiset(s) - multiset{s[i]}
  {
    assert s == s[..i] + ([s[i]] + s[i + 1..]);
  }

  /** Any order of the dimensions takes payloads of the same length. */
  lemma AnyOrderFits(rd: Reader, dtype: byte, s: seq<nat>, t: seq<nat>, payload: seq<byte>)
    requires multiset(s) == multiset(t) && rd.accepts(dtype, s) && rd.accepts(dtype, t)
    ensures Viewable(rd, dtype, s, payload) <==> Viewable(rd, dtype, t, payload)
  {
    ProductIgnoresOrder(s, t);
  }

  // ----- What is refused -----

  ghost function WordOf(b: seq<byte>): nat
    requires |b| >= 4
  {
    var x: int, y: int, z: int, t: int := b[0], b[1], b[2], b[3];
    x + 256 * y + 65536 * z + 16777216 * t
  }

  ghost function LongOf(b: seq<byte>): nat
    requires |b| >= 8
  {
    WordOf(b) + 4294967296 * WordOf(b[4..])
  }

  lemma UnpackFour(b: seq<byte>)
    requires |b| == 4
    ensures Unpack(b) == WordOf(b)
  {
    assert Unpack(b[1..][1..][1..][1..]) == 0;
    assert Unpack(b[1..][1..][1..]) == b[3];
    var y: int, z: int, t: int := b[1], b[2], b[3];
    assert Unpack(b[1..][1..]) == z + 256 * t;
    assert Unpack(b[1..]) == y + 256 * (z + 256 * t);
  }

  lemma {:induction false} UnpackParts(a: seq<byte>, b: seq<byte>)
    ensures Unpack(a + b) == Unpack(a) + Pow256(|a|) * Unpack(b)
  {
    if a == [] {
      assert a + b == b;
    } else {
      UnpackParts(a[1..], b);
      assert (a + b)[1..] == a[1..] + b;
      assert 256 * (Pow256(|a| - 1) * Unpack(b)) == (256 * Pow256(|a| - 1)) * Unpack(b);
    }
  }

  lemma UnpackEight(b: seq<byte>)
    requires |b| == 8
    ensures Unpack(b) == LongOf(b)
  {
    assert b == b[..4] + b[4..];
    UnpackParts(b[..4], b[4..]);
    UnpackFour(b[..4]);
    UnpackFour(b[4..]);
    Powers();
  }

  /** A file is refused for its magic, or as cut off before the end of its header, exactly when it is. */
  lemma RefusedIff(rd: Reader, b: seq<byte>)
    ensures Read(rd, b) == Err(BadMagic) <==> |b| < 8 || b[..8] != [78, 88, 82, 84, 67, 70, 48, 49]
    ensures Read(rd, b) == Err(Truncated) <==>
            Read(rd, b) != Err(BadMagic) && (|b| < 13 || |b| < 21 + 8 * WordOf(b[9..13]))
  {
    if |b| >= 13 {
      assert b[9..][..4] == b[9..13];
      UnpackFour(b[9..13]);
    }
  }

  /** A file with a whole header is refused for a length beyond the limit, an unknown type or a shape the
      library does not accept, in this order, and otherwise for a payload that does not fit the shape. */
  lemma RefusedAfterHeader(rd: Reader, b: seq<byte>, rank: nat, shape: seq<nat>, length: nat)
    requires |b| >= 13 && b[..8] == [78, 88, 82, 84, 67, 70, 48, 49] && rank == WordOf(b[9..13]) && |b| >= 21 + 8 * rank
    requires |shape| == rank && forall i :: 0 <= i < rank ==> shape[i] == LongOf(b[13 + 8 * i..21 + 8 * i])
    requires length == LongOf(b[13 + 8 * rank..21 + 8 * rank])
    ensures Read(rd, b) == Err(TooLong) <==> length >= rd.limit
    ensures Read(rd, b) == Err(UnknownDtype) <==> length < rd.limit && b[8] !in rd.sizes
    ensures Read(rd, b) == Err(BadShape) <==> length < rd.limit && b[8] in rd.sizes && !rd.accepts(b[8], shape)
  {
    var rest := b[13..];
    assert b[9..][..4] == b[9..13] && b[9..][4..] == rest;
    UnpackFour(b[9..13]);
    ShapeIs(rest[..8 * rank], rank, shape, b);
    assert rest[8 * rank..][..8] == b[13 + 8 * rank..21 + 8 * rank];
    UnpackEight(b[13 + 8 * rank..21 + 8 * rank]);
  }

  lemma ShapeIs(dims: seq<byte>, rank: nat, shape: seq<nat>, b: seq<byte>)
    requires |dims| == 8 * rank && |b| >= 13 + 8 * rank && dims == b[13..13 + 8 * rank] && |shape| == rank
    requires forall i :: 0 <= i < rank ==> shape[i] == LongOf(b[13 + 8 * i..21 + 8 * i])
    ensures UnpackShape(dims, rank) == shape
  {
    forall i | 0 <= i < rank
      ensures UnpackShape(dims, rank)[i] == shape[i]
    {
      UnpackShapeAt(dims, rank, i);
      SliceOfSlice(b, 13, 13 + 8 * rank, 8 * i, 8 * i + 8);
      UnpackEight(b[13 + 8 * i..21 + 8 * i]);
    }
  }

  lemma {:induction false} UnpackShapeAt(b: seq<byte>, rank: nat, i: nat)
    requires |b| == 8 * rank && i < rank
    ensures UnpackShape(b, rank)[i] == Unpack(b[8 * i..8 * i + 8])
  {
    if i > 0 {
      UnpackShapeAt(b[8..], rank - 1, i - 1);
      SliceOfSlice(b, 8, |b|, 8 * (i - 1), 8 * (i - 1) + 8);
      assert b[8..] == b[8..|b|];
    }
  }
}
