/** The segment layer of binary-vector payloads: a 16-byte prefix, the encoded metadata, and one
    segment per vector. Floats are their 32-bit patterns. */
module BinaryVector {
  import opened Common
  import opened Flatten

  type Bytes = seq<byte>

  /** A float32 by the bytes of its pattern, most significant first. */
  datatype Float32 = Float32(b3: byte, b2: byte, b1: byte, b0: byte)

  type Vector = seq<Float32>

  /** Neither an infinity nor a NaN: the eight exponent bits are not all ones. */
  predicate Finite(x: Float32) { x.b3 % 128 != 127 || x.b2 < 128 }

  // ---- integers ------------------------------------------------------------

  /** The low k bytes of a number, most significant first. */
  function BigEndian(n: nat, k: nat): (r: Bytes)
    ensures |r| == k
    decreases k
  {
    if k == 0 then [] else BigEndian(n / 256, k - 1) + [n % 256]
  }

  function Number(s: Bytes): nat {
    if s == [] then 0 else Number(s[..|s| - 1]) * 256 + (s[|s| - 1] as nat)
  }

  function Limit(k: nat): nat { if k == 0 then 1 else Limit(k - 1) * 256 }

  lemma {:induction false} NumberBack(n: nat, k: nat)
    requires n < Limit(k)
    ensures Number(BigEndian(n, k)) == n
    decreases k
  {
    if k > 0 {
      NumberBack(n / 256, k - 1);
      assert BigEndian(n, k)[..k - 1] == BigEndian(n / 256, k - 1);
    }
  }

  lemma Unshift(q: nat, b: byte)
    ensures (q * 256 + (b as nat)) / 256 == q && (q * 256 + (b as nat)) % 256 == b
  {
  }

  lemma {:induction false} BytesBack(s: Bytes)
    ensures BigEndian(Number(s), |s|) == s && Number(s) < Limit(|s|)
  {
    if s != [] {
      var n := |s| - 1;
      BytesBack(s[..n]);
      Unshift(Number(s[..n]), s[n]);
      assert s == s[..n] + [s[n]];
    }
  }

  lemma FieldLimits()
    ensures Limit(2) == 0x1_0000 && Limit(4) == TWO32
  {
    assert Limit(0) == 1 && Limit(1) == 256 && Limit(2) == 256 * 256 && Limit(3) == 256 * 256 * 256;
  }

  /** The big-endian field of k bytes at i. */
  function Field(p: Bytes, i: nat, k: nat): nat
    requires i + k <= |p|
  {
    Number(p[i..i + k])
  }

  lemma FieldRead(p: Bytes, i: nat, n: nat, k: nat)
    requires At(p, i, BigEndian(n, k)) && n < Limit(k)
    ensures Field(p, i, k) == n
  {
    NumberBack(n, k);
  }

  lemma FieldBack(p: Bytes, i: nat, k: nat)
    requires i + k <= |p|
    ensures BigEndian(Field(p, i, k), k) == p[i..i + k] && Field(p, i, k) < Limit(k)
  {
    BytesBack(p[i..i + k]);
  }

  function LittleEndian(x: Float32): (r: Bytes)
    ensures |r| == 4
  {
    [x.b0, x.b1, x.b2, x.b3]
  }

  function FloatAt(p: Bytes, i: nat): Float32
    requires i + 4 <= |p|
  {
    Float32(p[i + 3], p[i + 2], p[i + 1], p[i])
  }

  lemma FloatRead(p: Bytes, i: nat, x: Float32)
    requires At(p, i, LittleEndian(x))
    ensures FloatAt(p, i) == x
  {
    var w := p[i..i + 4];
    assert w[0] == p[i] && w[1] == p[i + 1] && w[2] == p[i + 2] && w[3] == p[i + 3];
  }

  lemma FloatBack(p: Bytes, i: nat)
    requires i + 4 <= |p|
    ensures LittleEndian(FloatAt(p, i)) == p[i..i + 4]
  {
  }

  // ---- encoding ------------------------------------------------------------

  const MAGIC: Bytes := [0x4E, 0x50, 0x42, 0x56]
  const PREFIX: nat := 16

  function ValueBytes(v: Vector): (r: Bytes)
    ensures |r| == 4 * |v|
  {
    if v == [] then [] else ValueBytes(v[..|v| - 1]) + LittleEndian(v[|v| - 1])
  }

  /** The length field keeps the low 32 bits of the dimension. */
  function Segment(v: Vector): (r: Bytes)
    ensures |r| == 4 + 4 * |v|
  {
    BigEndian(|v|, 4) + ValueBytes(v)
  }

  function Segments(vs: seq<Vector>): Bytes {
    if vs == [] then [] else Segments(vs[..|vs| - 1]) + Segment(vs[|vs| - 1])
  }

  function Prefix(count: nat, metadataLen: nat): (r: Bytes)
    ensures |r| == PREFIX
  {
    MAGIC + [1, 0] + BigEndian(count, 2) + BigEndian(metadataLen, 4) + BigEndian(0, 4)
  }

  /** None: too many vectors. */
  function Encode(metadata: Bytes, vs: seq<Vector>): Option<Bytes> {
    if |vs| > 65535 then None else Some(Prefix(|vs|, |metadata|) + metadata + Segments(vs))
  }

  // ---- decoding ------------------------------------------------------------

  function ReadValues(p: Bytes, offset: nat, dim: nat): (r: Option<Vector>)
    requires offset + 4 * dim <= |p|
    ensures r.Some? ==> |r.value| == dim
  {
    if dim == 0 then Some([])
    else
      var before, x := ReadValues(p, offset, dim - 1), FloatAt(p, offset + 4 * (dim - 1));
      if before.None? || !Finite(x) then None else Some(before.value + [x])
  }

  datatype ReadVectorsResult = Vectors(vs: seq<Vector>, next: nat) | Malformed

  function ReadVector(p: Bytes, offset: nat): (r: Option<Vector>)
    requires offset <= |p|
    ensures r.Some? ==> offset + 4 + 4 * |r.value| <= |p|
  {
    if |p| - offset < 4 then None
    else
      var dim := Field(p, offset, 4);
      if |p| - offset - 4 < 4 * dim then None else ReadValues(p, offset + 4, dim)
  }

  function ReadVectors(p: Bytes, offset: nat, count: nat): (r: ReadVectorsResult)
    requires offset <= |p|
    ensures r.Vectors? ==> |r.vs| == count && offset <= r.next <= |p|
  {
    if count == 0 then Vectors([], offset)
    else
      var before := ReadVectors(p, offset, count - 1);
      if before.Malformed? || ReadVector(p, before.next).None? then Malformed
      else
        var v := ReadVector(p, before.next).value;
        Vectors(before.vs + [v], before.next + 4 + 4 * |v|)
  }

  datatype Payload = Payload(metadata: Bytes, vs: seq<Vector>)

  predicate PrefixOk(p: Bytes) {
    |p| >= PREFIX && p[0..4] == MAGIC && p[4] == 1 && p[5] == 0 && Field(p, 12, 4) == 0
  }

  function Decode(p: Bytes): Option<Payload> {
    if !PrefixOk(p) || Field(p, 8, 4) > |p| - PREFIX then None
    else
      var start := PREFIX + Field(p, 8, 4);
      var r := ReadVectors(p, start, Field(p, 6, 2));
      if r.Malformed? || r.next != |p| then None else Some(Payload(p[PREFIX..start], r.vs))
  }

  // ---- from vectors to bytes and back --------------------------------------

  ghost predicate Sound(v: Vector) { |v| < TWO32 && forall i :: 0 <= i < |v| ==> Finite(v[i]) }

  ghost predicate AllSound(vs: seq<Vector>) { forall i :: 0 <= i < |vs| ==> Sound(vs[i]) }

  lemma {:induction false} ValuesRead(p: Bytes, offset: nat, v: Vector)
    requires At(p, offset, ValueBytes(v)) && forall i :: 0 <= i < |v| ==> Finite(v[i])
    ensures ReadValues(p, offset, |v|) == Some(v)
  {
    if v != [] {
      var n := |v| - 1;
      AtSplit(p, offset, ValueBytes(v[..n]), LittleEndian(v[n]));
      ValuesRead(p, offset, v[..n]);
      FloatRead(p, offset + 4 * n, v[n]);
      assert v == v[..n] + [v[n]];
    }
  }

  lemma SegmentRead(p: Bytes, offset: nat, v: Vector)
    requires At(p, offset, Segment(v)) && Sound(v)
    ensures offset <= |p| && ReadVector(p, offset) == Some(v)
  {
    AtSplit(p, offset, BigEndian(|v|, 4), ValueBytes(v));
    FieldLimits();
    FieldRead(p, offset, |v|, 4);
    ValuesRead(p, offset + 4, v);
  }

  lemma OneMore(p: Bytes, offset: nat, vs: seq<Vector>, v: Vector, e: nat)
    requires offset <= e <= |p| && ReadVectors(p, offset, |vs|) == Vectors(vs, e) && ReadVector(p, e) == Some(v)
    ensures ReadVectors(p, offset, |vs| + 1) == Vectors(vs + [v], e + 4 + 4 * |v|)
  {
    hide ReadVector;
  }

  lemma SegmentsLast(vs: seq<Vector>)
    requires vs != []
    ensures Segments(vs) == Segments(vs[..|vs| - 1]) + Segment(vs[|vs| - 1])
  {
  }

  lemma NoSegments(p: Bytes, offset: nat)
    requires At(p, offset, Segments([]))
    ensures offset <= |p| && ReadVectors(p, offset, 0) == Vectors([], offset + |Segments([])|)
  {
  }

  lemma {:induction false} SegmentsRead(p: Bytes, offset: nat, vs: seq<Vector>)
    requires At(p, offset, Segments(vs)) && AllSound(vs)
    ensures offset <= |p| && ReadVectors(p, offset, |vs|) == Vectors(vs, offset + |Segments(vs)|)
  {
    hide Segments, Segment, ReadVectors, ReadVector, Sound;
    if vs == [] {
      NoSegments(p, offset);
    } else {
      var n := |vs| - 1;
      var e := offset + |Segments(vs[..n])|;
      SegmentsLast(vs);
      AtSplit(p, offset, Segments(vs[..n]), Segment(vs[n]));
      SegmentsRead(p, offset, vs[..n]);
      SegmentRead(p, e, vs[n]);
      OneMore(p, offset, vs[..n], vs[n], e);
      assert vs == vs[..n] + [vs[n]];
    }
  }

  lemma PrefixRead(p: Bytes, count: nat, metadataLen: nat)
    requires At(p, 0, Prefix(count, metadataLen)) && count <= 65535 && metadataLen < TWO32
    ensures PrefixOk(p) && Field(p, 6, 2) == count && Field(p, 8, 4) == metadataLen
  {
    var a, b, c := MAGIC + [1, 0], BigEndian(count, 2), BigEndian(metadataLen, 4);
    FieldLimits();
    AtSplit(p, 0, a + b + c, BigEndian(0, 4));
    AtSplit(p, 0, a + b, c);
    AtSplit(p, 0, a, b);
    AtSplit(p, 0, MAGIC, [1, 0]);
    FieldRead(p, 12, 0, 4);
    FieldRead(p, 8, metadataLen, 4);
    FieldRead(p, 6, count, 2);
    assert p[4..6][0] == p[4] && p[4..6][1] == p[5];
  }

  lemma EncodedRead(metadata: Bytes, vs: seq<Vector>)
    requires |vs| <= 65535 && |metadata| < TWO32 && AllSound(vs)
    ensures Decode(Encode(metadata, vs).value) == Some(Payload(metadata, vs))
  {
    var prefix, segments := Prefix(|vs|, |metadata|), Segments(vs);
    var p := Encode(metadata, vs).value;
    assert p[0..|p|] == p;
    AtSplit(p, 0, prefix + metadata, segments);
    AtSplit(p, 0, prefix, metadata);
    PrefixRead(p, |vs|, |metadata|);
    SegmentsRead(p, PREFIX + |metadata|, vs);
  }

  // ---- from bytes to vectors and back --------------------------------------

  lemma {:induction false} ValuesBack(p: Bytes, offset: nat, dim: nat)
    requires offset + 4 * dim <= |p| && ReadValues(p, offset, dim).Some?
    ensures var v := ReadValues(p, offset, dim).value;
            ValueBytes(v) == p[offset..offset + 4 * dim] && forall i :: 0 <= i < |v| ==> Finite(v[i])
  {
    if dim > 0 {
      var v, end := ReadValues(p, offset, dim).value, offset + 4 * (dim - 1);
      ValuesBack(p, offset, dim - 1);
      FloatBack(p, end);
      assert v[..dim - 1] == ReadValues(p, offset, dim - 1).value;
      assert p[offset..end] + p[end..end + 4] == p[offset..end + 4];
    }
  }

  lemma SliceJoin(p: Bytes, a: nat, b: nat, c: nat)
    requires a <= b <= c <= |p|
    ensures p[a..b] + p[b..c] == p[a..c]
  {
  }

  lemma SegmentParts(p: Bytes, offset: nat, e: nat, v: Vector)
    requires offset + 4 <= e <= |p| && BigEndian(|v|, 4) == p[offset..offset + 4] && ValueBytes(v) == p[offset + 4..e]
    ensures Segment(v) == p[offset..e]
  {
    SliceJoin(p, offset, offset + 4, e);
  }

  lemma VectorRead(p: Bytes, offset: nat)
    requires offset <= |p| && ReadVector(p, offset).Some?
    ensures var v := ReadVector(p, offset).value;
            |p| >= offset + 4 + 4 * |v| && |v| == Field(p, offset, 4) && ReadValues(p, offset + 4, |v|) == Some(v)
  {
  }

  lemma SegmentBack(p: Bytes, offset: nat)
    requires offset <= |p| && ReadVector(p, offset).Some?
    ensures var v := ReadVector(p, offset).value;
            Sound(v) && Segment(v) == p[offset..offset + 4 + 4 * |v|]
  {
    var v := ReadVector(p, offset).value;
    VectorRead(p, offset);
    ValuesBack(p, offset + 4, |v|);
    FieldBack(p, offset, 4);
    FieldLimits();
    SegmentParts(p, offset, offset + 4 + 4 * |v|, v);
  }

  lemma SegmentsSnoc(vs: seq<Vector>, v: Vector)
    ensures Segments(vs + [v]) == Segments(vs) + Segment(v)
  {
    assert (vs + [v])[..|vs|] == vs;
  }

  lemma {:induction false} SegmentsBack(p: Bytes, offset: nat, count: nat)
    requires offset <= |p| && ReadVectors(p, offset, count).Vectors?
    ensures var r := ReadVectors(p, offset, count); AllSound(r.vs) && Segments(r.vs) == p[offset..r.next]
  {
    hide Segment, ReadVector, Sound;
    if count > 0 {
      var before := ReadVectors(p, offset, count - 1);
      var v := ReadVector(p, before.next).value;
      SegmentsBack(p, offset, count - 1);
      SegmentBack(p, before.next);
      SegmentsSnoc(before.vs, v);
      SliceJoin(p, offset, before.next, before.next + 4 + 4 * |v|);
    }
  }

  lemma PrefixBack(p: Bytes)
    requires PrefixOk(p)
    ensures Prefix(Field(p, 6, 2), Field(p, 8, 4)) == p[..PREFIX]
  {
    FieldBack(p, 6, 2);
    FieldBack(p, 8, 4);
    FieldBack(p, 12, 4);
    assert p[..4] + [p[4], p[5]] + p[6..8] + p[8..12] + p[12..16] == p[..16];
  }

  lemma ThreeParts(p: Bytes, i: nat, j: nat)
    requires i <= j <= |p|
    ensures p[..i] + p[i..j] + p[j..] == p
  {
  }

  /** Every accepted payload is the encoding of what it is read as, byte for byte. */
  lemma AcceptedEncodes(p: Bytes)
    requires Decode(p).Some?
    ensures var x := Decode(p).value;
            Encode(x.metadata, x.vs) == Some(p) && |x.metadata| < TWO32 && AllSound(x.vs)
  {
    hide Segments, ReadVectors, Prefix, Field, Sound;
    var start := PREFIX + Field(p, 8, 4);
    var r := ReadVectors(p, start, Field(p, 6, 2));
    SegmentsBack(p, start, Field(p, 6, 2));
    assert p[start..r.next] == p[start..];
    PrefixBack(p);
    FieldBack(p, 8, 4);
    FieldBack(p, 6, 2);
    FieldLimits();
    ThreeParts(p, PREFIX, start);
  }

  /** Encoding and decoding gives the same metadata and vectors, bit for bit, exactly when the
      lengths fit their 32-bit fields and every value is finite. */
  lemma RoundTripExactly(metadata: Bytes, vs: seq<Vector>)
    requires |vs| <= 65535
    ensures Decode(Encode(metadata, vs).value) == Some(Payload(metadata, vs)) <==> |metadata| < TWO32 && AllSound(vs)
  {
    if |metadata| < TWO32 && AllSound(vs) { EncodedRead(metadata, vs); }
    if Decode(Encode(metadata, vs).value) == Some(Payload(metadata, vs)) {
      AcceptedEncodes(Encode(metadata, vs).value);
    }
  }

  // ---- the codec -----------------------------------------------------------

  /** Fills the buffer from position at on; what comes before stays. */
  method Put(buf: array<byte>, at: nat, w: Bytes)
    requires at + |w| <= buf.Length
    modifies buf
    ensures buf[..at + |w|] == old(buf[..at]) + w
  {
    for j := 0 to |w|
      invariant buf[..at + j] == old(buf[..at]) + w[..j]
    {
      buf[at + j] := w[j];
      assert buf[..at + j + 1] == buf[..at + j] + [w[j]];
    }
    assert w[..|w|] == w;
  }

  method SegmentBytes(vs: seq<Vector>) returns (n: nat)
    ensures n == |Segments(vs)|
  {
    n := 0;
    for i := 0 to |vs|
      invariant n == |Segments(vs[..i])|
    {
      n := n + 4 + |vs[i]| * 4;
      assert vs[..i + 1] == vs[..i] + [vs[i]];
      SegmentsSnoc(vs[..i], vs[i]);
    }
    assert vs[..|vs|] == vs;
  }

  lemma ValuesSnoc(v: Vector, i: nat)
    requires i < |v|
    ensures ValueBytes(v[..i + 1]) == ValueBytes(v[..i]) + LittleEndian(v[i])
  {
    assert v[..i + 1][..i] == v[..i];
  }

  /** One segment, written at an offset. */
  method PutVector(buf: array<byte>, at: nat, v: Vector)
    requires at + 4 + 4 * |v| <= buf.Length
    modifies buf
    ensures buf[..at + 4 + 4 * |v|] == old(buf[..at]) + Segment(v)
  {
    Put(buf, at, BigEndian(|v|, 4));
    var offset := at + 4;
    ghost var head := buf[..offset];
    for j := 0 to |v|
      invariant offset == at + 4 + 4 * j && buf[..offset] == head + ValueBytes(v[..j])
    {
      Put(buf, offset, LittleEndian(v[j]));
      ValuesSnoc(v, j);
      Regroup(head, ValueBytes(v[..j]), LittleEndian(v[j]));
      offset := offset + 4;
    }
    assert v[..|v|] == v;
    Regroup(old(buf[..at]), BigEndian(|v|, 4), ValueBytes(v));
  }

  lemma Longer(vs: seq<Vector>, i: nat)
    requires i < |vs|
    ensures |Segments(vs[..i])| + |Segment(vs[i])| <= |Segments(vs)|
    ensures Segments(vs[..i + 1]) == Segments(vs[..i]) + Segment(vs[i])
    decreases |vs|
  {
    assert vs[..i + 1] == vs[..i] + [vs[i]];
    SegmentsSnoc(vs[..i], vs[i]);
    if i < |vs| - 1 {
      assert vs[..|vs| - 1][..i] == vs[..i];
      Longer(vs[..|vs| - 1], i);
    } else {
      assert vs[..|vs|] == vs;
    }
  }

  method PutVectors(buf: array<byte>, at: nat, vs: seq<Vector>)
    requires at + |Segments(vs)| == buf.Length
    modifies buf
    ensures buf[..] == old(buf[..at]) + Segments(vs)
  {
    hide Segment;
    var offset := at;
    ghost var head := buf[..at];
    assert head + [] == head;
    for i := 0 to |vs|
      invariant offset == at + |Segments(vs[..i])| <= buf.Length && buf[..offset] == head + Segments(vs[..i])
    {
      Longer(vs, i);
      PutVector(buf, offset, vs[i]);
      Regroup(head, Segments(vs[..i]), Segment(vs[i]));
      offset := offset + 4 + 4 * |vs[i]|;
    }
    assert vs[..|vs|] == vs;
    assert buf[..buf.Length] == buf[..];
  }

  method PutPrefix(buf: array<byte>, count: nat, len: nat)
    requires buf.Length >= PREFIX
    modifies buf
    ensures buf[..PREFIX] == Prefix(count, len)
  {
    assert buf[..0] == [];
    Put(buf, 0, MAGIC);
    Put(buf, 4, [1, 0]);
    Put(buf, 6, BigEndian(count, 2));
    Put(buf, 8, BigEndian(len, 4));
    Put(buf, 12, BigEndian(0, 4));
  }

  method EncodeBinaryVector(metadata: Bytes, vs: seq<Vector>) returns (payload: Option<array<byte>>)
    ensures payload.None? <==> Encode(metadata, vs).None?
    ensures payload.Some? ==> fresh(payload.value) && Some(payload.value[..]) == Encode(metadata, vs)
  {
    if |vs| > 65535 { return None; }
    var n := SegmentBytes(vs);
    var buf := new byte[PREFIX + |metadata| + n];
    PutPrefix(buf, |vs|, |metadata|);
    Put(buf, PREFIX, metadata);
    PutVectors(buf, PREFIX + |metadata|, vs);
    payload := Some(buf);
  }

  lemma {:induction false} ValuesFail(p: Bytes, offset: nat, dim: nat, k: nat)
    requires offset + 4 * dim <= |p| && k <= dim && ReadValues(p, offset, k).None?
    ensures ReadValues(p, offset, dim).None?
    decreases dim
  {
    if k < dim { ValuesFail(p, offset, dim - 1, k); }
  }

  lemma {:induction false} VectorsFail(p: Bytes, offset: nat, count: nat, k: nat)
    requires offset <= |p| && k <= count && ReadVectors(p, offset, k).Malformed?
    ensures ReadVectors(p, offset, count).Malformed?
    decreases count
  {
    if k < count { VectorsFail(p, offset, count - 1, k); }
  }

  /** The values of one segment. */
  method TakeValues(p: Bytes, start: nat, dim: nat) returns (r: Option<Vector>)
    requires start + 4 * dim <= |p|
    ensures r == ReadValues(p, start, dim)
  {
    var vector: Vector := [];
    var offset: nat := start;
    for j := 0 to dim
      invariant offset == start + 4 * j && ReadValues(p, start, j) == Some(vector)
    {
      var value := FloatAt(p, offset);
      if !Finite(value) {
        ValuesFail(p, start, dim, j + 1);
        return None;
      }
      vector := vector + [value];
      offset := offset + 4;
    }
    r := Some(vector);
  }

  /** One segment, read at an offset. */
  method TakeVector(p: Bytes, start: nat) returns (r: Option<Vector>)
    requires start <= |p|
    ensures r == ReadVector(p, start)
  {
    if |p| - start < 4 { return None; }
    var dim: nat := Field(p, start, 4);
    if |p| - start - 4 < dim * 4 { return None; }
    r := TakeValues(p, start + 4, dim);
  }

  method TakeVectors(p: Bytes, start: nat, count: nat) returns (r: ReadVectorsResult)
    requires start <= |p|
    ensures r == ReadVectors(p, start, count)
  {
    var offset: nat := start;
    var vectors: seq<Vector> := [];
    for i := 0 to count
      invariant offset <= |p| && ReadVectors(p, start, i) == Vectors(vectors, offset)
    {
      var v := TakeVector(p, offset);
      if v.None? {
        VectorsFail(p, start, count, i + 1);
        return Malformed;
      }
      vectors, offset := vectors + [v.value], offset + 4 + 4 * |v.value|;
    }
    r := Vectors(vectors, offset);
  }

  method DecodeBinaryVector(p: Bytes) returns (r: Option<Payload>)
    ensures r == Decode(p)
  {
    if |p| < PREFIX { return None; }
    if p[0..4] != MAGIC { return None; }
    if p[4] != 1 { return None; }
    if p[5] != 0 || Field(p, 12, 4) != 0 { return None; }
    var metadataLen: nat := Field(p, 8, 4);
    if metadataLen > |p| - PREFIX { return None; }
    var start := PREFIX + metadataLen;
    var vectors := TakeVectors(p, start, Field(p, 6, 2));
    if vectors.Malformed? || vectors.next != |p| { return None; }
    r := Some(Payload(p[PREFIX..start], vectors.vs));
  }
}
