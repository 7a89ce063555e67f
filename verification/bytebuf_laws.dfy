/** What the byte buffer's writers and readers promise together: each
    reader undoes its writer on the writer's whole value range, a write
    touches only its own bytes, and the range and index checks fail where
    the buffer says they do. */
module ByteBufLaws {
  import opened JsNum
  import opened Errors
  import opened ByteBuf

  /** Reading back the low `width` bytes of `u` gives `u` when it fits. */
  lemma {:induction false} FromLEBytes(u: nat, width: nat)
    requires u < Pow256(width)
    ensures FromLE(LEBytes(u, width)) == u
  {
    if width > 0 {
      assert u / 256 < Pow256(width - 1);
      FromLEBytes(u / 256, width - 1);
      assert LEBytes(u, width)[1..] == LEBytes(u / 256, width - 1);
    }
  }

  /** An integer number coerces to itself modulo 2^32. */
  lemma ToUint32OfInt(v: int)
    ensures ToUint32(OfInt(v)) == v % TWO_32
  {
    assert Trunc(v as real) == v;
  }

  /** `writeInt8` then `readInt8` at the same in-bounds offset gives back
      every value in [-128, 127]; a negative value is stored as 256 + v. */
  lemma Int8RoundTrip(buf: seq<byte>, v: int, offset: int)
    requires -0x80 <= v < 0x80
    requires 0 <= offset < |buf| && offset < TWO_31
    ensures var w := WriteInt8(buf, OfInt(v), offset);
            && w.Ok? && w.value.1 == offset + 1
            && w.value.0[offset] == (if v < 0 then 256 + v else v)
            && ReadInt8(w.value.0, offset) == Ok(v)
  {
    ToInt32OfInt32(offset);
    ToUint32OfInt(if v < 0 then v + 256 else v);
    assert (if v < 0 then Fin(v as real + 256.0) else OfInt(v)) == OfInt(if v < 0 then v + 256 else v);
  }

  /** `writeUInt8` then `readUInt8` gives back every value in [0, 255]. */
  lemma UInt8RoundTrip(buf: seq<byte>, v: int, offset: int)
    requires 0 <= v < 0x100
    requires 0 <= offset < |buf| && offset < TWO_31
    ensures var w := WriteUInt8(buf, OfInt(v), offset);
            && w.Ok? && w.value.1 == offset + 1
            && ReadUInt8(w.value.0, offset) == Ok(v)
  {
    ToInt32OfInt32(offset);
    ToUint32OfInt(v);
  }

  /** The two bytes stored for a 16-bit value: two's complement, low byte first. */
  lemma Int16Layout(v: int)
    requires -0x8000 <= v < 0x8000
    ensures FromLE(LE(OfInt(v), 2)) == (if v < 0 then v + 0x1_0000 else v)
  {
    ToUint32OfInt(v);
    var r := if v < 0 then v + 0x1_0000 else v;
    assert v % TWO_32 == 0x1_0000 * (if v < 0 then 0xffff else 0) + r;
    LowTwoBytes(v % TWO_32, if v < 0 then 0xffff else 0, r);
    FromLEBytes(r, 2);
  }

  /** Two bytes keep only the value modulo 2^16. */
  lemma LowTwoBytes(u: nat, q: nat, r: nat)
    requires r < 0x1_0000 && u == 0x1_0000 * q + r
    ensures LEBytes(u, 2) == LEBytes(r, 2)
  {
    assert u / 256 == 256 * q + r / 256;
    assert (u / 256) % 256 == (r / 256) % 256;
    assert LEBytes(u / 256, 1) == LEBytes(r / 256, 1);
  }

  /** `writeInt16LE` then `readInt16LE` at the same offset gives back every
      value in [-32768, 32767]. */
  lemma Int16RoundTrip(buf: seq<byte>, v: int, offset: int)
    requires -0x8000 <= v < 0x8000
    requires 0 <= offset && offset + 2 <= |buf| && offset < TWO_31
    ensures var w := WriteInt16LE(buf, OfInt(v), offset);
            && w.Ok? && w.value.1 == offset + 2
            && ReadInt16LE(w.value.0, offset) == Ok(v)
  {
    ToInt32OfInt32(offset);
    ToUint32OfUint32(offset);
    Int16Layout(v);
    var w := WriteInt16LE(buf, OfInt(v), offset);
    assert w.value.0[offset..offset + 2] == LE(OfInt(v), 2);
  }

  /** The four bytes stored for a 32-bit value: two's complement, low byte first. */
  lemma Int32Layout(v: int)
    requires -TWO_31 <= v < TWO_31
    ensures FromLE(LE(OfInt(v), 4)) == v % TWO_32
  {
    ToUint32OfInt(v);
    FromLEBytes(v % TWO_32, 4);
  }

  /** `writeInt32LE` then `readInt32LE` at the same offset gives back every
      value in [-2^31, 2^31). */
  lemma Int32RoundTrip(buf: seq<byte>, v: int, offset: int)
    requires -TWO_31 <= v < TWO_31
    requires 0 <= offset && offset + 4 <= |buf| && offset < TWO_31
    ensures var w := WriteInt32LE(buf, OfInt(v), offset);
            && w.Ok? && w.value.1 == offset + 4
            && ReadInt32LE(w.value.0, offset) == Ok(v)
  {
    Int32Written(buf, v, offset);
    Int32Read(WriteInt32LE(buf, OfInt(v), offset).value.0, v, offset);
  }

  /** `writeInt32LE` stores the four bytes of the value at the offset. */
  lemma Int32Written(buf: seq<byte>, v: int, offset: int)
    requires -TWO_31 <= v < TWO_31
    requires 0 <= offset && offset + 4 <= |buf| && offset < TWO_31
    ensures var w := WriteInt32LE(buf, OfInt(v), offset);
            && w.Ok? && w.value.1 == offset + 4 && |w.value.0| == |buf|
            && w.value.0[offset..offset + 4] == LE(OfInt(v), 4)
  {
    ToInt32OfInt32(offset);
  }

  /** `readInt32LE` over the four bytes of a value gives the value. */
  lemma Int32Read(b: seq<byte>, v: int, offset: int)
    requires -TWO_31 <= v < TWO_31
    requires 0 <= offset && offset + 4 <= |b| && offset < TWO_31
    requires b[offset..offset + 4] == LE(OfInt(v), 4)
    ensures ReadInt32LE(b, offset) == Ok(v)
  {
    ToUint32OfUint32(offset);
    Int32Layout(v);
    assert Trunc(offset as real) == offset;
    var u := FromLE(b[offset..offset + 4]);
    hide LE, FromLE;
    assert v < 0 ==> u == v + TWO_32;
    assert v >= 0 ==> u == v;
  }

  /** A 32-bit write changes the four bytes at its offset and nothing else,
      and keeps the buffer's length. */
  lemma Int32WriteFrame(buf: seq<byte>, v: Number, offset: int)
    requires 0 <= offset < TWO_31
    requires WriteInt32LE(buf, v, offset).Ok?
    ensures var b := WriteInt32LE(buf, v, offset).value.0;
            |b| == |buf| && forall k :: 0 <= k < |buf| && !(offset <= k < offset + 4) ==> b[k] == buf[k]
  {
    ToInt32OfInt32(offset);
  }

  /** A value outside the writer's range is refused before the offset is
      looked at, whatever the buffer. */
  lemma WriteRangeErrors(buf: seq<byte>, v: Number, offset: int)
    ensures OutOfRange(v, -0x80, 0x7f) ==> WriteInt8(buf, v, offset) == Err(Range(OUT_OF_BOUNDS))
    ensures OutOfRange(v, 0, 0xff) ==> WriteUInt8(buf, v, offset) == Err(Range(OUT_OF_BOUNDS))
    ensures OutOfRange(v, -0x8000, 0x7fff) ==> WriteInt16LE(buf, v, offset) == Err(Range(OUT_OF_BOUNDS))
    ensures OutOfRange(v, -TWO_31, TWO_31 - 1) ==> WriteInt32LE(buf, v, offset) == Err(Range(OUT_OF_BOUNDS))
  {
  }

  /** An in-range value whose bytes would run past the end fails with
      "Index out of range"; NaN is in range, and is stored as zero. */
  lemma WriteIndexErrors(buf: seq<byte>, v: Number, offset: int)
    requires 0 <= offset < TWO_31
    requires !OutOfRange(v, -TWO_31, TWO_31 - 1) && offset + 4 > |buf|
    ensures WriteInt32LE(buf, v, offset) == Err(Range(INDEX_OUT_OF_RANGE))
  {
    ToInt32OfInt32(offset);
  }

  /** NaN passes every range check and is written as zero bytes. */
  lemma NaNWritesZero(buf: seq<byte>, offset: int)
    requires 0 <= offset && offset + 4 <= |buf| && offset < TWO_31
    ensures WriteInt32LE(buf, NaN, offset).Ok?
    ensures ReadInt32LE(WriteInt32LE(buf, NaN, offset).value.0, offset) == Ok(0)
  {
    ToInt32OfInt32(offset);
    ToUint32OfUint32(offset);
    FromLEBytes(0, 4);
    var w := WriteInt32LE(buf, NaN, offset);
    assert w.value.0[offset..offset + 4] == LE(NaN, 4);
  }

  /** Reading at a negative offset is refused (as not a uint) for the 8-bit
      readers; the wider readers wrap the offset to a large unsigned one and
      so run past the end instead. */
  lemma ReadNegativeOffset(buf: seq<byte>, offset: int)
    requires -TWO_31 <= offset < 0 && |buf| < TWO_31
    ensures ReadInt8(buf, offset) == Err(Range(NOT_UINT))
    ensures ReadInt32LE(buf, offset) == Err(Range(BEYOND_LENGTH))
  {
    ToUint32OfInt(offset);
    ToUint32OfUint32(offset + TWO_32);
  }
}
