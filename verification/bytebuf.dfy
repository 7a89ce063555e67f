/** The byte buffer the codec writes into and reads from: allocation, the
    bounds-checked little-endian integer writers and readers, `slice` and
    `indexOf`. A buffer is a value (`seq<byte>`); a write returns the new
    buffer together with the offset after the written bytes. */
module ByteBuf {
  import opened JsNum
  import opened Errors

  /** The argument of `alloc(size)`: omitted, a number, or anything else. */
  datatype SizeArg = Omitted | SizeNum(n: Number) | NotANumber

  /** `checkSize`: a number, not negative, at most 0x7fffffff. */
  function CheckSize(size: SizeArg): (r: Result<nat>)
    ensures size.NotANumber? ==> r == Err(TypeErr("\"size\" argument must be a number"))
    ensures r.Ok? ==> r.value <= 0x7fffffff
    ensures size.SizeNum? && size.n.Fin? && 0.0 <= size.n.r <= 0x7fffffff as real ==> r == Ok(Trunc(size.n.r))
  {
    match size
    case Omitted => Ok(0)
    case NotANumber => Err(TypeErr("\"size\" argument must be a number"))
    case SizeNum(n) =>
      if n.NegInf? || (n.Fin? && n.r < 0.0) then Err(Range("\"size\" argument must not be negative"))
      else if n.PosInf? || (n.Fin? && n.r > 0x7fffffff as real) then Err(Range("Invalid typed array length"))
      else if n.NaN? then Ok(0)
      else Ok(Trunc(n.r))
  }

  function Zeros(n: nat): (z: seq<byte>)
    ensures |z| == n && forall k :: 0 <= k < n ==> z[k] == 0
  {
    if n == 0 then [] else Zeros(n - 1) + [0]
  }

  /** `Buffer.alloc(size = 0)`: `size` zero bytes. */
  function Alloc(size: SizeArg): (r: Result<seq<byte>>)
    ensures size.Omitted? ==> r == Ok([])
    ensures r.Ok? ==> CheckSize(size).Ok? && |r.value| == CheckSize(size).value
    ensures r.Ok? ==> forall k :: 0 <= k < |r.value| ==> r.value[k] == 0
    ensures CheckSize(size).Err? ==> r.Err? && r.error == CheckSize(size).error
  {
    var n :- CheckSize(size);
    Ok(Zeros(n))
  }

  /** `checkInt`: the value range first, then offset + ext against the length. */
  function CheckInt(len: nat, value: Number, offset: int, ext: nat, max: int, min: int): (r: Result<()>)
    ensures r.Ok? <==> !OutOfRange(value, min, max) && offset + ext <= len
    ensures OutOfRange(value, min, max) ==> r == Err(Range(OUT_OF_BOUNDS))
  {
    if OutOfRange(value, min, max) then Err(Range(OUT_OF_BOUNDS))
    else if offset + ext > len then Err(Range(INDEX_OUT_OF_RANGE))
    else Ok(())
  }

  /** `checkOffset`: a non-negative integer offset, then offset + ext against the length. */
  function CheckOffset(offset: Number, ext: nat, len: nat): (r: Result<()>)
    ensures r.Ok? <==> offset.Fin? && offset.r == Trunc(offset.r) as real && offset.r >= 0.0
                       && offset.r + ext as real <= len as real
    ensures !(offset.Fin? && offset.r == Trunc(offset.r) as real && offset.r >= 0.0) ==> r == Err(Range(NOT_UINT))
  {
    if !(offset.Fin? && offset.r == Trunc(offset.r) as real && offset.r >= 0.0) then Err(Range(NOT_UINT))
    else if offset.r + ext as real > len as real then Err(Range(BEYOND_LENGTH))
    else Ok(())
  }

  /** Storing into a typed array: an index outside the array is ignored. */
  function Put(buf: seq<byte>, i: int, b: byte): (r: seq<byte>)
    ensures |r| == |buf|
    ensures forall k :: 0 <= k < |buf| ==> r[k] == (if k == i then b else buf[k])
  {
    if 0 <= i < |buf| then buf[i := b] else buf
  }

  /** Stores `bytes` from index `off` on, one `Put` per byte. */
  function Splice(buf: seq<byte>, off: int, bytes: seq<byte>): (r: seq<byte>)
    ensures |r| == |buf|
    ensures forall k :: 0 <= k < |buf| ==> r[k] == (if off <= k < off + |bytes| then bytes[k - off] else buf[k])
    decreases |bytes|
  {
    if |bytes| == 0 then buf
    else Splice(Put(buf, off, bytes[0]), off + 1, bytes[1..])
  }

  /** The byte `writeInt8` stores: a negative value is first shifted by 256,
      so an integer in [-128, 127] is stored as its two's complement. */
  function Int8Byte(value: Number): (b: byte)
    ensures value.Fin? && value.r == value.r.Floor as real && -128 <= value.r.Floor < 128
            ==> b == value.r.Floor % 256
    ensures value.NaN? ==> b == 0
  {
    ToUint32(if value.Fin? && value.r < 0.0 then Fin(value.r + 256.0) else value) % 256
  }

  /** The `width` low-order bytes of `u`, least significant first: byte k is
      `(u >>> 8k) & 0xff`. */
  function LEBytes(u: nat, width: nat): (bs: seq<byte>)
    ensures |bs| == width
    ensures FromLE(bs) == u % Pow256(width)
  {
    if width == 0 then []
    else
      ModSplit(u, Pow256(width - 1));
      [u % 256] + LEBytes(u / 256, width - 1)
  }

  /** The low byte of `u` and the rest below `p` make up `u` below `256 p`. */
  lemma ModSplit(u: nat, p: nat)
    requires p >= 1
    ensures u % 256 + 256 * ((u / 256) % p) == u % (256 * p)
  {
    var q, r := u / 256, u % 256;
    var a, b := q / p, q % p;
    assert q == p * a + b;
    assert u == (256 * p) * a + (256 * b + r);
    assert 0 <= 256 * b + r < 256 * p;
    DivModUnique(u, 256 * p, a, 256 * b + r);
  }

  /** The quotient and remainder of a division are the only ones. */
  lemma DivModUnique(u: int, d: int, a: int, m: int)
    requires d > 0 && u == d * a + m && 0 <= m < d
    ensures u % d == m
  {
    var x := a - u / d;
    assert d * x == u % d - m;
    SmallMultiple(d, x);
  }

  /** A multiple of `d` strictly between `-d` and `d` is zero. */
  lemma SmallMultiple(d: int, x: int)
    requires d > 0 && -d < d * x < d
    ensures x == 0
  {
    assert x >= 1 ==> d * x >= d * 1;
    assert x <= -1 ==> d * x <= d * -1;
  }

  /** The unsigned integer a little-endian byte run spells. */
  function FromLE(bs: seq<byte>): (u: nat)
    ensures u < Pow256(|bs|)
  {
    if |bs| == 0 then 0 else bs[0] + 256 * FromLE(bs[1..])
  }

  /** Little-endian bytes put end to end: the second run counts in units
      of 256 to the length of the first. */
  lemma {:induction false} FromLEConcat(a: seq<byte>, b: seq<byte>)
    ensures FromLE(a + b) == FromLE(a) + Pow256(|a|) * FromLE(b)
    decreases |a|
  {
    if |a| > 0 {
      assert (a + b)[1..] == a[1..] + b;
      FromLEConcat(a[1..], b);
      assert Pow256(|a|) == 256 * Pow256(|a| - 1);
      Shift(FromLE(a[1..]), Pow256(|a| - 1), FromLE(b));
      assert FromLE(a + b) == a[0] + 256 * FromLE(a[1..] + b);
    } else {
      assert a + b == b;
    }
  }

  /** One more byte below shifts the rest up by 256. */
  lemma Shift(x: int, p: int, f: int)
    ensures 256 * (x + p * f) == 256 * x + (256 * p) * f
  {
    assert 256 * (p * f) == (256 * p) * f;
  }

  function Pow256(k: nat): (p: nat)
    ensures p >= 1
  {
    if k == 0 then 1 else 256 * Pow256(k - 1)
  }

  /** The bytes `value & 0xff`, `value >>> 8`, ... store: the low bytes of `ToUint32(value)`. */
  function LE(value: Number, width: nat): (bs: seq<byte>)
    ensures |bs| == width
    ensures FromLE(bs) == ToUint32(value) % Pow256(width)
  {
    LEBytes(ToUint32(value), width)
  }

  /** The one byte `writeInt8` stores, or the out-of-bounds error. */
  function Int8Bytes(value: Number): (r: Result<seq<byte>>)
    ensures r.Ok? <==> !OutOfRange(value, -0x80, 0x7f)
    ensures r.Ok? ==> r.value == [Int8Byte(value)]
  {
    if OutOfRange(value, -0x80, 0x7f) then Err(Range(OUT_OF_BOUNDS)) else Ok([Int8Byte(value)])
  }

  /** The one byte `writeUInt8` stores, or the out-of-bounds error. */
  function UInt8Bytes(value: Number): (r: Result<seq<byte>>)
    ensures r.Ok? <==> !OutOfRange(value, 0, 0xff)
    ensures r.Ok? ==> r.value == LE(value, 1)
  {
    if OutOfRange(value, 0, 0xff) then Err(Range(OUT_OF_BOUNDS)) else Ok(LE(value, 1))
  }

  /** The two bytes `writeInt16LE` stores, or the out-of-bounds error. */
  function Int16Bytes(value: Number): (r: Result<seq<byte>>)
    ensures r.Ok? <==> !OutOfRange(value, -0x8000, 0x7fff)
    ensures r.Ok? ==> r.value == LE(value, 2)
  {
    if OutOfRange(value, -0x8000, 0x7fff) then Err(Range(OUT_OF_BOUNDS)) else Ok(LE(value, 2))
  }

  /** The four bytes `writeInt32LE` stores, or the out-of-bounds error. */
  function Int32Bytes(value: Number): (r: Result<seq<byte>>)
    ensures r.Ok? <==> !OutOfRange(value, -0x8000_0000, 0x7fff_ffff)
    ensures r.Ok? ==> r.value == LE(value, 4)
  {
    if OutOfRange(value, -0x8000_0000, 0x7fff_ffff) then Err(Range(OUT_OF_BOUNDS)) else Ok(LE(value, 4))
  }

  /** A checked write of `bytes` (already range-checked) at `offset | 0`. */
  function Store(buf: seq<byte>, bytes: Result<seq<byte>>, offset: int): (r: Result<(seq<byte>, int)>)
    ensures bytes.Err? ==> r == Err(bytes.error)
    ensures bytes.Ok? && ToInt32(OfInt(offset)) + |bytes.value| > |buf| ==> r == Err(Range(INDEX_OUT_OF_RANGE))
    ensures r.Ok? ==> bytes.Ok? && r.value.0 == Splice(buf, ToInt32(OfInt(offset)), bytes.value)
                      && r.value.1 == ToInt32(OfInt(offset)) + |bytes.value|
  {
    var bs :- bytes;
    var off := ToInt32(OfInt(offset));
    if off + |bs| > |buf| then Err(Range(INDEX_OUT_OF_RANGE)) else Ok((Splice(buf, off, bs), off + |bs|))
  }

  function WriteInt8(buf: seq<byte>, value: Number, offset: int): (r: Result<(seq<byte>, int)>)
    ensures r.Ok? <==> !OutOfRange(value, -0x80, 0x7f) && ToInt32(OfInt(offset)) + 1 <= |buf|
    ensures OutOfRange(value, -0x80, 0x7f) ==> r == Err(Range(OUT_OF_BOUNDS))
    ensures r.Ok? ==> r.value.0 == Splice(buf, ToInt32(OfInt(offset)), [Int8Byte(value)])
                      && r.value.1 == ToInt32(OfInt(offset)) + 1
  {
    Store(buf, Int8Bytes(value), offset)
  }

  function WriteUInt8(buf: seq<byte>, value: Number, offset: int): (r: Result<(seq<byte>, int)>)
    ensures r.Ok? <==> !OutOfRange(value, 0, 0xff) && ToInt32(OfInt(offset)) + 1 <= |buf|
    ensures OutOfRange(value, 0, 0xff) ==> r == Err(Range(OUT_OF_BOUNDS))
    ensures r.Ok? ==> r.value.0 == Splice(buf, ToInt32(OfInt(offset)), LE(value, 1))
                      && r.value.1 == ToInt32(OfInt(offset)) + 1
  {
    Store(buf, UInt8Bytes(value), offset)
  }

  function WriteInt16LE(buf: seq<byte>, value: Number, offset: int): (r: Result<(seq<byte>, int)>)
    ensures r.Ok? <==> !OutOfRange(value, -0x8000, 0x7fff) && ToInt32(OfInt(offset)) + 2 <= |buf|
    ensures OutOfRange(value, -0x8000, 0x7fff) ==> r == Err(Range(OUT_OF_BOUNDS))
    ensures r.Ok? ==> r.value.0 == Splice(buf, ToInt32(OfInt(offset)), LE(value, 2))
                      && r.value.1 == ToInt32(OfInt(offset)) + 2
  {
    Store(buf, Int16Bytes(value), offset)
  }

  function WriteInt32LE(buf: seq<byte>, value: Number, offset: int): (r: Result<(seq<byte>, int)>)
    ensures r.Ok? <==> !OutOfRange(value, -0x8000_0000, 0x7fff_ffff) && ToInt32(OfInt(offset)) + 4 <= |buf|
    ensures OutOfRange(value, -0x8000_0000, 0x7fff_ffff) ==> r == Err(Range(OUT_OF_BOUNDS))
    ensures r.Ok? ==> r.value.0 == Splice(buf, ToInt32(OfInt(offset)), LE(value, 4))
                      && r.value.1 == ToInt32(OfInt(offset)) + 4
  {
    Store(buf, Int32Bytes(value), offset)
  }

  /** `readInt8`: the byte at `offset`, sign-extended. */
  function ReadInt8(buf: seq<byte>, offset: int): (r: Result<int>)
    ensures r.Ok? <==> 0 <= offset < |buf|
    ensures offset < 0 ==> r == Err(Range(NOT_UINT))
    ensures r.Ok? ==> -128 <= r.value < 128 && (r.value - buf[offset]) % 256 == 0
  {
    var _ :- CheckOffset(OfInt(offset), 1, |buf|);
    var b: int := buf[offset];
    if b < 0x80 then Ok(b) else Ok(b - 256)
  }

  /** `readUInt8`: the byte at `offset`. */
  function ReadUInt8(buf: seq<byte>, offset: int): (r: Result<int>)
    ensures r.Ok? <==> 0 <= offset < |buf|
    ensures offset < 0 ==> r == Err(Range(NOT_UINT))
    ensures r.Ok? ==> r.value == buf[offset]
  {
    var _ :- CheckOffset(OfInt(offset), 1, |buf|);
    Ok(buf[offset])
  }

  /** `readInt16LE`: the offset goes through `>>> 0` first, then two bytes,
      low byte first, sign-extended from bit 15. */
  function ReadInt16LE(buf: seq<byte>, offset: int): (r: Result<int>)
    ensures 0 <= offset && offset + 2 <= |buf| ==> r.Ok?
    ensures r.Ok? ==> -0x8000 <= r.value < 0x8000
  {
    var off := ToUint32(OfInt(offset));
    var _ :- CheckOffset(OfInt(off), 2, |buf|);
    var v := FromLE(buf[off..off + 2]);
    if v >= 0x8000 then Ok(v - 0x1_0000) else Ok(v)
  }

  /** `readInt32LE`: the offset goes through `>>> 0` first, then four bytes,
      low byte first, read as a signed 32-bit integer. */
  function ReadInt32LE(buf: seq<byte>, offset: int): (r: Result<int>)
    ensures 0 <= offset && offset + 4 <= |buf| ==> r.Ok?
    ensures r.Ok? ==> -TWO_31 <= r.value < TWO_31
  {
    var off := ToUint32(OfInt(offset));
    var _ :- CheckOffset(OfInt(off), 4, |buf|);
    var v := FromLE(buf[off..off + 4]);
    if v >= TWO_31 then Ok(v - TWO_32) else Ok(v)
  }

  /** A `slice` bound: counted from the end when negative, then clamped to
      [0, len]. */
  function FromEnd(v: int, len: nat): (b: nat)
    ensures b <= len
    ensures 0 <= v <= len ==> b == v
    ensures v > len ==> b == len
    ensures 0 <= len + v && v < 0 ==> b == len + v
    ensures v + len < 0 ==> b == 0
  {
    if v < 0 then (if v + len < 0 then 0 else v + len) else if v > len then len else v
  }

  /** `slice(start, end)`: both ends through `~~`, negatives counted from the
      end, clamped to [0, length], and an end before the start made empty. */
  function SliceBounds(len: nat, start: int, end: Option<int>): (se: (nat, nat))
    ensures se.0 <= se.1 <= len
    ensures se.0 == FromEnd(ToInt32(OfInt(start)), len)
    ensures end.None? ==> se.1 == len
    ensures end.Some? ==> var e := FromEnd(ToInt32(OfInt(end.value)), len);
                          se.1 == if e < se.0 then se.0 else e
    ensures -TWO_31 <= start < TWO_31 ==> se.0 == FromEnd(start, len)
    ensures end.Some? && -TWO_31 <= end.value < TWO_31 && se.0 <= FromEnd(end.value, len) ==> se.1 == FromEnd(end.value, len)
    ensures end.Some? && -TWO_31 <= end.value < TWO_31 && FromEnd(end.value, len) <= se.0 ==> se.1 == se.0
  {
    Int32Bound(start);
    Int32Bound(if end.Some? then end.value else 0);
    var s := FromEnd(ToInt32(OfInt(start)), len);
    var e := if end.None? then len else FromEnd(ToInt32(OfInt(end.value)), len);
    if e < s then (s, s) else (s, e)
  }

  /** A bound already in the 32-bit range passes `~~` unchanged. */
  lemma Int32Bound(v: int)
    ensures -TWO_31 <= v < TWO_31 ==> ToInt32(OfInt(v)) == v
  {
    if -TWO_31 <= v < TWO_31 {
      ToInt32OfInt32(v);
    }
  }

  /** `slice(start, end)`: for 32-bit bounds, the bytes from `start` up to
      `end` (or to the end of the buffer when `end` is omitted or past it),
      a negative bound counting from the end and stopping at the first byte,
      and nothing when the start is at or past the end of the buffer or the
      end, so placed, is not after the start. */
  function Slice(buf: seq<byte>, start: int, end: Option<int>): (r: seq<byte>)
    ensures end.Some? && 0 <= start <= end.value <= |buf| && end.value < TWO_31 ==> r == buf[start..end.value]
    ensures end.None? && 0 <= start <= |buf| && start < TWO_31 ==> r == buf[start..]
    ensures end.None? && -|buf| <= start < 0 && -TWO_31 <= start ==> r == buf[|buf| + start..]
    ensures end.None? && -TWO_31 <= start < -|buf| ==> r == buf
    ensures |buf| <= start < TWO_31 ==> r == []
    ensures end.Some? && 0 <= end.value <= start < TWO_31 ==> r == []
    ensures end.Some? && 0 <= start <= |buf| <= end.value < TWO_31 ==> r == buf[start..]
    ensures end.Some? && 0 <= start < TWO_31 && -|buf| <= end.value < 0 && -TWO_31 <= end.value && start <= |buf| + end.value ==>
              r == buf[start..|buf| + end.value]
    ensures end.Some? && 0 <= start < TWO_31 && -TWO_31 <= end.value < 0 && |buf| + end.value <= start ==> r == []
    ensures end.Some? && -|buf| <= start < 0 && -TWO_31 <= start && |buf| + start <= end.value <= |buf| && end.value < TWO_31 ==>
              r == buf[|buf| + start..end.value]
    ensures end.Some? && -|buf| <= start < 0 && -TWO_31 <= start && |buf| <= end.value < TWO_31 ==>
              r == buf[|buf| + start..]
    ensures end.Some? && -|buf| <= start <= end.value < 0 && -TWO_31 <= start ==>
              r == buf[|buf| + start..|buf| + end.value]
    ensures end.Some? && -|buf| <= start < 0 && -TWO_31 <= start && 0 <= end.value <= |buf| + start && end.value < TWO_31 ==> r == []
    ensures end.Some? && -TWO_31 <= end.value <= start < 0 ==> r == []
    ensures end.Some? && -TWO_31 <= start < -|buf| && 0 <= end.value <= |buf| ==> r == buf[..end.value]
    ensures end.Some? && -TWO_31 <= start < -|buf| && -|buf| <= end.value < 0 ==> r == buf[..|buf| + end.value]
    ensures end.Some? && -TWO_31 <= start < -|buf| && |buf| <= end.value < TWO_31 ==> r == buf
    ensures end.Some? && -TWO_31 <= start < -|buf| && -TWO_31 <= end.value < -|buf| ==> r == []
    ensures |r| <= |buf|
  {
    var (s, e) := SliceBounds(|buf|, start, end);
    buf[s..e]
  }

  /** The first index at or after `from` holding `target`, or -1. */
  function FirstIndex(buf: seq<byte>, target: byte, from: nat): (r: int)
    ensures r == -1 || (from <= r < |buf| && buf[r] == target)
    ensures forall k :: from <= k < |buf| && (r == -1 || k < r) ==> buf[k] != target
    decreases |buf| - from
  {
    if from >= |buf| then -1
    else if buf[from] == target then from
    else FirstIndex(buf, target, from + 1)
  }

  /** `indexOf(needle, offset)` for a needle of `needleLen` bytes that
      coerces to the byte `target`: an empty buffer, an offset still negative
      after adding the length, or an empty needle give -1; NaN or an offset
      at or past the end start the search at the last byte. */
  function IndexOf(buf: seq<byte>, needleLen: nat, target: byte, offset: Number): (r: int)
    ensures |buf| == 0 || needleLen == 0 ==> r == -1
    ensures r == -1 || (0 <= r < |buf| && buf[r] == target)
    ensures offset.Fin? && offset.r == 0.0 && needleLen > 0 ==> r == FirstIndex(buf, target, 0)
    ensures needleLen > 0 && offset.Fin? && 0.0 <= offset.r < |buf| as real && offset.r <= 0x7fffffff as real
            ==> r == FirstIndex(buf, target, Trunc(offset.r))
    ensures needleLen > 0 && offset.Fin? && -0x8000_0000 as real <= offset.r < 0.0 && 0.0 <= offset.r + |buf| as real
            ==> r == FirstIndex(buf, target, Trunc(offset.r + |buf| as real))
    ensures offset.Fin? && -0x8000_0000 as real <= offset.r && offset.r + |buf| as real < 0.0 ==> r == -1
    ensures needleLen > 0 && 0 < |buf| < TWO_31 && (offset.NaN? || (offset.Fin? && offset.r >= |buf| as real))
            ==> r == (if buf[|buf| - 1] == target then |buf| - 1 else -1)
  {
    if |buf| == 0 then -1
    else
      var o :=
        match offset
        case NaN => (|buf| - 1) as real
        case PosInf => 0x7fffffff as real
        case NegInf => -0x8000_0000 as real
        case Fin(x) => if x > 0x7fffffff as real then 0x7fffffff as real
                       else if x < -0x8000_0000 as real then -0x8000_0000 as real else x;
      var o' := if o < 0.0 then o + |buf| as real else o;
      if o' < 0.0 then -1
      else if needleLen == 0 then -1
      else
        var start := if o' >= |buf| as real then |buf| - 1 else Trunc(o');
        assert FirstIndex(buf, target, |buf|) == -1;
        FirstIndex(buf, target, start)
  }
}
