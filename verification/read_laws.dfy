/** What the buffer readers return at a cursor where known bytes sit: the
    reading half of every round trip. A buffer is at most 0x7fffffff bytes
    long (`Buffer.alloc`'s limit), so the 32-bit coercions the readers apply
    to offsets change nothing. */
module ReadLaws {
  import opened JsNum
  import opened Errors
  import opened ByteBuf
  import opened Long64
  import opened Registry
  import opened Decoder
  import Laws = ByteBufLaws

  const MAX_BUFFER: int := 0x7fff_ffff

  /** The bytes `bs` sit in `b` at `pos`. */
  predicate At(b: seq<byte>, pos: int, bs: seq<byte>) {
    0 <= pos && pos + |bs| <= |b| && b[pos..pos + |bs|] == bs
  }

  predicate Fits(b: seq<byte>) { |b| <= MAX_BUFFER }

  lemma AtSplit(b: seq<byte>, pos: int, x: seq<byte>, y: seq<byte>)
    requires At(b, pos, x + y)
    ensures At(b, pos, x) && At(b, pos + |x|, y)
  {
    assert b[pos..pos + |x|] == (x + y)[..|x|];
    assert b[pos + |x|..pos + |x| + |y|] == (x + y)[|x|..];
  }

  lemma AtIndex(b: seq<byte>, pos: int, bs: seq<byte>, k: int)
    requires At(b, pos, bs) && 0 <= k < |bs|
    ensures b[pos + k] == bs[k]
  {
    assert b[pos..pos + |bs|][k] == b[pos + k];
  }

  /** A tag byte reads back as the signed value written. */
  lemma ReadInt8At(b: seq<byte>, pos: int, i: int)
    requires -0x80 <= i < 0x80 && 0 <= pos < |b|
    requires b[pos] == (if i < 0 then i + 256 else i)
    ensures ReadInt8(b, pos) == Ok(i)
  {
    assert CheckOffset(OfInt(pos), 1, |b|).Ok? by {
      assert Trunc(pos as real) == pos;
    }
  }

  lemma ReadUInt8At(b: seq<byte>, pos: int)
    requires 0 <= pos < |b|
    ensures ReadUInt8(b, pos) == Ok(b[pos])
  {
    assert Trunc(pos as real) == pos;
  }

  /** The four bytes `writeInt32LE` stores read back as the value written. */
  lemma ReadInt32At(b: seq<byte>, pos: int, v: int)
    requires IsInt32(v) && At(b, pos, LE(OfInt(v), 4)) && pos < TWO_31
    ensures ReadInt32LE(b, pos) == Ok(v)
  {
    Laws.Int32Read(b, v, pos);
  }

  /** The two bytes `writeInt16LE` stores read back as the value written. */
  lemma ReadInt16At(b: seq<byte>, pos: int, v: int)
    requires -0x8000 <= v < 0x8000 && At(b, pos, LE(OfInt(v), 2)) && pos < TWO_31
    ensures ReadInt16LE(b, pos) == Ok(v)
  {
    ToUint32OfUint32(pos);
    assert Trunc(pos as real) == pos;
    Laws.Int16Layout(v);
  }

  /** A count or a length written with `wn(4, n)` reads back as the number
      `n` unless it is the 32-bit infinity. */
  lemma ReadCountAt(b: seq<byte>, pos: int, n: int)
    requires 0 <= n < INT_INFINITY && At(b, pos, LE(OfInt(n), 4)) && pos < TWO_31
    ensures ReadInt(b, pos) == Ok(OfInt(n))
  {
    ReadInt32At(b, pos, n);
  }

  /** Two int32 halves read back as that `Long`, or as infinity for a
      sentinel pair. */
  lemma ReadLongAt(b: seq<byte>, pos: int, low: int, high: int)
    requires IsInt32(low) && IsInt32(high)
    requires At(b, pos, LE(OfInt(low), 4) + LE(OfInt(high), 4)) && pos + 4 < TWO_31
    ensures ReadLong(b, pos) == Ok(if low == -1 && high == INT_INFINITY then WPosInf
                                   else if low == 1 && high == INT_NULL then WNegInf
                                   else WLong(low, high))
  {
    AtSplit(b, pos, LE(OfInt(low), 4), LE(OfInt(high), 4));
    ReadInt32At(b, pos, low);
    ReadInt32At(b, pos + 4, high);
  }

  /** `indexOf(byte, pos)` inside the buffer searches forward from `pos`. */
  lemma IndexOfFrom(b: seq<byte>, target: byte, pos: int)
    requires 0 <= pos < |b| && Fits(b)
    ensures IndexOf(b, 1, target, OfInt(pos)) == FirstIndex(b, target, pos)
  {
    assert Trunc(pos as real) == pos;
  }

  /** `slice(s, e)` inside the buffer is the plain sub-sequence. */
  lemma SliceWithin(b: seq<byte>, s: int, e: int)
    requires 0 <= s <= e <= |b| && Fits(b)
    ensures Slice(b, s, Some(e)) == b[s..e]
  {
    ToInt32OfInt32(s);
    ToInt32OfInt32(e);
  }

  /** `slice(s, e)` with `e` at or past the end of the buffer stops at the
      last byte. */
  lemma SliceToEnd(b: seq<byte>, s: int, e: int)
    requires 0 <= s <= |b| <= e < TWO_31
    ensures Slice(b, s, Some(e)) == b[s..]
  {
  }

  predicate NoZero(bs: seq<byte>) { forall k :: 0 <= k < |bs| ==> bs[k] != 0 }

  /** Text without a zero byte and its terminator read back as that text,
      with the cursor after the terminator. */
  lemma ReadSymbolAt(b: seq<byte>, pos: int, bs: seq<byte>)
    requires At(b, pos, bs + [0]) && NoZero(bs) && Fits(b)
    ensures ReadSymbol(b, pos) == Ok((DText(bs), pos + |bs| + 1))
  {
    IndexOfFrom(b, 0, pos);
    var e := FirstIndex(b, 0, pos);
    AtIndex(b, pos, bs + [0], |bs|);
    forall k | pos <= k < pos + |bs| ensures b[k] != 0 {
      AtIndex(b, pos, bs + [0], k - pos);
    }
    assert e == pos + |bs|;
    SliceWithin(b, pos, e);
    assert b[pos..e] == (bs + [0])[..|bs|];
  }

  /** The text of a string read at a cursor: exactly the next `n` bytes. */
  lemma TextAt(b: seq<byte>, pos: int, bs: seq<byte>)
    requires At(b, pos, bs) && Fits(b)
    ensures Slice(b, pos, Some(pos + |bs|)) == bs
  {
    SliceWithin(b, pos, pos + |bs|);
  }
}
