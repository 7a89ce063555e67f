/** 64-bit integers as the pair of 32-bit halves the `Long` class keeps:
    the value of a pair, and the pair `Long.fromNumber` builds from an
    integer. */
module Long64 {
  import opened JsNum

  const TWO_63: int := 0x8000_0000_0000_0000
  const TWO_64: int := 0x1_0000_0000_0000_0000

  predicate IsInt32(i: int) { -TWO_31 <= i < TWO_31 }

  /** The signed 64-bit value of a (low, high) pair: high is the signed upper
      word, low the unsigned lower word. */
  function Value(low: int, high: int): int {
    high * TWO_32 + low % TWO_32
  }

  /** Saturation at the 64-bit bounds, as `fromNumber` maps anything at or
      below -2^63 to the minimum and anything at or above 2^63 - 1 to the
      maximum. */
  function Saturate(n: int): (s: int)
    ensures -TWO_63 <= s < TWO_63
    ensures -TWO_63 <= n < TWO_63 ==> s == n
  {
    if n < -TWO_63 then -TWO_63 else if n >= TWO_63 then TWO_63 - 1 else n
  }

  /** The halves `Long.fromNumber(n)` holds for an integer `n`. */
  function Split(n: int): (h: (int, int))
    ensures IsInt32(h.0) && IsInt32(h.1)
    ensures Value(h.0, h.1) == Saturate(n)
  {
    var s := Saturate(n);
    var u := s % TWO_64;
    var lo := u % TWO_32;
    var hi := u / TWO_32;
    assert u == hi * TWO_32 + lo;
    var low := if lo >= TWO_31 then lo - TWO_32 else lo;
    var high := if hi >= TWO_31 then hi - TWO_32 else hi;
    assert low % TWO_32 == lo;
    assert s == u || s == u - TWO_64;
    (low, high)
  }

  /** Splitting the value of a pair of int32 halves gives the pair back. */
  lemma SplitValue(low: int, high: int)
    requires IsInt32(low) && IsInt32(high)
    ensures Split(Value(low, high)) == (low, high)
  {
    var v := Value(low, high);
    assert -TWO_63 <= v < TWO_63;
    var h := Split(v);
    assert h.1 * TWO_32 + h.0 % TWO_32 == high * TWO_32 + low % TWO_32;
    assert h.0 % TWO_32 == low % TWO_32 by {
      assert (h.0 % TWO_32 - low % TWO_32) % TWO_32 == 0;
    }
    assert h.1 == high;
  }
}
