/** JavaScript numbers and the integer coercions the codec relies on
    (`ToInt32`, `ToUint32`, truncation toward zero). A finite number is a
    Dafny `real`, so fractional values and the coercions that drop their
    fraction are stated exactly; floating-point rounding is not modelled. */
module JsNum {

  /** One byte of a buffer, as an integer in [0, 256). */
  type byte = x: int | 0 <= x < 256

  const TWO_32: int := 0x1_0000_0000
  const TWO_31: int := 0x8000_0000

  /** A value that may be absent. */
  datatype Option<T> = None | Some(value: T)

  datatype Number = Fin(r: real) | PosInf | NegInf | NaN {
    predicate IsInfinite() { PosInf? || NegInf? }
  }

  /** A number holding the integer `i`. */
  function OfInt(i: int): Number { Fin(i as real) }

  /** Truncation toward zero, as `ToIntegerOrInfinity` does for finite values. */
  function Trunc(r: real): (t: int)
    ensures r >= 0.0 ==> t as real <= r < t as real + 1.0
    ensures r < 0.0 ==> t as real - 1.0 < r <= t as real
  {
    if r >= 0.0 then r.Floor else -((-r).Floor)
  }

  /** The JavaScript `ToUint32` coercion (`x >>> 0`). */
  function ToUint32(n: Number): (u: int)
    ensures 0 <= u < TWO_32
    ensures n.Fin? ==> (u - Trunc(n.r)) % TWO_32 == 0
    ensures !n.Fin? ==> u == 0
  {
    if n.Fin? then Trunc(n.r) % TWO_32 else 0
  }

  /** The JavaScript `ToInt32` coercion (`x | 0`). */
  function ToInt32(n: Number): (i: int)
    ensures -TWO_31 <= i < TWO_31
    ensures (i - ToUint32(n)) % TWO_32 == 0
    ensures n.Fin? && n.r == n.r.Floor as real && -TWO_31 <= n.r.Floor < TWO_31 ==> i == n.r.Floor
  {
    var u := ToUint32(n);
    if u >= TWO_31 then u - TWO_32 else u
  }

  /** `value > max || value < min` on a JavaScript number: NaN compares false. */
  predicate OutOfRange(n: Number, min: int, max: int) {
    match n
    case Fin(r) => r > max as real || r < min as real
    case PosInf => true
    case NegInf => true
    case NaN => false
  }

  /** Integers already in the 32-bit range are fixed points of `ToInt32`. */
  lemma ToInt32OfInt32(i: int)
    requires -TWO_31 <= i < TWO_31
    ensures ToInt32(OfInt(i)) == i
  {
    assert Trunc(i as real) == i;
  }

  /** On non-negative integers below 2^32, `ToUint32` is the identity. */
  lemma ToUint32OfUint32(i: int)
    requires 0 <= i < TWO_32
    ensures ToUint32(OfInt(i)) == i
  {
    assert Trunc(i as real) == i;
  }

  /** One more item of width `k`. */
  lemma MulStep(count: int, k: int)
    ensures (count - 1) * k + k == count * k
  {
  }
}
