/** The encoder: the payload writer of each scalar type, the `w`
    dispatcher over the value tree, and the framed message. Every writer
    returns the bytes it appends; the buffer they land in is `Encode`'s. */
module Encoder {
  import opened JsNum
  import opened Utf8
  import opened Registry
  import opened Values
  import opened Errors
  import opened ByteBuf
  import opened Calendar
  import opened Long64
  import opened Foreign
  import Laws = ByteBufLaws

  /** `wb(i)` for a constant tag: the byte `writeInt8` stores for `i`. */
  function Tag(i: int): (b: byte)
    requires -0x80 <= i < 0x80
    ensures b == (if i < 0 then i + 256 else i)
  {
    Laws.ToUint32OfInt(if i < 0 then i + 256 else i);
    assert (if i < 0 then Fin(i as real + 256.0) else OfInt(i)) == OfInt(if i < 0 then i + 256 else i);
    Int8Byte(OfInt(i))
  }

  /** `wn(4, n)` for a count or a length. */
  function Count(n: nat): (r: Result<seq<byte>>)
    ensures r.Ok? <==> n < TWO_31
    ensures r.Ok? ==> r.value == LE(OfInt(n), 4) && |r.value| == 4
  {
    Int32Bytes(OfInt(n))
  }

  /** Unary `+` where the model has it. */
  function Coerce(x: Val): (r: Result<Number>)
    ensures x.Num? ==> r == Ok(x.n)
    ensures x.Bool? ==> r == Ok(OfInt(if x.b then 1 else 0))
    ensures x.Null? ==> r == Ok(OfInt(0))
    ensures x.Undefined? ==> r == Ok(NaN)
    ensures x.Instant? ==> r == Ok(OfInt(x.ms))
  {
    match ToNumber(x)
    case Some(n) => Ok(n)
    case None => Err(Unmodelled("numeric value of a string or object"))
  }

  /** The property `key` of an object: its first field of that name, or
      `undefined`. */
  function Property(fields: seq<Field>, key: JsString): Val {
    if |fields| == 0 then Undefined
    else if fields[0].key == key then fields[0].val
    else Property(fields[1..], key)
  }

  /** `x.low` / `x.high` for the long writer on a value that is neither null
      nor undefined: a `Long` instance's halves, a plain object's
      properties, and nothing on any other value. */
  function LongHalf(x: Val, key: JsString): Val
    requires !x.Null? && !x.Undefined?
  {
    match x
    case LongObj(low, high) => Num(OfInt(if key == LOW_KEY then low else if key == HIGH_KEY then high else 0))
    case Obj(fields) => Property(fields, key)
    case _ => Undefined
  }

  /** `wlongjs`: `wn(4, x.low)` then `wn(4, x.high)`; reading a property of
      null or undefined fails. */
  function LongJsBytes(x: Val): (r: Result<seq<byte>>)
    ensures r.Ok? ==> |r.value| == 8
    ensures x.Null? || x.Undefined? ==> r.Err? && r.error.TypeErr?
    ensures x.LongObj? && IsInt32(x.low) && IsInt32(x.high) ==> r == Ok(LE(OfInt(x.low), 4) + LE(OfInt(x.high), 4))
  {
    if x.Null? || x.Undefined? then Err(TypeErr("Cannot read property 'low' of null"))
    else
      var nlo :- Coerce(LongHalf(x, LOW_KEY));
      var nhi :- Coerce(LongHalf(x, HIGH_KEY));
      var blo :- Int32Bytes(nlo);
      var bhi :- Int32Bytes(nhi);
      Ok(blo + bhi)
  }

  /** The eight bytes of the `Long` that `Long.fromNumber(n)` builds. */
  function Int64Bytes(n: int): (bs: seq<byte>)
    ensures |bs| == 8
    ensures FromLE(bs) == Saturate(n) % TWO_64
  {
    var (low, high) := Split(n);
    Int64Spelled(low, high);
    LE(OfInt(low), 4) + LE(OfInt(high), 4)
  }

  /** The eight bytes of two int32 halves spell their 64-bit value modulo
      2^64. */
  lemma Int64Spelled(low: int, high: int)
    requires IsInt32(low) && IsInt32(high)
    ensures FromLE(LE(OfInt(low), 4) + LE(OfInt(high), 4)) == Value(low, high) % TWO_64
  {
    Word(low);
    Word(high);
    FromLEConcat(LE(OfInt(low), 4), LE(OfInt(high), 4));
    assert Pow256(4) == TWO_32;
    Wide64(low, high);
  }

  /** The four bytes of an integer spell it modulo 2^32. */
  lemma Word(v: int)
    ensures FromLE(LE(OfInt(v), 4)) == v % TWO_32
  {
    assert Pow256(4) == TWO_32;
    Laws.ToUint32OfInt(v);
  }

  /** The low word and the high word modulo 2^32 make the value modulo 2^64. */
  lemma Wide64(low: int, high: int)
    ensures low % TWO_32 + TWO_32 * (high % TWO_32) == Value(low, high) % TWO_64
  {
    var a, hm := high / TWO_32, high % TWO_32;
    assert high == TWO_32 * a + hm;
    assert Value(low, high) == TWO_64 * a + (hm * TWO_32 + low % TWO_32);
    DivModUnique(Value(low, high), TWO_64, a, hm * TWO_32 + low % TWO_32);
  }

  /** The time value of a `Date`; any other value has no `getTime`. */
  function DateMs(x: Val): (r: Result<int>)
    ensures r.Ok? <==> x.Instant?
    ensures x.Instant? ==> r.value == x.ms
  {
    if x.Instant? then Ok(x.ms) else Err(TypeErr("getTime is not a function"))
  }

  /** `wchar`: the first UTF-16 unit through `writeUInt8`; the empty string's
      `charCodeAt()` is NaN, stored as 0. */
  function CharBytes(x: Val): (r: Result<seq<byte>>)
    ensures r.Ok? ==> |r.value| == 1
    ensures r.Ok? <==> x.Str? && (|x.s| == 0 || x.s[0] < 256)
    ensures x.Str? && |x.s| > 0 && x.s[0] >= 256 ==> r == Err(Range(OUT_OF_BOUNDS))
    ensures x.Str? && |x.s| > 0 && x.s[0] < 256 ==> r == Ok([x.s[0] as byte])
  {
    if !x.Str? then Err(TypeErr("charCodeAt is not a function"))
    else if |x.s| == 0 then UInt8Bytes(NaN)
    else
      var c: int := x.s[0];
      Laws.ToUint32OfInt(c);
      assert c < 256 ==> LE(OfInt(c), 1) == [c];
      UInt8Bytes(OfInt(x.s[0] as int))
  }

  /** `wsymbol`: the UTF-8 bytes of the text, then a zero byte; null writes
      the zero byte alone. */
  function SymbolBytes(x: Val): (r: Result<seq<byte>>)
    ensures x.Null? ==> r == Ok([0])
    ensures x.Str? ==> r == Ok(Utf8.Encode(x.s) + [0])
    ensures r.Ok? <==> x.Null? || x.Str?
  {
    match x
    case Null => Ok([0])
    case Str(s) => Ok(Utf8.Encode(s) + [0])
    case Undefined => Err(TypeErr("Cannot read property 'length' of undefined"))
    case _ => Err(Unmodelled("writing a non-string as text"))
  }

  /** The payload of one scalar of wire type `w` (`qtype2wfn[w](x)`). */
  function Payload(lib: Lib, w: WireType, x: Val): (r: Result<seq<byte>>)
    ensures r.Ok? && w != Symbol ==> |r.value| == Width(w).value
    ensures r.Ok? ==> |r.value| >= 1
  {
    match w
    case Boolean => Ok([if Truthy(x) then 1 else 0])
    case Guid =>
      if x.Str? then Ok(lib.parseGuid(x.s)) else Err(Unmodelled("GUID text that is not a string"))
    case Byte =>
      var n :- Coerce(x);
      Int8Bytes(n)
    case Short =>
      if x == Num(PosInf) then Int16Bytes(OfInt(SHORT_INFINITY))
      else if x == Num(NegInf) then Int16Bytes(OfInt(SHORT_NEG_INFINITY))
      else
        var n :- Coerce(x);
        Int16Bytes(n)
    case Int =>
      if x == Num(PosInf) then Int32Bytes(OfInt(INT_INFINITY))
      else if x == Num(NegInf) then Int32Bytes(OfInt(INT_NEG_INFINITY))
      else
        var n :- Coerce(x);
        Int32Bytes(n)
    case Long =>
      if x == Num(PosInf) then Ok(LONG_POS_INF)
      else if x == Num(NegInf) then Ok(LONG_NEG_INF)
      else LongJsBytes(x)
    case Real =>
      if x == Num(PosInf) then Ok(REAL_POS_INF)
      else if x == Num(NegInf) then Ok(REAL_NEG_INF)
      else
        var n :- Coerce(x);
        Ok(lib.writeFloat(n))
    case Float =>
      if x == Num(PosInf) then Ok(FLOAT_POS_INF)
      else if x == Num(NegInf) then Ok(FLOAT_NEG_INF)
      else
        var n :- Coerce(x);
        Ok(lib.writeDouble(n))
    case Char => CharBytes(x)
    case Symbol => SymbolBytes(x)
    case Timestamp =>
      var ms :- DateMs(x);
      Ok(Int64Bytes((ms - EPOCH_2000) * 1000000))
    case Month =>
      var ms :- DateMs(x);
      Int32Bytes(OfInt((UtcYear(ms) - 2000) * 12 + UtcMonth(ms)))
    case Date =>
      var ms :- DateMs(x);
      Int32Bytes(Fin(ms as real / MS_PER_DAY as real - 10957.0))
    case Datetime =>
      var ms :- DateMs(x);
      Ok(lib.writeDouble(Fin(ms as real / MS_PER_DAY as real - 10957.0)))
    case Timespan =>
      var ms :- DateMs(x);
      Ok(Int64Bytes((((UtcHours(ms) * 60 + UtcMinutes(ms)) * 60 + UtcSeconds(ms)) * 1000 + UtcMillis(ms)) * 1000 * 1000))
    case Minute =>
      var ms :- DateMs(x);
      Int32Bytes(OfInt(UtcHours(ms) * 60 + UtcMinutes(ms)))
    case Second =>
      var ms :- DateMs(x);
      Int32Bytes(OfInt((UtcHours(ms) * 60 + UtcMinutes(ms)) * 60 + UtcSeconds(ms)))
    case Time =>
      var ms :- DateMs(x);
      Int32Bytes(OfInt(((UtcHours(ms) * 60 + UtcMinutes(ms)) * 60 + UtcSeconds(ms)) * 1000 + UtcMillis(ms)))
  }

  /** The payloads of a typed list's elements, in order (`x.forEach(wfn)`). */
  function Payloads(lib: Lib, w: WireType, items: seq<Val>): (r: Result<seq<byte>>)
    ensures r.Ok? && w != Symbol ==> |r.value| == |items| * Width(w).value
    ensures r.Ok? ==> |r.value| >= |items|
  {
    if |items| == 0 then Ok([])
    else
      var p :- Payload(lib, w, items[0]);
      var rest :- Payloads(lib, w, items[1..]);
      if w != Symbol then MulStep(|items|, Width(w).value); Ok(p + rest) else Ok(p + rest)
  }

  /** A typed list of `vt` over `items`: the element code, a zero pad byte,
      the count, then the untagged payloads. */
  function TypedBytes(lib: Lib, vt: TypeName, items: seq<Val>): (r: Result<seq<byte>>)
    ensures !vt.Q? ==> r == Err(BadTypeName(vt))
    ensures r.Ok? ==> vt.Q? && |r.value| >= 6 + |items| && r.value[0] == Code(vt.w) && r.value[1] == 0
                      && r.value[2..6] == LE(OfInt(|items|), 4)
  {
    var code :- Lift(Type2Num(vt));
    var n :- Count(|items|);
    var body :- Payloads(lib, vt.w, items);
    Ok([code as byte, 0] + n + body)
  }

  /** The dict keys, each as a symbol. */
  function KeyBytes(keys: seq<JsString>): (bs: seq<byte>)
    ensures |bs| >= |keys|
    ensures |keys| > 0 ==> bs[|bs| - 1] == 0
    ensures |keys| > 0 ==> |Utf8.Encode(keys[0])| < |bs| && bs[..|Utf8.Encode(keys[0])|] == Utf8.Encode(keys[0])
  {
    if |keys| == 0 then [] else Utf8.Encode(keys[0]) + [0] + KeyBytes(keys[1..])
  }

  /** The own properties `Object.keys` sees on a value written as a dict. */
  function DictFieldsOf(x: Val): (r: Result<seq<Field>>)
    ensures DictFields(x).Some? ==> r == Ok(DictFields(x).value)
    ensures r.Ok? ==> DictFields(x).Some?
  {
    match DictFields(x)
    case Some(fields) => Ok(fields)
    case None =>
      if x.Null? || x.Undefined? then Err(TypeErr("Cannot convert undefined or null to object"))
      else Err(Unmodelled("the own keys of a non-plain object"))
  }

  /** A value with no `length`: a list tag on it writes an empty list. */
  predicate NoLength(x: Val) {
    x.Num? || x.Bool? || x.Instant? || x.LongObj? || x.Typed?
  }

  /** A list tag on a value that is not an array. */
  function NonArrayList(x: Val): (r: Result<seq<byte>>)
    requires !x.Arr?
  {
    if x.Null? || x.Undefined? then Err(TypeErr("Cannot read property 'length' of null"))
    else if NoLength(x) then Ok([0, 0, 0, 0, 0, 0])
    else Err(Unmodelled("the length of a string or object"))
  }

  /** `w(x)`: a value by its explicit tag or else its inferred type. */
  function W(lib: Lib, x: Val): (r: Result<seq<byte>>)
    ensures r.Ok? ==> |r.value| >= 2
    decreases Size(x), 2
  {
    if x.Typed? then As(lib, x.t, x.v, x.vt) else As(lib, InferType(x), x, Undef)
  }

  /** The body of `w` once the type `t` is known (`vt` matters only for a
      typed list). */
  function As(lib: Lib, t: TypeName, x: Val, vt: TypeName): (r: Result<seq<byte>>)
    ensures r.Ok? ==> |r.value| >= 2
    ensures t == NullT ==> r == Ok([101, 0])
    ensures t.Undef? || t.Other? ==> r == Err(BadTypeName(t))
    ensures r.Ok? && t.Q? ==> r.value[0] == Tag(-Code(t.w))
    ensures r.Ok? && t == DictT ==> r.value[..2] == [99, 11]
    decreases Size(x), 1
  {
    match t
    case NullT => Ok([101, 0])
    case DictT => DictBytes(lib, x)
    case ListT =>
      if x.Arr? then Untyped(lib, x.items) else NonArrayList(x)
    case MixedListT =>
      if x.Arr? then Mixed(lib, x.items) else NonArrayList(x)
    case TypedListT =>
      if x.Arr? then TypedBytes(lib, vt, x.items) else NonArrayTyped(x, vt)
    case StringT => StringBytes(x)
    case Q(w) =>
      var p :- Payload(lib, w, x);
      Ok([Tag(-Code(w))] + p)
    case _ => Err(BadTypeName(t))
  }

  /** A dict: type 99, the symbol-list tag 11 and a pad byte, the key count,
      the keys as symbols, then the values as an untyped list. */
  function DictBytes(lib: Lib, x: Val): (r: Result<seq<byte>>)
    ensures r.Ok? ==> |r.value| >= 2
    ensures DictFieldsOf(x).Err? ==> r == Err(DictFieldsOf(x).error)
    ensures r.Ok? ==> |r.value| >= 7 + |DictFieldsOf(x).value|
                      && r.value[..3] == [99, 11, 0]
                      && r.value[3..7] == LE(OfInt(|DictFieldsOf(x).value|), 4)
    decreases Size(x), 0
  {
    var fields :- DictFieldsOf(x);
    var n :- Count(|fields|);
    DictFieldsSmaller(x);
    var vals :- Untyped(lib, FieldValues(fields));
    var keys := KeyBytes(Keys(fields));
    DictHead(n, keys + vals);
    Ok([99, 11, 0] + n + (keys + vals))
  }

  /** The first seven bytes of a dict: its type, the symbol-list tag, the
      pad byte and the key count. */
  lemma DictHead(n: seq<byte>, rest: seq<byte>)
    requires |n| == 4
    ensures var s := [99 as byte, 11, 0] + n + rest;
            |s| == 7 + |rest| && s[..3] == [99, 11, 0] && s[3..7] == n
  {
  }

  /** A typed-list tag on a value that is not an array: the element type is
      looked up first, then reading its length fails. */
  function NonArrayTyped(x: Val, vt: TypeName): (r: Result<seq<byte>>)
    requires !x.Arr?
    ensures r.Err?
  {
    var _ :- Lift(Type2Num(vt));
    if x.Null? || x.Undefined? then Err(TypeErr("Cannot read property 'length' of null"))
    else Err(Unmodelled("a typed list over a value that is not an array"))
  }

  /** A string: a text starting with the backtick is written as a symbol
      atom without it; any other text as a char list of its UTF-8 bytes. */
  function StringBytes(x: Val): (r: Result<seq<byte>>)
    ensures r.Ok? ==> |r.value| >= 2 && x.Str?
  {
    if !x.Str? then Err(Unmodelled("a string tag on a value that is not a string"))
    else if IsSymbolLiteral(x.s) then
      var sym :- SymbolBytes(Str(x.s[1..]));
      Ok([Tag(-Code(Symbol))] + sym)
    else
      var text := Utf8.Encode(x.s);
      var n :- Count(|text|);
      Ok([10, 0] + n + text)
  }

  /** An array with no explicit type: promoted to a typed list when every
      element infers to the first one's primitive type, else a mixed list. */
  function Untyped(lib: Lib, items: seq<Val>): (r: Result<seq<byte>>)
    ensures r.Ok? ==> |r.value| >= 6 + |items|
    decreases SizeSeq(items), 2
  {
    match Promotion(items)
    case Some(vt) => TypedBytes(lib, vt, Strip(items))
    case None => Mixed(lib, items)
  }

  /** A mixed list: type 0, a zero pad byte, the count, then every element
      written with its own tag. */
  function Mixed(lib: Lib, items: seq<Val>): (r: Result<seq<byte>>)
    ensures r.Ok? ==> |r.value| >= 6 + |items| && r.value[..2] == [0, 0] && r.value[2..6] == LE(OfInt(|items|), 4)
    decreases SizeSeq(items), 1
  {
    var n :- Count(|items|);
    var body :- Items(lib, items);
    Ok([0, 0] + n + body)
  }

  /** Every element written in turn. */
  function Items(lib: Lib, items: seq<Val>): (r: Result<seq<byte>>)
    ensures r.Ok? ==> |r.value| >= 2 * |items|
    decreases SizeSeq(items), 0
  {
    if |items| == 0 then Ok([])
    else
      var first :- W(lib, items[0]);
      var rest :- Items(lib, items[1..]);
      Ok(first + rest)
  }

  /** The message header: 1, 0, 0, 0, then the total length. */
  function Header(total: int): (h: seq<byte>)
    ensures |h| == 8 && h[..4] == [1, 0, 0, 0]
  {
    [1, 0, 0, 0] + LE(OfInt(total), 4)
  }
}
