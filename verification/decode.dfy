/** The decoder: `decode(b, nanos2date)` reads one value starting after
    the 8-byte header. Every reader takes the cursor and returns the value
    with the cursor after it. */
module Decoder {
  import opened JsNum
  import opened Registry
  import opened Errors
  import opened ByteBuf
  import opened Calendar
  import opened Long64
  import opened Foreign
  import opened Props
  import Utf8

  /** A value the decoder returns. `DStr` is a JavaScript string given by
      its UTF-16 units (a char, or one character of a string); `DText` is a
      string decoded from UTF-8, kept as its bytes; `DFunc` is the string
      "func" that stands for any function type; `DDate` is a `Date`, possibly
      invalid; `DUndefined` fills a dict entry whose value list is short; a
      dict is an object's own properties in `Object.keys` order. */
  datatype Decoded =
    | DNull
    | DUndefined
    | DBool(b: bool)
    | DNum(n: Number)
    | DLong(low: int, high: int)
    | DGuid(text: string)
    | DStr(units: Utf8.JsString)
    | DText(bytes: seq<byte>)
    | DDate(time: Clipped)
    | DFunc
    | DList(items: seq<Decoded>)
    | DDict(entries: seq<Entry>)

  /** One own property of a decoded dict. */
  type Entry = Prop<Decoded>

  /** The result of `rInt64`: infinity for either sentinel pair, else a
      signed `Long` of the two halves. */
  datatype Wide = WPosInf | WNegInf | WLong(low: int, high: int)

  /** `k` bytes read one at a time with `readUInt8`. */
  function ReadBytes(b: seq<byte>, pos: int, k: nat): (r: Result<seq<byte>>)
    ensures r.Ok? <==> k == 0 || (0 <= pos && pos + k <= |b|)
    ensures r.Ok? ==> |r.value| == k && (k > 0 ==> r.value == b[pos..pos + k])
    decreases k
  {
    if k == 0 then Ok([])
    else
      var c :- ReadUInt8(b, pos);
      var rest :- ReadBytes(b, pos + 1, k - 1);
      assert [c] + rest == b[pos..pos + k] by {
        if k > 1 {
          assert rest == b[pos + 1..pos + k];
        }
      }
      Ok([c] + rest)
  }

  /** `rInt16`: the 16-bit sentinels read as infinities; every other value,
      the null among them, reads as itself. */
  function ReadShort(b: seq<byte>, pos: int): (r: Result<Number>)
    ensures r.Ok? <==> ReadInt16LE(b, pos).Ok?
    ensures r.Ok? ==> var h := ReadInt16LE(b, pos).value;
                      && (r.value == PosInf <==> h == SHORT_INFINITY)
                      && (r.value == NegInf <==> h == SHORT_NEG_INFINITY)
                      && (r.value.Fin? ==> r.value == OfInt(h))
  {
    var h :- ReadInt16LE(b, pos);
    if h == SHORT_INFINITY then Ok(PosInf)
    else if h == SHORT_NEG_INFINITY then Ok(NegInf)
    else Ok(OfInt(h))
  }

  /** `rInt32`: the 32-bit sentinels read as infinities; the null reads as
      an ordinary number. */
  function ReadInt(b: seq<byte>, pos: int): (r: Result<Number>)
    ensures r.Ok? <==> ReadInt32LE(b, pos).Ok?
    ensures r.Ok? ==> var i := ReadInt32LE(b, pos).value;
                      && (r.value == PosInf <==> i == INT_INFINITY)
                      && (r.value == NegInf <==> i == INT_NEG_INFINITY)
                      && (r.value.Fin? ==> r.value == OfInt(i))
    ensures r.Ok? ==> r.value.Fin? || r.value.IsInfinite()
    ensures r.Ok? && r.value.Fin? ==> exists v :: r.value == OfInt(v) && -TWO_31 <= v < TWO_31
  {
    var i :- ReadInt32LE(b, pos);
    if i == INT_INFINITY then Ok(PosInf)
    else if i == INT_NEG_INFINITY then Ok(NegInf)
    else Ok(OfInt(i))
  }

  /** `rInt64`: the two halves, low word first; the 64-bit values
      2^63 - 1 and -(2^63 - 1) read as infinities, and every other value,
      the null -2^63 among them, as a `Long`. */
  function ReadLong(b: seq<byte>, pos: int): (r: Result<Wide>)
    ensures r.Ok? <==> ReadInt32LE(b, pos).Ok? && ReadInt32LE(b, pos + 4).Ok?
    ensures r.Ok? ==> var (low, high) := (ReadInt32LE(b, pos).value, ReadInt32LE(b, pos + 4).value);
                      && (r.value == WPosInf <==> Value(low, high) == TWO_63 - 1)
                      && (r.value == WNegInf <==> Value(low, high) == 1 - TWO_63)
                      && (r.value.WLong? ==> r.value == WLong(low, high))
  {
    var low :- ReadInt32LE(b, pos);
    var high :- ReadInt32LE(b, pos + 4);
    SplitValue(low, high);
    assert Split(TWO_63 - 1) == (-1, INT_INFINITY);
    assert Split(1 - TWO_63) == (1, INT_NULL);
    if low == -1 && high == INT_INFINITY then Ok(WPosInf)
    else if low == 1 && high == INT_NULL then Ok(WNegInf)
    else Ok(WLong(low, high))
  }

  const HEX: string := "0123456789abcdef"

  /** `rGuid` from byte `i` on: two lower-case hex digits per byte, high
      nibble first, and a dash before bytes 4, 6, 8 and 10. */
  function GuidFrom(bs: seq<byte>, i: nat): (s: string)
    requires i <= |bs|
    ensures |s| == 2 * (|bs| - i) + Dashes(i, |bs|)
    ensures forall k :: 0 <= k < |s| ==> s[k] in HEX || s[k] == '-'
    decreases |bs| - i
  {
    if i == |bs| then ""
    else
      var c := bs[i];
      (if i == 4 || i == 6 || i == 8 || i == 10 then "-" else "")
      + [HEX[c / 16], HEX[c % 16]] + GuidFrom(bs, i + 1)
  }

  /** How many of the dash positions 4, 6, 8 and 10 lie in [i, n). */
  function Dashes(i: nat, n: nat): nat
    decreases n - i
  {
    if i >= n then 0 else (if i == 4 || i == 6 || i == 8 || i == 10 then 1 else 0) + Dashes(i + 1, n)
  }

  predicate AsciiText(s: string) {
    forall k :: 0 <= k < |s| ==> s[k] as int < 0x80
  }

  /** The text of a GUID: for the 16 bytes on the wire, 36 characters in the
      8-4-4-4-12 grouping, all lower-case hex digits or dashes. */
  function GuidText(bs: seq<byte>): (s: string)
    ensures |s| == 2 * |bs| + Dashes(0, |bs|)
    ensures |bs| == 16 ==> |s| == 36
    ensures AsciiText(s)
  {
    assert Dashes(11, 16) == 0;
    assert Dashes(0, 16) == 4;
    GuidFrom(bs, 0)
  }

  /** `date(n)`: a `Date` at `86400000 * (10957 + n)` milliseconds; a
      non-finite `n` makes an invalid date. */
  function DateOf(n: Number): (c: Clipped)
    ensures !n.Fin? ==> c == Invalid
  {
    if n.Fin? then TimeClip(Fin(MS_PER_DAY as real * (10957.0 + n.r))) else Invalid
  }

  /** `n / d` for a positive divisor. */
  function Over(n: Number, d: real): (q: Number)
    requires d > 0.0
    ensures q.Fin? <==> n.Fin?
    ensures n.IsInfinite() ==> q == n
  {
    match n
    case Fin(r) => Fin(r / d)
    case _ => n
  }

  /** `v % 12` in JavaScript: the remainder takes the dividend's sign. */
  function MonthRem(v: int): (m: int)
    ensures -12 < m < 12 && (m == 0 || (m < 0 <==> v < 0))
    ensures (v - m) % 12 == 0
  {
    if v >= 0 then v % 12 else -((-v) % 12)
  }

  /** `Date.UTC(y, m, 1)` for a finite year and an integer month: the year is
      truncated, 0 to 99 mean 1900 to 1999, and the month may run outside
      0..11 (it carries into the year). */
  function UtcFirstOfMonth(year: real, m: int): (c: Clipped)
    ensures 0 <= Trunc(year) <= 99 ==> c == TimeClip(OfInt(MakeDayFirst(1900 + Trunc(year), m) * MS_PER_DAY))
    ensures !(0 <= Trunc(year) <= 99) && 0 <= m < 12
            ==> c == TimeClip(OfInt(FirstDayOfMonth(Trunc(year), m) * MS_PER_DAY))
  {
    var yi := Trunc(year);
    var yr := if 0 <= yi <= 99 then 1900 + yi else yi;
    InYearMonth(yr, m);
    TimeClip(OfInt(MakeDayFirst(yr, m) * MS_PER_DAY))
  }

  /** A month number inside the year carries no years. */
  lemma InYearMonth(y: int, m: int)
    ensures 0 <= m < 12 ==> MakeDayFirst(y, m) == FirstDayOfMonth(y, m)
  {
    assert 0 <= m < 12 ==> m / 12 == 0 && m % 12 == m;
  }

  /** `rMonth`: month `v` after 2000-01 becomes the first of that month;
      infinities make an invalid date. */
  function MonthOf(y: Number): (c: Clipped)
    ensures !y.Fin? ==> c == Invalid
    ensures y.Fin? && y.r == y.r.Floor as real && y.r >= 0.0
            ==> var v := y.r.Floor; c == TimeClip(OfInt(FirstDayOfMonth(2000 + v / 12, v % 12) * MS_PER_DAY))
  {
    match y
    case Fin(r) =>
      var v := Trunc(r);
      assert r == v as real && v >= 0 ==> Trunc(2000.0 + r / 12.0) == 2000 + v / 12 by {
        assert v as real / 12.0 == (v / 12) as real + (v % 12) as real / 12.0;
      }
      UtcFirstOfMonth(2000.0 + r / 12.0, MonthRem(v))
    case _ => Invalid
  }

  /** The reader for one scalar of wire type `w` (`fns[code]`). */
  function ReadScalar(lib: Lib, w: WireType, b: seq<byte>, pos: int, nanos2date: bool): (r: Result<(Decoded, int)>)
    ensures r.Ok? && w != Symbol ==> r.value.1 == pos + Width(w).value
    ensures r.Ok? ==> r.value.1 > pos
  {
    if IsTemporal(w) then ReadTemporal(lib, w, b, pos, nanos2date) else ReadNumeric(lib, w, b, pos)
  }

  /** The readers of the types that are not dates or times. */
  function ReadNumeric(lib: Lib, w: WireType, b: seq<byte>, pos: int): (r: Result<(Decoded, int)>)
    requires !IsTemporal(w)
    ensures r.Ok? && w != Symbol ==> r.value.1 == pos + Width(w).value
    ensures r.Ok? ==> r.value.1 > pos
  {
    match w
    case Boolean =>
      var v :- ReadInt8(b, pos);
      Ok((DBool(v == 1), pos + 1))
    case Guid =>
      var bs :- ReadBytes(b, pos, 16);
      Ok((DGuid(GuidText(bs)), pos + 16))
    case Byte =>
      var v :- ReadUInt8(b, pos);
      Ok((DNum(OfInt(v)), pos + 1))
    case Short =>
      var n :- ReadShort(b, pos);
      Ok((DNum(n), pos + 2))
    case Int =>
      var n :- ReadInt(b, pos);
      Ok((DNum(n), pos + 4))
    case Long =>
      var v :- ReadLong(b, pos);
      var d := match v
        case WPosInf => DNum(PosInf)
        case WNegInf => DNum(NegInf)
        case WLong(low, high) => DLong(low, high);
      Ok((d, pos + 8))
    case Real =>
      var _ :- CheckOffset(OfInt(pos), 4, |b|);
      Ok((DNum(lib.readFloat(b[pos..pos + 4])), pos + 4))
    case Float =>
      var _ :- CheckOffset(OfInt(pos), 8, |b|);
      Ok((DNum(lib.readDouble(b[pos..pos + 8])), pos + 8))
    case Char =>
      var v :- ReadUInt8(b, pos);
      Ok((if v == 32 then DNull else DStr([v]), pos + 1))
    case Symbol => ReadSymbol(b, pos)
  }

  /** The readers of the date and time types. */
  function ReadTemporal(lib: Lib, w: WireType, b: seq<byte>, pos: int, nanos2date: bool): (r: Result<(Decoded, int)>)
    requires IsTemporal(w)
    ensures r.Ok? ==> r.value.1 == pos + Width(w).value
  {
    if w.Timestamp? then
      var v :- ReadLong(b, pos);
      Ok((Timestamp(v, nanos2date), pos + 8))
    else if w.Datetime? then
      var _ :- CheckOffset(OfInt(pos), 8, |b|);
      Ok((DDate(DateOf(lib.readDouble(b[pos..pos + 8]))), pos + 8))
    else if w.Timespan? then
      var v :- ReadLong(b, pos);
      Ok((Timespan(v, nanos2date), pos + 8))
    else
      var n :- ReadInt(b, pos);
      Ok((DDate(CountDate(w, n)), pos + 4))
  }

  /** The `Date` the four-byte date and time types make of the number read:
      months or days after 2000-01-01, or minutes, seconds or milliseconds
      after its midnight. */
  function CountDate(w: WireType, n: Number): (c: Clipped)
    requires IsTemporal(w) && !w.Timestamp? && !w.Datetime? && !w.Timespan?
    ensures w.Month? ==> c == MonthOf(n)
    ensures !n.Fin? ==> c == Invalid
    ensures n.Fin? && w.Date? ==> c == TimeClip(Fin(EPOCH_2000 as real + MS_PER_DAY as real * n.r))
    ensures n.Fin? && w.Minute? ==> c == TimeClip(Fin(EPOCH_2000 as real + MS_PER_MINUTE as real * n.r))
    ensures n.Fin? && w.Second? ==> c == TimeClip(Fin(EPOCH_2000 as real + MS_PER_SECOND as real * n.r))
    ensures n.Fin? && w.Time? ==> c == TimeClip(Fin(EPOCH_2000 as real + n.r))
  {
    match w
    case Month => MonthOf(n)
    case Date => DateOf(n)
    case Minute => DateOf(Over(n, 1440.0))
    case Second => DateOf(Over(n, 86400.0))
    case Time => DateOf(Over(n, MS_PER_DAY as real))
  }

  const NANOS_PER_DAY: int := 86400000000000

  /** The number a 64-bit read stands for. */
  function WideNumber(v: Wide): Number {
    match v
    case WPosInf => PosInf
    case WNegInf => NegInf
    case WLong(low, high) => OfInt(Value(low, high))
  }

  /** `rTimestamp`: nanoseconds since 2000 as a number of nanoseconds since
      1970, or as a `Date`. */
  function Timestamp(v: Wide, nanos2date: bool): (d: Decoded)
    ensures !nanos2date && v.WLong? ==> d == DNum(OfInt(Value(v.low, v.high) + EPOCH_2000 * 1000000))
    ensures !nanos2date && v.WPosInf? ==> d == DNum(PosInf)
    ensures !nanos2date && v.WNegInf? ==> d == DNum(NegInf)
    ensures nanos2date ==> d == DDate(if v.WLong? then TimeClip(Fin(EPOCH_2000 as real + Value(v.low, v.high) as real / 1000000.0))
                                      else Invalid)
  {
    var days := Over(WideNumber(v), NANOS_PER_DAY as real);
    if !nanos2date then
      match days
      case Fin(d) => DNum(Fin(NANOS_PER_DAY as real * (10957.0 + d)))
      case _ => DNum(days)
    else DDate(DateOf(days))
  }

  /** `rTimespan`: the `Long` itself, or a `Date` that many nanoseconds
      after 2000-01-01. */
  function Timespan(v: Wide, nanos2date: bool): (d: Decoded)
    ensures !nanos2date && v.WLong? ==> d == DLong(v.low, v.high)
    ensures !nanos2date && v.WPosInf? ==> d == DNum(PosInf)
    ensures !nanos2date && v.WNegInf? ==> d == DNum(NegInf)
    ensures nanos2date ==> d == DDate(if v.WLong? then TimeClip(Fin(EPOCH_2000 as real + Value(v.low, v.high) as real / 1000000.0))
                                      else Invalid)
  {
    if !nanos2date then
      match v
      case WPosInf => DNum(PosInf)
      case WNegInf => DNum(NegInf)
      case WLong(low, high) => DLong(low, high)
    else DDate(DateOf(Over(WideNumber(v), NANOS_PER_DAY as real)))
  }

  /** `rSymbol`: the bytes up to the next zero byte, then past it. Without
      a zero byte at or after the cursor the source moves the cursor back,
      which this model does not follow. */
  function ReadSymbol(b: seq<byte>, pos: int): (r: Result<(Decoded, int)>)
    ensures r.Ok? ==> r.value.1 > pos
  {
    var e := IndexOf(b, 1, 0, OfInt(pos));
    if e == -1 || e < pos then Err(Unmodelled("moving the cursor back after an unterminated symbol"))
    else Ok((DText(Slice(b, pos, Some(e))), e + 1))
  }

  /** The text of the error a `-128` message carries: the bytes from the
      cursor to the next zero byte. */
  function ErrorText(b: seq<byte>, pos: int): (t: seq<byte>)
    ensures 0 <= pos < |b| < TWO_31 && FirstIndex(b, 0, pos) != -1 ==> t == b[pos..FirstIndex(b, 0, pos)]
    ensures 0 <= pos < |b| < TWO_31 && FirstIndex(b, 0, pos) == -1 ==> t == b[pos..|b| - 1]
  {
    Slice(b, pos, Some(IndexOf(b, 1, 0, OfInt(pos))))
  }

  /** The UTF-8 bytes of an ASCII text: one byte per character. */
  function AsciiBytes(s: string): (bs: seq<byte>)
    requires AsciiText(s)
    ensures |bs| == |s| && forall k :: 0 <= k < |s| ==> bs[k] == s[k] as int
  {
    seq(|s|, k requires 0 <= k < |s| => s[k] as int)
  }

  const FUNC: seq<byte> := [102, 117, 110, 99]
  const NULL_TEXT: seq<byte> := [110, 117, 108, 108]
  const UNDEFINED_TEXT: seq<byte> := [117, 110, 100, 101, 102, 105, 110, 101, 100]
  const TRUE_TEXT: seq<byte> := [116, 114, 117, 101]
  const FALSE_TEXT: seq<byte> := [102, 97, 108, 115, 101]
  const NAN_TEXT: seq<byte> := [78, 97, 78]
  const INFINITY_TEXT: seq<byte> := [73, 110, 102, 105, 110, 105, 116, 121]
  const INVALID_DATE_TEXT: seq<byte> := [73, 110, 118, 97, 108, 105, 100, 32, 68, 97, 116, 101]
  /** "[object Object]". */
  const OBJECT_TEXT: seq<byte> := [91, 111, 98, 106, 101, 99, 116, 32, 79, 98, 106, 101, 99, 116, 93]
  const LENGTH_KEY: seq<byte> := [108, 101, 110, 103, 116, 104]
  const TO_STRING_KEY: seq<byte> := [116, 111, 83, 116, 114, 105, 110, 103]

  /** Whether a decoded value is an object rather than a primitive or null. */
  predicate IsObject(d: Decoded) {
    d.DList? || d.DDict? || d.DLong? || d.DDate?
  }

  /** `String(i)` for an integer: a minus sign for a negative one, then its
      canonical digits. */
  function IntText(i: int): seq<byte> {
    if i < 0 then [45] + Digits(-i) else Digits(i)
  }

  /** `Number::toString` where the model covers it: NaN, the infinities, and
      integers below 1e21 in magnitude, which print as plain decimals. */
  function NumberText(n: Number): Result<seq<byte>> {
    match n
    case NaN => Ok(NAN_TEXT)
    case PosInf => Ok(INFINITY_TEXT)
    case NegInf => Ok([45] + INFINITY_TEXT)
    case Fin(r) =>
      if r == r.Floor as real && -1000000000000000000000.0 < r < 1000000000000000000000.0
      then Ok(IntText(r.Floor))
      else Err(Unmodelled("the text of a fraction, or of a number of 1e21 or more"))
  }

  /** `x.length` as the bound of the dict loop: the length of a list or a
      string; nothing for a number, boolean, `Long` or `Date`, which have no
      `length`; a `TypeError` for null. */
  function Length(x: Decoded): (r: Result<nat>)
    ensures x.DList? ==> r == Ok(|x.items|)
  {
    match x
    case DNull => Err(TypeErr("Cannot read property 'length' of null"))
    case DUndefined => Err(TypeErr("Cannot read property 'length' of undefined"))
    case DList(items) => Ok(|items|)
    case DStr(units) => Ok(|units|)
    case DText(bytes) =>
      if Utf8.IsAscii(bytes) then Ok(|bytes|)
      else Result<nat>.Err(Unmodelled("the UTF-16 length of decoded non-ASCII text"))
    case DGuid(text) => Ok(|text|)
    case DFunc => Ok(|FUNC|)
    case DDict(entries) =>
      if Get(entries, LENGTH_KEY).Some? then Result<nat>.Err(Unmodelled("a dict with a length key as a key or value list"))
      else Ok(0)
    case _ => Ok(0)
  }

  /** `d[i]`: an element of a list, a one-unit string of a string, the
      property named by the digits of `i` of a dict, and `undefined` past
      the end or on a value without such properties. */
  function Index(d: Decoded, i: nat): (r: Result<Decoded>)
    ensures d.DList? ==> r == Ok(if i < |d.items| then d.items[i] else DUndefined)
    ensures r.Ok? && r.value.DStr? && !d.DList? && !d.DDict? ==> |r.value.units| == 1
  {
    match d
    case DNull => Err(TypeErr("Cannot read property of null"))
    case DUndefined => Err(TypeErr("Cannot read property of undefined"))
    case DList(items) => Ok(if i < |items| then items[i] else DUndefined)
    case DStr(units) => Ok(if i < |units| then DStr([units[i]]) else DUndefined)
    case DText(bytes) =>
      if !Utf8.IsAscii(bytes) then Err(Unmodelled("a UTF-16 unit of decoded non-ASCII text"))
      else Ok(if i < |bytes| then DStr([bytes[i]]) else DUndefined)
    case DGuid(text) =>
      if !AsciiText(text) then Err(Unmodelled("non-ASCII GUID text"))
      else Ok(if i < |text| then DStr([text[i] as int]) else DUndefined)
    case DFunc => Ok(if i < |FUNC| then DStr([FUNC[i]]) else DUndefined)
    case DDict(entries) =>
      Ok(match Get(entries, Digits(i)) case Some(v) => v case None => DUndefined)
    case _ => Ok(DUndefined)
  }

  /** `ToPropertyKey`: the UTF-8 bytes of the text a decoded value converts
      to when it names a property. A list joins its elements with commas; a
      dict is "[object Object]" unless an own `toString` property, which is
      never a function here, makes the conversion fail; the text of a valid
      `Date` depends on the local time zone. */
  function KeyText(d: Decoded): Result<seq<byte>>
    decreases d, 1
  {
    match d
    case DNull => Ok(NULL_TEXT)
    case DUndefined => Ok(UNDEFINED_TEXT)
    case DBool(b) => Ok(if b then TRUE_TEXT else FALSE_TEXT)
    case DNum(n) => NumberText(n)
    case DLong(low, high) => Ok(IntText(Value(low, high)))
    case DGuid(text) => if AsciiText(text) then Ok(AsciiBytes(text)) else Err(Unmodelled("non-ASCII GUID text"))
    case DStr(units) => Ok(Utf8.Encode(units))
    case DText(bytes) => Ok(bytes)
    case DDate(t) => if t.Invalid? then Ok(INVALID_DATE_TEXT) else Err(Unmodelled("the text of a Date, which depends on the local time zone"))
    case DFunc => Ok(FUNC)
    case DList(items) => Join(d, 0)
    case DDict(entries) =>
      if Get(entries, TO_STRING_KEY).Some? then Err(TypeErr("Cannot convert object to primitive value"))
      else Ok(OBJECT_TEXT)
  }

  /** `Array.prototype.join(",")` from element `i` on: null and undefined
      elements give empty text. */
  function Join(x: Decoded, i: nat): Result<seq<byte>>
    requires x.DList? && i <= |x.items|
    decreases x, 0, |x.items| - i
  {
    if i == |x.items| then Ok([])
    else
      var e := x.items[i];
      var first :- if e.DNull? || e.DUndefined? then Ok([]) else KeyText(e);
      if i + 1 == |x.items| then Ok(first)
      else
        var rest :- Join(x, i + 1);
        Ok(first + [44] + rest)
  }

  /** The dict loop from `i` on: `o[x[i]] = y[i]` for every `i < n`. The key
      is converted after `y[i]` is read. A `__proto__` key with an object or
      null value replaces the prototype of the dict, which this model does
      not follow; with any other value it changes nothing. */
  function Fill(entries: seq<Entry>, x: Decoded, y: Decoded, i: nat, n: nat): (r: Result<seq<Entry>>)
    requires i <= n && Wellformed(entries)
    ensures r.Ok? ==> Wellformed(r.value)
    decreases n - i
  {
    if i == n then Ok(entries)
    else
      var k :- Index(x, i);
      var v :- Index(y, i);
      var key :- KeyText(k);
      if key == PROTO && (IsObject(v) || v.DNull?) then Err(Unmodelled("a __proto__ key with an object or null value"))
      else Fill(Assign(entries, key, v), x, y, i + 1, n)
  }

  /** `r()`: one value at the cursor. */
  function R(lib: Lib, b: seq<byte>, pos: int, nanos2date: bool): (r: Result<(Decoded, int)>)
    ensures r.Ok? ==> 0 <= pos < |b| && r.value.1 > pos
    decreases |b| - pos, 0
  {
    var t :- ReadInt8(b, pos);
    if t == -128 then Err(Remote(ErrorText(b, pos + 1)))
    else if t < 0 && t > -20 then
      if t == -3 then Err(TypeErr(NOT_A_FUNCTION))
      else ReadScalar(lib, FromCode(-t).value, b, pos + 1, nanos2date)
    else if t > 99 && t < 104 then
      var v :- ReadInt8(b, pos + 1);
      Ok((if v == 0 && t == 101 then DNull else DFunc, pos + 2))
    else if t == 99 then
      var (x, p1) :- R(lib, b, pos + 1, nanos2date);
      var (y, p2) :- R(lib, b, p1, nanos2date);
      var n :- Length(x);
      var o :- Fill([], x, y, 0, n);
      Ok((DDict(o), p2))
    else
      var n :- ReadInt(b, pos + 2);
      if t == 10 then
        if !n.Fin? || n.r < 0.0 then Err(Unmodelled("moving the cursor by a negative or infinite length"))
        else
          var len := Trunc(n.r);
          Ok((DText(Slice(b, pos + 6, Some(pos + 6 + len))), pos + 6 + len))
      else if !n.Fin? || n.r < 0.0 then Err(Range(INVALID_ARRAY_LENGTH))
      else
        var count := Trunc(n.r);
        if count == 0 then Ok((DList([]), pos + 6))
        else if t == 0 then
          var (items, p) :- RItems(lib, b, pos + 6, nanos2date, count);
          Ok((DList(items), p))
        else if FromCode(t).Some? then
          var (items, p) :- RScalars(lib, FromCode(t).value, b, pos + 6, nanos2date, count);
          Ok((DList(items), p))
        else Err(TypeErr(NOT_A_FUNCTION))
  }

  /** `count` values, each read with `r()` (a mixed list). */
  function RItems(lib: Lib, b: seq<byte>, pos: int, nanos2date: bool, count: nat): (r: Result<(seq<Decoded>, int)>)
    ensures r.Ok? ==> |r.value.0| == count && r.value.1 >= pos
    ensures r.Ok? && count > 0 ==> 0 <= pos < |b| && r.value.1 > pos
    decreases |b| - pos, 1, count
  {
    if count == 0 then Ok(([], pos))
    else
      var (first, p) :- R(lib, b, pos, nanos2date);
      var (rest, q) :- RItems(lib, b, p, nanos2date, count - 1);
      Ok(([first] + rest, q))
  }

  /** `count` scalars of one wire type (a typed list). */
  function RScalars(lib: Lib, w: WireType, b: seq<byte>, pos: int, nanos2date: bool, count: nat): (r: Result<(seq<Decoded>, int)>)
    ensures r.Ok? ==> |r.value.0| == count && r.value.1 >= pos
    ensures r.Ok? && w != Symbol ==> r.value.1 == pos + count * Width(w).value
    decreases count
  {
    if count == 0 then Ok(([], pos))
    else
      var (first, p) :- ReadScalar(lib, w, b, pos, nanos2date);
      var (rest, q) :- RScalars(lib, w, b, p, nanos2date, count - 1);
      assert w != Symbol ==> q == pos + count * Width(w).value by {
        if w != Symbol {
          MulStep(count, Width(w).value);
        }
      }
      Ok(([first] + rest, q))
  }

  /** `decode(b, nanos2date)`: one value after the header, which is not read. */
  function Decode(lib: Lib, b: seq<byte>, nanos2date: bool): (r: Result<Decoded>)
    ensures r.Ok? ==> |b| > 8
  {
    var (v, _) :- R(lib, b, 8, nanos2date);
    Ok(v)
  }
}
