/** The round trip of one scalar: what the reader of wire type `w` returns
    over the payload the writer of `w` produced. `Back` states the value
    the codec gives back when its number arithmetic is exact, as it is in
    this model. The double rounding of the date and time divisions, which
    the model does not follow, can make a time come back a millisecond
    early. Values outside `Back` (the sentinels, dates before 2000 in the
    day and month types, floats the IEEE-754 routines cannot hold) are
    treated by the Divergences module. */
module ScalarTrip {
  import opened JsNum
  import opened Utf8
  import opened Registry
  import opened Values
  import opened Errors
  import opened ByteBuf
  import opened Calendar
  import opened Long64
  import opened Foreign
  import opened Encoder
  import opened Decoder
  import opened ReadLaws
  import Laws = ByteBufLaws

  /** `x` is a number holding an integer in [lo, hi]. */
  predicate IntIn(x: Val, lo: int, hi: int) {
    x.Num? && x.n.Fin? && x.n.r == x.n.r.Floor as real && lo as real <= x.n.r <= hi as real
  }

  /** A time value a `Date` can hold. */
  predicate ValidTime(ms: int) { -MAX_TIME <= ms <= MAX_TIME }

  /** The float32 routines give back `n` from the bytes written for it. */
  predicate Float32Exact(lib: Lib, n: Number) {
    match n
    case PosInf => lib.readFloat(REAL_POS_INF) == PosInf
    case NegInf => lib.readFloat(REAL_NEG_INF) == NegInf
    case _ => lib.readFloat(lib.writeFloat(n)) == n
  }

  /** The float64 routines give back `n` from the bytes written for it. */
  predicate Float64Exact(lib: Lib, n: Number) {
    match n
    case PosInf => lib.readDouble(FLOAT_POS_INF) == PosInf
    case NegInf => lib.readDouble(FLOAT_NEG_INF) == NegInf
    case _ => lib.readDouble(lib.writeDouble(n)) == n
  }

  /** The day count since 2000 `wdate` and `wdatetime` write. */
  function Days2000(ms: int): real {
    ms as real / MS_PER_DAY as real - 10957.0
  }

  /** The nanoseconds since 2000 `wtimestamp` writes. */
  function Nanos2000(ms: int): int { (ms - EPOCH_2000) * 1000000 }

  /** Strictly inside the 64-bit range and off both sentinel pairs. */
  predicate PlainLong(n: int) { -TWO_63 + 1 < n < TWO_63 - 1 }

  /** A string's first unit, or 0 for the empty string (`charCodeAt()`
      is NaN there, which `writeUInt8` stores as 0). */
  function CharCode(s: JsString): int {
    if |s| == 0 then 0 else s[0]
  }

  /** What a scalar of wire type `w` written from `x` reads back as, when it
      reads back as something determined by `x`:
      - boolean: the truth value; guid: the canonical text of the 16 bytes;
      - byte: the value as unsigned (a negative byte comes back plus 256);
      - short, int: the number, unless it is a sentinel's value;
      - long: infinity, or the same `Long`;
      - real, float: the number, when the IEEE-754 routines keep it;
      - char: a one-unit string of the first unit, or null for a space;
      - symbol: the text (its UTF-8 bytes), null as the empty text;
      - timestamp: the same time, or its nanoseconds since 1970;
      - month, date: the start of the month or the day, from 2000 on;
      - datetime: the same time;
      - timespan: 2000-01-01 plus the time of day (or its nanoseconds);
      - minute, second, time: 2000-01-01 plus the time of day truncated to
        the minute, second or millisecond. */
  function Back(lib: Lib, w: WireType, x: Val, nanos2date: bool): Option<Decoded> {
    if IsTemporal(w) then BackTemporal(lib, w, x, nanos2date) else BackNumeric(lib, w, x)
  }

  /** `Back` for the ten types that are not times. */
  function BackNumeric(lib: Lib, w: WireType, x: Val): Option<Decoded>
    requires !IsTemporal(w)
  {
    match w
    case Boolean => Some(DBool(Truthy(x)))
    case Guid => if x.Str? then Some(DGuid(GuidText(lib.parseGuid(x.s)))) else None
    case Byte => if IntIn(x, -0x80, 0x7f) then Some(DNum(OfInt(x.n.r.Floor % 256))) else None
    case Short =>
      if x == Num(PosInf) || x == Num(NegInf) then Some(DNum(x.n))
      else if IntIn(x, -0x8000, 0x7fff) && x.n.r.Floor != SHORT_INFINITY && x.n.r.Floor != SHORT_NEG_INFINITY
      then Some(DNum(x.n))
      else None
    case Int =>
      if x == Num(PosInf) || x == Num(NegInf) then Some(DNum(x.n))
      else if IntIn(x, -TWO_31, TWO_31 - 1) && x.n.r.Floor != INT_INFINITY && x.n.r.Floor != INT_NEG_INFINITY
      then Some(DNum(x.n))
      else None
    case Long =>
      if x == Num(PosInf) || x == Num(NegInf) then Some(DNum(x.n))
      else if x.LongObj? && IsInt32(x.low) && IsInt32(x.high) && PlainLong(Value(x.low, x.high))
      then Some(DLong(x.low, x.high))
      else None
    case Real => if x.Num? && Float32Exact(lib, x.n) then Some(DNum(x.n)) else None
    case Float => if x.Num? && Float64Exact(lib, x.n) then Some(DNum(x.n)) else None
    case Char =>
      if x.Str? && CharCode(x.s) < 256 then
        var c := CharCode(x.s);
        Some(if c == 32 then DNull else DStr([c]))
      else None
    case Symbol =>
      if x.Null? then Some(DText([]))
      else if x.Str? && NoNul(x.s) then Some(DText(Utf8.Encode(x.s)))
      else None
  }

  /** `Back` for the eight time types. */
  function BackTemporal(lib: Lib, w: WireType, x: Val, nanos2date: bool): Option<Decoded>
    requires IsTemporal(w)
  {
    if !x.Instant? then None
    else if w.Timestamp? then BackTimestamp(x.ms, nanos2date)
    else if w.Month? then BackMonth(x.ms)
    else if w.Date? then BackDate(x.ms)
    else if w.Datetime? then
      if ValidTime(x.ms) && Float64Exact(lib, Fin(Days2000(x.ms))) then Some(DDate(Valid(x.ms))) else None
    else if w.Timespan? then Some(BackTimespan(x.ms, nanos2date))
    else Some(BackClock(x.ms, ClockUnit(w)))
  }

  function BackTimestamp(ms: int, nanos2date: bool): Option<Decoded> {
    if PlainLong(Nanos2000(ms)) then
      Some(if nanos2date then DDate(Valid(ms)) else DNum(OfInt(ms * 1000000)))
    else None
  }

  function BackMonth(ms: int): Option<Decoded> {
    if ValidTime(ms) && UtcYear(ms) >= 2000 then
      Some(DDate(Valid(FirstDayOfMonth(UtcYear(ms), UtcMonth(ms)) * MS_PER_DAY)))
    else None
  }

  function BackDate(ms: int): Option<Decoded> {
    if ValidTime(ms) && ms >= EPOCH_2000 then Some(DDate(Valid(DayOf(ms) * MS_PER_DAY))) else None
  }

  function BackTimespan(ms: int, nanos2date: bool): Decoded {
    if nanos2date then DDate(Valid(EPOCH_2000 + TimeWithinDay(ms)))
    else
      var (low, high) := Split(TimeWithinDay(ms) * 1000000);
      DLong(low, high)
  }

  /** The milliseconds in one unit of `minute`, `second` or `time`. */
  function ClockUnit(w: WireType): (u: int)
    ensures u > 0
  {
    if w.Minute? then MS_PER_MINUTE else if w.Second? then MS_PER_SECOND else 1
  }

  function BackClock(ms: int, unit: int): Decoded
    requires unit > 0
  {
    DDate(Valid(EPOCH_2000 + TimeWithinDay(ms) / unit * unit))
  }

  /** The round trip of one scalar: reading the payload at the cursor
      gives `Back`, with the cursor after the payload. */
  lemma ScalarRoundTrip(lib: Lib, w: WireType, x: Val, nanos2date: bool, b: seq<byte>, pos: int)
    requires Payload(lib, w, x).Ok? && Back(lib, w, x, nanos2date).Some?
    requires At(b, pos, Payload(lib, w, x).value) && Fits(b)
    ensures ReadScalar(lib, w, b, pos, nanos2date) == Ok((Back(lib, w, x, nanos2date).value, pos + |Payload(lib, w, x).value|))
  {
    hide ReadScalar, Payload, Back;
    if IsTemporal(w) {
      TemporalRoundTrip(lib, w, x, nanos2date, b, pos);
    } else {
      NumericRoundTrip(lib, w, x, nanos2date, b, pos);
    }
  }

  lemma NumericRoundTrip(lib: Lib, w: WireType, x: Val, nanos2date: bool, b: seq<byte>, pos: int)
    requires !IsTemporal(w)
    requires Payload(lib, w, x).Ok? && Back(lib, w, x, nanos2date).Some?
    requires At(b, pos, Payload(lib, w, x).value) && Fits(b)
    ensures ReadScalar(lib, w, b, pos, nanos2date) == Ok((Back(lib, w, x, nanos2date).value, pos + |Payload(lib, w, x).value|))
  {
    hide ReadScalar, Payload, Back;
    if w == Byte || w == Short || w == Int || w == Long {
      IntegerRoundTrip(lib, w, x, nanos2date, b, pos);
    } else if w == Real || w == Float {
      FloatingRoundTrip(lib, w, x, nanos2date, b, pos);
    } else if w == Boolean || w == Guid {
      FlagRoundTrip(lib, w, x, nanos2date, b, pos);
    } else {
      TextRoundTrip(lib, w, x, nanos2date, b, pos);
    }
  }

  lemma IntegerRoundTrip(lib: Lib, w: WireType, x: Val, nanos2date: bool, b: seq<byte>, pos: int)
    requires w == Byte || w == Short || w == Int || w == Long
    requires Payload(lib, w, x).Ok? && Back(lib, w, x, nanos2date).Some?
    requires At(b, pos, Payload(lib, w, x).value) && Fits(b)
    ensures ReadScalar(lib, w, b, pos, nanos2date) == Ok((Back(lib, w, x, nanos2date).value, pos + |Payload(lib, w, x).value|))
  {
    hide ReadScalar, Payload, Back;
    if w == Byte {
      ByteTrip(lib, x, nanos2date, b, pos);
    } else if w == Short {
      ShortTrip(lib, x, nanos2date, b, pos);
    } else if w == Int {
      IntTrip(lib, x, nanos2date, b, pos);
    } else {
      LongTrip(lib, x, nanos2date, b, pos);
    }
  }

  lemma FloatingRoundTrip(lib: Lib, w: WireType, x: Val, nanos2date: bool, b: seq<byte>, pos: int)
    requires w == Real || w == Float
    requires Payload(lib, w, x).Ok? && Back(lib, w, x, nanos2date).Some?
    requires At(b, pos, Payload(lib, w, x).value) && Fits(b)
    ensures ReadScalar(lib, w, b, pos, nanos2date) == Ok((Back(lib, w, x, nanos2date).value, pos + |Payload(lib, w, x).value|))
  {
    hide ReadScalar, Payload, Back;
    if w == Real {
      RealTrip(lib, x, nanos2date, b, pos);
    } else {
      FloatTrip(lib, x, nanos2date, b, pos);
    }
  }

  lemma FlagRoundTrip(lib: Lib, w: WireType, x: Val, nanos2date: bool, b: seq<byte>, pos: int)
    requires w == Boolean || w == Guid
    requires Payload(lib, w, x).Ok? && Back(lib, w, x, nanos2date).Some?
    requires At(b, pos, Payload(lib, w, x).value) && Fits(b)
    ensures ReadScalar(lib, w, b, pos, nanos2date) == Ok((Back(lib, w, x, nanos2date).value, pos + |Payload(lib, w, x).value|))
  {
    hide ReadScalar, Payload, Back;
    if w == Boolean {
      BooleanTrip(lib, x, nanos2date, b, pos);
    } else {
      GuidTrip(lib, x, nanos2date, b, pos);
    }
  }

  lemma TextRoundTrip(lib: Lib, w: WireType, x: Val, nanos2date: bool, b: seq<byte>, pos: int)
    requires w == Char || w == Symbol
    requires Payload(lib, w, x).Ok? && Back(lib, w, x, nanos2date).Some?
    requires At(b, pos, Payload(lib, w, x).value) && Fits(b)
    ensures ReadScalar(lib, w, b, pos, nanos2date) == Ok((Back(lib, w, x, nanos2date).value, pos + |Payload(lib, w, x).value|))
  {
    hide ReadScalar, Payload, Back;
    if w == Char {
      CharRoundTrip(lib, w, x, nanos2date, b, pos);
    } else {
      SymbolRoundTrip(lib, w, x, nanos2date, b, pos);
    }
  }

  lemma CharRoundTrip(lib: Lib, w: WireType, x: Val, nanos2date: bool, b: seq<byte>, pos: int)
    requires w == Char
    requires Payload(lib, w, x).Ok? && Back(lib, w, x, nanos2date).Some?
    requires At(b, pos, Payload(lib, w, x).value) && Fits(b)
    ensures ReadScalar(lib, w, b, pos, nanos2date) == Ok((Back(lib, w, x, nanos2date).value, pos + |Payload(lib, w, x).value|))
  {
    hide ReadScalar, Payload, Back;
    CharTrip(lib, x, nanos2date, b, pos);
  }

  lemma SymbolRoundTrip(lib: Lib, w: WireType, x: Val, nanos2date: bool, b: seq<byte>, pos: int)
    requires w == Symbol
    requires Payload(lib, w, x).Ok? && Back(lib, w, x, nanos2date).Some?
    requires At(b, pos, Payload(lib, w, x).value) && Fits(b)
    ensures ReadScalar(lib, w, b, pos, nanos2date) == Ok((Back(lib, w, x, nanos2date).value, pos + |Payload(lib, w, x).value|))
  {
    hide ReadScalar, Payload, Back;
    SymbolText(lib, x, nanos2date, b, pos);
  }

  lemma TemporalRoundTrip(lib: Lib, w: WireType, x: Val, nanos2date: bool, b: seq<byte>, pos: int)
    requires IsTemporal(w)
    requires Payload(lib, w, x).Ok? && Back(lib, w, x, nanos2date).Some?
    requires At(b, pos, Payload(lib, w, x).value) && Fits(b)
    ensures ReadScalar(lib, w, b, pos, nanos2date) == Ok((Back(lib, w, x, nanos2date).value, pos + |Payload(lib, w, x).value|))
  {
    hide ReadScalar, Payload, Back;
    if w == Timestamp || w == Datetime || w == Timespan {
      WideTimeRoundTrip(lib, w, x, nanos2date, b, pos);
    } else if w == Month || w == Date {
      DayRoundTrip(lib, w, x, nanos2date, b, pos);
    } else {
      ClockTrip(lib, w, x, nanos2date, b, pos);
    }
  }

  lemma WideTimeRoundTrip(lib: Lib, w: WireType, x: Val, nanos2date: bool, b: seq<byte>, pos: int)
    requires w == Timestamp || w == Datetime || w == Timespan
    requires Payload(lib, w, x).Ok? && Back(lib, w, x, nanos2date).Some?
    requires At(b, pos, Payload(lib, w, x).value) && Fits(b)
    ensures ReadScalar(lib, w, b, pos, nanos2date) == Ok((Back(lib, w, x, nanos2date).value, pos + |Payload(lib, w, x).value|))
  {
    hide ReadScalar, Payload, Back;
    if w == Timestamp {
      TimestampTrip(lib, x, nanos2date, b, pos);
    } else if w == Datetime {
      DatetimeTrip(lib, x, nanos2date, b, pos);
    } else {
      TimespanTrip(lib, x, nanos2date, b, pos);
    }
  }

  lemma DayRoundTrip(lib: Lib, w: WireType, x: Val, nanos2date: bool, b: seq<byte>, pos: int)
    requires w == Month || w == Date
    requires Payload(lib, w, x).Ok? && Back(lib, w, x, nanos2date).Some?
    requires At(b, pos, Payload(lib, w, x).value) && Fits(b)
    ensures ReadScalar(lib, w, b, pos, nanos2date) == Ok((Back(lib, w, x, nanos2date).value, pos + |Payload(lib, w, x).value|))
  {
    hide ReadScalar, Payload, Back;
    if w == Month {
      MonthRoundTrip(lib, w, x, nanos2date, b, pos);
    } else {
      DateRoundTrip(lib, w, x, nanos2date, b, pos);
    }
  }

  lemma MonthRoundTrip(lib: Lib, w: WireType, x: Val, nanos2date: bool, b: seq<byte>, pos: int)
    requires w == Month
    requires Payload(lib, w, x).Ok? && Back(lib, w, x, nanos2date).Some?
    requires At(b, pos, Payload(lib, w, x).value) && Fits(b)
    ensures ReadScalar(lib, w, b, pos, nanos2date) == Ok((Back(lib, w, x, nanos2date).value, pos + |Payload(lib, w, x).value|))
  {
    MonthTrip(lib, x, nanos2date, b, pos);
  }

  lemma DateRoundTrip(lib: Lib, w: WireType, x: Val, nanos2date: bool, b: seq<byte>, pos: int)
    requires w == Date
    requires Payload(lib, w, x).Ok? && Back(lib, w, x, nanos2date).Some?
    requires At(b, pos, Payload(lib, w, x).value) && Fits(b)
    ensures ReadScalar(lib, w, b, pos, nanos2date) == Ok((Back(lib, w, x, nanos2date).value, pos + |Payload(lib, w, x).value|))
  {
    DateTrip(lib, x, nanos2date, b, pos);
  }

  lemma BooleanTrip(lib: Lib, x: Val, nanos2date: bool, b: seq<byte>, pos: int)
    requires Payload(lib, Boolean, x).Ok? && Back(lib, Boolean, x, nanos2date).Some? && At(b, pos, Payload(lib, Boolean, x).value)
    ensures ReadScalar(lib, Boolean, b, pos, nanos2date) == Ok((Back(lib, Boolean, x, nanos2date).value, pos + |Payload(lib, Boolean, x).value|))
  {
    var p := Payload(lib, Boolean, x).value;
    AtIndex(b, pos, p, 0);
    ReadInt8At(b, pos, p[0]);
  }

  lemma GuidTrip(lib: Lib, x: Val, nanos2date: bool, b: seq<byte>, pos: int)
    requires Payload(lib, Guid, x).Ok? && Back(lib, Guid, x, nanos2date).Some? && At(b, pos, Payload(lib, Guid, x).value)
    ensures ReadScalar(lib, Guid, b, pos, nanos2date) == Ok((Back(lib, Guid, x, nanos2date).value, pos + |Payload(lib, Guid, x).value|))
  {
  }

  lemma RealTrip(lib: Lib, x: Val, nanos2date: bool, b: seq<byte>, pos: int)
    requires Payload(lib, Real, x).Ok? && Back(lib, Real, x, nanos2date).Some?
    requires At(b, pos, Payload(lib, Real, x).value)
    ensures ReadScalar(lib, Real, b, pos, nanos2date) == Ok((Back(lib, Real, x, nanos2date).value, pos + |Payload(lib, Real, x).value|))
  {
    assert Trunc(pos as real) == pos;
  }

  lemma FloatTrip(lib: Lib, x: Val, nanos2date: bool, b: seq<byte>, pos: int)
    requires Payload(lib, Float, x).Ok? && Back(lib, Float, x, nanos2date).Some?
    requires At(b, pos, Payload(lib, Float, x).value)
    ensures ReadScalar(lib, Float, b, pos, nanos2date) == Ok((Back(lib, Float, x, nanos2date).value, pos + |Payload(lib, Float, x).value|))
  {
    assert Trunc(pos as real) == pos;
  }

  lemma CharTrip(lib: Lib, x: Val, nanos2date: bool, b: seq<byte>, pos: int)
    requires Payload(lib, Char, x).Ok? && Back(lib, Char, x, nanos2date).Some?
    requires At(b, pos, Payload(lib, Char, x).value)
    ensures ReadScalar(lib, Char, b, pos, nanos2date) == Ok((Back(lib, Char, x, nanos2date).value, pos + |Payload(lib, Char, x).value|))
  {
    var p := Payload(lib, Char, x).value;
    AtIndex(b, pos, p, 0);
    ReadUInt8At(b, pos);
    if |x.s| == 0 {
      assert p == LE(NaN, 1);
      assert p == [0];
    }
  }

  lemma DatetimeTrip(lib: Lib, x: Val, nanos2date: bool, b: seq<byte>, pos: int)
    requires Payload(lib, Datetime, x).Ok? && Back(lib, Datetime, x, nanos2date).Some?
    requires At(b, pos, Payload(lib, Datetime, x).value)
    ensures ReadScalar(lib, Datetime, b, pos, nanos2date) == Ok((Back(lib, Datetime, x, nanos2date).value, pos + |Payload(lib, Datetime, x).value|))
  {
    assert Trunc(pos as real) == pos;
    DaysBack(x.ms);
  }

  lemma ByteTrip(lib: Lib, x: Val, nanos2date: bool, b: seq<byte>, pos: int)
    requires Payload(lib, Byte, x).Ok? && Back(lib, Byte, x, nanos2date).Some?
    requires At(b, pos, Payload(lib, Byte, x).value)
    ensures ReadScalar(lib, Byte, b, pos, nanos2date) == Ok((Back(lib, Byte, x, nanos2date).value, pos + |Payload(lib, Byte, x).value|))
  {
    var v := x.n.r.Floor;
    assert x.n == OfInt(v);
    var u := if v < 0 then v + 256 else v;
    Laws.ToUint32OfInt(u);
    assert (if v < 0 then Fin(v as real + 256.0) else OfInt(v)) == OfInt(u);
    assert Int8Byte(OfInt(v)) == v % 256;
    AtIndex(b, pos, Payload(lib, Byte, x).value, 0);
    ReadUInt8At(b, pos);
  }

  lemma ShortTrip(lib: Lib, x: Val, nanos2date: bool, b: seq<byte>, pos: int)
    requires Payload(lib, Short, x).Ok? && Back(lib, Short, x, nanos2date).Some?
    requires At(b, pos, Payload(lib, Short, x).value) && Fits(b)
    ensures ReadScalar(lib, Short, b, pos, nanos2date) == Ok((Back(lib, Short, x, nanos2date).value, pos + |Payload(lib, Short, x).value|))
  {
    hide Slice, SliceBounds, ReadSymbol, IndexOf;
    if x == Num(PosInf) {
      ReadInt16At(b, pos, SHORT_INFINITY);
    } else if x == Num(NegInf) {
      ReadInt16At(b, pos, SHORT_NEG_INFINITY);
    } else {
      var v := x.n.r.Floor;
      assert x.n == OfInt(v);
      ReadInt16At(b, pos, v);
    }
  }

  lemma IntTrip(lib: Lib, x: Val, nanos2date: bool, b: seq<byte>, pos: int)
    requires Payload(lib, Int, x).Ok? && Back(lib, Int, x, nanos2date).Some?
    requires At(b, pos, Payload(lib, Int, x).value) && Fits(b)
    ensures ReadScalar(lib, Int, b, pos, nanos2date) == Ok((Back(lib, Int, x, nanos2date).value, pos + |Payload(lib, Int, x).value|))
  {
    if x == Num(PosInf) {
      ReadInt32At(b, pos, INT_INFINITY);
    } else if x == Num(NegInf) {
      ReadInt32At(b, pos, INT_NEG_INFINITY);
    } else {
      var v := x.n.r.Floor;
      assert x.n == OfInt(v);
      ReadInt32At(b, pos, v);
    }
  }

  /** The four bytes written for one int32 half. */
  lemma Word(v: int, u: nat, bs: seq<byte>)
    requires IsInt32(v) && u == v % TWO_32 && bs == LEBytes(u, 4)
    ensures LE(OfInt(v), 4) == bs
  {
    Laws.ToUint32OfInt(v);
  }

  lemma LongTrip(lib: Lib, x: Val, nanos2date: bool, b: seq<byte>, pos: int)
    requires Payload(lib, Long, x).Ok? && Back(lib, Long, x, nanos2date).Some?
    requires At(b, pos, Payload(lib, Long, x).value) && Fits(b)
    ensures ReadScalar(lib, Long, b, pos, nanos2date) == Ok((Back(lib, Long, x, nanos2date).value, pos + |Payload(lib, Long, x).value|))
  {
    if x == Num(PosInf) || x == Num(NegInf) {
      LongInfTrip(lib, x, nanos2date, b, pos);
    } else {
      LongPlainTrip(lib, x, nanos2date, b, pos);
    }
  }

  lemma LongPlainTrip(lib: Lib, x: Val, nanos2date: bool, b: seq<byte>, pos: int)
    requires x.LongObj? && IsInt32(x.low) && IsInt32(x.high) && PlainLong(Value(x.low, x.high))
    requires At(b, pos, Payload(lib, Long, x).value) && Fits(b)
    ensures ReadScalar(lib, Long, b, pos, nanos2date) == Ok((DLong(x.low, x.high), pos + 8))
  {
    assert Payload(lib, Long, x).value == LE(OfInt(x.low), 4) + LE(OfInt(x.high), 4);
    PlainPairAt(b, pos, x.low, x.high);
  }

  /** The halves of an integer strictly inside the 64-bit range read back as
      a plain pair, never as a sentinel. */
  lemma PlainPairAt(b: seq<byte>, pos: int, low: int, high: int)
    requires IsInt32(low) && IsInt32(high) && PlainLong(Value(low, high))
    requires At(b, pos, LE(OfInt(low), 4) + LE(OfInt(high), 4)) && Fits(b)
    ensures ReadLong(b, pos) == Ok(WLong(low, high))
  {
    assert Value(-1, INT_INFINITY) == TWO_63 - 1;
    assert Value(1, INT_NULL) == -TWO_63 + 1;
    ReadLongAt(b, pos, low, high);
  }

  lemma LongInfTrip(lib: Lib, x: Val, nanos2date: bool, b: seq<byte>, pos: int)
    requires x == Num(PosInf) || x == Num(NegInf)
    requires At(b, pos, Payload(lib, Long, x).value) && Fits(b)
    ensures ReadScalar(lib, Long, b, pos, nanos2date) == Ok((DNum(x.n), pos + 8))
  {
    if x == Num(PosInf) {
      assert Payload(lib, Long, x).value == LONG_POS_INF;
      LongPosInfAt(b, pos);
    } else {
      assert Payload(lib, Long, x).value == LONG_NEG_INF;
      LongNegInfAt(b, pos);
    }
  }

  /** The positive long infinity is the pair (-1, 0x7fffffff) and reads as
      the positive sentinel. */
  lemma LongPosInfAt(b: seq<byte>, pos: int)
    requires At(b, pos, LONG_POS_INF) && Fits(b)
    ensures ReadLong(b, pos) == Ok(WPosInf)
  {
    Word(-1, 0xffff_ffff, [255, 255, 255, 255]);
    Word(INT_INFINITY, 0x7fff_ffff, [255, 255, 255, 127]);
    assert LONG_POS_INF == LE(OfInt(-1), 4) + LE(OfInt(INT_INFINITY), 4);
    ReadLongAt(b, pos, -1, INT_INFINITY);
  }

  /** The negative long infinity is the pair (1, -0x80000000) and reads as
      the negative sentinel. */
  lemma LongNegInfAt(b: seq<byte>, pos: int)
    requires At(b, pos, LONG_NEG_INF) && Fits(b)
    ensures ReadLong(b, pos) == Ok(WNegInf)
  {
    Word(1, 1, [1, 0, 0, 0]);
    Word(INT_NULL, 0x8000_0000, [0, 0, 0, 128]);
    assert LONG_NEG_INF == LE(OfInt(1), 4) + LE(OfInt(INT_NULL), 4);
    ReadLongAt(b, pos, 1, INT_NULL);
  }

  /** A symbol reads back as its text. */
  lemma SymbolText(lib: Lib, x: Val, nanos2date: bool, b: seq<byte>, pos: int)
    requires Payload(lib, Symbol, x).Ok? && Back(lib, Symbol, x, nanos2date).Some?
    requires At(b, pos, Payload(lib, Symbol, x).value) && Fits(b)
    ensures ReadScalar(lib, Symbol, b, pos, nanos2date) == Ok((Back(lib, Symbol, x, nanos2date).value, pos + |Payload(lib, Symbol, x).value|))
  {
    SymbolPayload(lib, x, nanos2date);
    ReadSymbolScalar(lib, b, pos, nanos2date, SymbolTextOf(x), Payload(lib, Symbol, x).value,
                     Back(lib, Symbol, x, nanos2date).value);
  }

  /** The bytes of a symbol's text: none for null. */
  function SymbolTextOf(x: Val): seq<byte> {
    if x.Str? then Utf8.Encode(x.s) else []
  }

  /** A symbol `Back` accepts is written as its text, free of zero bytes,
      and a terminator. */
  lemma SymbolPayload(lib: Lib, x: Val, nanos2date: bool)
    requires Payload(lib, Symbol, x).Ok? && Back(lib, Symbol, x, nanos2date).Some?
    ensures Payload(lib, Symbol, x).value == SymbolTextOf(x) + [0] && NoZero(SymbolTextOf(x))
    ensures Back(lib, Symbol, x, nanos2date) == Some(DText(SymbolTextOf(x)))
  {
    if x.Str? {
      EncodeNoZero(x.s);
    }
  }

  /** The symbol reader at a cursor holding a text and its terminator. */
  lemma ReadSymbolScalar(lib: Lib, b: seq<byte>, pos: int, nanos2date: bool, text: seq<byte>, p: seq<byte>, d: Decoded)
    requires At(b, pos, p) && Fits(b)
    requires p == text + [0] && NoZero(text) && d == DText(text)
    ensures ReadScalar(lib, Symbol, b, pos, nanos2date) == Ok((d, pos + |p|))
  {
    ReadSymbolAt(b, pos, text);
  }

  /** The halves of an integer strictly inside the 64-bit range stand for
      that integer and for neither sentinel. */
  lemma SplitPlain(n: int)
    requires PlainLong(n)
    ensures var (low, high) := Split(n);
            && IsInt32(low) && IsInt32(high) && Value(low, high) == n
            && !(low == -1 && high == INT_INFINITY) && !(low == 1 && high == INT_NULL)
    ensures WideNumber(WLong(Split(n).0, Split(n).1)) == OfInt(n)
  {
    assert Value(-1, INT_INFINITY) == TWO_63 - 1;
    assert Value(1, INT_NULL) == -TWO_63 + 1;
  }

  /** The Long written for an integer strictly inside the 64-bit range reads
      back as that integer, never as a sentinel. */
  lemma Int64At(b: seq<byte>, pos: int, n: int)
    requires PlainLong(n) && At(b, pos, Int64Bytes(n)) && Fits(b)
    ensures ReadLong(b, pos) == Ok(WLong(Split(n).0, Split(n).1))
  {
    SplitPlain(n);
    ReadLongAt(b, pos, Split(n).0, Split(n).1);
  }

  /** `rTimestamp` on the nanoseconds since 2000 of a time: the time, or its
      nanoseconds since 1970. */
  lemma TimestampValue(ms: int, nanos2date: bool)
    requires PlainLong(Nanos2000(ms))
    ensures var n := Nanos2000(ms);
            Decoder.Timestamp(WLong(Split(n).0, Split(n).1), nanos2date)
            == if nanos2date then DDate(Valid(ms)) else DNum(OfInt(ms * 1000000))
  {
    var n := Nanos2000(ms);
    SplitPlain(n);
    var days := n as real / NANOS_PER_DAY as real;
    assert MS_PER_DAY as real * (10957.0 + days) == ms as real;
    assert NANOS_PER_DAY as real * (10957.0 + days) == (ms * 1000000) as real;
    assert Trunc(ms as real) == ms;
  }

  lemma TimestampTrip(lib: Lib, x: Val, nanos2date: bool, b: seq<byte>, pos: int)
    requires Payload(lib, Timestamp, x).Ok? && Back(lib, Timestamp, x, nanos2date).Some?
    requires At(b, pos, Payload(lib, Timestamp, x).value) && Fits(b)
    ensures ReadScalar(lib, Timestamp, b, pos, nanos2date) == Ok((Back(lib, Timestamp, x, nanos2date).value, pos + |Payload(lib, Timestamp, x).value|))
  {
    hide Decoder.Timestamp, ReadScalar, Payload;
    TimestampPayload(lib, x);
    ReadTimestampAt(lib, b, pos, nanos2date, x.ms);
    TimestampValue(x.ms, nanos2date);
  }

  /** A timestamp is written as its nanoseconds since 2000. */
  lemma TimestampPayload(lib: Lib, x: Val)
    requires x.Instant?
    ensures Payload(lib, Timestamp, x) == Ok(Int64Bytes(Nanos2000(x.ms)))
  {
  }

  /** `rTimestamp` at a cursor holding a Long off the sentinels. */
  lemma ReadTimestampAt(lib: Lib, b: seq<byte>, pos: int, nanos2date: bool, ms: int)
    requires PlainLong(Nanos2000(ms)) && At(b, pos, Int64Bytes(Nanos2000(ms))) && Fits(b)
    ensures var n := Nanos2000(ms);
            ReadScalar(lib, Timestamp, b, pos, nanos2date)
            == Ok((Decoder.Timestamp(WLong(Split(n).0, Split(n).1), nanos2date), pos + 8))
  {
    Int64At(b, pos, Nanos2000(ms));
  }

  /** A day before the first day of year `bound` lies in an earlier year. */
  lemma YearBelow(day: int, bound: int)
    requires day < DayFromYear(bound)
    ensures YearOf(day) < bound
  {
    var y := YearOf(day);
    if y > bound {
      DayFromYearMonotone(bound, y);
    }
  }

  /** A year at or after 2000 that a `Date` can reach fits a 32-bit month
      count with room to spare. */
  lemma YearBounds(ms: int)
    requires ValidTime(ms) && UtcYear(ms) >= 2000
    ensures UtcYear(ms) < 300000
    ensures DayFromYear(UtcYear(ms)) >= DayFromYear(2000) > 0
  {
    var y := UtcYear(ms);
    assert DayOf(ms) < DayFromYear(300000);
    YearBelow(DayOf(ms), 300000);
    if y > 2000 {
      DayFromYearMonotone(2000, y);
    }
  }

  /** The truncated year and the remainder `rMonth` computes from a month
      count that is not negative. */
  lemma MonthCountParts(v: int)
    requires v >= 0
    ensures Trunc(2000.0 + v as real / 12.0) == 2000 + v / 12
    ensures MonthRem(v) == v % 12
  {
    var q := v / 12;
    assert v as real / 12.0 == q as real + (v % 12) as real / 12.0;
  }

  /** A whole number of milliseconds a `Date` can hold survives `TimeClip`. */
  lemma ClipWhole(t: int)
    requires ValidTime(t)
    ensures TimeClip(OfInt(t)) == Valid(t)
  {
    assert Trunc(t as real) == t;
  }

  /** `rMonth` on a month count from 2000-01 on: `Date.UTC` of that year
      and month, with no 1900s remapping. */
  lemma MonthOfCountUtc(y: int, m: int, v: int)
    requires 2000 <= y && 0 <= m < 12 && v == (y - 2000) * 12 + m
    ensures MonthOf(OfInt(v)) == TimeClip(OfInt(MakeDayFirst(y, m) * MS_PER_DAY))
  {
    assert v / 12 == y - 2000 && v % 12 == m;
    MonthOfWhole(v);
    MonthCountParts(v);
  }

  /** `rMonth` on a whole count that is not negative. */
  lemma MonthOfWhole(v: int)
    requires v >= 0
    ensures MonthOf(OfInt(v)) == UtcFirstOfMonth(2000.0 + v as real / 12.0, v % 12)
  {
    hide UtcFirstOfMonth, FirstDayOfMonth, TimeClip;
    assert Trunc(v as real) == v;
  }

  /** `MakeDay` on a month within the year needs no carry. */
  lemma MakeDayInYear(y: int, m: int)
    requires 0 <= m < 12
    ensures MakeDayFirst(y, m) == FirstDayOfMonth(y, m)
  {
    assert m / 12 == 0 && m % 12 == m;
  }

  /** `rMonth` on a month count from 2000-01 on is the first of that month. */
  lemma MonthOfCount(y: int, m: int, v: int)
    requires 2000 <= y && 0 <= m < 12 && v == (y - 2000) * 12 + m
    requires 0 < FirstDayOfMonth(y, m) && FirstDayOfMonth(y, m) * MS_PER_DAY <= MAX_TIME
    ensures MonthOf(OfInt(v)) == Valid(FirstDayOfMonth(y, m) * MS_PER_DAY)
  {
    MonthOfCountUtc(y, m, v);
    MakeDayInYear(y, m);
    ClipWhole(FirstDayOfMonth(y, m) * MS_PER_DAY);
  }

  /** The first of the month of a time from 2000 on is a valid time after
      1970. */
  lemma FirstOfMonthBounds(ms: int)
    requires ValidTime(ms) && UtcYear(ms) >= 2000
    ensures 0 < FirstDayOfMonth(UtcYear(ms), UtcMonth(ms))
    ensures FirstDayOfMonth(UtcYear(ms), UtcMonth(ms)) * MS_PER_DAY <= MAX_TIME
  {
    YearBounds(ms);
    FirstOfMonthSameMonth(ms);
    var f := FirstDayOfMonth(UtcYear(ms), UtcMonth(ms));
    assert 0 <= MonthStart(UtcMonth(ms), Leap(UtcYear(ms)));
    assert DayOf(ms) * MS_PER_DAY <= ms;
  }

  /** The months since 2000-01 of a time. */
  function MonthCount(ms: int): int { (UtcYear(ms) - 2000) * 12 + UtcMonth(ms) }

  /** `wmonth` from 2000 on writes the months since 2000-01. */
  lemma MonthPayload(lib: Lib, x: Val, nanos2date: bool)
    requires Payload(lib, Month, x).Ok? && Back(lib, Month, x, nanos2date).Some?
    ensures 0 <= MonthCount(x.ms) < INT_INFINITY
    ensures Payload(lib, Month, x).value == LE(OfInt(MonthCount(x.ms)), 4)
  {
    YearBounds(x.ms);
  }

  /** `rMonth` at a cursor holding a month count. */
  lemma ReadMonthAt(lib: Lib, b: seq<byte>, pos: int, nanos2date: bool, v: int)
    requires 0 <= v < INT_INFINITY && At(b, pos, LE(OfInt(v), 4)) && Fits(b)
    ensures ReadScalar(lib, Month, b, pos, nanos2date) == Ok((DDate(MonthOf(OfInt(v))), pos + 4))
  {
    hide MonthOf, CountDate, UtcFirstOfMonth, TimeClip;
    ReadCountAt(b, pos, v);
  }

  /** `rMonth` on the count `wmonth` writes for a time from 2000 on is the
      first of that time's month. */
  lemma MonthValue(ms: int)
    requires ValidTime(ms) && UtcYear(ms) >= 2000
    ensures MonthOf(OfInt(MonthCount(ms))) == Valid(FirstDayOfMonth(UtcYear(ms), UtcMonth(ms)) * MS_PER_DAY)
  {
    FirstOfMonthBounds(ms);
    MonthOfCount(UtcYear(ms), UtcMonth(ms), MonthCount(ms));
  }

  /** The month `Back` gives is what `rMonth` makes of the count written. */
  lemma MonthBack(lib: Lib, x: Val, nanos2date: bool)
    requires Back(lib, Month, x, nanos2date).Some?
    ensures Back(lib, Month, x, nanos2date).value == DDate(MonthOf(OfInt(MonthCount(x.ms))))
  {
    assert Back(lib, Month, x, nanos2date) == BackMonth(x.ms);
    MonthValue(x.ms);
  }

  lemma MonthTrip(lib: Lib, x: Val, nanos2date: bool, b: seq<byte>, pos: int)
    requires Payload(lib, Month, x).Ok? && Back(lib, Month, x, nanos2date).Some?
    requires At(b, pos, Payload(lib, Month, x).value) && Fits(b)
    ensures ReadScalar(lib, Month, b, pos, nanos2date) == Ok((Back(lib, Month, x, nanos2date).value, pos + |Payload(lib, Month, x).value|))
  {
    MonthPayload(lib, x, nanos2date);
    ReadMonthAt(lib, b, pos, nanos2date, MonthCount(x.ms));
    MonthBack(lib, x, nanos2date);
  }

  /** `ms / 86400000 - 10957` truncated is the day count since 2000 when the
      time is not before 2000. */
  lemma DaysTrunc(ms: int)
    requires ms >= EPOCH_2000
    ensures Trunc(Days2000(ms)) == DayOf(ms) - 10957
  {
    var q := DayOf(ms);
    assert Days2000(ms) == (q - 10957) as real + (ms % MS_PER_DAY) as real / MS_PER_DAY as real;
  }

  /** `date` applied to the day count `wdatetime` writes is the time itself. */
  lemma DaysBack(ms: int)
    ensures MS_PER_DAY as real * (10957.0 + Days2000(ms)) == ms as real
    ensures Trunc(ms as real) == ms
  {
  }

  /** `wdate` from 2000 on writes the whole days since 2000. */
  lemma DatePayload(lib: Lib, x: Val)
    requires Payload(lib, Date, x).Ok? && x.Instant? && ValidTime(x.ms) && x.ms >= EPOCH_2000
    ensures 0 <= DayOf(x.ms) - 10957 < INT_INFINITY
    ensures Payload(lib, Date, x).value == LE(OfInt(DayOf(x.ms) - 10957), 4)
  {
    DaysTrunc(x.ms);
  }

  /** `rDate` on a day count from 2000 on is the start of that day. */
  lemma DateValue(ms: int)
    requires ValidTime(ms) && ms >= EPOCH_2000
    ensures DateOf(OfInt(DayOf(ms) - 10957)) == Valid(DayOf(ms) * MS_PER_DAY)
  {
    var d := DayOf(ms) - 10957;
    assert DayOf(ms) * MS_PER_DAY <= ms;
    assert MS_PER_DAY as real * (10957.0 + d as real) == (DayOf(ms) * MS_PER_DAY) as real;
    ClipWhole(DayOf(ms) * MS_PER_DAY);
  }

  lemma DateTrip(lib: Lib, x: Val, nanos2date: bool, b: seq<byte>, pos: int)
    requires Payload(lib, Date, x).Ok? && Back(lib, Date, x, nanos2date).Some?
    requires At(b, pos, Payload(lib, Date, x).value) && Fits(b)
    ensures ReadScalar(lib, Date, b, pos, nanos2date) == Ok((Back(lib, Date, x, nanos2date).value, pos + |Payload(lib, Date, x).value|))
  {
    DatePayload(lib, x);
    ReadCountAt(b, pos, DayOf(x.ms) - 10957);
    DateValue(x.ms);
  }

  /** `rTimespan` on the nanoseconds of a time of day: the same `Long`, or
      2000-01-01 plus that time. */
  lemma TimespanValue(twd: int, nanos2date: bool)
    requires 0 <= twd < MS_PER_DAY
    ensures var n := twd * 1000000;
            Decoder.Timespan(WLong(Split(n).0, Split(n).1), nanos2date)
            == if nanos2date then DDate(Valid(EPOCH_2000 + twd)) else DLong(Split(n).0, Split(n).1)
  {
    var n := twd * 1000000;
    SplitPlain(n);
    var t := EPOCH_2000 + twd;
    assert MS_PER_DAY as real * (10957.0 + n as real / NANOS_PER_DAY as real) == t as real;
    ClipWhole(t);
  }

  lemma TimespanTrip(lib: Lib, x: Val, nanos2date: bool, b: seq<byte>, pos: int)
    requires Payload(lib, Timespan, x).Ok? && Back(lib, Timespan, x, nanos2date).Some?
    requires At(b, pos, Payload(lib, Timespan, x).value) && Fits(b)
    ensures ReadScalar(lib, Timespan, b, pos, nanos2date) == Ok((Back(lib, Timespan, x, nanos2date).value, pos + |Payload(lib, Timespan, x).value|))
  {
    hide Decoder.Timespan, ReadScalar, Payload;
    var twd := TimeWithinDay(x.ms);
    TimespanPayload(lib, x);
    ReadTimespanAt(lib, b, pos, nanos2date, twd);
    TimespanValue(twd, nanos2date);
  }

  /** A time is written as the nanoseconds of its time of day. */
  lemma TimespanPayload(lib: Lib, x: Val)
    requires x.Instant?
    ensures Payload(lib, Timespan, x) == Ok(Int64Bytes(TimeWithinDay(x.ms) * 1000000))
  {
    TimeOfDayFields(x.ms);
  }

  /** `rTimespan` at a cursor holding the nanoseconds of a time of day. */
  lemma ReadTimespanAt(lib: Lib, b: seq<byte>, pos: int, nanos2date: bool, twd: int)
    requires 0 <= twd < MS_PER_DAY && At(b, pos, Int64Bytes(twd * 1000000)) && Fits(b)
    ensures var n := twd * 1000000;
            ReadScalar(lib, Timespan, b, pos, nanos2date)
            == Ok((Decoder.Timespan(WLong(Split(n).0, Split(n).1), nanos2date), pos + 8))
  {
    Int64At(b, pos, twd * 1000000);
  }

  /** The whole minutes, seconds or milliseconds of a time's time of day. */
  function ClockCount(w: WireType, ms: int): int { TimeWithinDay(ms) / ClockUnit(w) }

  /** `minute`, `second` and `time` write the whole units of the time of
      day. */
  lemma ClockPayload(lib: Lib, w: WireType, x: Val, nanos2date: bool)
    requires w == Minute || w == Second || w == Time
    requires Payload(lib, w, x).Ok? && Back(lib, w, x, nanos2date).Some?
    ensures 0 <= ClockCount(w, x.ms) && ClockCount(w, x.ms) * ClockUnit(w) < MS_PER_DAY
    ensures Payload(lib, w, x).value == LE(OfInt(ClockCount(w, x.ms)), 4)
  {
    assert x.Instant?;
    ClockBounds(w, x.ms);
    if w == Minute {
      MinutePayload(lib, x);
    } else if w == Second {
      SecondPayload(lib, x);
    } else {
      TimePayload(lib, x);
    }
  }

  lemma MinutePayload(lib: Lib, x: Val)
    requires x.Instant?
    ensures Payload(lib, Minute, x) == Ok(LE(OfInt(TimeWithinDay(x.ms) / MS_PER_MINUTE), 4))
  {
    TimeOfDayFields(x.ms);
  }

  lemma SecondPayload(lib: Lib, x: Val)
    requires x.Instant?
    ensures Payload(lib, Second, x) == Ok(LE(OfInt(TimeWithinDay(x.ms) / MS_PER_SECOND), 4))
  {
    TimeOfDayFields(x.ms);
  }

  lemma TimePayload(lib: Lib, x: Val)
    requires x.Instant?
    ensures Payload(lib, Time, x) == Ok(LE(OfInt(TimeWithinDay(x.ms) / 1), 4))
  {
    TimeOfDayFields(x.ms);
  }

  lemma ClockBounds(w: WireType, ms: int)
    ensures 0 <= ClockCount(w, ms) && ClockCount(w, ms) * ClockUnit(w) < MS_PER_DAY
  {
    var u := ClockUnit(w);
    assert ClockCount(w, ms) * u <= TimeWithinDay(ms);
  }

  /** `minute`, `second` and `time` at a cursor holding a count. */
  lemma ReadClockAt(lib: Lib, w: WireType, b: seq<byte>, pos: int, nanos2date: bool, v: int)
    requires w == Minute || w == Second || w == Time
    requires 0 <= v < INT_INFINITY && At(b, pos, LE(OfInt(v), 4)) && Fits(b)
    ensures ReadScalar(lib, w, b, pos, nanos2date) == Ok((DDate(CountDate(w, OfInt(v))), pos + 4))
  {
    ReadCountAt(b, pos, v);
  }

  /** The time `Back` gives is what the reader makes of the count written. */
  lemma ClockBack(lib: Lib, w: WireType, x: Val, nanos2date: bool)
    requires w == Minute || w == Second || w == Time
    requires Back(lib, w, x, nanos2date).Some?
    ensures 0 <= ClockCount(w, x.ms) && ClockCount(w, x.ms) * ClockUnit(w) < MS_PER_DAY
    ensures Back(lib, w, x, nanos2date).value == DDate(CountDate(w, OfInt(ClockCount(w, x.ms))))
  {
    assert Back(lib, w, x, nanos2date) == Some(BackClock(x.ms, ClockUnit(w)));
    ClockDate(w, ClockCount(w, x.ms));
  }

  /** `minute`, `second` and `time` read a count back as 2000-01-01 plus
      that many minutes, seconds or milliseconds. */
  lemma ClockDate(w: WireType, v: int)
    requires w == Minute || w == Second || w == Time
    requires 0 <= v && v * ClockUnit(w) < MS_PER_DAY
    ensures CountDate(w, OfInt(v)) == Valid(EPOCH_2000 + v * ClockUnit(w))
  {
    var t := EPOCH_2000 + v * ClockUnit(w);
    if w == Minute {
      MinuteDate(v);
    } else if w == Second {
      SecondDate(v);
    } else {
      assert MS_PER_DAY as real * (10957.0 + v as real / MS_PER_DAY as real) == t as real;
      ClipWhole(t);
    }
  }

  lemma MinuteDate(v: int)
    requires 0 <= v < 1440
    ensures DateOf(Over(OfInt(v), 1440.0)) == Valid(EPOCH_2000 + v * MS_PER_MINUTE)
  {
    var t := EPOCH_2000 + v * MS_PER_MINUTE;
    assert MS_PER_DAY as real * (10957.0 + v as real / 1440.0) == t as real;
    ClipWhole(t);
  }

  lemma SecondDate(v: int)
    requires 0 <= v < 86400
    ensures DateOf(Over(OfInt(v), 86400.0)) == Valid(EPOCH_2000 + v * MS_PER_SECOND)
  {
    var t := EPOCH_2000 + v * MS_PER_SECOND;
    assert MS_PER_DAY as real * (10957.0 + v as real / 86400.0) == t as real;
    ClipWhole(t);
  }

  lemma ClockTrip(lib: Lib, w: WireType, x: Val, nanos2date: bool, b: seq<byte>, pos: int)
    requires w == Minute || w == Second || w == Time
    requires Payload(lib, w, x).Ok? && Back(lib, w, x, nanos2date).Some?
    requires At(b, pos, Payload(lib, w, x).value) && Fits(b)
    ensures ReadScalar(lib, w, b, pos, nanos2date) == Ok((Back(lib, w, x, nanos2date).value, pos + |Payload(lib, w, x).value|))
  {
    ClockPayload(lib, w, x, nanos2date);
    ReadClockAt(lib, w, b, pos, nanos2date, ClockCount(w, x.ms));
    ClockBack(lib, w, x, nanos2date);
  }
}
