/** The type registry: the 18 scalar wire types with their codes and fixed
    widths, the type names the encoder dispatches on, the numeric
    sentinels, and the symbol-literal pattern. */
module Registry {
  import opened JsNum

  /** The scalar wire types: 17 fixed-width types plus the variable-width symbol. */
  datatype WireType =
    | Boolean | Guid | Byte | Short | Int | Long | Real | Float | Char | Symbol
    | Timestamp | Month | Date | Datetime | Timespan | Minute | Second | Time

  /** The registry code of a scalar type. */
  function Code(w: WireType): int {
    match w
    case Boolean => 1
    case Guid => 2
    case Byte => 4
    case Short => 5
    case Int => 6
    case Long => 7
    case Real => 8
    case Float => 9
    case Char => 10
    case Symbol => 11
    case Timestamp => 12
    case Month => 13
    case Date => 14
    case Datetime => 15
    case Timespan => 16
    case Minute => 17
    case Second => 18
    case Time => 19
  }

  /** The fixed payload width; the symbol has none. */
  function Width(w: WireType): (r: Option<nat>)
    ensures r.Some? <==> !w.Symbol?
    ensures IsTemporal(w) ==> r == Some(if w.Timestamp? || w.Datetime? || w.Timespan? then 8 else 4)
  {
    match w
    case Boolean => Some(1)
    case Guid => Some(16)
    case Byte => Some(1)
    case Short => Some(2)
    case Int => Some(4)
    case Long => Some(8)
    case Real => Some(4)
    case Float => Some(8)
    case Char => Some(1)
    case Symbol => None
    case Timestamp => Some(8)
    case Month => Some(4)
    case Date => Some(4)
    case Datetime => Some(8)
    case Timespan => Some(8)
    case Minute => Some(4)
    case Second => Some(4)
    case Time => Some(4)
  }

  /** The wire types that carry a date or a time. */
  predicate IsTemporal(w: WireType) {
    w.Timestamp? || w.Month? || w.Date? || w.Datetime? || w.Timespan? || w.Minute? || w.Second? || w.Time?
  }

  /** The registry read back from a code, for the decoder's dispatch. */
  function FromCode(c: int): (r: Option<WireType>)
    ensures r.Some? ==> Code(r.value) == c
  {
    match c
    case 1 => Some(Boolean)
    case 2 => Some(Guid)
    case 4 => Some(Byte)
    case 5 => Some(Short)
    case 6 => Some(Int)
    case 7 => Some(Long)
    case 8 => Some(Real)
    case 9 => Some(Float)
    case 10 => Some(Char)
    case 11 => Some(Symbol)
    case 12 => Some(Timestamp)
    case 13 => Some(Month)
    case 14 => Some(Date)
    case 15 => Some(Datetime)
    case 16 => Some(Timespan)
    case 17 => Some(Minute)
    case 18 => Some(Second)
    case 19 => Some(Time)
    case _ => None
  }

  /** A type name as the encoder sees it: `Typed.type`, the result of type
      inference, or a forced type. `Undef` is JavaScript `undefined` (no type);
      `Other` is any name outside the registry. */
  datatype TypeName =
    | Q(w: WireType)
    | NullT | ListT | MixedListT | TypedListT | DictT | StringT
    | Undef
    | Other(name: string)

  /** The name a type goes by: the registry key of a scalar, the container
      names, `undefined`, or the name as given. */
  function Name(t: TypeName): string {
    match t
    case Q(w) => WireName(w)
    case NullT => "null"
    case ListT => "list"
    case MixedListT => "mixedlist"
    case TypedListT => "typedlist"
    case DictT => "dict"
    case StringT => "string"
    case Undef => "undefined"
    case Other(name) => name
  }

  function WireName(w: WireType): string {
    match w
    case Boolean => "boolean"
    case Guid => "guid"
    case Byte => "byte"
    case Short => "short"
    case Int => "int"
    case Long => "long"
    case Real => "real"
    case Float => "float"
    case Char => "char"
    case Symbol => "symbol"
    case Timestamp => "timestamp"
    case Month => "month"
    case Date => "date"
    case Datetime => "datetime"
    case Timespan => "timespan"
    case Minute => "minute"
    case Second => "second"
    case Time => "time"
  }

  /** A registry lookup: the entry, or the failure "bad type t". */
  datatype Lookup<T> = Found(value: T) | BadType(name: TypeName)

  /** `type2num`: the code of a registered scalar name; any other name fails. */
  function Type2Num(t: TypeName): (r: Lookup<int>)
    ensures r.Found? <==> t.Q?
    ensures r.Found? ==> 1 <= r.value <= 19 && r.value != 3
    ensures r.BadType? ==> r.name == t
  {
    match t
    case Q(w) => Found(Code(w))
    case _ => BadType(t)
  }

  /** `type2size`: the width of a registered fixed-width name; the symbol and
      every non-scalar name fail. */
  function Type2Size(t: TypeName): (r: Lookup<nat>)
    ensures r.Found? <==> t.Q? && t.w != Symbol
    ensures r.Found? ==> r.value in {1, 2, 4, 8, 16}
    ensures r.BadType? ==> r.name == t
  {
    if t.Q? && Width(t.w).Some? then Found(Width(t.w).value) else BadType(t)
  }

  /** Wire-level sentinels. */
  const SHORT_INFINITY: int := 32767
  const SHORT_NEG_INFINITY: int := 0 - SHORT_INFINITY
  const INT_NULL: int := -2147483648
  const INT_INFINITY: int := 2147483647
  const INT_NEG_INFINITY: int := 0 - INT_INFINITY

  /** The byte patterns written for real (float32) and float (float64) infinities. */
  const REAL_POS_INF: seq<byte> := [0, 0, 128, 127]
  const REAL_NEG_INF: seq<byte> := [0, 0, 128, 255]
  const FLOAT_POS_INF: seq<byte> := [0, 0, 0, 0, 0, 0, 240, 127]
  const FLOAT_NEG_INF: seq<byte> := [0, 0, 0, 0, 0, 0, 240, 255]

  /** The byte patterns written for long infinities. */
  const LONG_POS_INF: seq<byte> := [255, 255, 255, 255, 255, 255, 255, 127]
  const LONG_NEG_INF: seq<byte> := [1, 0, 0, 0, 0, 0, 0, 128]

  /** The characters JavaScript's `\s` matches (WhiteSpace and LineTerminator),
      as UTF-16 code units. */
  predicate IsJsWhitespace(u: int) {
    u == 9 || u == 10 || u == 11 || u == 12 || u == 13 || u == 32 || u == 0xA0
    || u == 0x1680 || (0x2000 <= u <= 0x200A) || u == 0x2028 || u == 0x2029
    || u == 0x202F || u == 0x205F || u == 0x3000 || u == 0xFEFF
  }

  const BACKTICK: int := 96

  /** The symbol-literal pattern /^`\S+$/ over UTF-16 code units: a backtick
      and then one or more non-whitespace units up to the end. */
  predicate IsSymbolLiteral(s: seq<int>) {
    |s| >= 2 && s[0] == BACKTICK && forall k :: 1 <= k < |s| ==> !IsJsWhitespace(s[k])
  }

  /** Codes are pairwise distinct: the registry is injective. */
  lemma CodesDistinct(a: WireType, b: WireType)
    ensures Code(a) == Code(b) <==> a == b
  {
  }

  /** Every code lies in 1..19, and 3 is the one code in that range no type has. */
  lemma CodeRange(w: WireType)
    ensures 1 <= Code(w) <= 19 && Code(w) != 3
    ensures FromCode(Code(w)) == Some(w)
  {
  }

  /** Reading a code back is defined exactly on 1..19 without 3. */
  lemma FromCodeDomain(c: int)
    ensures FromCode(c).Some? <==> 1 <= c <= 19 && c != 3
  {
  }

  /** The symbol is the only registered type without a fixed width. */
  lemma OnlySymbolIsVariable(w: WireType)
    ensures Width(w).None? <==> w == Symbol
  {
  }
}
