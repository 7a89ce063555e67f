/** `calcN`: the number of body bytes the encoder allocates for a value,
    computed ahead of writing. It follows the encoder's dispatch, with its
    own arithmetic: dict keys count by their UTF-16 length, and a symbol
    element counts by the UTF-8 length of its text form. */
module Sizing {
  import opened Utf8
  import opened Registry
  import opened Values
  import opened Errors
  import Encoder

  /** `Buffer.byteLength` of a string: its UTF-8 length. */
  function ByteLength(s: JsString): (n: nat)
    ensures n >= |s|
  {
    EncodeLength(s);
    |Utf8.Encode(s)|
  }

  /** The text `null` has four UTF-8 bytes. */
  const NULL_TEXT_LENGTH: nat := 4

  /** One element of a symbol list: a terminator plus the UTF-8 length of the
      element's text form (null reads as the text "null"). */
  function SymbolCost(x: Val): (r: Result<nat>)
    ensures x.Str? ==> r == Ok(1 + ByteLength(x.s))
    ensures x.Null? ==> r == Ok(1 + NULL_TEXT_LENGTH)
  {
    match x
    case Str(s) => Ok(1 + ByteLength(s))
    case Null => Ok(1 + NULL_TEXT_LENGTH)
    case _ => Err(Unmodelled("the text form of a non-string symbol"))
  }

  function SymbolCosts(items: seq<Val>): (r: Result<nat>) {
    if |items| == 0 then Ok(0)
    else
      var c :- SymbolCost(items[0]);
      var rest :- SymbolCosts(items[1..]);
      Ok(c + rest)
  }

  /** A typed list: 6 header bytes, then a terminator plus text per symbol, or
      the registry width per element of any other type. */
  function CalcTyped(vt: TypeName, items: seq<Val>): (r: Result<nat>)
    ensures r.Ok? ==> r.value >= 6
    ensures vt.Q? && vt.w != Symbol ==> r == Ok(6 + Width(vt.w).value * |items|)
  {
    if vt == Q(Symbol) then
      var n :- SymbolCosts(items);
      Ok(6 + n)
    else
      var size :- Lift(Type2Size(vt));
      Ok(6 + size * |items|)
  }

  /** The dict keys: a terminator plus the key's UTF-16 length, per key. */
  function KeysLength(keys: seq<JsString>): (n: nat)
    ensures n >= |keys|
  {
    if |keys| == 0 then 0 else 1 + |keys[0]| + KeysLength(keys[1..])
  }

  /** A list tag on a value that is not an array. */
  function CalcNonArray(x: Val): (r: Result<nat>)
    requires !x.Arr?
    ensures Encoder.NoLength(x) ==> r == Ok(6)
  {
    if x.Null? || x.Undefined? then Err(TypeErr("Cannot read property 'length' of null"))
    else if Encoder.NoLength(x) then Ok(6)
    else Err(Unmodelled("the length of a string or object"))
  }

  /** `calcN(x)`: by the explicit tag, else by the inferred type. */
  function CalcN(x: Val): (r: Result<nat>)
    ensures r.Ok? ==> r.value >= 2
    ensures x.Null? ==> r == Ok(2)
    decreases Size(x), 2
  {
    if x.Typed? then CalcAs(x.t, x.v, x.vt) else CalcAs(InferType(x), x, Undef)
  }

  /** The body of `calcN` once the type is known. */
  function CalcAs(t: TypeName, x: Val, vt: TypeName): (r: Result<nat>)
    ensures r.Ok? ==> r.value >= 2
    ensures t == NullT ==> r == Ok(2)
    ensures t.Undef? || t.Other? ==> r == Err(BadTypeName(t))
    ensures (t == ListT || t == MixedListT || t == TypedListT) && r.Ok? ==> r.value >= 6
    ensures t == DictT && r.Ok? ==> r.value >= 13
    decreases Size(x), 1
  {
    match t
    case NullT => Ok(2)
    case DictT => CalcDict(x)
    case ListT =>
      if x.Arr? then CalcUntyped(x.items) else CalcNonArray(x)
    case MixedListT =>
      if x.Arr? then CalcMixed(x.items) else CalcNonArray(x)
    case TypedListT =>
      if x.Arr? then CalcTyped(vt, x.items)
      else Result<nat>.Err(Unmodelled("a typed list over a value that is not an array"))
    case StringT => CalcString(x)
    case Q(w) => CalcAtom(w, x)
    case _ => Err(BadTypeName(t))
  }

  /** An atom: the tag and the payload's width; a symbol costs its text and
      a terminator. */
  function CalcAtom(w: WireType, x: Val): (r: Result<nat>)
    ensures w != Symbol ==> r == Ok(1 + Width(w).value)
    ensures w == Symbol ==> (r.Ok? <==> x.Null? || x.Str?)
    ensures w == Symbol && x.Str? ==> r == Ok(2 + ByteLength(x.s))
    ensures r.Ok? ==> r.value >= 2
  {
    if w == Symbol then
      if x.Null? then Ok(2)
      else if x.Str? then Ok(2 + ByteLength(x.s))
      else Err(Unmodelled("the text form of a non-string symbol"))
    else Ok(1 + Width(w).value)
  }

  /** A dict: 7 header bytes, each key's length plus a terminator, and the
      values as an untyped list. */
  function CalcDict(x: Val): (r: Result<nat>)
    ensures Encoder.DictFieldsOf(x).Err? ==> r.Err?
    ensures r.Ok? ==> r.value >= 13 + |Encoder.DictFieldsOf(x).value|
    decreases Size(x), 0
  {
    var fields :- Encoder.DictFieldsOf(x);
    DictFieldsSmaller(x);
    var vals :- CalcUntyped(FieldValues(fields));
    Ok(7 + KeysLength(Keys(fields)) + vals)
  }

  /** A string: its length plus one for a symbol literal, plus six for a
      char list. */
  function CalcString(x: Val): (r: Result<nat>)
    ensures r.Ok? <==> x.Str?
    ensures x.Str? && IsSymbolLiteral(x.s) ==> r.value == 1 + ByteLength(x.s)
    ensures x.Str? && !IsSymbolLiteral(x.s) ==> r.value == 6 + ByteLength(x.s)
    ensures r.Ok? ==> r.value >= 3
  {
    if !x.Str? then Result<nat>.Err(Unmodelled("a string tag on a value that is not a string"))
    else
      var n: nat := ByteLength(x.s) + if IsSymbolLiteral(x.s) then 1 else 6;
      Ok(n)
  }

  /** An array with no explicit type, promoted as the encoder promotes it. */
  function CalcUntyped(items: seq<Val>): (r: Result<nat>)
    ensures r.Ok? ==> r.value >= 6
    ensures Promotion(items).Some? && Promotion(items).value.Q? && Promotion(items).value.w != Symbol
            ==> r == Ok(6 + Width(Promotion(items).value.w).value * |items|)
    ensures Promotion(items).None? && r.Ok? ==> r.value >= 6 + 2 * |items|
    decreases SizeSeq(items), 2
  {
    match Promotion(items)
    case Some(vt) => CalcTyped(vt, Strip(items))
    case None => CalcMixed(items)
  }

  /** A mixed list: 6 header bytes plus every element's own size. */
  function CalcMixed(items: seq<Val>): (r: Result<nat>)
    ensures r.Ok? ==> r.value >= 6 + 2 * |items|
    decreases SizeSeq(items), 1
  {
    var body :- CalcItems(items);
    Ok(6 + body)
  }

  function CalcItems(items: seq<Val>): (r: Result<nat>)
    ensures r.Ok? ==> r.value >= 2 * |items|
    ensures r.Ok? <==> forall k :: 0 <= k < |items| ==> CalcN(items[k]).Ok?
    decreases SizeSeq(items), 0
  {
    if |items| == 0 then Ok(0)
    else
      var first :- CalcN(items[0]);
      var rest :- CalcItems(items[1..]);
      Ok(first + rest)
  }
}
