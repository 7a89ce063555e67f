/** The producer-side value tree: the JavaScript values the encoder accepts,
    including the `Typed` wrapper, and type inference over them. */
module Values {
  import opened JsNum
  import opened Utf8
  import opened Registry

  /** A JavaScript value as the codec sees it. `Instant` is a `Date` holding
      integer milliseconds since 1970-01-01; `LongObj` is a `Long` instance
      whose halves were already coerced to int32; `Typed` is the tag wrapper
      (`type`, `value`, `valuetype`). */
  datatype Val =
    | Undefined
    | Null
    | Bool(b: bool)
    | Num(n: Number)
    | Str(s: JsString)
    | Instant(ms: int)
    | Arr(items: seq<Val>)
    | Obj(fields: seq<Field>)
    | LongObj(low: int, high: int)
    | Typed(t: TypeName, v: Val, vt: TypeName)

  /** One own property of a plain object, in key order. */
  datatype Field = Field(key: JsString, val: Val)

  /** A size measure for recursion through arrays and objects. A `Long`
      instance weighs more than its three own properties, which the encoder
      visits when it writes one as a dict. */
  function Size(v: Val): nat {
    match v
    case Arr(items) => 1 + SizeSeq(items)
    case Obj(fields) => 1 + SizeFields(fields)
    case Typed(_, x, _) => 1 + Size(x)
    case LongObj(_, _) => 5
    case _ => 1
  }

  function SizeSeq(items: seq<Val>): (n: nat)
    ensures forall k :: 0 <= k < |items| ==> Size(items[k]) < n
  {
    if |items| == 0 then 1 else Size(items[0]) + SizeSeq(items[1..])
  }

  function SizeFields(fields: seq<Field>): (n: nat)
    ensures forall k :: 0 <= k < |fields| ==> Size(fields[k].val) < n
  {
    if |fields| == 0 then 1 else Size(fields[0].val) + SizeFields(fields[1..])
  }

  /** `getVals`: the values of an object's own properties, in key order. */
  function FieldValues(fields: seq<Field>): (vs: seq<Val>)
    ensures |vs| == |fields|
    ensures forall k :: 0 <= k < |fields| ==> vs[k] == fields[k].val
  {
    if |fields| == 0 then [] else [fields[0].val] + FieldValues(fields[1..])
  }

  /** The keys of an object's own properties, in order (`Object.keys`):
      zipped with `FieldValues`, they give back the properties. */
  function Keys(fields: seq<Field>): (ks: seq<JsString>)
    ensures |ks| == |FieldValues(fields)|
    ensures forall k :: 0 <= k < |fields| ==> fields[k] == Field(ks[k], FieldValues(fields)[k])
  {
    if |fields| == 0 then [] else [fields[0].key] + Keys(fields[1..])
  }

  lemma {:induction false} SizeSeqValues(fields: seq<Field>)
    ensures SizeSeq(FieldValues(fields)) == SizeFields(fields)
  {
    if |fields| > 0 {
      SizeSeqValues(fields[1..]);
      assert FieldValues(fields)[1..] == FieldValues(fields[1..]);
    }
  }

  /** The own properties the encoder finds on an object it writes as a dict.
      A `Long` instance has three: `low`, `high` and `unsigned`. */
  function DictFields(v: Val): Option<seq<Field>> {
    match v
    case Obj(fields) => Some(fields)
    case LongObj(low, high) =>
      Some([Field(LOW_KEY, Num(OfInt(low))), Field(HIGH_KEY, Num(OfInt(high))), Field(UNSIGNED_KEY, Bool(false))])
    case _ => None
  }

  /** The values of the properties a dict visits weigh less than the dict. */
  lemma DictFieldsSmaller(x: Val)
    requires DictFields(x).Some?
    ensures SizeSeq(FieldValues(DictFields(x).value)) < Size(x)
  {
    if x.Obj? {
      SizeSeqValues(x.fields);
    } else {
      var vs := FieldValues(DictFields(x).value);
      assert vs[1..][1..][1..] == [];
      assert SizeSeq(vs[1..][1..]) == 2;
      assert SizeSeq(vs[1..]) == 3;
    }
  }

  const LOW_KEY: JsString := [108, 111, 119]
  const HIGH_KEY: JsString := [104, 105, 103, 104]
  const UNSIGNED_KEY: JsString := [117, 110, 115, 105, 103, 110, 101, 100]

  /** `inferType`: the explicit tag wins, then null, number, Date, boolean,
      array, string and any other object; `undefined` has no type. */
  function InferType(v: Val): (t: TypeName)
    ensures v.Typed? ==> t == v.t
    ensures v.Num? <==> !v.Typed? && t == Q(Float)
    ensures v.Instant? <==> !v.Typed? && t == Q(Datetime)
    ensures v.Bool? <==> !v.Typed? && t == Q(Boolean)
    ensures (v.Obj? || v.LongObj?) <==> !v.Typed? && t == DictT
    ensures v.Undefined? <==> !v.Typed? && t == Undef
    ensures v.Null? <==> !v.Typed? && t == NullT
    ensures v.Arr? <==> !v.Typed? && t == ListT
    ensures v.Str? <==> !v.Typed? && t == StringT
  {
    match v
    case Typed(t, _, _) => t
    case Null => NullT
    case Num(_) => Q(Float)
    case Instant(_) => Q(Datetime)
    case Bool(_) => Q(Boolean)
    case Arr(_) => ListT
    case Str(_) => StringT
    case Obj(_) => DictT
    case LongObj(_, _) => DictT
    case Undefined => Undef
  }

  /** The names `isListOfSamePrimitiveType` refuses outright. */
  predicate IsContainerName(t: TypeName) {
    t == ListT || t == TypedListT || t == MixedListT || t == StringT || t == DictT || t == NullT
  }

  /** `isListOfSamePrimitiveType`: false for container names, otherwise true
      iff every element infers to `vt`. */
  predicate AllSameType(items: seq<Val>, vt: TypeName) {
    !IsContainerName(vt) && forall k :: 0 <= k < |items| ==> InferType(items[k]) == vt
  }

  /** The promotion rule shared by the size estimator and the encoder: a
      non-empty array whose elements all infer to the first element's
      primitive type becomes a typed list of that type. */
  function Promotion(items: seq<Val>): (r: Option<TypeName>)
    ensures r.Some? <==> |items| > 0 && AllSameType(items, InferType(items[0]))
    ensures r.Some? ==> r.value == InferType(items[0]) && !IsContainerName(r.value)
  {
    if |items| > 0 && AllSameType(items, InferType(items[0])) then Some(InferType(items[0])) else None
  }

  /** Strips `Typed` wrappers from the elements of a promoted list. */
  function Strip(items: seq<Val>): (r: seq<Val>)
    ensures |r| == |items|
    ensures forall k :: 0 <= k < |items| ==> r[k] == (if items[k].Typed? then items[k].v else items[k])
  {
    if |items| == 0 then []
    else [if items[0].Typed? then items[0].v else items[0]] + Strip(items[1..])
  }

  /** JavaScript truthiness: everything but undefined, null, false, 0, NaN
      and the empty string. */
  predicate Truthy(v: Val)
    ensures !Truthy(v) <==> v == Undefined || v == Null || v == Bool(false)
                            || v == Num(Fin(0.0)) || v == Num(NaN) || v == Str([])
  {
    match v
    case Undefined => false
    case Null => false
    case Bool(b) => b
    case Num(n) => !(n == Fin(0.0) || n.NaN?)
    case Str(s) => |s| > 0
    case _ => true
  }

  /** The unary `+` coercion, where the model covers it: numbers, booleans,
      null, undefined and dates. Strings, arrays and objects go through their
      text form, which is not modelled (`None`). */
  function ToNumber(v: Val): (r: Option<Number>)
    ensures v.Num? ==> r == Some(v.n)
  {
    match v
    case Num(n) => Some(n)
    case Bool(b) => Some(if b then Fin(1.0) else Fin(0.0))
    case Null => Some(Fin(0.0))
    case Undefined => Some(NaN)
    case Instant(ms) => Some(OfInt(ms))
    case _ => None
  }
}
