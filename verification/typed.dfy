/** The tag constructors: shape validators, the `Typed` wrapper's
    accessors, the one-letter scalar and list constructors, the long rules,
    and the `dict` and `list` tags. */
module Tags {
  import opened JsNum
  import opened Utf8
  import opened Registry
  import opened Values
  import opened Errors

  /** The shapes the scalar constructors check for. */
  datatype Shape = AString | ABool | ANumber | ADate

  /** The noun each shape's error message uses. */
  function Noun(s: Shape): string {
    match s
    case AString => "a string"
    case ABool => "a boolean"
    case ANumber => "a number"
    case ADate => "a date"
  }

  /** Whether `v` has the kind a shape asks for (`typeof` / `instanceof`). */
  predicate HasKind(s: Shape, v: Val) {
    match s
    case AString => v.Str?
    case ABool => v.Bool?
    case ANumber => v.Num?
    case ADate => v.Instant?
  }

  /** The validators `string`, `bool`, `number` and `date`: the wrong kind
      fails with 'expected "v" to be …'; an empty string fails after that. */
  function Check(s: Shape, v: Val): (r: Result<()>)
    ensures r.Ok? <==> HasKind(s, v) && v != Str([])
    ensures !HasKind(s, v) ==> r == Err(Expected(v, Noun(s)))
    ensures s == AString && v == Str([]) ==> r == Err(Message("string must not be empty"))
  {
    if !HasKind(s, v) then Err(Expected(v, Noun(s)))
    else if v == Str([]) then Err(Message("string must not be empty"))
    else Ok(())
  }

  /** `typeof v === 'object' && v !== null`. */
  predicate IsObject(v: Val) {
    v.Arr? || v.Obj? || v.LongObj? || v.Instant? || v.Typed?
  }

  /** The number of own enumerable keys of an object: a `Long` instance and a
      `Typed` instance each have three own fields, a `Date` none. */
  function KeyCount(v: Val): nat
    requires IsObject(v)
  {
    match v
    case Arr(items) => |items|
    case Obj(fields) => |fields|
    case LongObj(_, _) => 3
    case Instant(_) => 0
    case Typed(_, _, _) => 3
  }

  /** The `object` validator: not an object (or null) first, then no keys. */
  function CheckObject(v: Val): (r: Result<()>)
    ensures r.Ok? <==> IsObject(v) && KeyCount(v) > 0
    ensures !IsObject(v) ==> r == Err(Expected(v, "an object"))
    ensures IsObject(v) && KeyCount(v) == 0 ==> r == Err(Message("object must not be empty"))
  {
    if !IsObject(v) then Err(Expected(v, "an object"))
    else if KeyCount(v) == 0 then Err(Message("object must not be empty"))
    else Ok(())
  }

  /** The `array` validator: not an array first, then empty. */
  function CheckArray(v: Val): (r: Result<seq<Val>>)
    ensures r.Ok? <==> v.Arr? && |v.items| > 0
    ensures r.Ok? ==> r.value == v.items
    ensures !v.Arr? ==> r == Err(Expected(v, "an array"))
    ensures v == Arr([]) ==> r == Err(Message("array must not be empty"))
  {
    if !v.Arr? then Err(Expected(v, "an array"))
    else if |v.items| == 0 then Err(Message("array must not be empty"))
    else Ok(v.items)
  }

  /** The shape each scalar constructor checks. The long constructor has
      rules of its own (`LongElement`). */
  function ShapeOf(w: WireType): Shape
    requires w != Long
  {
    match w
    case Boolean => ABool
    case Guid => AString
    case Char => AString
    case Symbol => AString
    case Byte => ANumber
    case Short => ANumber
    case Int => ANumber
    case Real => ANumber
    case Float => ANumber
    case _ => ADate
  }

  /** A scalar constructor (`b`, `g`, `x`, `h`, `i`, `e`, `f`, `c`, `s`, `p`,
      `m`, `d`, `z`, `n`, `u`, `v`, `t`): validate, then tag with the type. */
  function Atom(w: WireType, v: Val): (r: Result<Val>)
    requires w != Long
    ensures r.Ok? <==> Check(ShapeOf(w), v).Ok?
    ensures r.Ok? ==> r.value == Typed(Q(w), v, Undef) && InferType(r.value) == Q(w)
    ensures r.Err? ==> r.error == Check(ShapeOf(w), v).error
  {
    var _ :- Check(ShapeOf(w), v);
    Ok(Typed(Q(w), v, Undef))
  }

  /** The first element that fails the check, if any. */
  function CheckAll(s: Shape, items: seq<Val>): (r: Result<()>)
    ensures r.Ok? <==> forall k :: 0 <= k < |items| ==> Check(s, items[k]).Ok?
    ensures r.Err? ==> exists k :: 0 <= k < |items| && Check(s, items[k]) == r
                                    && forall j :: 0 <= j < k ==> Check(s, items[j]).Ok?
  {
    if |items| == 0 then Ok(())
    else if Check(s, items[0]).Err? then Check(s, items[0])
    else
      var r := CheckAll(s, items[1..]);
      assert forall k :: 1 <= k < |items| ==> items[k] == items[1..][k - 1];
      if r.Err? then
        ghost var k :| 0 <= k < |items[1..]| && Check(s, items[1..][k]) == r
                       && forall j :: 0 <= j < k ==> Check(s, items[1..][j]).Ok?;
        assert Check(s, items[k + 1]) == r;
        r
      else r
  }

  /** `listOf`: a non-empty array whose every element passes the check,
      tagged as a typed list of `w`. */
  function ListOf(w: WireType, v: Val): (r: Result<Val>)
    requires w != Long
    ensures r.Ok? <==> v.Arr? && |v.items| > 0 && forall k :: 0 <= k < |v.items| ==> Check(ShapeOf(w), v.items[k]).Ok?
    ensures r.Ok? ==> r.value == Typed(TypedListT, v, Q(w))
    ensures !v.Arr? ==> r == Err(Expected(v, "an array"))
  {
    var items :- CheckArray(v);
    var _ :- CheckAll(ShapeOf(w), items);
    Ok(Typed(TypedListT, v, Q(w)))
  }

  /** A half of a long as `new Long` stores it: `| 0` of its numeric value.
      The numeric value of a string or object is not modelled. */
  function LongHalf(v: Val): (r: Result<int>)
    ensures r.Ok? ==> -TWO_31 <= r.value < TWO_31
    ensures v.Num? ==> r == Ok(ToInt32(v.n))
  {
    match ToNumber(v)
    case None => Err(Unmodelled("numeric value of a string or object"))
    case Some(n) => Ok(ToInt32(n))
  }

  const LONG_REQUIRED: string := "low and high required for long"

  /** A falsy value other than the number zero (`!x && x !== 0`). */
  predicate Missing(v: Val) {
    !Truthy(v) && v != Num(Fin(0.0))
  }

  /** The element rule `j` and `J` share: an infinite `low` wins, then an
      infinite `high`; otherwise both halves must be present. */
  function LongElement(low: Val, high: Val): (r: Result<Val>)
    ensures low == Num(PosInf) || low == Num(NegInf) ==> r == Ok(low)
    ensures !(low == Num(PosInf) || low == Num(NegInf)) && (high == Num(PosInf) || high == Num(NegInf)) ==> r == Ok(high)
    ensures r.Ok? && !r.value.Num? ==> r.value.LongObj? && !Missing(low) && !Missing(high)
    ensures (!(low == Num(PosInf) || low == Num(NegInf) || high == Num(PosInf) || high == Num(NegInf))
             && (Missing(low) || Missing(high))) ==> r == Err(Message(LONG_REQUIRED))
    ensures (low.Num? && high.Num? && !Missing(low) && !Missing(high) && !low.n.IsInfinite() && !high.n.IsInfinite())
            ==> r == Ok(LongObj(ToInt32(low.n), ToInt32(high.n)))
  {
    if low == Num(PosInf) || low == Num(NegInf) then Ok(low)
    else if high == Num(PosInf) || high == Num(NegInf) then Ok(high)
    else if Missing(low) || Missing(high) then Err(Message(LONG_REQUIRED))
    else
      var lo :- LongHalf(low);
      var hi :- LongHalf(high);
      Ok(LongObj(lo, hi))
  }

  /** `j({low, high})`: the element rule, tagged as a long. */
  function LongOf(low: Val, high: Val): (r: Result<Val>)
    ensures r.Ok? <==> LongElement(low, high).Ok?
    ensures r.Ok? ==> r.value == Typed(Q(Long), LongElement(low, high).value, Undef)
  {
    var e :- LongElement(low, high);
    Ok(Typed(Q(Long), e, Undef))
  }

  /** The element rule over a sequence of (low, high) pairs, stopping at the
      first failure. */
  function LongElements(pairs: seq<(Val, Val)>): (r: Result<seq<Val>>)
    ensures r.Ok? ==> |r.value| == |pairs|
    ensures r.Ok? ==> forall k :: 0 <= k < |pairs| ==> LongElement(pairs[k].0, pairs[k].1) == Ok(r.value[k])
    ensures r.Ok? <==> forall k :: 0 <= k < |pairs| ==> LongElement(pairs[k].0, pairs[k].1).Ok?
  {
    if |pairs| == 0 then Ok([])
    else
      var e :- LongElement(pairs[0].0, pairs[0].1);
      var rest :- LongElements(pairs[1..]);
      assert forall k :: 1 <= k < |pairs| ==> pairs[k] == pairs[1..][k - 1];
      Ok([e] + rest)
  }

  /** `J(longs)`: a typed list of long, with no emptiness check. */
  function LongsOf(pairs: seq<(Val, Val)>): (r: Result<Val>)
    ensures pairs == [] ==> r == Ok(Typed(TypedListT, Arr([]), Q(Long)))
    ensures r.Ok? ==> r.value.Typed? && r.value.t == TypedListT && r.value.vt == Q(Long)
                      && r.value.v.Arr? && |r.value.v.items| == |pairs|
  {
    var es :- LongElements(pairs);
    Ok(Typed(TypedListT, Arr(es), Q(Long)))
  }

  /** `dict(object)`: a non-empty object, tagged as a dict. */
  function DictOf(v: Val): (r: Result<Val>)
    ensures r.Ok? <==> IsObject(v) && KeyCount(v) > 0
    ensures r.Ok? ==> r.value == Typed(DictT, v, Undef)
    ensures r.Err? ==> r.error == CheckObject(v).error
  {
    var _ :- CheckObject(v);
    Ok(Typed(DictT, v, Undef))
  }

  /** `list(values)`: a non-empty array, tagged as a mixed list. */
  function ListTag(v: Val): (r: Result<Val>)
    ensures r.Ok? <==> v.Arr? && |v.items| > 0
    ensures r.Ok? ==> r.value == Typed(MixedListT, v, Undef)
    ensures r.Err? ==> r.error == CheckArray(v).error
  {
    var _ :- CheckArray(v);
    Ok(Typed(MixedListT, v, Undef))
  }

  /** The `valuetype` getter: only a typed list has one. */
  function ValueType(x: Val): (r: Result<TypeName>)
    requires x.Typed?
    ensures r.Ok? <==> x.t == TypedListT
    ensures r.Ok? ==> r.value == x.vt
    ensures r.Err? ==> r.error == Message("only available for type typedlist")
  {
    if x.t == TypedListT then Ok(x.vt) else Err(Message("only available for type typedlist"))
  }

  /** The text `toString` puts before the parenthesis: `list[vt]` for a
      typed list, the type's name otherwise. */
  function Head(x: Val): string
    requires x.Typed?
  {
    if x.t == TypedListT then "list[" + Name(x.vt) + "]" else Name(x.t)
  }

  /** `toString`, given the text the wrapped value renders to: the head,
      then the value in parentheses. */
  function Render(x: Val, value: string): (r: string)
    requires x.Typed?
    ensures |r| == |Head(x)| + |value| + 2
    ensures r[..|Head(x)|] == Head(x) && r[|Head(x)|] == '('
    ensures r[|Head(x)| + 1..|r| - 1] == value && r[|r| - 1] == ')'
  {
    if x.t == TypedListT then "list[" + Name(x.vt) + "](" + value + ")"
    else Name(x.t) + "(" + value + ")"
  }

  /** A type the registry names, rather than one given by an arbitrary string. */
  predicate Registered(t: TypeName) { !t.Other? }

  /** A wrapper whose head names registry types only. */
  predicate Named(x: Val) {
    x.Typed? && Registered(x.t) && (x.t == TypedListT ==> Registered(x.vt))
  }

  /** No registry name holds a parenthesis. */
  lemma NameHasNoParen(t: TypeName)
    requires Registered(t)
    ensures '(' !in Name(t)
  {
  }

  /** The index of the first '(' in `s`, or |s| when there is none. */
  function FirstParen(s: string): (i: nat)
    ensures i <= |s|
    ensures i < |s| ==> s[i] == '('
    ensures forall k :: 0 <= k < i ==> s[k] != '('
  {
    if |s| == 0 then 0 else if s[0] == '(' then 0 else 1 + FirstParen(s[1..])
  }

  /** The rendered text's first parenthesis closes the head. */
  lemma ParenAfterHead(x: Val, value: string)
    requires Named(x)
    ensures FirstParen(Render(x, value)) == |Head(x)|
  {
    var r := Render(x, value);
    var h := Head(x);
    if x.t == TypedListT {
      NameHasNoParen(x.vt);
      assert forall k :: 0 <= k < |h| ==> h[k] != '(' by {
        forall k | 0 <= k < |h| ensures h[k] != '(' {
          if 5 <= k < |h| - 1 {
            assert h[k] == Name(x.vt)[k - 5];
          }
        }
      }
    } else {
      NameHasNoParen(x.t);
    }
    assert forall k :: 0 <= k < |h| ==> r[k] == h[k];
    FirstParenAt(r, |h|);
  }

  /** A '(' at `i` with none before it is the first. */
  lemma {:induction false} FirstParenAt(s: string, i: nat)
    requires i < |s| && s[i] == '('
    requires forall k :: 0 <= k < i ==> s[k] != '('
    ensures FirstParen(s) == i
  {
    if i > 0 {
      FirstParenAt(s[1..], i - 1);
    }
  }

  /** Two renderings of registry-named wrappers agree exactly when their
      heads and their values agree: the text before the first '(' names the
      type. */
  lemma RenderInjective(x: Val, v: string, y: Val, w: string)
    requires Named(x) && Named(y)
    ensures Render(x, v) == Render(y, w) <==> Head(x) == Head(y) && v == w
  {
    ParenAfterHead(x, v);
    ParenAfterHead(y, w);
    var r, q := Render(x, v), Render(y, w);
    hide Head, Name, Render;
    if r == q {
      assert |Head(x)| == |Head(y)|;
      assert Head(x) == r[..|Head(x)|] == q[..|Head(y)|] == Head(y);
      assert v == r[|Head(x)| + 1..|r| - 1] == q[|Head(y)| + 1..|q| - 1] == w;
    }
    if Head(x) == Head(y) && v == w {
      RenderIs(x, v);
      RenderIs(y, w);
    }
  }

  lemma RenderIs(x: Val, value: string)
    requires x.Typed?
    ensures Render(x, value) == Head(x) + "(" + value + ")"
  {
  }

  /** Registry names are pairwise distinct. */
  lemma NameInjective(a: TypeName, b: TypeName)
    requires Registered(a) && Registered(b)
    ensures Name(a) == Name(b) <==> a == b
  {
  }

  /** Equal heads of registry-named wrappers mean the same type, and for a
      typed list the same element type. */
  lemma HeadInjective(x: Val, y: Val)
    requires Named(x) && Named(y)
    ensures Head(x) == Head(y) <==> x.t == y.t && (x.t == TypedListT ==> x.vt == y.vt)
  {
    NameInjective(x.t, y.t);
    if x.t == TypedListT && y.t != TypedListT {
      NameHasNoBracket(y.t);
      assert Head(x)[4] == '[';
    } else if y.t == TypedListT && x.t != TypedListT {
      NameHasNoBracket(x.t);
      assert Head(y)[4] == '[';
    } else if x.t == TypedListT && y.t == TypedListT {
      NameInjective(x.vt, y.vt);
      if Head(x) == Head(y) {
        assert Name(x.vt) == Head(x)[5..|Head(x)| - 1] == Head(y)[5..|Head(y)| - 1] == Name(y.vt);
      }
    }
  }

  /** No registry name holds a bracket, as a typed list's head does. */
  lemma NameHasNoBracket(t: TypeName)
    requires Registered(t)
    ensures '[' !in Name(t)
  {
  }
}
