/** How `calcN` relates to what the encoder writes. On values whose dict
    keys are ASCII and whose symbol lists hold no null, the estimate is the
    exact body length; each of the two conditions is needed. */
module SizeLaws {
  import opened JsNum
  import opened Utf8
  import opened Registry
  import opened Values
  import opened Errors
  import opened Foreign
  import opened Encoder
  import opened Sizing
  import Frame

  predicate AsciiKeys(fields: seq<Field>) {
    forall k :: 0 <= k < |fields| ==> IsAscii(fields[k].key)
  }

  predicate NoNull(items: seq<Val>) {
    forall k :: 0 <= k < |items| ==> items[k] != Null
  }

  /** A list that promotes to a symbol list holds no null. */
  predicate PromotesSafely(items: seq<Val>) {
    Promotion(items) == Some(Q(Symbol)) ==> NoNull(Strip(items))
  }

  /** The values on which the estimate is exact: every dict key ASCII, no
      null in a symbol list, all the way down. */
  predicate Exact(x: Val)
    decreases Size(x)
  {
    match x
    case Arr(items) =>
      PromotesSafely(items) && forall k :: 0 <= k < |items| ==> Exact(items[k])
    case Obj(fields) =>
      AsciiKeys(fields) && PromotesSafely(FieldValues(fields))
      && forall k :: 0 <= k < |fields| ==> Exact(fields[k].val)
    case Typed(t, v, vt) =>
      Exact(v) && (t == TypedListT && vt == Q(Symbol) && v.Arr? ==> NoNull(v.items))
    case _ => true
  }

  /** `Exact` for the value and type `As` receives. */
  predicate ExactAs(t: TypeName, x: Val, vt: TypeName) {
    Exact(x) && (t == TypedListT && vt == Q(Symbol) && x.Arr? ==> NoNull(x.items))
  }

  predicate AllExact(items: seq<Val>) {
    forall k :: 0 <= k < |items| ==> Exact(items[k])
  }

  /** ASCII keys: each key costs its length plus a terminator, as estimated. */
  lemma {:induction false} KeyBytesLength(keys: seq<JsString>)
    requires forall k :: 0 <= k < |keys| ==> IsAscii(keys[k])
    ensures |KeyBytes(keys)| == KeysLength(keys)
  {
    if |keys| > 0 {
      EncodeLength(keys[0]);
      KeyBytesLength(keys[1..]);
    }
  }

  /** A symbol list without null: the payloads are the estimated text plus
      terminators. */
  lemma {:induction false} SymbolPayloadsLength(lib: Lib, items: seq<Val>)
    requires Payloads(lib, Symbol, items).Ok? && NoNull(items)
    ensures SymbolCosts(items) == Ok(|Payloads(lib, Symbol, items).value|)
  {
    if |items| > 0 {
      SymbolPayloadsLength(lib, items[1..]);
    }
  }

  lemma TypedExact(lib: Lib, vt: TypeName, items: seq<Val>)
    requires TypedBytes(lib, vt, items).Ok?
    requires vt == Q(Symbol) ==> NoNull(items)
    ensures CalcTyped(vt, items) == Ok(|TypedBytes(lib, vt, items).value|)
  {
    hide Payloads, Payload, Count, SymbolCosts;
    if vt == Q(Symbol) {
      SymbolPayloadsLength(lib, items);
    }
  }

  /** The estimate of a written value is the number of bytes written. */
  lemma {:induction false} WExact(lib: Lib, x: Val)
    requires W(lib, x).Ok? && Exact(x)
    ensures CalcN(x) == Ok(|W(lib, x).value|)
    decreases Size(x), 3
  {
    if x.Typed? {
      AsExact(lib, x.t, x.v, x.vt);
    } else {
      AsExact(lib, InferType(x), x, Undef);
    }
  }

  lemma {:induction false} AsExact(lib: Lib, t: TypeName, x: Val, vt: TypeName)
    requires As(lib, t, x, vt).Ok? && ExactAs(t, x, vt)
    ensures CalcAs(t, x, vt) == Ok(|As(lib, t, x, vt).value|)
    decreases Size(x), 2
  {
    if t == DictT {
      DictExact(lib, t, x, vt);
    } else if t == ListT || t == MixedListT {
      ListExact(lib, t, x, vt);
    } else if t == TypedListT {
      TypedListExact(lib, t, x, vt);
    } else if t == StringT {
      StringExact(lib, t, x, vt);
    } else if t.Q? {
      ScalarExact(lib, t, x, vt);
    }
  }

  lemma ScalarExact(lib: Lib, t: TypeName, x: Val, vt: TypeName)
    requires t.Q? && As(lib, t, x, vt).Ok?
    ensures CalcAs(t, x, vt) == Ok(|As(lib, t, x, vt).value|)
  {
    var p := Payload(lib, t.w, x).value;
    assert |As(lib, t, x, vt).value| == 1 + |p|;
    AtomExact(lib, t.w, x);
  }

  /** An atom: its tag byte and its payload. */
  lemma AtomExact(lib: Lib, w: WireType, x: Val)
    requires Payload(lib, w, x).Ok?
    ensures CalcAtom(w, x) == Ok(1 + |Payload(lib, w, x).value|)
  {
    if w == Symbol {
      assert Payload(lib, w, x) == SymbolBytes(x);
    }
  }

  lemma StringExact(lib: Lib, t: TypeName, x: Val, vt: TypeName)
    requires t == StringT && As(lib, t, x, vt).Ok?
    ensures CalcAs(t, x, vt) == Ok(|As(lib, t, x, vt).value|)
  {
    StringBodyExact(x);
  }

  /** A string: a symbol atom of the text after the backtick, or a char list
      of the UTF-8 bytes. */
  lemma StringBodyExact(x: Val)
    requires StringBytes(x).Ok?
    ensures CalcString(x) == Ok(|StringBytes(x).value|)
  {
    var text := Utf8.Encode(x.s);
    if IsSymbolLiteral(x.s) {
      assert text == [x.s[0] as byte] + Utf8.Encode(x.s[1..]);
      assert |StringBytes(x).value| == 1 + |Utf8.Encode(x.s[1..])| + 1;
    } else {
      assert |StringBytes(x).value| == 6 + |text|;
    }
  }

  lemma TypedListExact(lib: Lib, t: TypeName, x: Val, vt: TypeName)
    requires t == TypedListT && As(lib, t, x, vt).Ok? && ExactAs(t, x, vt)
    ensures CalcAs(t, x, vt) == Ok(|As(lib, t, x, vt).value|)
  {
    TypedExact(lib, vt, x.items);
  }

  lemma {:induction false} ListExact(lib: Lib, t: TypeName, x: Val, vt: TypeName)
    requires (t == ListT || t == MixedListT) && As(lib, t, x, vt).Ok? && ExactAs(t, x, vt)
    ensures CalcAs(t, x, vt) == Ok(|As(lib, t, x, vt).value|)
    decreases Size(x), 1
  {
    if x.Arr? {
      assert AllExact(x.items);
      if t == ListT {
        UntypedExact(lib, x.items);
      } else {
        MixedExact(lib, x.items);
      }
    }
  }

  /** The dict the encoder writes: 7 header bytes, the keys, then the values
      as an untyped list. */
  lemma DictLayout(lib: Lib, x: Val)
    requires DictBytes(lib, x).Ok?
    ensures DictFields(x).Some?
    ensures var vals := FieldValues(DictFields(x).value);
            && Untyped(lib, vals).Ok?
            && |DictBytes(lib, x).value| == 7 + |KeyBytes(Keys(DictFields(x).value))| + |Untyped(lib, vals).value|
  {
  }

  lemma CalcDictLayout(x: Val)
    requires DictFields(x).Some?
    ensures var fields := DictFields(x).value;
            CalcUntyped(FieldValues(fields)).Ok? ==>
              CalcDict(x) == Ok(7 + KeysLength(Keys(fields)) + CalcUntyped(FieldValues(fields)).value)
  {
    var fields := DictFields(x).value;
    assert Encoder.DictFieldsOf(x) == Ok(fields);
  }

  /** What `Exact` asks of the properties of a value written as a dict. */
  lemma DictFieldsExact(x: Val)
    requires DictFields(x).Some? && Exact(x)
    ensures var fields := DictFields(x).value;
            && AsciiKeys(fields) && PromotesSafely(FieldValues(fields)) && AllExact(FieldValues(fields))
  {
    if x.LongObj? {
      var vals := FieldValues(DictFields(x).value);
      assert vals == [Num(OfInt(x.low)), Num(OfInt(x.high)), Bool(false)];
      assert InferType(vals[2]) != InferType(vals[0]);
    }
  }

  lemma {:induction false} DictExact(lib: Lib, t: TypeName, x: Val, vt: TypeName)
    requires t == DictT && As(lib, t, x, vt).Ok? && Exact(x)
    ensures CalcAs(t, x, vt) == Ok(|As(lib, t, x, vt).value|)
    decreases Size(x), 1
  {
    DictLayout(lib, x);
    DictPartsExact(lib, x);
    DictBodyExact(lib, x);
  }

  /** The keys and the values of an exact dict are each sized exactly. */
  lemma {:induction false} DictPartsExact(lib: Lib, x: Val)
    requires DictBytes(lib, x).Ok? && Exact(x)
    ensures DictFields(x).Some?
    ensures var fields := DictFields(x).value;
            && Untyped(lib, FieldValues(fields)).Ok?
            && CalcUntyped(FieldValues(fields)) == Ok(|Untyped(lib, FieldValues(fields)).value|)
            && |KeyBytes(Keys(fields))| == KeysLength(Keys(fields))
    decreases Size(x), 0
  {
    DictLayout(lib, x);
    var fields := DictFields(x).value;
    DictFieldsSmaller(x);
    DictFieldsExact(x);
    UntypedExact(lib, FieldValues(fields));
    KeyBytesLength(Keys(fields));
  }

  /** A dict whose keys and values are sized exactly is sized exactly. */
  lemma DictBodyExact(lib: Lib, x: Val)
    requires DictBytes(lib, x).Ok? && DictFields(x).Some?
    requires var fields := DictFields(x).value;
             && Untyped(lib, FieldValues(fields)).Ok?
             && CalcUntyped(FieldValues(fields)) == Ok(|Untyped(lib, FieldValues(fields)).value|)
             && |KeyBytes(Keys(fields))| == KeysLength(Keys(fields))
    ensures CalcDict(x) == Ok(|DictBytes(lib, x).value|)
  {
    var fields := DictFields(x).value;
    var vals := FieldValues(fields);
    DictLayout(lib, x);
    CalcDictLayout(x);
    var n := 7 + KeysLength(Keys(fields)) + |Untyped(lib, vals).value|;
    assert |DictBytes(lib, x).value| == n;
    assert CalcDict(x).value == n;
  }

  lemma {:induction false} UntypedExact(lib: Lib, items: seq<Val>)
    requires Untyped(lib, items).Ok? && PromotesSafely(items) && AllExact(items)
    ensures CalcUntyped(items) == Ok(|Untyped(lib, items).value|)
    decreases SizeSeq(items), 2
  {
    match Promotion(items)
    case Some(vt) =>
      TypedExact(lib, vt, Strip(items));
    case None =>
      MixedExact(lib, items);
  }

  lemma {:induction false} MixedExact(lib: Lib, items: seq<Val>)
    requires Mixed(lib, items).Ok? && AllExact(items)
    ensures CalcMixed(items) == Ok(|Mixed(lib, items).value|)
    decreases SizeSeq(items), 1
  {
    hide Items, CalcItems, CalcN, W, Count;
    ItemsExact(lib, items);
  }

  lemma {:induction false} ItemsExact(lib: Lib, items: seq<Val>)
    requires Items(lib, items).Ok? && AllExact(items)
    ensures CalcItems(items) == Ok(|Items(lib, items).value|)
    decreases SizeSeq(items), 0
  {
    hide W, CalcN;
    if |items| > 0 {
      WExact(lib, items[0]);
      assert AllExact(items[1..]) by {
        forall k | 0 <= k < |items| - 1 ensures Exact(items[1..][k]) { assert items[1..][k] == items[k + 1]; }
      }
      ItemsExact(lib, items[1..]);
    }
  }

  /** On an exact value the message is the header and the body, with no
      padding: its length field counts exactly the bytes written. */
  lemma MessageIsTight(lib: Lib, x: Val)
    requires Frame.Encode(lib, x).Ok? && Exact(x)
    ensures Frame.Encode(lib, x).value == Header(8 + |W(lib, x).value|) + W(lib, x).value
  {
    WExact(lib, x);
    var m := Frame.Encode(lib, x).value;
    assert m == m[..8] + m[8..];
  }

  /** A non-ASCII dict key is counted by its UTF-16 length but written in
      UTF-8: the body of { "é": null } is one byte longer than estimated, so
      the message cannot be built. */
  lemma NonAsciiKeyUndersized(lib: Lib)
    ensures var x := Obj([Field([0xE9], Null)]);
            && CalcN(x) == Ok(17)
            && W(lib, x).Ok? && |W(lib, x).value| == 18
            && Frame.Encode(lib, x).Err?
  {
    NonAsciiKeyEstimate();
    NonAsciiKeyWritten(lib);
  }

  lemma NonAsciiKeyEstimate()
    ensures CalcN(Obj([Field([0xE9], Null)])) == Ok(17)
  {
    var x := Obj([Field([0xE9], Null)]);
    var vals := FieldValues(x.fields);
    assert vals == [Null];
    assert Promotion(vals) == None;
    assert vals[1..] == [];
    assert CalcItems(vals) == Ok(2);
  }

  lemma NonAsciiKeyWritten(lib: Lib)
    ensures var x := Obj([Field([0xE9], Null)]);
            W(lib, x).Ok? && |W(lib, x).value| == 18
  {
    var x := Obj([Field([0xE9], Null)]);
    assert FieldValues(x.fields) == [Null];
    NullListWritten(lib);
    NonAsciiKeyBytes();
    DictLayout(lib, x);
    assert W(lib, x) == DictBytes(lib, x);
  }

  /** The key "é" is written as its two UTF-8 bytes and a terminator. */
  lemma NonAsciiKeyBytes()
    ensures |KeyBytes(Keys([Field([0xE9], Null)]))| == 3
  {
    assert Keys([Field([0xE9], Null)]) == [[0xE9]];
    assert Utf8.Encode([0xE9]) == [0xC3, 0xA9];
  }

  /** `[null]` is written as a mixed list of one null: eight bytes. */
  lemma NullListWritten(lib: Lib)
    ensures Untyped(lib, [Null]).Ok? && |Untyped(lib, [Null]).value| == 8
  {
    var vals := [Null];
    assert Promotion(vals) == None;
    assert vals[1..] == [];
    assert W(lib, Null) == Ok([101, 0]);
    assert Items(lib, vals) == Ok([101, 0] + []);
  }

  /** A null in a symbol list is written as a lone terminator but counted as
      the four bytes of "null" plus one: `["a", null]` tagged as a symbol list
      leaves four zero bytes after its body, inside the stated length. */
  lemma NullSymbolOversized(lib: Lib)
    ensures var x := Typed(TypedListT, Arr([Str([97]), Null]), Q(Symbol));
            && CalcN(x) == Ok(13)
            && W(lib, x).Ok? && |W(lib, x).value| == 9
            && Frame.Encode(lib, x).Ok? && |Frame.Encode(lib, x).value| == 21
  {
    var items := [Str([97]), Null];
    var a: seq<byte> := Utf8.Encode([97]) + [0];
    var z: seq<byte> := [0];
    assert Utf8.Encode([97]) == [97];
    assert items[1..][1..] == [];
    assert Payload(lib, Symbol, Null) == Ok(z);
    assert Payload(lib, Symbol, Str([97])) == Ok(a);
    assert Payloads(lib, Symbol, items[1..]) == Ok(z + []);
    assert Payloads(lib, Symbol, items) == Ok(a + (z + []));
    assert SymbolCosts(items[1..]) == Ok(5);
    assert SymbolCosts(items) == Ok(7);
  }
}
