/** The round trip of a whole value: what `r` returns over the bytes `w`
    wrote, and what `decode` returns over a message `encode` built. Null,
    atoms, strings, typed, promoted and mixed lists are covered, nested to
    any depth; dicts are not (their key order is the decoder's own, see
    the Divergences module). */
module ValueTrip {
  import opened JsNum
  import opened Utf8
  import opened Registry
  import opened Values
  import opened Errors
  import opened ByteBuf
  import opened Foreign
  import opened Encoder
  import opened Decoder
  import opened ReadLaws
  import opened ScalarTrip
  import Frame
  import Sizing
  import Laws = ByteBufLaws

  /** What a value written by `w` reads back as, where the model says:
      - null as null, an atom as its scalar's `Back`;
      - a string as a symbol atom (a backtick literal) or as the text of
        its UTF-8 bytes;
      - a list as the list of what its elements read back as, except that
        a list of chars, whose element code 10 is also the char-list tag,
        reads back as one text of the chars' bytes;
      - a list tag on a value with no length as the empty list.
      Dicts and everything `Back` leaves out give `None`. */
  function BackValue(lib: Lib, x: Val, nanos2date: bool): Option<Decoded>
    decreases Size(x), 2
  {
    if x.Typed? then BackAs(lib, x.t, x.v, x.vt, nanos2date)
    else BackAs(lib, InferType(x), x, Undef, nanos2date)
  }

  /** `BackValue` once the type `t` is known. */
  function BackAs(lib: Lib, t: TypeName, x: Val, vt: TypeName, nanos2date: bool): Option<Decoded>
    decreases Size(x), 1
  {
    match t
    case NullT => Some(DNull)
    case Q(w) => Back(lib, w, x, nanos2date)
    case StringT =>
      if !x.Str? then None
      else if IsSymbolLiteral(x.s) then Back(lib, Symbol, Str(x.s[1..]), nanos2date)
      else Some(DText(Utf8.Encode(x.s)))
    case TypedListT =>
      if x.Arr? && vt.Q? then BackTyped(lib, vt.w, x.items, nanos2date) else None
    case ListT =>
      if x.Arr? then BackUntyped(lib, x.items, nanos2date)
      else if NoLength(x) then Some(DList([]))
      else None
    case MixedListT =>
      if x.Arr? then BackMixed(lib, x.items, nanos2date)
      else if NoLength(x) then Some(DList([]))
      else None
    case _ => None
  }

  /** A typed list of wire type `w`. */
  function BackTyped(lib: Lib, w: WireType, items: seq<Val>, nanos2date: bool): Option<Decoded> {
    if w == Char then
      match Payloads(lib, Char, items)
      case Ok(p) => Some(DText(p))
      case Err(_) => None
    else if |items| == 0 then Some(DList([]))
    else
      match BackScalars(lib, w, items, nanos2date)
      case Some(ds) => Some(DList(ds))
      case None => None
  }

  /** Each element's `Back`, in order. */
  function BackScalars(lib: Lib, w: WireType, items: seq<Val>, nanos2date: bool): (r: Option<seq<Decoded>>)
    ensures r.Some? ==> |r.value| == |items|
  {
    if |items| == 0 then Some([])
    else
      match Back(lib, w, items[0], nanos2date)
      case None => None
      case Some(d) =>
        match BackScalars(lib, w, items[1..], nanos2date)
        case None => None
        case Some(ds) => Some([d] + ds)
  }

  /** An array with no explicit type: promoted or mixed, as `w` decides. */
  function BackUntyped(lib: Lib, items: seq<Val>, nanos2date: bool): Option<Decoded>
    decreases SizeSeq(items), 2
  {
    match Promotion(items)
    case Some(vt) => if vt.Q? then BackTyped(lib, vt.w, Strip(items), nanos2date) else None
    case None => BackMixed(lib, items, nanos2date)
  }

  function BackMixed(lib: Lib, items: seq<Val>, nanos2date: bool): Option<Decoded>
    decreases SizeSeq(items), 1
  {
    match BackItems(lib, items, nanos2date)
    case Some(ds) => Some(DList(ds))
    case None => None
  }

  /** Each element's `BackValue`, in order. */
  function BackItems(lib: Lib, items: seq<Val>, nanos2date: bool): (r: Option<seq<Decoded>>)
    ensures r.Some? ==> |r.value| == |items|
    decreases SizeSeq(items), 0
  {
    if |items| == 0 then Some([])
    else
      match BackValue(lib, items[0], nanos2date)
      case None => None
      case Some(d) =>
        match BackItems(lib, items[1..], nanos2date)
        case None => None
        case Some(ds) => Some([d] + ds)
  }

  /** The round trip of a message: decoding what `encode` produced gives
      the value back as `BackValue` states. */
  lemma MessageRoundTrip(lib: Lib, x: Val, nanos2date: bool)
    requires Frame.Encode(lib, x).Ok? && BackValue(lib, x, nanos2date).Some?
    ensures Decode(lib, Frame.Encode(lib, x).value, nanos2date) == Ok(BackValue(lib, x, nanos2date).value)
  {
    hide R, As, BackValue, BackAs;
    var m := Frame.Encode(lib, x).value;
    var body := W(lib, x).value;
    assert At(m, 8, body);
    ValueAt(lib, x, nanos2date, m, 8);
  }

  /** The round trip of one value at a cursor: `r` reads what `w` wrote
      and stops right after it. */
  lemma {:induction false} ValueAt(lib: Lib, x: Val, nanos2date: bool, b: seq<byte>, pos: int)
    requires W(lib, x).Ok? && BackValue(lib, x, nanos2date).Some?
    requires At(b, pos, W(lib, x).value) && Fits(b)
    ensures R(lib, b, pos, nanos2date) == Ok((BackValue(lib, x, nanos2date).value, pos + |W(lib, x).value|))
    decreases Size(x), 3
  {
    hide R, As, BackAs, Untyped, Mixed, TypedBytes, DictBytes, StringBytes, Payload;
    if x.Typed? {
      AsAt(lib, x.t, x.v, x.vt, nanos2date, b, pos);
    } else {
      AsAt(lib, InferType(x), x, Undef, nanos2date, b, pos);
    }
  }

  /** `ValueAt` once the type is known: one lemma per kind of body. */
  lemma {:induction false} AsAt(lib: Lib, t: TypeName, x: Val, vt: TypeName, nanos2date: bool, b: seq<byte>, pos: int)
    requires As(lib, t, x, vt).Ok? && BackAs(lib, t, x, vt, nanos2date).Some?
    requires At(b, pos, As(lib, t, x, vt).value) && Fits(b)
    ensures R(lib, b, pos, nanos2date) == Ok((BackAs(lib, t, x, vt, nanos2date).value, pos + |As(lib, t, x, vt).value|))
    decreases Size(x), 2
  {
    hide R, As, W, BackValue, Untyped, Mixed, TypedBytes, DictBytes, StringBytes, Payload;
    match t
    case NullT => NullAs(lib, t, x, vt, nanos2date, b, pos);
    case Q(_) => AtomAs(lib, t, x, vt, nanos2date, b, pos);
    case StringT => StringAs(lib, t, x, vt, nanos2date, b, pos);
    case TypedListT => TypedAs(lib, t, x, vt, nanos2date, b, pos);
    case ListT => ListAs(lib, t, x, vt, nanos2date, b, pos);
    case MixedListT => ListAs(lib, t, x, vt, nanos2date, b, pos);
  }

  lemma NullAs(lib: Lib, t: TypeName, x: Val, vt: TypeName, nanos2date: bool, b: seq<byte>, pos: int)
    requires t == NullT && As(lib, t, x, vt).Ok? && BackAs(lib, t, x, vt, nanos2date).Some?
    requires At(b, pos, As(lib, t, x, vt).value) && Fits(b)
    ensures R(lib, b, pos, nanos2date) == Ok((BackAs(lib, t, x, vt, nanos2date).value, pos + |As(lib, t, x, vt).value|))
  {
    hide R;
    assert As(lib, t, x, vt).value == [101, 0];
    AtIndex(b, pos, [101, 0], 0);
    AtIndex(b, pos, [101, 0], 1);
    ReadInt8At(b, pos, 101);
    ReadInt8At(b, pos + 1, 0);
    RNull(lib, b, pos, nanos2date);
  }

  lemma AtomAs(lib: Lib, t: TypeName, x: Val, vt: TypeName, nanos2date: bool, b: seq<byte>, pos: int)
    requires t.Q? && As(lib, t, x, vt).Ok? && BackAs(lib, t, x, vt, nanos2date).Some?
    requires At(b, pos, As(lib, t, x, vt).value) && Fits(b)
    ensures R(lib, b, pos, nanos2date) == Ok((BackAs(lib, t, x, vt, nanos2date).value, pos + |As(lib, t, x, vt).value|))
  {
    hide R, Untyped, Mixed, TypedBytes, DictBytes, StringBytes, BackUntyped, BackMixed, Back;
    AtomAt(lib, t.w, x, nanos2date, b, pos, Payload(lib, t.w, x).value);
  }

  /** An atom: the negated code as the tag, then the scalar's payload. */
  lemma AtomAt(lib: Lib, w: WireType, x: Val, nanos2date: bool, b: seq<byte>, pos: int, p: seq<byte>)
    requires Payload(lib, w, x) == Ok(p) && Back(lib, w, x, nanos2date).Some?
    requires At(b, pos, [Tag(-Code(w))] + p) && Fits(b)
    ensures R(lib, b, pos, nanos2date) == Ok((Back(lib, w, x, nanos2date).value, pos + 1 + |p|))
  {
    hide R, ReadScalar;
    CodeRange(w);
    AtSplit(b, pos, [Tag(-Code(w))], p);
    AtIndex(b, pos, [Tag(-Code(w))], 0);
    ReadInt8At(b, pos, -Code(w));
    ScalarRoundTrip(lib, w, x, nanos2date, b, pos + 1);
    RAtom(lib, b, pos, nanos2date, w);
  }

  lemma StringAs(lib: Lib, t: TypeName, x: Val, vt: TypeName, nanos2date: bool, b: seq<byte>, pos: int)
    requires t == StringT && As(lib, t, x, vt).Ok? && BackAs(lib, t, x, vt, nanos2date).Some?
    requires At(b, pos, As(lib, t, x, vt).value) && Fits(b)
    ensures R(lib, b, pos, nanos2date) == Ok((BackAs(lib, t, x, vt, nanos2date).value, pos + |As(lib, t, x, vt).value|))
  {
    hide R, StringBytes, BackAs, Untyped, Mixed, TypedBytes, DictBytes, BackUntyped, BackMixed;
    if IsSymbolLiteral(x.s) {
      SymbolStringAs(lib, x, vt, nanos2date, b, pos);
    } else {
      TextStringAs(lib, x, vt, nanos2date, b, pos);
    }
  }

  /** A text starting with the backtick: a symbol atom without it. */
  lemma SymbolStringAs(lib: Lib, x: Val, vt: TypeName, nanos2date: bool, b: seq<byte>, pos: int)
    requires x.Str? && IsSymbolLiteral(x.s)
    requires As(lib, StringT, x, vt).Ok? && BackAs(lib, StringT, x, vt, nanos2date).Some?
    requires At(b, pos, As(lib, StringT, x, vt).value) && Fits(b)
    ensures R(lib, b, pos, nanos2date) == Ok((BackAs(lib, StringT, x, vt, nanos2date).value, pos + |As(lib, StringT, x, vt).value|))
  {
    hide R, Untyped, Mixed, TypedBytes, DictBytes, BackUntyped, BackMixed, Back;
    var sym := Str(x.s[1..]);
    assert Payload(lib, Symbol, sym) == SymbolBytes(sym);
    AtomAt(lib, Symbol, sym, nanos2date, b, pos, SymbolBytes(sym).value);
  }

  /** Any other text: a char list of its UTF-8 bytes. */
  lemma TextStringAs(lib: Lib, x: Val, vt: TypeName, nanos2date: bool, b: seq<byte>, pos: int)
    requires x.Str? && !IsSymbolLiteral(x.s)
    requires As(lib, StringT, x, vt).Ok? && BackAs(lib, StringT, x, vt, nanos2date).Some?
    requires At(b, pos, As(lib, StringT, x, vt).value) && Fits(b)
    ensures R(lib, b, pos, nanos2date) == Ok((BackAs(lib, StringT, x, vt, nanos2date).value, pos + |As(lib, StringT, x, vt).value|))
  {
    hide R, Untyped, Mixed, TypedBytes, DictBytes, BackUntyped, BackMixed, Back, Payload, SymbolBytes;
    var text := Utf8.Encode(x.s);
    assert As(lib, StringT, x, vt).value == [10, 0] + LE(OfInt(|text|), 4) + text;
    CharTextAt(lib, b, pos, nanos2date, text);
  }

  /** A char list: tag 10, a pad byte, the length, then the bytes. */
  lemma CharTextAt(lib: Lib, b: seq<byte>, pos: int, nanos2date: bool, text: seq<byte>)
    requires At(b, pos, [10, 0] + LE(OfInt(|text|), 4) + text) && Fits(b)
    ensures R(lib, b, pos, nanos2date) == Ok((DText(text), pos + 6 + |text|))
  {
    hide R;
    ListHead(b, pos, 10, |text|, text);
    TextBodyAt(lib, b, pos, nanos2date, text);
  }

  /** A char list whose count runs past the end of the buffer reads as the
      bytes that are there; the cursor still moves on by the whole count. */
  lemma TruncatedText(lib: Lib, b: seq<byte>, pos: int, nanos2date: bool, n: nat, rest: seq<byte>)
    requires n < INT_INFINITY && |rest| < n
    requires At(b, pos, [10, 0] + LE(OfInt(n), 4) + rest) && pos + 6 + |rest| == |b| && pos + 6 + n < TWO_31
    ensures R(lib, b, pos, nanos2date) == Ok((DText(rest), pos + 6 + n))
  {
    hide R, Slice, ReadInt, ReadInt8;
    AtSplit(b, pos, [10, 0] + LE(OfInt(n), 4), rest);
    AtSplit(b, pos, [10, 0], LE(OfInt(n), 4));
    AtIndex(b, pos, [10, 0], 0);
    ReadInt8At(b, pos, 10);
    ReadCountAt(b, pos + 2, n);
    RText(lib, b, pos, nanos2date, n);
    SliceToEnd(b, pos + 6, pos + 6 + n);
    assert b[pos + 6..] == rest;
  }

  /** The six-byte head of a list: the tag, the pad byte and the count, then
      a body at least as long as the count. */
  lemma ListHead(b: seq<byte>, pos: int, c: int, n: nat, body: seq<byte>)
    requires 0 <= c < 0x80 && n <= |body|
    requires At(b, pos, [c as byte, 0] + LE(OfInt(n), 4) + body) && Fits(b)
    ensures ReadInt8(b, pos) == Ok(c) && ReadInt(b, pos + 2) == Ok(OfInt(n)) && At(b, pos + 6, body)
  {
    AtSplit(b, pos, [c as byte, 0] + LE(OfInt(n), 4), body);
    AtSplit(b, pos, [c as byte, 0], LE(OfInt(n), 4));
    AtIndex(b, pos, [c as byte, 0], 0);
    ReadInt8At(b, pos, c);
    ReadCountAt(b, pos + 2, n);
  }

  lemma TypedAs(lib: Lib, t: TypeName, x: Val, vt: TypeName, nanos2date: bool, b: seq<byte>, pos: int)
    requires t == TypedListT && As(lib, t, x, vt).Ok? && BackAs(lib, t, x, vt, nanos2date).Some?
    requires At(b, pos, As(lib, t, x, vt).value) && Fits(b)
    ensures R(lib, b, pos, nanos2date) == Ok((BackAs(lib, t, x, vt, nanos2date).value, pos + |As(lib, t, x, vt).value|))
  {
    hide R, Untyped, Mixed, DictBytes, StringBytes, Payload, BackUntyped, BackMixed, Back;
    TypedAt(lib, vt.w, x.items, nanos2date, b, pos);
  }

  /** A typed list: its element code as the tag, then the payloads. */
  lemma TypedAt(lib: Lib, w: WireType, items: seq<Val>, nanos2date: bool, b: seq<byte>, pos: int)
    requires TypedBytes(lib, Q(w), items).Ok? && BackTyped(lib, w, items, nanos2date).Some?
    requires At(b, pos, TypedBytes(lib, Q(w), items).value) && Fits(b)
    ensures R(lib, b, pos, nanos2date) == Ok((BackTyped(lib, w, items, nanos2date).value, pos + |TypedBytes(lib, Q(w), items).value|))
  {
    hide R, RScalars, ReadScalar, Payload, Back, BackTyped;
    CodeRange(w);
    var p := Payloads(lib, w, items).value;
    assert TypedBytes(lib, Q(w), items).value == [Code(w) as byte, 0] + LE(OfInt(|items|), 4) + p;
    ListHead(b, pos, Code(w), |items|, p);
    TypedBody(lib, w, items, nanos2date, b, pos, p);
  }

  /** A typed list past its head: the chars as one text, no elements as
      the empty list, else one scalar per element. */
  lemma TypedBody(lib: Lib, w: WireType, items: seq<Val>, nanos2date: bool, b: seq<byte>, pos: int, p: seq<byte>)
    requires Payloads(lib, w, items) == Ok(p) && BackTyped(lib, w, items, nanos2date).Some?
    requires ReadInt8(b, pos) == Ok(Code(w)) && ReadInt(b, pos + 2) == Ok(OfInt(|items|))
    requires At(b, pos + 6, p) && Fits(b)
    ensures R(lib, b, pos, nanos2date) == Ok((BackTyped(lib, w, items, nanos2date).value, pos + 6 + |p|))
  {
    hide R, RScalars, ReadScalar, Payload, Back, BackScalars;
    if w == Char {
      assert BackTyped(lib, w, items, nanos2date) == Some(DText(p));
      CharCount(lib, items, p);
      TextBodyAt(lib, b, pos, nanos2date, p);
    } else if |items| == 0 {
      assert p == [];
      CodeRange(w);
      REmpty(lib, b, pos, nanos2date, Code(w));
    } else {
      ElementsAt(lib, w, items, nanos2date, b, pos, p);
    }
  }

  /** The body of a char list: the text of the given length. */
  lemma TextBodyAt(lib: Lib, b: seq<byte>, pos: int, nanos2date: bool, text: seq<byte>)
    requires ReadInt8(b, pos) == Ok(10) && ReadInt(b, pos + 2) == Ok(OfInt(|text|))
    requires At(b, pos + 6, text) && Fits(b)
    ensures R(lib, b, pos, nanos2date) == Ok((DText(text), pos + 6 + |text|))
  {
    hide R;
    ReadLaws.TextAt(b, pos + 6, text);
    RText(lib, b, pos, nanos2date, |text|);
  }

  /** A list of chars carries the char-list tag: one payload byte per
      char, read back as one text. */
  lemma CharCount(lib: Lib, items: seq<Val>, p: seq<byte>)
    requires Payloads(lib, Char, items) == Ok(p)
    ensures |p| == |items|
  {
    hide Payload;
    assert Width(Char).value == 1;
  }

  lemma ElementsAt(lib: Lib, w: WireType, items: seq<Val>, nanos2date: bool, b: seq<byte>, pos: int, p: seq<byte>)
    requires w != Char && |items| > 0
    requires Payloads(lib, w, items) == Ok(p) && BackScalars(lib, w, items, nanos2date).Some?
    requires ReadInt8(b, pos) == Ok(Code(w)) && ReadInt(b, pos + 2) == Ok(OfInt(|items|))
    requires At(b, pos + 6, p) && Fits(b)
    ensures R(lib, b, pos, nanos2date) == Ok((DList(BackScalars(lib, w, items, nanos2date).value), pos + 6 + |p|))
  {
    hide R, RScalars, ReadScalar, Payload, Payloads, Back, BackScalars, ReadInt, ReadInt8;
    ScalarsAt(lib, w, items, nanos2date, b, pos + 6);
    var ds := BackScalars(lib, w, items, nanos2date).value;
    assert RScalars(lib, w, b, pos + 6, nanos2date, |items|) == Ok((ds, pos + 6 + |p|));
    RTyped(lib, b, pos, nanos2date, w, |items|);
  }

  /** The payloads of a typed list read back one `Back` each. */
  lemma {:induction false} ScalarsAt(lib: Lib, w: WireType, items: seq<Val>, nanos2date: bool, b: seq<byte>, pos: int)
    requires Payloads(lib, w, items).Ok? && BackScalars(lib, w, items, nanos2date).Some?
    requires At(b, pos, Payloads(lib, w, items).value) && Fits(b)
    ensures RScalars(lib, w, b, pos, nanos2date, |items|)
            == Ok((BackScalars(lib, w, items, nanos2date).value, pos + |Payloads(lib, w, items).value|))
  {
    hide ReadScalar, Payload, Back;
    if |items| > 0 {
      var p := Payload(lib, w, items[0]).value;
      var rest := Payloads(lib, w, items[1..]).value;
      AtSplit(b, pos, p, rest);
      ScalarRoundTrip(lib, w, items[0], nanos2date, b, pos);
      ScalarsAt(lib, w, items[1..], nanos2date, b, pos + |p|);
    }
  }

  /** A list or mixed-list tag: an empty list for a value with no length,
      else the array's own body. */
  lemma {:induction false} ListAs(lib: Lib, t: TypeName, x: Val, vt: TypeName, nanos2date: bool, b: seq<byte>, pos: int)
    requires (t == ListT || t == MixedListT) && As(lib, t, x, vt).Ok? && BackAs(lib, t, x, vt, nanos2date).Some?
    requires At(b, pos, As(lib, t, x, vt).value) && Fits(b)
    ensures R(lib, b, pos, nanos2date) == Ok((BackAs(lib, t, x, vt, nanos2date).value, pos + |As(lib, t, x, vt).value|))
    decreases Size(x), 1
  {
    hide R, Untyped, Mixed, TypedBytes, DictBytes, StringBytes, Payload, BackUntyped, BackMixed;
    if !x.Arr? {
      assert As(lib, t, x, vt).value == [0, 0, 0, 0, 0, 0];
      EmptyAt(lib, b, pos, nanos2date);
    } else if t == ListT {
      UntypedAt(lib, x.items, nanos2date, b, pos);
    } else {
      MixedAt(lib, x.items, nanos2date, b, pos);
    }
  }

  /** Six zero bytes: an empty mixed list. */
  lemma EmptyAt(lib: Lib, b: seq<byte>, pos: int, nanos2date: bool)
    requires At(b, pos, [0, 0, 0, 0, 0, 0]) && Fits(b)
    ensures R(lib, b, pos, nanos2date) == Ok((DList([]), pos + 6))
  {
    hide R;
    assert LE(OfInt(0), 4) == [0, 0, 0, 0] by {
      Laws.ToUint32OfInt(0);
    }
    assert [0, 0, 0, 0, 0, 0] == [0 as byte, 0] + LE(OfInt(0), 4) + [];
    ListHead(b, pos, 0, 0, []);
    REmpty(lib, b, pos, nanos2date, 0);
  }

  lemma {:induction false} UntypedAt(lib: Lib, items: seq<Val>, nanos2date: bool, b: seq<byte>, pos: int)
    requires Untyped(lib, items).Ok? && BackUntyped(lib, items, nanos2date).Some?
    requires At(b, pos, Untyped(lib, items).value) && Fits(b)
    ensures R(lib, b, pos, nanos2date) == Ok((BackUntyped(lib, items, nanos2date).value, pos + |Untyped(lib, items).value|))
    decreases SizeSeq(items), 3
  {
    hide R, Mixed, TypedBytes, Payloads, Items, BackTyped, BackMixed;
    match Promotion(items)
    case Some(vt) =>
      TypedAt(lib, vt.w, Strip(items), nanos2date, b, pos);
    case None =>
      MixedAt(lib, items, nanos2date, b, pos);
  }

  /** A mixed list: tag 0, a pad byte, the count, then each element with
      its own tag. */
  lemma {:induction false} MixedAt(lib: Lib, items: seq<Val>, nanos2date: bool, b: seq<byte>, pos: int)
    requires Mixed(lib, items).Ok? && BackMixed(lib, items, nanos2date).Some?
    requires At(b, pos, Mixed(lib, items).value) && Fits(b)
    ensures R(lib, b, pos, nanos2date) == Ok((BackMixed(lib, items, nanos2date).value, pos + |Mixed(lib, items).value|))
    decreases SizeSeq(items), 2
  {
    hide R, RItems, W, BackValue, ReadScalar, Payload, Mixed, Items, BackMixed;
    MixedLayout(lib, items);
    MixedBody(lib, items, nanos2date, b, pos, Items(lib, items).value);
  }

  /** The bytes of a mixed list: the head, then the elements. */
  lemma MixedLayout(lib: Lib, items: seq<Val>)
    requires Mixed(lib, items).Ok?
    ensures Items(lib, items).Ok?
    ensures Mixed(lib, items).value == [0 as byte, 0] + LE(OfInt(|items|), 4) + Items(lib, items).value
  {
  }

  lemma {:induction false} MixedBody(lib: Lib, items: seq<Val>, nanos2date: bool, b: seq<byte>, pos: int, body: seq<byte>)
    requires Items(lib, items) == Ok(body) && BackMixed(lib, items, nanos2date).Some?
    requires At(b, pos, [0 as byte, 0] + LE(OfInt(|items|), 4) + body) && Fits(b)
    ensures R(lib, b, pos, nanos2date) == Ok((BackMixed(lib, items, nanos2date).value, pos + 6 + |body|))
    decreases SizeSeq(items), 1
  {
    hide R, RItems, W, BackValue, ReadScalar, Payload;
    ListHead(b, pos, 0, |items|, body);
    if |items| == 0 {
      REmpty(lib, b, pos, nanos2date, 0);
    } else {
      ItemsAt(lib, items, nanos2date, b, pos + 6);
      RMixed(lib, b, pos, nanos2date, |items|);
    }
  }

  lemma {:induction false} ItemsAt(lib: Lib, items: seq<Val>, nanos2date: bool, b: seq<byte>, pos: int)
    requires Items(lib, items).Ok? && BackItems(lib, items, nanos2date).Some?
    requires At(b, pos, Items(lib, items).value) && Fits(b)
    ensures RItems(lib, b, pos, nanos2date, |items|)
            == Ok((BackItems(lib, items, nanos2date).value, pos + |Items(lib, items).value|))
    decreases SizeSeq(items), 0
  {
    hide R, RItems, W, BackValue, ReadScalar, Payload;
    if |items| == 0 {
      RItemsStep(lib, b, pos, nanos2date, 0);
    } else {
      var first := W(lib, items[0]).value;
      var rest := Items(lib, items[1..]).value;
      assert Items(lib, items).value == first + rest;
      AtSplit(b, pos, first, rest);
      ValueAt(lib, items[0], nanos2date, b, pos);
      ItemsAt(lib, items[1..], nanos2date, b, pos + |first|);
      RItemsStep(lib, b, pos, nanos2date, |items|);
    }
  }

  /** One step of `RItems`: nothing for no values, else the first value,
      then the rest after it. */
  lemma RItemsStep(lib: Lib, b: seq<byte>, pos: int, nanos2date: bool, n: nat)
    requires n > 0 ==> R(lib, b, pos, nanos2date).Ok?
    requires n > 0 ==> RItems(lib, b, R(lib, b, pos, nanos2date).value.1, nanos2date, n - 1).Ok?
    ensures n == 0 ==> RItems(lib, b, pos, nanos2date, n) == Ok(([], pos))
    ensures n > 0 ==> var (d, p) := R(lib, b, pos, nanos2date).value;
            var (ds, q) := RItems(lib, b, p, nanos2date, n - 1).value;
            RItems(lib, b, pos, nanos2date, n) == Ok(([d] + ds, q))
  {
  }

  // The decoder's dispatch on the tag, one branch per lemma.

  lemma RNull(lib: Lib, b: seq<byte>, pos: int, nanos2date: bool)
    requires ReadInt8(b, pos) == Ok(101) && ReadInt8(b, pos + 1) == Ok(0)
    ensures R(lib, b, pos, nanos2date) == Ok((DNull, pos + 2))
  {
    hide ReadScalar, RScalars, RItems, Length, Fill, ErrorText, ReadInt, ReadInt8, Slice;
  }

  lemma RAtom(lib: Lib, b: seq<byte>, pos: int, nanos2date: bool, w: WireType)
    requires ReadInt8(b, pos) == Ok(-Code(w))
    ensures R(lib, b, pos, nanos2date) == ReadScalar(lib, w, b, pos + 1, nanos2date)
  {
    hide ReadScalar, RScalars, RItems, Length, Fill, ErrorText, ReadInt, ReadInt8, Slice;
    CodeRange(w);
  }

  lemma RText(lib: Lib, b: seq<byte>, pos: int, nanos2date: bool, n: nat)
    requires ReadInt8(b, pos) == Ok(10) && ReadInt(b, pos + 2) == Ok(OfInt(n))
    ensures R(lib, b, pos, nanos2date) == Ok((DText(Slice(b, pos + 6, Some(pos + 6 + n))), pos + 6 + n))
  {
    hide ReadScalar, RScalars, RItems, Length, Fill, ErrorText, ReadInt, ReadInt8, Slice;
    assert Trunc(n as real) == n;
  }

  lemma REmpty(lib: Lib, b: seq<byte>, pos: int, nanos2date: bool, c: int)
    requires 0 <= c < 99 && c != 10
    requires ReadInt8(b, pos) == Ok(c) && ReadInt(b, pos + 2) == Ok(OfInt(0))
    ensures R(lib, b, pos, nanos2date) == Ok((DList([]), pos + 6))
  {
    hide ReadScalar, RScalars, RItems, Length, Fill, ErrorText, ReadInt, ReadInt8, Slice;
    assert Trunc(0.0) == 0;
  }

  lemma RTyped(lib: Lib, b: seq<byte>, pos: int, nanos2date: bool, w: WireType, n: nat)
    requires w != Char && n > 0
    requires ReadInt8(b, pos) == Ok(Code(w)) && ReadInt(b, pos + 2) == Ok(OfInt(n))
    requires RScalars(lib, w, b, pos + 6, nanos2date, n).Ok?
    ensures var (ds, q) := RScalars(lib, w, b, pos + 6, nanos2date, n).value;
            R(lib, b, pos, nanos2date) == Ok((DList(ds), q))
  {
    hide ReadScalar, RScalars, RItems, Length, Fill, ErrorText, ReadInt, ReadInt8, Slice;
    CodeRange(w);
    assert Trunc(n as real) == n;
  }

  lemma RMixed(lib: Lib, b: seq<byte>, pos: int, nanos2date: bool, n: nat)
    requires n > 0
    requires ReadInt8(b, pos) == Ok(0) && ReadInt(b, pos + 2) == Ok(OfInt(n))
    requires RItems(lib, b, pos + 6, nanos2date, n).Ok?
    ensures var (ds, q) := RItems(lib, b, pos + 6, nanos2date, n).value;
            R(lib, b, pos, nanos2date) == Ok((DList(ds), q))
  {
    hide ReadScalar, RScalars, RItems, Length, Fill, ErrorText, ReadInt, ReadInt8, Slice;
    assert Trunc(n as real) == n;
  }
}
