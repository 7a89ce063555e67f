/** `encode(x)`: size the body with `calcN`, allocate `8 + n` zero bytes,
    write the header (1, 0, 0, 0 and the buffer's length), then the body. */
module Frame {
  import opened JsNum
  import opened Values
  import opened Errors
  import opened ByteBuf
  import opened Foreign
  import Encoder
  import Sizing
  import Laws = ByteBufLaws

  /** The whole message. Bytes the body does not reach stay zero; a body
      longer than the allocation is outside the model (the buffer refuses
      or truncates the write). */
  function Encode(lib: Lib, x: Val): (r: Result<seq<byte>>)
    ensures r.Ok? <==> Sizing.CalcN(x).Ok? && 8 + Sizing.CalcN(x).value <= 0x7fff_ffff
                       && Encoder.W(lib, x).Ok? && |Encoder.W(lib, x).value| <= Sizing.CalcN(x).value
    ensures r.Ok? ==> |r.value| == 8 + Sizing.CalcN(x).value
    ensures r.Ok? ==> r.value[..8] == Encoder.Header(|r.value|)
    ensures r.Ok? ==> var body := Encoder.W(lib, x).value;
                      && r.value[8..8 + |body|] == body
                      && forall k :: 8 + |body| <= k < |r.value| ==> r.value[k] == 0
    ensures Sizing.CalcN(x).Err? ==> r == Err(Sizing.CalcN(x).error)
  {
    var n :- Sizing.CalcN(x);
    var buf :- Alloc(SizeNum(OfInt(8 + n)));
    var body :- Encoder.W(lib, x);
    if |body| > n then Err(Unmodelled("a body longer than its size estimate"))
    else
      var out := Encoder.Header(|buf|) + body + Zeros(n - |body|);
      assert out[8..8 + |body|] == body;
      Ok(out)
  }

  /** The length field of a message reads back as the message's length. */
  lemma FrameLength(lib: Lib, x: Val)
    requires Encode(lib, x).Ok?
    ensures var m := Encode(lib, x).value;
            ReadInt32LE(m, 4) == Ok(|m|) && ReadInt8(m, 0) == Ok(1)
  {
    var m := Encode(lib, x).value;
    HeaderFields(m);
  }

  /** Any buffer that starts with its own header reads back its length and
      the little-endian marker. */
  lemma HeaderFields(m: seq<byte>)
    requires 8 <= |m| <= 0x7fff_ffff && m[..8] == Encoder.Header(|m|)
    ensures ReadInt32LE(m, 4) == Ok(|m|) && ReadInt8(m, 0) == Ok(1)
  {
    Laws.Int32Layout(|m|);
    ToUint32OfUint32(4);
    assert m[4..8] == Encoder.Header(|m|)[4..8];
    assert Encoder.Header(|m|)[4..8] == LE(OfInt(|m|), 4);
    assert m[0] == Encoder.Header(|m|)[..4][0];
  }
}
