/** The codecs the byte layer calls but does not define: IEEE-754 float and
    double conversion, and GUID-text parsing. The model takes them as a
    parameter; only the width of what they produce is fixed. */
module Foreign {
  import opened JsNum
  import opened Utf8

  type Bytes4 = s: seq<byte> | |s| == 4 witness [0, 0, 0, 0]
  type Bytes8 = s: seq<byte> | |s| == 8 witness [0, 0, 0, 0, 0, 0, 0, 0]
  type Bytes16 = s: seq<byte> | |s| == 16 witness [0, 0, 0, 0, 0, 0, 0, 0, 0, 0, 0, 0, 0, 0, 0, 0]

  /** `writeFloatLE`/`writeDoubleLE` payloads, `readFloatLE`/`readDoubleLE`,
      and the 16 bytes GUID text parses to. */
  datatype Lib = Lib(
    writeFloat: Number -> Bytes4,
    writeDouble: Number -> Bytes8,
    readFloat: Bytes4 -> Number,
    readDouble: Bytes8 -> Number,
    parseGuid: JsString -> Bytes16)
}
