/** JavaScript strings and their UTF-8 encoding. A string is its sequence of
    UTF-16 code units (what `.length` counts); `Encode` is the standard UTF-8
    encoding of that sequence, with a surrogate pair encoded as one 4-byte
    code point and an unpaired surrogate replaced by U+FFFD (EF BF BD). */
module Utf8 {
  import opened JsNum

  type Unit = u: int | 0 <= u < 0x1_0000
  type JsString = seq<Unit>

  predicate IsLead(u: int) { 0xD800 <= u <= 0xDBFF }
  predicate IsTrail(u: int) { 0xDC00 <= u <= 0xDFFF }

  /** The UTF-8 bytes of one code point. */
  function CodePoint(cp: int): (bs: seq<byte>)
    requires 0 <= cp < 0x11_0000
    ensures 1 <= |bs| <= 4
    ensures |bs| == 1 <==> cp < 0x80
    ensures |bs| == 1 ==> bs[0] == cp
    ensures |bs| > 1 ==> forall k :: 0 <= k < |bs| ==> bs[k] >= 0x80
  {
    if cp < 0x80 then [cp]
    else if cp < 0x800 then [0xC0 + cp / 0x40, 0x80 + cp % 0x40]
    else if cp < 0x1_0000 then
      [0xE0 + cp / 0x1000, 0x80 + (cp / 0x40) % 0x40, 0x80 + cp % 0x40]
    else
      [0xF0 + cp / 0x4_0000, 0x80 + (cp / 0x1000) % 0x40, 0x80 + (cp / 0x40) % 0x40, 0x80 + cp % 0x40]
  }

  const REPLACEMENT: seq<byte> := [0xEF, 0xBF, 0xBD]

  /** The UTF-8 bytes of a string (`Buffer.byteLength` counts them, `write` stores them). */
  function Encode(s: JsString): (bs: seq<byte>)
    ensures |bs| <= 3 * |s|
    ensures |s| > 0 && s[0] < 0x80 ==> |bs| > 0 && bs[0] == s[0]
    decreases |s|
  {
    if |s| == 0 then []
    else if IsLead(s[0]) && |s| >= 2 && IsTrail(s[1]) then
      CodePoint(0x1_0000 + (s[0] as int - 0xD800) * 0x400 + (s[1] as int - 0xDC00)) + Encode(s[2..])
    else if IsLead(s[0]) || IsTrail(s[0]) then REPLACEMENT + Encode(s[1..])
    else CodePoint(s[0]) + Encode(s[1..])
  }

  predicate IsAscii(s: seq<int>) { forall k :: 0 <= k < |s| ==> s[k] < 0x80 }

  /** No unit is NUL: the only way a zero byte gets into the encoding. */
  predicate NoNul(s: seq<int>) { forall k :: 0 <= k < |s| ==> s[k] != 0 }

  /** An ASCII string encodes to itself, byte for unit. */
  lemma {:induction false} AsciiEncodesToItself(s: JsString)
    requires IsAscii(s)
    ensures Encode(s) == s
    decreases |s|
  {
    if |s| > 0 {
      AsciiEncodesToItself(s[1..]);
    }
  }

  /** The encoding is never shorter than the string, and is exactly as long
      iff the string is ASCII. */
  lemma {:induction false} EncodeLength(s: JsString)
    ensures |Encode(s)| >= |s|
    ensures |Encode(s)| == |s| <==> IsAscii(s)
    decreases |s|
  {
    if |s| == 0 {
    } else if IsLead(s[0]) && |s| >= 2 && IsTrail(s[1]) {
      EncodeLength(s[2..]);
      assert !IsAscii(s) by { assert s[0] >= 0x80; }
    } else {
      EncodeLength(s[1..]);
      if IsAscii(s[1..]) && s[0] < 0x80 {
        assert IsAscii(s) by {
          forall k | 1 <= k < |s| ensures s[k] < 0x80 { assert s[k] == s[1..][k - 1]; }
        }
      }
      if IsAscii(s) {
        assert IsAscii(s[1..]) by {
          forall k | 0 <= k < |s| - 1 ensures s[1..][k] < 0x80 { assert s[1..][k] == s[k + 1]; }
        }
      }
    }
  }

  /** A string without NUL units encodes to bytes without a zero byte, so a
      symbol's terminator is the first zero after its text. */
  lemma {:induction false} EncodeNoZero(s: JsString)
    requires NoNul(s)
    ensures forall k :: 0 <= k < |Encode(s)| ==> Encode(s)[k] != 0
    decreases |s|
  {
    if |s| == 0 {
    } else if IsLead(s[0]) && |s| >= 2 && IsTrail(s[1]) {
      EncodeNoZero(s[2..]);
      var cp := 0x1_0000 + (s[0] as int - 0xD800) * 0x400 + (s[1] as int - 0xDC00);
      var h := CodePoint(cp);
      assert forall k :: 0 <= k < |h| ==> h[k] != 0;
    } else if IsLead(s[0]) || IsTrail(s[0]) {
      EncodeNoZero(s[1..]);
    } else {
      EncodeNoZero(s[1..]);
      var h := CodePoint(s[0]);
      assert forall k :: 0 <= k < |h| ==> h[k] != 0;
    }
  }
}
