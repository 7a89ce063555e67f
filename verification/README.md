# whitney-buffers: the kdb+/q IPC codec, modelled in Dafny

whitney-buffers turns JavaScript values into kdb+/q IPC messages and back.
This project models the codec as pure functions over immutable data and
proves properties of it. It covers:

- **Framing.** `encode(x)` sizes the value with `calcN`, allocates 8 + n
  bytes, writes the header `1 0 0 0` and the total length, then the body.
- **Writer.** `w(x)` writes a value by its explicit `Typed` tag or by its
  inferred type:
  - null;
  - dicts with symbol keys;
  - untyped arrays, promoted to a typed list when every element infers to
    the same primitive type;
  - mixed lists and typed lists;
  - strings: a backtick text is a symbol atom, any other text a char list of
    its UTF-8 bytes;
  - the eighteen scalar wire types, each with its tag byte `0 - code`.
- **Size estimator.** `calcN` works from the type registry
  (`QTYPES2NUM`, `QTYPES2SIZE`) and `type2num`/`type2size`.
- **Reader.** `decode(b, nanos2date)` skips the header and reads one value
  with `r()`. This covers:
  - the error tag -128;
  - atoms through the `fns` table;
  - null and function markers;
  - dicts, char lists as text, and lists whose elements are read by their
    element reader or, for type 0, by `r()` itself.
  - It also has the per-type readers: sentinels, 64-bit `Long`s, and the
    epoch-2000 date and time arithmetic.
- **Byte buffer.** The parts of the small `Buffer` the codec relies on:
  - `alloc`, the bound checks of the `assert` helpers;
  - signed and unsigned 8/16/32-bit little-endian reads and writes,
    including coercion of the value and offset (`+v`, `| 0`, `>>> 0`);
  - `slice`, `indexOf` and `byteLength`.
- **Producer API.** The `Typed` wrapper and its validating constructors
  (`b`…`T`, `j`/`J`, `dict`, `list`), plus `valuetype` and `toString`.

JavaScript values are the datatype `Values.Val`:

- A number is `JsNum.Number`: a real, the two infinities or NaN.
- A `Date` holds integer milliseconds.
- A string is a sequence of UTF-16 units.
- A `Long` holds two int32 halves.
- An object is an ordered list of own properties.

Decoded values are `Decoder.Decoded`. A text decoded from UTF-8 stays as its
bytes (`DText`). Every operation returns a `Result`, which carries the
message's error on failure. Integer wrap-around is written out:

- `ToInt32`/`ToUint32` for `| 0` and `>>> 0`;
- modular little-endian bytes;
- the signed 64-bit value of a pair of halves.

The main results:

- **Round trip.** For every value the model covers, decoding the encoded
  message gives back a value fixed by the input. This holds for null, atoms
  of every wire type, strings, and typed, promoted and mixed lists nested to
  any depth (`ValueTrip.MessageRoundTrip`, built on
  `ScalarTrip.ScalarRoundTrip`). The returned value is stated independently
  by `ScalarTrip.Back` and `ValueTrip.BackValue`:
  - a byte comes back unsigned;
  - a char list comes back as text;
  - dates before 2000 are excluded in the month and day types;
  - and so on.
- **Size estimate.** The estimate is exact whenever every dict key is ASCII
  and no symbol list holds null (`SizeLaws.WExact`,
  `SizeLaws.MessageIsTight`). Concrete values show that both conditions are
  needed.
- **Divergences.** The places where the codec does not give back what it was
  given, each as a lemma about the code as written (`Divergences`):
  - the sentinel collisions;
  - code 3;
  - the dict loop's unchecked lengths;
  - the day and month truncation before 2000;
  - an unterminated symbol.

Where the usual description of the format and the code disagree, the model
follows the code:

- The size estimate is not exact for every value: it counts dict keys in
  UTF-16 units and a null symbol-list element as the four letters `null`.
- `wdate` truncates the day count toward zero instead of flooring it.
- `rMonth` turns December 1999 into December 1998.
- The dict reader pairs keys and values by position without comparing the
  two lengths.
- A finite short 32767 or int -2147483647 reads back as infinity.

## Model

| member | source | states |
|---|---|---|
| Registry.Width | _private/constants.js:30-49 | the symbol is the one wire type without a fixed width; timestamp, datetime and timespan take 8 bytes and the other time types 4 |
| Registry.FromCode | src/decode.js:158 | a code read from the wire selects the wire type that has that code |
| Registry.FromCodeDomain | src/decode.js:158 | the reader table has a reader for exactly the codes 1 to 19 other than 3 |
| Registry.CodeRange | _private/constants.js:10-29 | every wire type's code is in 1..19, is never 3, and reads back as that type |
| Registry.CodesDistinct | _private/constants.js:10-29 | no two wire types share a code |
| Registry.OnlySymbolIsVariable | _private/constants.js:30-49 | the symbol is the only type whose width is not fixed |
| Registry.Type2Num | _private/utils.js:9-15 | a registered name has a code in 1..19 other than 3; any other name that is not an `Object.prototype` member fails with "bad type" naming it |
| Registry.Type2Size | _private/utils.js:17-23 | a width (1, 2, 4, 8 or 16) exists exactly for the registered fixed-width names; the symbol, the container names and any other name that is not an `Object.prototype` member fail with "bad type" |
| Values.InferType | _private/utils.js:25-50 | an explicit tag wins; otherwise null, a number, a `Date`, a boolean, an array, a string and an object (or `Long`) infer to null, float, datetime, boolean, list, string and dict, each in both directions; `undefined` has no type |
| Values.Promotion | _private/utils.js:52-59 | a non-empty list is promoted exactly when every element infers to the first element's type, and that type is never a container name |
| Values.Truthy | src/encode.js:55-57 | false exactly for undefined, null, false, 0, NaN and the empty string |
| Values.Strip | src/encode.js:250-256 | the promoted list keeps its length and unwraps each `Typed` element to its value |
| Values.FieldValues | _private/utils.js:141-149 | the values of an object's own properties, one per property and in order |
| Values.Keys | src/encode.js:233-245 | the keys of an object's own properties, one per property and in order: zipped with the values `getVals` gives, they rebuild every property |
| Utf8.CodePoint | buffer.js:97-103 | a code point becomes 1 to 4 bytes; a single byte exactly below 0x80, and then the code point itself; every byte of a longer form has its high bit set |
| Utf8.Encode | buffer.js:24-31 | at most three bytes per UTF-16 unit; an ASCII first unit is the first byte |
| Utf8.EncodeLength | buffer.js:24-31 | the UTF-8 length is never below the UTF-16 length, and equals it exactly for ASCII text |
| Utf8.AsciiEncodesToItself | buffer.js:97-103 | ASCII text is written byte for unit |
| Utf8.EncodeNoZero | src/encode.js:150-155 | text with no NUL unit writes no zero byte, so a symbol's terminator is the first zero after it |
| Long64.Split | src/encode.js:156-158 | `Long.fromNumber` gives two int32 halves whose signed 64-bit value is the number, saturated to the 64-bit range |
| Long64.SplitValue | src/decode.js:85-96 | the halves of the value of two int32 halves are those halves again |
| JsNum.ToUint32 | buffer.js:175-189 | `>>> 0`: in [0, 2^32), congruent to the truncated number modulo 2^32, and 0 for NaN and the infinities |
| JsNum.ToInt32 | buffer.js:105-152 | the int32 coercion: in the int32 range, congruent to `ToUint32` modulo 2^32, and the identity on int32 integers |
| ByteBuf.CheckSize | _private/assert.js:98-106 | a non-number size is a TypeError; an accepted size is at most 0x7fffffff; a number in [0, 0x7fffffff] is accepted truncated |
| ByteBuf.Alloc | buffer.js:17-22 | an omitted size gives an empty buffer; an accepted size gives that many zero bytes; a size `checkSize` refuses raises its error |
| ByteBuf.CheckInt | _private/assert.js:83-86 | passes exactly when the value is in range (NaN counts as in range) and offset + ext fits; the value is checked before the offset |
| ByteBuf.CheckOffset | _private/assert.js:93-96 | passes exactly for a non-negative integer offset with offset + ext inside the buffer; otherwise "not a uint" first |
| ByteBuf.Splice | buffer.js:143-152 | a multi-byte store changes exactly the bytes it covers and keeps the buffer's length; indices past the end are ignored |
| ByteBuf.Int8Byte | buffer.js:105-112 | an integer in [-128, 127] is stored as its two's complement; NaN is stored as 0 |
| ByteBuf.LEBytes | buffer.js:143-152 | `width` bytes that spell `u` modulo 256^width, low byte first |
| ByteBuf.LE | buffer.js:134-152 | the stored bytes spell `ToUint32(value)` modulo 256^width, low byte first |
| ByteBuf.FromLEConcat | buffer.js:182-189 | two little-endian runs end to end spell the first plus the second shifted past the first |
| ByteBuf.Int8Bytes | buffer.js:105-112 | `writeInt8` accepts exactly [-128, 127] and stores one byte |
| ByteBuf.UInt8Bytes | buffer.js:114-120 | `writeUInt8` accepts exactly [0, 255] and stores the low byte |
| ByteBuf.Int16Bytes | buffer.js:134-141 | `writeInt16LE` accepts exactly [-32768, 32767] and stores two little-endian bytes |
| ByteBuf.Int32Bytes | buffer.js:143-152 | `writeInt32LE` accepts exactly the int32 range and stores four little-endian bytes |
| ByteBuf.Store | buffer.js:143-152 | a range error is raised before anything is stored; a write past the end is "Index out of range"; otherwise the bytes land at the offset coerced to int32, and the new offset follows them |
| ByteBuf.WriteInt8 | buffer.js:105-112 | succeeds exactly for a value in [-128, 127] (NaN included) with room at the offset coerced to int32; an out-of-range value is "out of bounds"; the byte lands at the offset and offset + 1 is returned |
| ByteBuf.WriteUInt8 | buffer.js:114-120 | succeeds exactly for a value in [0, 255] with room at the offset; an out-of-range value is "out of bounds"; the low byte lands at the offset and offset + 1 is returned |
| ByteBuf.WriteInt16LE | buffer.js:134-141 | succeeds exactly for an int16 with room at the offset; an out-of-range value is "out of bounds"; two little-endian bytes land at the offset and offset + 2 is returned |
| ByteBuf.WriteInt32LE | buffer.js:143-152 | succeeds exactly for an int32 with room at the offset; an out-of-range value is "out of bounds"; four little-endian bytes land at the offset and offset + 4 is returned |
| ByteBuf.ReadInt8 | buffer.js:154-158 | defined exactly on offsets inside the buffer; gives the byte sign-extended; a negative offset is "not a uint" |
| ByteBuf.ReadUInt8 | buffer.js:160-163 | defined exactly on offsets inside the buffer; gives the byte |
| ByteBuf.ReadInt16LE | buffer.js:175-180 | succeeds inside the buffer and gives a value in the int16 range |
| ByteBuf.ReadInt32LE | buffer.js:182-189 | succeeds inside the buffer and gives a value in the int32 range |
| ByteBuf.FromEnd | buffer.js:77-89 | a bound inside [0, length] stays; a larger one is the length; a negative one counts from the end, and stops at 0 |
| ByteBuf.SliceBounds | buffer.js:72-95 | the start is `~~start` counted from the end when negative and clamped to [0, length]; an omitted end is the length; a given end is normalised the same way and raised to the start when it falls before it |
| ByteBuf.Slice | buffer.js:72-95 | for 32-bit bounds: the bytes from start to end inside the buffer; an omitted end, or a given end at or past the length, runs to the end of the buffer; a negative start or end counts from the end and stops at the first byte, for every combination of signs (both bounds before the first byte give no bytes); a start at or past the end, or an end that so placed is not after the start, gives no bytes; never longer than the buffer |
| ByteBuf.FirstIndex | buffer.js:41-70 | the first index at or after `from` holding the byte, or -1 when none does |
| ByteBuf.IndexOf | buffer.js:41-70 | -1 on an empty buffer or an empty needle; otherwise -1 or an index holding the byte. For a 32-bit offset: the first occurrence at or after the offset, truncated, and counted from the end when negative; -1 when it stays negative; NaN or an offset at or past the end searches the last byte only |
| ByteBufLaws.FromLEBytes | buffer.js:182-189 | reading the little-endian bytes of a number that fits gives the number back |
| ByteBufLaws.Int8RoundTrip | buffer.js:105-158 | `writeInt8` then `readInt8` gives back every value in [-128, 127]; a negative value is stored as 256 + v |
| ByteBufLaws.UInt8RoundTrip | buffer.js:114-163 | `writeUInt8` then `readUInt8` gives back every value in [0, 255] |
| ByteBufLaws.Int16Layout | buffer.js:134-141 | the two bytes stored are the value's two's complement, low byte first |
| ByteBufLaws.Int16RoundTrip | buffer.js:134-180 | `writeInt16LE` then `readInt16LE` gives back every int16 |
| ByteBufLaws.Int32Layout | buffer.js:143-152 | the four bytes stored are the value modulo 2^32, low byte first |
| ByteBufLaws.Int32RoundTrip | buffer.js:143-189 | `writeInt32LE` then `readInt32LE` gives back every int32 |
| ByteBufLaws.Int32Written | buffer.js:143-152 | the write stores the value's four bytes at the offset and returns offset + 4 |
| ByteBufLaws.Int32Read | buffer.js:182-189 | a value's four bytes read back as the value |
| ByteBufLaws.Int32WriteFrame | buffer.js:143-152 | a 32-bit write leaves every byte outside its four untouched |
| ByteBufLaws.WriteRangeErrors | _private/assert.js:83-86 | an out-of-range value is refused with "out of bounds" whatever the buffer and offset |
| ByteBufLaws.WriteIndexErrors | _private/assert.js:83-86 | an in-range value that would run past the end is refused with "Index out of range" |
| ByteBufLaws.NaNWritesZero | buffer.js:143-152 | NaN passes the range check and is stored as zero |
| ByteBufLaws.ReadNegativeOffset | buffer.js:154-189 | a negative offset is "not a uint" for the 8-bit reader; the 32-bit reader wraps it with `>>> 0` and runs past the end instead |
| Tags.Check | _private/assert.js:6-66 | a value passes exactly when it has the expected kind and is not the empty string; otherwise the "expected … to be …" or "must not be empty" message |
| Tags.CheckObject | _private/assert.js:45-54 | passes exactly for an object with at least one key; a non-object is reported before an empty one |
| Tags.CheckArray | _private/assert.js:72-81 | passes exactly for a non-empty array and gives its elements; a non-array is reported before an empty one |
| Tags.Atom | src/typed.js:41-50 | a scalar constructor succeeds exactly when the check passes, and tags the value with its type so that inference gives that type; otherwise it raises the check's error |
| Tags.CheckAll | src/typed.js:27-40 | passes exactly when every element passes; otherwise it fails with the error of the first failing element |
| Tags.ListOf | src/typed.js:27-40 | a list constructor succeeds exactly for a non-empty array of elements that all pass, tagged as a typed list of that type |
| Tags.LongHalf | src/typed.js:141-158 | a number half is stored as `ToInt32` of it, so always in the int32 range |
| Tags.LongElement | src/typed.js:141-158 | an infinite low, then an infinite high, is returned as is; otherwise a missing half is "low and high required for long"; finite halves become a `Long` of their int32 values |
| Tags.LongOf | src/typed.js:141-158 | `j` succeeds exactly when the element rule does, and tags its result as a long |
| Tags.LongElements | src/typed.js:159-179 | every pair goes through the element rule, in order; the list fails exactly when some pair fails |
| Tags.LongsOf | src/typed.js:159-179 | `J` of no pairs is an empty long list (no emptiness check); otherwise a typed long list with one element per pair |
| Tags.DictOf | src/typed.js:420-430 | `dict` succeeds exactly for a non-empty object, tagged as a dict, and otherwise raises the object check's error |
| Tags.ListTag | src/typed.js:431-441 | `list` succeeds exactly for a non-empty array, tagged as a mixed list, and otherwise raises the array check's error |
| Tags.ValueType | src/typed.js:13-18 | only a typed list has a value type; every other tag raises "only available for type typedlist" |
| Tags.ParenAfterHead | src/typed.js:19-24 | in `toString` of a registry-named wrapper, the first `(` closes the head `list[vt]` or `type` |
| Tags.HeadInjective | src/typed.js:19-24 | two heads are equal exactly when the types are, and for typed lists the value types too |
| Tags.RenderInjective | src/typed.js:19-24 | two `toString` texts are equal exactly when their heads and their value texts are, so the text determines the tag and the value text |
| Encoder.Tag | src/encode.js:23-26 | the byte `writeInt8` stores for a tag: two's complement of a negative tag |
| Encoder.Count | src/encode.js:39-50 | a count is written as four little-endian bytes exactly when it is below 2^31 |
| Encoder.Coerce | buffer.js:106 | unary `+`: a number is itself, a boolean 1 or 0, null 0, undefined NaN, a `Date` its time |
| Encoder.LongJsBytes | src/encode.js:51-54 | a `Long` is written as its low half, then its high half; null or undefined raise a TypeError |
| Encoder.Int64Bytes | src/encode.js:156-158 | the eight bytes of `Long.fromNumber(n)` spell `n`, saturated to the 64-bit range, modulo 2^64 |
| Encoder.DateMs | src/encode.js:156-180 | only a `Date` has a time value, and it is the time itself |
| Encoder.CharBytes | src/encode.js:144-146 | a char is the first UTF-16 unit as one byte; a unit above 255 is out of bounds; the empty string writes 0 |
| Encoder.SymbolBytes | src/encode.js:150-155 | a symbol is its UTF-8 bytes then a zero byte; null is the zero byte alone; nothing else is a symbol |
| Encoder.Payload | src/encode.js:182-201 | a scalar payload is exactly its type's width, and at least one byte |
| Encoder.Payloads | src/encode.js:272-280 | a typed list's payloads take width × count bytes for a fixed-width type, and at least a byte per element |
| Encoder.TypedBytes | src/encode.js:272-280 | a typed list starts with its element code, a zero pad byte and the count; a non-registry element type is a "bad type" error |
| Encoder.KeyBytes | src/encode.js:240-242 | the keys as symbols: at least a byte per key, the first key's UTF-8 bytes first and a zero byte last |
| Encoder.DictFieldsOf | src/encode.js:233-245 | a value written as a dict contributes exactly its own properties |
| Encoder.DictBytes | src/encode.js:233-245 | a dict starts 99, 11, 0 and then its key count, and takes at least 7 bytes plus one per key; the error of `Object.keys` is passed through |
| Encoder.W | src/encode.js:211-298 | a written value takes at least two bytes |
| Encoder.As | src/encode.js:226-298 | null writes 101 0; `undefined` or an unregistered name is "bad type"; an atom starts with its tag `-code`; a dict with 99 11; at least two bytes |
| Encoder.NonArrayTyped | src/encode.js:272-280 | a typed-list tag on a non-array always fails |
| Encoder.StringBytes | src/encode.js:281-292 | a written string takes at least two bytes |
| Encoder.Untyped | src/encode.js:246-261 | an untyped array takes at least the 6 header bytes plus a byte per element |
| Encoder.Mixed | src/encode.js:262-271 | a mixed list starts with type 0, a zero pad byte and the count |
| Encoder.Items | src/encode.js:262-271 | each element of a mixed list takes at least its two tag bytes |
| Encoder.Header | src/encode.js:299-307 | the header is eight bytes starting 1, 0, 0, 0 |
| Frame.Encode | src/encode.js:299-307 | a message exists exactly when the estimate succeeds, fits a buffer and covers the body. It is 8 + estimate bytes long: its header carrying that length, then the body, then zero bytes |
| Frame.FrameLength | src/encode.js:299-307 | the length field of every message reads back as the message's length, and its first byte as 1 |
| Frame.HeaderFields | src/encode.js:299-307 | any buffer that starts with its own header reads back its length and the little-endian marker |
| Sizing.ByteLength | buffer.js:24-31 | `byteLength` is never below the UTF-16 length |
| Sizing.CalcN | _private/utils.js:61-139 | at least two bytes; null costs two |
| Sizing.CalcAs | _private/utils.js:76-139 | null costs two; `undefined` or an unregistered name is "bad type"; a list at least 6; a dict at least 13 |
| Sizing.CalcAtom | _private/utils.js:79-85 | a fixed-width atom costs 1 + its width; a symbol atom 2 plus its UTF-8 length, and null 2 |
| Sizing.CalcDict | _private/utils.js:86-94 | a dict costs at least 13 plus one per key, and fails when `Object.keys` does |
| Sizing.CalcString | _private/utils.js:131-135 | defined exactly on strings: the UTF-8 length plus 1 for a symbol literal, plus 6 for a char list |
| Sizing.CalcUntyped | _private/utils.js:95-110 | a promoted fixed-width list costs 6 + width × count; a list that is not promoted at least 6 plus two per element |
| Sizing.CalcItems | _private/utils.js:111-118 | succeeds exactly when every element's estimate does, and is at least two per element |
| Sizing.SymbolCost | _private/utils.js:119-130 | a symbol-list element costs a terminator plus its UTF-8 length; null costs five, the four bytes of "null" plus a terminator |
| Sizing.CalcTyped | _private/utils.js:119-130 | a fixed-width typed list costs 6 + width × count |
| Sizing.KeysLength | _private/utils.js:86-94 | each dict key costs at least one byte |
| Sizing.CalcNonArray | _private/utils.js:95-118 | a list tag on a value with no length costs just the 6 header bytes |
| Sizing.CalcMixed | _private/utils.js:111-118 | a mixed list costs at least its 6 header bytes |
| SizeLaws.WExact | _private/utils.js:61-139 | on every value whose dict keys are ASCII and whose symbol lists hold no null, the estimate is the number of bytes `w` writes |
| SizeLaws.AsExact | _private/utils.js:61-139 | the same exactness once the type is known |
| SizeLaws.ScalarExact | _private/utils.js:138 | an atom is estimated exactly |
| SizeLaws.AtomExact | _private/utils.js:138 | an atom is its tag byte plus its payload |
| SizeLaws.StringExact | _private/utils.js:131-135 | a string is estimated exactly |
| SizeLaws.StringBodyExact | _private/utils.js:131-135 | a string is estimated exactly, as a symbol atom or as a char list |
| SizeLaws.TypedExact | _private/utils.js:119-130 | a typed list with no null symbol is estimated exactly |
| SizeLaws.TypedListExact | _private/utils.js:119-130 | a value tagged as a typed list is estimated exactly |
| SizeLaws.SymbolPayloadsLength | _private/utils.js:79-85 | the symbol payloads of a list without null are the estimated texts plus terminators |
| SizeLaws.KeyBytesLength | _private/utils.js:86-94 | ASCII keys cost exactly their length plus a terminator |
| SizeLaws.ListExact | _private/utils.js:95-118 | untyped and mixed lists are estimated exactly |
| SizeLaws.UntypedExact | _private/utils.js:95-110 | an untyped array is estimated exactly, promoted or not |
| SizeLaws.MixedExact | _private/utils.js:111-118 | a mixed list is estimated exactly |
| SizeLaws.ItemsExact | _private/utils.js:111-118 | the elements of a mixed list are estimated exactly, in sum |
| SizeLaws.DictLayout | src/encode.js:233-245 | a dict is 7 header bytes, then its keys as symbols, then its values as an untyped list |
| SizeLaws.CalcDictLayout | _private/utils.js:86-94 | the estimate of a dict is 7 plus the keys' estimate plus the values' estimate |
| SizeLaws.DictFieldsExact | _private/utils.js:86-94 | the properties of an exactly-estimated dict have ASCII keys and exactly-estimated values |
| SizeLaws.DictExact | _private/utils.js:86-94 | a dict with ASCII keys is estimated exactly |
| SizeLaws.DictPartsExact | _private/utils.js:86-94 | the keys and the values of such a dict are each estimated exactly |
| SizeLaws.DictBodyExact | _private/utils.js:86-94 | a dict whose keys and values are estimated exactly is estimated exactly |
| SizeLaws.MessageIsTight | src/encode.js:299-307 | on such a value the message is the header and the body, with no padding |
| SizeLaws.NonAsciiKeyUndersized | _private/utils.js:86-94 | `{ "é": null }` is estimated at 17 bytes but written in 18, so no message is built |
| SizeLaws.NonAsciiKeyEstimate | _private/utils.js:86-94 | the estimate for `{ "é": null }` is 17 |
| SizeLaws.NonAsciiKeyWritten | src/encode.js:233-245 | `{ "é": null }` is written in 18 bytes |
| SizeLaws.NonAsciiKeyBytes | src/encode.js:233-245 | the key "é" is written as two UTF-8 bytes and a terminator |
| SizeLaws.NullListWritten | src/encode.js:246-271 | `[null]` is written as a mixed list of one null, in eight bytes |
| SizeLaws.NullSymbolOversized | _private/utils.js:119-130 | `["a", null]` as a symbol list is estimated at 13 bytes but written in 9, leaving four zero bytes inside the stated length |
| Calendar.DaysInYear | src/encode.js:159-161 | a year has 365 or 366 days |
| Calendar.YearLength | src/encode.js:159-161 | consecutive years start `DaysInYear` days apart |
| Calendar.LeapCounts | src/encode.js:159-161 | the leap-day counts grow by one exactly at years divisible by 4, 100 and 400 |
| Calendar.DayFromYearMonotone | src/encode.js:159-161 | later years start on later days |
| Calendar.YearOf | src/encode.js:159-161 | `getUTCFullYear` is the year whose span holds the day |
| Calendar.YearOfUnique | src/encode.js:159-161 | a day lies in exactly one year |
| Calendar.MonthWithin | src/encode.js:159-161 | `getUTCMonth` is the month whose table range holds the day of the year |
| Calendar.UtcMonth | src/encode.js:159-161 | a month index is in 0..11 |
| Calendar.MonthStartWithinYear | src/encode.js:159-161 | every month begins inside its year |
| Calendar.MonthWithinStart | src/encode.js:159-161 | the first day of a month lies in that month |
| Calendar.FirstOfMonthSameMonth | src/decode.js:121-126 | the first of the month of a time is in the same year and month, and no later |
| Calendar.TimeWithinDay | src/encode.js:168-180 | the time within the day is in [0, 86400000) |
| Calendar.TimeOfDayFields | src/encode.js:168-180 | hours, minutes, seconds and milliseconds recombine into the minutes, seconds and milliseconds of the day |
| Calendar.FieldsOfDay | src/encode.js:168-180 | each UTC field of a time is the same field of its time within the day |
| Calendar.TimeClip | src/decode.js:127-129 | a `Date` is valid exactly for a finite time within ±8.64e15 ms, and holds it truncated |
| Decoder.ReadBytes | src/decode.js:54-64 | `k` bytes read one at a time are exactly the next `k` bytes, when they are inside the buffer |
| Decoder.ReadShort | src/decode.js:65-74 | `rInt16` reads exactly when `readInt16LE` does; 32767 and -32767, and only they, read as +infinity and -infinity; every other value reads as itself |
| Decoder.ReadLong | src/decode.js:85-96 | `rInt64` reads exactly when both halves do; the 64-bit values 2^63 - 1 and -(2^63 - 1), and only they, read as +infinity and -infinity; every other pair is that `Long` |
| Decoder.GuidText | src/decode.js:54-64 | 16 bytes give 36 ASCII characters, hex digits and dashes |
| Decoder.ReadInt | src/decode.js:75-84 | `rInt32` reads exactly when `readInt32LE` does; 2147483647 and -2147483647, and only they, read as +infinity and -infinity; every other int32, the null -2147483648 among them, reads as itself |
| Decoder.DateOf | src/decode.js:127-129 | a non-finite day count makes an invalid date |
| Decoder.Over | src/decode.js:145-156 | dividing keeps finiteness, and an infinity stays that infinity |
| Decoder.MonthRem | src/decode.js:121-126 | `y % 12` takes the dividend's sign and differs from `y` by a multiple of 12 |
| Decoder.UtcFirstOfMonth | src/decode.js:121-126 | `Date.UTC(y, m)`: a year 0..99 means 1900..1999; any other year, with a month in 0..11, gives the first day of that month of the truncated year |
| Decoder.MonthOf | src/decode.js:121-126 | an infinite count is an invalid date; a whole count v >= 0 is the first of month v % 12 of year 2000 + v / 12 |
| Decoder.CountDate | src/decode.js:121-156 | month goes through `MonthOf`; date, minute, second and time are 2000-01-01 plus the count in days, minutes, seconds or milliseconds, clipped; an infinite count is invalid |
| Decoder.Timestamp | src/decode.js:113-120 | without `nanos2date` the nanoseconds since 1970 as a number, infinities kept; with it a `Date` at 2000-01-01 plus nanoseconds / 10^6 ms, invalid for an infinity |
| Decoder.Timespan | src/decode.js:138-144 | without `nanos2date` the `Long` itself, infinities as infinities; with it a `Date` at 2000-01-01 plus nanoseconds / 10^6 ms, invalid for an infinity |
| Decoder.ReadScalar | src/decode.js:158 | a fixed-width reader moves the cursor by exactly its type's width, and every reader moves it forward |
| Decoder.ReadNumeric | src/decode.js:14-112 | the same for the readers that are not dates or times |
| Decoder.ReadTemporal | src/decode.js:113-156 | a date or time reader moves the cursor by its type's width |
| Decoder.ReadSymbol | src/decode.js:107-112 | a symbol read moves the cursor past its terminator |
| Decoder.ErrorText | src/decode.js:162-164 | the error text is the bytes from the cursor to the next zero byte, or to the last byte when there is none |
| Decoder.Length | src/decode.js:175 | `x.length` of a list is its element count |
| Decoder.Index | src/decode.js:175-176 | `x[i]` of a list is element i, or undefined past the end; of a value that is neither a list nor a dict, at most a one-unit string |
| Props.Digits | src/decode.js:176 | `String(n)`: canonical decimal digits that spell `n` |
| Props.IndexKeyOfNumber | src/decode.js:176 | the text of `n` is an array index exactly when `n` is at most 2^32 - 2 |
| Props.Get | src/decode.js:176 | a key has a value exactly when it is an own key |
| Props.Assign | src/decode.js:176 | `o[key] = val` keeps the keys distinct, index keys first and ascending, and no `__proto__`; afterwards `key` holds `val` unless it is `__proto__`, every other key keeps its value, and only a new named key joins the named keys, last |
| Props.Update | src/decode.js:176 | an existing key takes the new value and keeps its place |
| Props.Insert | src/decode.js:176 | a new index key goes among the index keys by value, leaving the named keys as they were |
| Props.Append | src/decode.js:176 | a new named key goes after all others |
| PropsLaws.Determined | src/decode.js:174-178 | two such property lists that agree on every key's value and on the order of the named keys are the same list |
| Decoder.Fill | src/decode.js:171-179 | whatever the loop builds is a property list `Object.keys` can list: distinct keys, index keys first in ascending order, no `__proto__` |
| DictLaws.LatestSome | src/decode.js:175-177 | after n assignments a key holds a value exactly when it is not `__proto__` and some assignment names it |
| DictLaws.FillFrom | src/decode.js:175-177 | the loop from turn i on, started from what the first i turns build, ends with every key holding its last value and the named keys in creation order |
| DictLaws.FillStep | src/decode.js:175-177 | one turn assigns `y[i]` to the key text of `x[i]` |
| DictLaws.GetStep | src/decode.js:176 | after one more turn every key holds its latest value |
| DictLaws.CreatedStep | src/decode.js:176 | after one more turn the named keys are those created so far, in order |
| DictLaws.LastAssignmentWins | src/decode.js:171-179 | the whole loop succeeds, every key holds the value of the last assignment naming it, and the named keys come in order of creation after the index keys |
| DictLaws.Symbols | src/decode.js:172 | a decoded symbol list: element i is the text of key i |
| DictLaws.Padded | src/decode.js:176 | `y[i]` for i below n: value i, or undefined past the end |
| DictLaws.SymbolKeys | src/decode.js:171-179 | with symbol keys, turn i reads key i and value i, or undefined past the last value |
| DictLaws.CharKeys | src/decode.js:171-176 | an ASCII char list as the key list: its length is its byte count and key i is the one-character text of byte i |
| DictLaws.NumberKey | src/decode.js:176 | a whole number below 1e21 as a key is its decimal text, an index key exactly when at most 2^32 - 2 |
| DictLaws.PrototypeKeyIgnored | src/decode.js:176 | a `__proto__` key with a primitive value creates no own property |
| DictLaws.IndexKeyFirst | src/decode.js:171-179 | the keys `b` then `1` give the properties `1` then `b` |
| Decoder.R | src/decode.js:157-191 | a value is read only from a cursor inside the buffer, and the cursor always moves forward |
| Decoder.RItems | src/decode.js:180-190 | a mixed list reads exactly `count` values, moving the cursor forward |
| Decoder.RScalars | src/decode.js:180-190 | a typed list reads exactly `count` values, taking count × width bytes for a fixed-width type |
| Decoder.Decode | src/decode.js:12-193 | a message decodes only if it has bytes past the 8-byte header |
| ReadLaws.ReadInt8At | src/decode.js:30-34 | a tag byte reads back as the signed value written |
| ReadLaws.ReadUInt8At | src/decode.js:49-53 | an unsigned read gives the byte |
| ReadLaws.ReadInt16At | src/decode.js:65-74 | the two bytes written for a short read back as it |
| ReadLaws.ReadInt32At | src/decode.js:35-48 | the four bytes written for an int read back as it |
| ReadLaws.ReadCountAt | src/decode.js:180-190 | a count written with `wn(4, n)` reads back as `n` |
| ReadLaws.ReadLongAt | src/decode.js:85-96 | two int32 halves read back as that `Long`, or as infinity for a sentinel pair |
| ReadLaws.IndexOfFrom | src/decode.js:107-112 | `indexOf(0, pos)` inside the buffer searches forward from the cursor |
| ReadLaws.SliceWithin | src/decode.js:25-29 | a slice inside the buffer is the plain sub-sequence |
| ReadLaws.ReadSymbolAt | src/decode.js:107-112 | text without a zero byte, then its terminator, reads back as that text, with the cursor after the terminator |
| ReadLaws.TextAt | src/decode.js:25-29 | the text of a char list is exactly the next `n` bytes |
| ScalarTrip.ClockUnit | src/encode.js:172-180 | minutes, seconds and milliseconds are positive units |
| ScalarTrip.ScalarRoundTrip | src/encode.js:182-201 | for every wire type, the reader over the writer's payload gives `Back` of the value, with the cursor after the payload |
| ScalarTrip.NumericRoundTrip | src/decode.js:14-112 | the same for the ten wire types that are not times |
| ScalarTrip.IntegerRoundTrip | src/decode.js:65-96 | byte, short, int and long read back their written value (a byte unsigned) |
| ScalarTrip.FloatingRoundTrip | src/encode.js:106-143 | real and float read back their value wherever the IEEE-754 routines keep it, infinities included |
| ScalarTrip.FlagRoundTrip | src/encode.js:55-61 | a boolean reads back its truth value; a guid reads back the text of its 16 bytes |
| ScalarTrip.TextRoundTrip | src/encode.js:144-155 | char and symbol read back their text |
| ScalarTrip.CharRoundTrip | src/decode.js:17-24 | a char reads back as the one-unit string of its first unit, or null for a space |
| ScalarTrip.SymbolRoundTrip | src/decode.js:107-112 | a symbol reads back as its UTF-8 text; null as the empty text |
| ScalarTrip.TemporalRoundTrip | src/encode.js:156-180 | the eight date and time types read back per `Back` |
| ScalarTrip.WideTimeRoundTrip | src/encode.js:156-171 | timestamp, datetime and timespan read back per `Back` |
| ScalarTrip.DayRoundTrip | src/encode.js:159-164 | month and date read back the start of the month or the day, from 2000 on |
| ScalarTrip.MonthRoundTrip | src/decode.js:121-126 | a month payload reads back per `Back` |
| ScalarTrip.DateRoundTrip | src/decode.js:130-133 | a date payload reads back per `Back` |
| ScalarTrip.BooleanTrip | src/encode.js:55-57 | a boolean reads back as its truth value |
| ScalarTrip.GuidTrip | src/decode.js:54-64 | a guid reads back as the lower-case dashed text of the 16 bytes it parsed to |
| ScalarTrip.RealTrip | src/encode.js:106-120 | a real reads back its value where the 32-bit routines keep it |
| ScalarTrip.FloatTrip | src/encode.js:121-143 | a float reads back its value where the 64-bit routines keep it |
| ScalarTrip.CharTrip | src/encode.js:144-146 | a char reads back as its first unit |
| ScalarTrip.ByteTrip | src/encode.js:62-64 | a byte in [-128, 127] reads back modulo 256, as unsigned |
| ScalarTrip.ShortTrip | src/encode.js:65-73 | a short reads back itself, infinities included, unless it is a sentinel's value |
| ScalarTrip.IntTrip | src/encode.js:74-82 | an int reads back itself, infinities included, unless it is a sentinel's value |
| ScalarTrip.LongTrip | src/encode.js:83-105 | a `Long` off the sentinel pairs reads back as itself; an infinity as that infinity |
| ScalarTrip.TimestampTrip | src/decode.js:113-120 | a timestamp reads back as the same time, or its nanoseconds since 1970 |
| ScalarTrip.MonthTrip | src/decode.js:121-126 | a month from 2000 on reads back as the first of that month |
| ScalarTrip.DateTrip | src/decode.js:130-133 | a date from 2000 on reads back as the start of its day |
| ScalarTrip.DatetimeTrip | src/decode.js:134-137 | a datetime reads back as the same time, where the 64-bit routines keep its day count |
| ScalarTrip.TimespanTrip | src/decode.js:138-144 | a timespan reads back as 2000-01-01 plus the time of day, or as its nanoseconds as a `Long` |
| ScalarTrip.ClockTrip | src/decode.js:145-156 | minute, second and time read back as 2000-01-01 plus the time of day truncated to their unit |
| ValueTrip.MessageRoundTrip | src/encode.js:299-307 | decoding the message for a value gives back `BackValue` of it, for null, atoms, strings and typed, promoted and mixed lists at any depth |
| ValueTrip.ValueAt | src/decode.js:157-191 | `r()` at the written bytes of a value gives `BackValue` of it, with the cursor after them |
| ValueTrip.AsAt | src/encode.js:211-298 | the same for each branch of `w` once the type is known |
| ValueTrip.NullAs | src/decode.js:168-170 | null is written as 101 0 and reads back as null |
| ValueTrip.AtomAs | src/decode.js:165-167 | an atom's tag `-code` dispatches to the reader of its type |
| ValueTrip.AtomAt | src/decode.js:165-167 | an atom reads back `Back` of its value, with the cursor after the payload |
| ValueTrip.StringAs | src/encode.js:281-292 | a backtick text reads back as a symbol, any other text as its UTF-8 bytes |
| ValueTrip.SymbolStringAs | src/encode.js:283-284 | a backtick text reads back as the symbol of the text after the backtick |
| ValueTrip.TextStringAs | src/encode.js:285-290 | any other text reads back as its UTF-8 bytes, the cursor after them |
| ValueTrip.CharTextAt | src/decode.js:182-184 | a char list reads back as its bytes as text |
| ValueTrip.TruncatedText | src/decode.js:25-29 | a char list whose count runs past the end of the buffer reads as the bytes that are there, and the cursor still moves on by the whole count |
| ValueTrip.ListHead | src/decode.js:180-181 | a list header gives back its type byte and its count |
| ValueTrip.TypedAs | src/encode.js:272-280 | a typed list reads back element by element, a char list as text |
| ValueTrip.TypedAt | src/encode.js:272-280 | the same from the typed list's bytes |
| ValueTrip.TypedBody | src/decode.js:180-190 | after the header, a typed list reads back its elements, a char list its text, and an empty list nothing |
| ValueTrip.TextBodyAt | src/decode.js:182-184 | code 10 reads the next `n` bytes as text |
| ValueTrip.CharCount | src/encode.js:272-280 | a char list writes one byte per element |
| ValueTrip.ElementsAt | src/decode.js:185-190 | a non-empty typed list other than char reads back each element with its type's reader |
| ValueTrip.ScalarsAt | src/decode.js:185-190 | consecutive payloads read back as the elements' `Back`, in order |
| ValueTrip.ListAs | src/encode.js:246-271 | an untyped or mixed list reads back; a list tag on a value with no length reads back as an empty list |
| ValueTrip.EmptyAt | src/decode.js:180-190 | the header of an empty list reads back as an empty list |
| ValueTrip.UntypedAt | src/encode.js:246-261 | an untyped array reads back as its promoted typed list or as a mixed list |
| ValueTrip.MixedAt | src/encode.js:262-271 | a mixed list reads back each element by its own tag |
| ValueTrip.MixedBody | src/decode.js:180-190 | type 0, a pad byte, the count and the elements read back as the elements' `BackValue`, in order |
| ValueTrip.ItemsAt | src/decode.js:185-190 | consecutive self-tagged values read back in order |
| ValueTrip.RItemsStep | src/decode.js:185-190 | reading no values gives none; reading `n` values reads one, then `n - 1` |
| ValueTrip.RNull | src/decode.js:168-170 | 101 followed by 0 reads as null |
| ValueTrip.RAtom | src/decode.js:165-167 | a negative tag above -20 reads the scalar of that code |
| ValueTrip.RText | src/decode.js:182-184 | code 10 reads `n` bytes as text |
| ValueTrip.REmpty | src/decode.js:180-190 | a list of count 0 reads as an empty list for any code below 99 other than 10 |
| ValueTrip.RTyped | src/decode.js:185-190 | a non-empty typed list reads its elements with its type's reader |
| ValueTrip.RMixed | src/decode.js:185-190 | a list of code 0 reads its elements with `r()` |
| Divergences.ShortSentinelCollision | src/encode.js:65-73 | a finite short 32767 is written exactly as +infinity is, and reads back as +infinity |
| Divergences.IntSentinelCollision | src/encode.js:74-82 | a finite int -2147483647 is written exactly as -infinity is, and reads back as -infinity |
| Divergences.ByteReadsUnsigned | src/decode.js:49-53 | a byte -1 is written as 255 and reads back as 255 |
| Divergences.CodeThreeAtom | src/decode.js:158 | an atom tagged -3 finds no reader and fails with "not a function" |
| Divergences.CodeThreeList | src/decode.js:185-190 | a non-empty list of code 3 finds no element reader and fails |
| Divergences.DictLengthUnchecked | src/decode.js:171-179 | symbol keys against a value list of any length: the loop runs over the keys only, each key holds the value at its last position or undefined past the last value, and extra values are dropped |
| Divergences.UnterminatedSymbol | src/decode.js:107-112 | a symbol with no zero byte after the cursor is the unmodelled cursor rewind |
| Divergences.DateBefore2000 | src/encode.js:162-164 | a time before 2000 partway through a day is written as the next day's count |
| Divergences.DateBefore2000ReadsNextDay | src/decode.js:130-133 | that count reads back as the start of the following day, not of the day the time falls in |
| Divergences.December1999 | src/decode.js:121-126 | the month count -1 reads back as December 1998 |
| Divergences.MonthBefore2000 | src/encode.js:159-161 | a time in December 1999 is written as -1 and reads back as December 1998 |

## Left out

- I/O: there is none in the core. The message is a returned byte sequence.
- IEEE-754 conversion: `ieee754.read`/`write` (behind `writeFloatLE`,
  `writeDoubleLE`, `readFloatLE` and `readDoubleLE`) are parameters of type
  `Foreign.Lib` with fixed-width results. The float round trips hold wherever
  those routines give the number back.
- GUID parsing: `uuid`'s `parse` is a parameter of `Foreign.Lib`.
  _private/utf8.js is not part of this model. `utf8ToBytes` is standard
  UTF-8 (with U+FFFD for a lone surrogate), and `utf8Slice` is not decoded:
  a decoded text is its bytes.
- Floating-point number arithmetic: numbers are exact reals. The date
  arithmetic (`/ 86400000`, `/ 86400000000000`) and a `Long` taking part in
  a division are computed without double rounding.
- `checkIEEE754` and writes past the allocation: a body longer than its
  estimate makes `Frame.Encode` an `Unmodelled` error. The model does not
  reproduce which write throws or how `write` truncates.
- Decoder cursor rewinds: `rSymbol` without a terminator moves the cursor
  back (`indexOf` gives -1), as does a negative char-list count. Both are
  `Unmodelled` errors, which also make `r()` terminate.
- Invalid `Date` values on the writer side: a `Date` holds an integer time.
  Strings and objects passed as `Long` halves: `LongHalf` converts numbers
  only.
- The table type and the function types' payloads are unimplemented in the
  source too. Function markers decode to `DFunc`.
- ValueTrip.MessageRoundTrip: dicts are not covered. The decoder turns key
  bytes into property names, lists index keys first and pairs values by
  position; `DictLaws.LastAssignmentWins` and
  `Divergences.DictLengthUnchecked` state what it builds instead.
- ValueTrip.MessageRoundTrip: exact only in real arithmetic. The source
  divides in doubles, and a date or time can come back a millisecond early;
  for example, a timestamp of 946684800123 ms is written as 122999923
  nanoseconds and reads back as 946684800122 ms.
- ScalarTrip.ScalarRoundTrip: exact only in real arithmetic, for the same
  reason; see the lines for the temporal trips below.
- ScalarTrip.TemporalRoundTrip: exact only in real arithmetic; see the
  lines for the temporal trips below.
- ScalarTrip.WideTimeRoundTrip: exact only in real arithmetic; see
  `TimestampTrip`, `DatetimeTrip` and `TimespanTrip` below.
- ScalarTrip.TimestampTrip: exact only in real arithmetic. In doubles,
  86400000000000 × (946684800123 / 86400000 - 10957) is 122999923.77, which
  `Long.fromNumber` truncates, so the time reads back as 946684800122 ms.
  Nanosecond counts above 2^53 are not all doubles either.
- ScalarTrip.DatetimeTrip: exact only in real arithmetic. The datetime
  1430973486002 ms is written as a day count whose product with 86400000 is
  1430973486001.9998, and `new Date` truncates it to ...001.
- ScalarTrip.TimespanTrip: exact only in real arithmetic. Nanosecond counts
  above 2^53 lose bits in `val / 86400000000000`, and the day fraction is
  rounded before it is scaled back.
- ScalarTrip.ClockTrip: exact only in real arithmetic. The minute 215 reads
  back as 86400000 × (10957 + 215 / 1440), which is 946697699999.9999 in
  doubles, so 03:34:59.999 rather than 03:35.
- Divergences.December1999: the month truncation before 2000 is shown for
  December 1999; `DateBefore2000` covers every day before 2000.
- Calendar: it models the ECMAScript `Date` algorithms (`DayFromYear`,
  `YearFromTime`, `MonthFromTime`, `Date.UTC`, `TimeClip`), not the source.
  The source cells cite the lines that call them.
- Encoder.W: its own contract bounds only the length. What it writes is
  stated by `SizeLaws.WExact` (how many bytes) and `ValueTrip.ValueAt`
  (what they read back as).
- Encoder.StringBytes: the same; the bytes are stated by `ValueTrip.StringAs`
  and `SizeLaws.StringBodyExact`.
- Encoder.Untyped: the same; see `ValueTrip.UntypedAt` and
  `SizeLaws.UntypedExact`.
- Encoder.Items: the same; see `ValueTrip.ItemsAt` and `SizeLaws.ItemsExact`.
- Encoder.Payload: its own contract gives only the width. The bytes of each
  wire type are stated by `ScalarTrip.ScalarRoundTrip`.
- Encoder.Payloads: the same; see `ValueTrip.ScalarsAt`.
- Encoder.Header: the length field is stated by `Frame.HeaderFields`.
- Decoder.ReadScalar: its own contract gives only the cursor movement. The
  value read is stated by `ScalarTrip.ScalarRoundTrip` and the `Divergences`
  lemmas.
- Decoder.ReadNumeric: the same.
- Decoder.ReadTemporal: the same.
- Decoder.ReadSymbol: the value read is stated by `ReadLaws.ReadSymbolAt`
  and `Divergences.UnterminatedSymbol`.
- Decoder.R: its own contract gives only the cursor movement. The value read
  is stated by `ValueTrip.ValueAt` and the `Divergences` lemmas.
- Decoder.RItems: the same; see `ValueTrip.ItemsAt`.
- Decoder.RScalars: the same; see `ValueTrip.ScalarsAt`.
- Decoder.Decode: the same; see `ValueTrip.MessageRoundTrip`.
- Decoder.Fill: its own contract gives only the shape of the property
  list. What the loop builds is stated by `DictLaws.LastAssignmentWins`. A
  `__proto__` key with an object or null value replaces the dict's
  prototype; that case is an `Unmodelled` error.
- Decoder.KeyText: the text of a fraction, of a number of 1e21 or more, and
  of a valid `Date` (which depends on the local time zone) are `Unmodelled`.
  A decoded text that is not valid UTF-8 stays as its bytes, where
  JavaScript would put U+FFFD in the name.
- Decoder.Length: the UTF-16 length of non-ASCII decoded text, and a dict
  with a `length` key used as a key or value list, are `Unmodelled`.
- Decoder.Index: the UTF-16 unit of non-ASCII decoded text or GUID text is
  `Unmodelled`.
- ByteBuf.IndexOf: its clauses about the search start hold for offsets in
  the 32-bit range; outside it the offset is clamped first, which the
  function models but its contract does not spell out.
- ByteBuf.Slice: its clauses hold for bounds in the 32-bit range; `~~`
  wraps larger bounds, which `ByteBuf.SliceBounds` states.
- Registry.Type2Num: the source looks a name up in a plain object literal,
  so a name inherited from `Object.prototype` (`constructor`, `toString`,
  `valueOf`, `hasOwnProperty`, `isPrototypeOf`, `propertyIsEnumerable`,
  `toLocaleString`, `__proto__`, `__defineGetter__` and its kin) finds a
  function or an object, not `undefined`, and no "bad type" is thrown. The
  model fails with "bad type" for these names too; the code the source would
  write in their place is not a byte.
- Registry.Type2Size: the same inherited names give a function or an object
  as the width, so the size estimate becomes a string or NaN and
  `Buffer.alloc` later fails with a TypeError rather than "bad type". The
  model fails with "bad type" for these names.
- Encoder.TypedBytes: its own contract gives the header only. The payloads
  are stated by `ValueTrip.TypedAt` (what they read back as) and
  `SizeLaws.TypedExact` (how many bytes).
- Encoder.Mixed: its own contract gives the header only. The elements are
  stated by `ValueTrip.MixedAt` and `SizeLaws.MixedExact`.
- Values a tag does not fit: a non-string under a symbol or string tag
  (encode.dfy:160, sizing.dfy:32, sizing.dfy:118, encode.dfy:369,
  sizing.dfy:143), a string or object as a GUID or a number (encode.dfy:44,
  encode.dfy:171, typed.dfy:154), a typed list over a non-array
  (encode.dfy:361, sizing.dfy:101), the length of a string or object under a
  list tag (encode.dfy:288, sizing.dfy:71), and the own keys of a non-plain
  object (encode.dfy:274) are `Unmodelled` errors. The source goes through
  JavaScript's implicit conversions there, which the model does not
  follow.
- Decoder.DateOf: only the invalid case is in its contract. The valid case is
  stated where it is used (`ScalarTrip.DateTrip`, `ScalarTrip.ClockTrip`).
- ByteBuf.ReadInt16LE: the value read is stated by
  `ByteBufLaws.Int16RoundTrip`.
- ByteBuf.ReadInt32LE: the value read is stated by `ByteBufLaws.Int32Read`.
- Sizing.KeysLength: the exact cost is stated by `SizeLaws.KeyBytesLength`.
- Sizing.CalcMixed: the exact cost is stated by `SizeLaws.MixedExact`.
- Sizing.ByteLength: its contract gives only a lower bound; `Utf8.EncodeLength`
  says when the bound is reached.
