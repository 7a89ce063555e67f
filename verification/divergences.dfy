/** Where writing and then reading does not give the value back: the
    sentinel collisions, the unsigned byte reader, the missing reader for
    code 3, the unguarded dict loop, the unterminated symbol, and the day
    and month writers before 2000. Each lemma states what the codec does in
    that case. */
module Divergences {
  import opened JsNum
  import opened Registry
  import opened Values
  import opened Errors
  import opened ByteBuf
  import opened Calendar
  import opened Foreign
  import opened Encoder
  import opened Decoder
  import opened ReadLaws
  import ScalarTrip
  import Props
  import DictLaws
  import Laws = ByteBufLaws

  /** A finite short 32767 is written exactly as positive infinity, and the
      reader turns it into infinity. */
  lemma ShortSentinelCollision(lib: Lib, b: seq<byte>, pos: int, nanos2date: bool)
    requires At(b, pos, LE(OfInt(SHORT_INFINITY), 2)) && Fits(b)
    ensures Payload(lib, Short, Num(OfInt(SHORT_INFINITY))) == Payload(lib, Short, Num(PosInf))
                                                          == Ok(LE(OfInt(SHORT_INFINITY), 2))
    ensures ReadScalar(lib, Short, b, pos, nanos2date) == Ok((DNum(PosInf), pos + 2))
  {
    ReadInt16At(b, pos, SHORT_INFINITY);
  }

  /** A finite int -2147483647 is written exactly as negative infinity, and
      the reader turns it into infinity. */
  lemma IntSentinelCollision(lib: Lib, b: seq<byte>, pos: int, nanos2date: bool)
    requires At(b, pos, LE(OfInt(INT_NEG_INFINITY), 4)) && Fits(b)
    ensures Payload(lib, Int, Num(OfInt(INT_NEG_INFINITY))) == Payload(lib, Int, Num(NegInf))
                                                           == Ok(LE(OfInt(INT_NEG_INFINITY), 4))
    ensures ReadScalar(lib, Int, b, pos, nanos2date) == Ok((DNum(NegInf), pos + 4))
  {
    ReadInt32At(b, pos, INT_NEG_INFINITY);
  }

  /** A byte is written signed and read unsigned: -1 comes back as 255. */
  lemma ByteReadsUnsigned(lib: Lib, b: seq<byte>, pos: int, nanos2date: bool)
    requires 0 <= pos < |b| && b[pos] == 255
    ensures Payload(lib, Byte, Num(OfInt(-1))) == Ok([255])
    ensures ReadScalar(lib, Byte, b, pos, nanos2date) == Ok((DNum(OfInt(255)), pos + 1))
  {
    Laws.ToUint32OfInt(-1);
    assert LE(OfInt(-1), 1) == [255];
    ReadUInt8At(b, pos);
  }

  /** An atom tagged -3 has no reader: the dispatch fails. */
  lemma CodeThreeAtom(lib: Lib, b: seq<byte>, pos: int, nanos2date: bool)
    requires 0 <= pos < |b| && b[pos] == 253
    ensures R(lib, b, pos, nanos2date) == Err(TypeErr(NOT_A_FUNCTION))
  {
    ReadInt8At(b, pos, -3);
  }

  /** A non-empty list tagged 3 has no element reader: the dispatch fails. */
  lemma CodeThreeList(lib: Lib, b: seq<byte>, pos: int, nanos2date: bool, n: int)
    requires 0 <= pos < |b| && b[pos] == 3
    requires 0 < n < INT_INFINITY && At(b, pos + 2, LE(OfInt(n), 4)) && Fits(b)
    ensures R(lib, b, pos, nanos2date) == Err(TypeErr(NOT_A_FUNCTION))
  {
    ReadInt8At(b, pos, 3);
    ReadCountAt(b, pos + 2, n);
    FromCodeDomain(3);
  }

  /** The dict loop runs over the keys whatever the length of the value
      list, with no check that the two agree: a key past the last value
      holds undefined, and values past the last key are dropped. */
  lemma DictLengthUnchecked(keys: seq<seq<byte>>, vals: seq<Decoded>)
    requires DictLaws.NoPrototypeChange(keys, DictLaws.Padded(vals, |keys|))
    ensures Length(DictLaws.Symbols(keys)) == Ok(|keys|)
    ensures Fill([], DictLaws.Symbols(keys), DList(vals), 0, |keys|).Ok?
    ensures forall k :: Props.Get(Fill([], DictLaws.Symbols(keys), DList(vals), 0, |keys|).value, k)
                        == DictLaws.Latest(keys, DictLaws.Padded(vals, |keys|), |keys|, k)
  {
    DictLaws.SymbolKeys(keys, vals);
    DictLaws.LastAssignmentWins(DictLaws.Symbols(keys), DList(vals), keys, DictLaws.Padded(vals, |keys|));
  }

  /** A symbol with no zero byte at or after the cursor: the source moves
      the cursor back to the last byte, which is outside this model. */
  lemma UnterminatedSymbol(b: seq<byte>, pos: int)
    requires 0 <= pos < |b| && Fits(b)
    requires forall k :: pos <= k < |b| ==> b[k] != 0
    ensures ReadSymbol(b, pos).Err? && ReadSymbol(b, pos).error.Unmodelled?
  {
    IndexOfFrom(b, 0, pos);
  }

  /** Before 2000, `wdate` truncates the negative day count toward zero,
      so a time partway through a day is written as the next day. */
  lemma DateBefore2000(lib: Lib, x: Val)
    requires x.Instant? && -MAX_TIME <= x.ms < EPOCH_2000 && x.ms % MS_PER_DAY != 0
    ensures Payload(lib, Date, x) == Ok(LE(OfInt(DayOf(x.ms) + 1 - 10957), 4))
  {
    var q := DayOf(x.ms);
    var r := x.ms % MS_PER_DAY;
    assert ScalarTrip.Days2000(x.ms) == (q - 10957) as real + r as real / MS_PER_DAY as real;
    assert Trunc(ScalarTrip.Days2000(x.ms)) == q + 1 - 10957;
    Laws.ToUint32OfInt(q + 1 - 10957);
  }

  /** The day count `wdate` writes for such a time reads back as the start
      of the following day, not the day the time falls in. */
  lemma DateBefore2000ReadsNextDay(lib: Lib, x: Val, b: seq<byte>, pos: int, nanos2date: bool)
    requires x.Instant? && -MAX_TIME <= x.ms < EPOCH_2000 && x.ms % MS_PER_DAY != 0
    requires At(b, pos, LE(OfInt(DayOf(x.ms) + 1 - 10957), 4)) && Fits(b)
    ensures ReadScalar(lib, Date, b, pos, nanos2date) == Ok((DDate(Valid((DayOf(x.ms) + 1) * MS_PER_DAY)), pos + 4))
    ensures DayOf(x.ms) * MS_PER_DAY <= x.ms < (DayOf(x.ms) + 1) * MS_PER_DAY
  {
    var d := DayOf(x.ms) + 1 - 10957;
    ReadInt32At(b, pos, d);
    assert MS_PER_DAY as real * (10957.0 + d as real) == ((DayOf(x.ms) + 1) * MS_PER_DAY) as real;
    assert Trunc(((DayOf(x.ms) + 1) * MS_PER_DAY) as real) == (DayOf(x.ms) + 1) * MS_PER_DAY;
  }

  /** December 1999 is month count -1; `rMonth` truncates the year
      2000 - 1/12 toward zero to 1999 and keeps the remainder -1, and
      month -1 of 1999 is December 1998. */
  lemma December1999()
    ensures MonthOf(OfInt(-1)) == Valid(FirstDayOfMonth(1998, 11) * MS_PER_DAY)
    ensures FirstDayOfMonth(1998, 11) == FirstDayOfMonth(1999, 11) - 365
  {
    assert Trunc(-1 as real) == -1;
    assert Trunc(2000.0 + -1.0 / 12.0) == 1999;
    assert MonthRem(-1) == -1;
    assert MakeDayFirst(1999, -1) == FirstDayOfMonth(1998, 11);
    assert DayFromYear(1998) == 10227 && DayFromYear(1999) == 10592;
    assert Leap(1998) == 0 && Leap(1999) == 0;
    assert Trunc((FirstDayOfMonth(1998, 11) * MS_PER_DAY) as real) == FirstDayOfMonth(1998, 11) * MS_PER_DAY;
  }

  /** A time in December 1999 is written as the month count -1 and reads
      back as December 1998. */
  lemma MonthBefore2000(lib: Lib, x: Val, b: seq<byte>, pos: int, nanos2date: bool)
    requires x.Instant? && UtcYear(x.ms) == 1999 && UtcMonth(x.ms) == 11
    requires At(b, pos, LE(OfInt(-1), 4)) && Fits(b)
    ensures Payload(lib, Month, x) == Ok(LE(OfInt(-1), 4))
    ensures ReadScalar(lib, Month, b, pos, nanos2date)
            == Ok((DDate(Valid(FirstDayOfMonth(1998, 11) * MS_PER_DAY)), pos + 4))
  {
    hide ReadScalar, Payload;
    MonthPayloadBefore2000(lib, x);
    ReadMonthBefore2000(lib, b, pos, nanos2date);
  }

  lemma MonthPayloadBefore2000(lib: Lib, x: Val)
    requires x.Instant? && UtcYear(x.ms) == 1999 && UtcMonth(x.ms) == 11
    ensures Payload(lib, Month, x) == Ok(LE(OfInt(-1), 4))
  {
  }

  lemma ReadMonthBefore2000(lib: Lib, b: seq<byte>, pos: int, nanos2date: bool)
    requires At(b, pos, LE(OfInt(-1), 4)) && Fits(b)
    ensures ReadScalar(lib, Month, b, pos, nanos2date)
            == Ok((DDate(Valid(FirstDayOfMonth(1998, 11) * MS_PER_DAY)), pos + 4))
  {
    hide MonthOf, CountDate, UtcFirstOfMonth, FirstDayOfMonth, TimeClip, Payload;
    ReadInt32At(b, pos, -1);
    December1999();
  }
}
