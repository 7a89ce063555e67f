/** What the dict loop `o[x[i]] = y[i]` builds: every key holds the value
    of the last assignment that names it, a `__proto__` key with a
    primitive value creates nothing, and the named keys appear in the order
    they were first assigned, after the index keys in ascending order. */
module DictLaws {
  import opened JsNum
  import opened Errors
  import opened Props
  import opened Decoder
  import PropsLaws

  /** Turn `i` of the loop converts `x[i]` to the key text `keys[i]` and
      reads the value `vals[i]` from `y[i]`. */
  predicate Reads(x: Decoded, y: Decoded, keys: seq<seq<byte>>, vals: seq<Decoded>) {
    |keys| == |vals| &&
    forall i :: 0 <= i < |keys| ==>
      Index(x, i).Ok? && KeyText(Index(x, i).value) == Ok(keys[i]) && Index(y, i) == Ok(vals[i])
  }

  /** No `__proto__` key comes with an object or null value. */
  predicate NoPrototypeChange(keys: seq<seq<byte>>, vals: seq<Decoded>)
    requires |keys| == |vals|
  {
    forall i :: 0 <= i < |keys| && keys[i] == PROTO ==> !IsObject(vals[i]) && !vals[i].DNull?
  }

  /** The value key `k` holds after the first `n` assignments: that of the
      last one naming it. An assignment to `__proto__` names no property. */
  function Latest(keys: seq<seq<byte>>, vals: seq<Decoded>, n: nat, k: seq<byte>): Option<Decoded>
    requires n <= |keys| == |vals|
  {
    if n == 0 || k == PROTO then None
    else if keys[n - 1] == k then Some(vals[n - 1])
    else Latest(keys, vals, n - 1, k)
  }

  /** The keys that are neither index keys nor `__proto__` in the order
      the first `n` assignments create them. */
  function Created(keys: seq<seq<byte>>, n: nat): seq<seq<byte>>
    requires n <= |keys|
  {
    if n == 0 then []
    else
      var key := keys[n - 1];
      Created(keys, n - 1) + (if key == PROTO || IsIndexKey(key) || key in keys[..n - 1] then [] else [key])
  }

  /** A key holds a value exactly when some assignment names it. */
  lemma {:induction false} LatestSome(keys: seq<seq<byte>>, vals: seq<Decoded>, n: nat, k: seq<byte>)
    requires n <= |keys| == |vals|
    ensures Latest(keys, vals, n, k).Some? <==> k != PROTO && k in keys[..n]
  {
    if n > 0 && k != PROTO {
      assert keys[..n] == keys[..n - 1] + [keys[n - 1]];
      LatestSome(keys, vals, n - 1, k);
    }
  }

  /** The loop from turn `i` on, started from the properties the first `i`
      turns built, ends with the properties all turns build. */
  lemma {:induction false} FillFrom(x: Decoded, y: Decoded, keys: seq<seq<byte>>, vals: seq<Decoded>,
                                    i: nat, o: seq<Entry>)
    requires Reads(x, y, keys, vals) && NoPrototypeChange(keys, vals)
    requires i <= |keys| && Wellformed(o)
    requires forall k :: Get(o, k) == Latest(keys, vals, i, k)
    requires NamedKeys(Keys(o)) == Created(keys, i)
    ensures Fill(o, x, y, i, |keys|).Ok?
    ensures forall k :: Get(Fill(o, x, y, i, |keys|).value, k) == Latest(keys, vals, |keys|, k)
    ensures NamedKeys(Keys(Fill(o, x, y, i, |keys|).value)) == Created(keys, |keys|)
    decreases |keys| - i
  {
    hide Fill, Index, KeyText, Get, Latest, Created, NamedKeys, Keys;
    if i < |keys| {
      var o' := Assign(o, keys[i], vals[i]);
      assert Index(x, i).Ok? && KeyText(Index(x, i).value) == Ok(keys[i]) && Index(y, i) == Ok(vals[i]);
      assert keys[i] == PROTO ==> !IsObject(vals[i]) && !vals[i].DNull?;
      FillStep(x, y, i, |keys|, o, Index(x, i).value, keys[i], vals[i]);
      GetStep(keys, vals, i, o);
      CreatedStep(keys, vals, i, o);
      FillFrom(x, y, keys, vals, i + 1, o');
    } else {
      FillDone(o, x, y, i);
    }
  }

  /** No turns left: the loop returns the properties it has. */
  lemma FillDone(o: seq<Entry>, x: Decoded, y: Decoded, n: nat)
    requires Wellformed(o)
    ensures Fill(o, x, y, n, n) == Ok(o)
  {
  }

  /** One turn assigns the value it reads to the key it converts. */
  lemma FillStep(x: Decoded, y: Decoded, i: nat, n: nat, o: seq<Entry>, k: Decoded, key: seq<byte>, v: Decoded)
    requires i < n && Wellformed(o)
    requires Index(x, i) == Ok(k) && KeyText(k) == Ok(key) && Index(y, i) == Ok(v)
    requires key == PROTO ==> !IsObject(v) && !v.DNull?
    ensures Fill(o, x, y, i, n) == Fill(Assign(o, key, v), x, y, i + 1, n)
  {
    hide Index, KeyText, Assign;
  }

  /** After one more turn every key holds its latest value. */
  lemma GetStep(keys: seq<seq<byte>>, vals: seq<Decoded>, i: nat, o: seq<Entry>)
    requires i < |keys| == |vals| && Wellformed(o)
    requires forall k :: Get(o, k) == Latest(keys, vals, i, k)
    ensures forall k :: Get(Assign(o, keys[i], vals[i]), k) == Latest(keys, vals, i + 1, k)
  {
    hide Get;
    forall k ensures Get(Assign(o, keys[i], vals[i]), k) == Latest(keys, vals, i + 1, k) {
      assert Get(o, k) == Latest(keys, vals, i, k);
    }
  }

  /** After one more turn the named keys are those created so far. */
  lemma CreatedStep(keys: seq<seq<byte>>, vals: seq<Decoded>, i: nat, o: seq<Entry>)
    requires i < |keys| == |vals| && Wellformed(o)
    requires forall k :: Get(o, k) == Latest(keys, vals, i, k)
    requires NamedKeys(Keys(o)) == Created(keys, i)
    ensures NamedKeys(Keys(Assign(o, keys[i], vals[i]))) == Created(keys, i + 1)
  {
    var key := keys[i];
    if key != PROTO {
      LatestSome(keys, vals, i, key);
      assert Get(o, key) == Latest(keys, vals, i, key);
      assert key in Keys(o) <==> key in keys[..i];
    }
  }

  /** The whole loop: every key holds its last value, and the named keys
      come in creation order. With `Wellformed` these fix the result
      (`PropsLaws.Determined`). */
  lemma LastAssignmentWins(x: Decoded, y: Decoded, keys: seq<seq<byte>>, vals: seq<Decoded>)
    requires Reads(x, y, keys, vals) && NoPrototypeChange(keys, vals)
    ensures Fill([], x, y, 0, |keys|).Ok?
    ensures forall k :: Get(Fill([], x, y, 0, |keys|).value, k) == Latest(keys, vals, |keys|, k)
    ensures NamedKeys(Keys(Fill([], x, y, 0, |keys|).value)) == Created(keys, |keys|)
  {
    FillFrom(x, y, keys, vals, 0, []);
  }

  /** A list of decoded symbols: each converts to its own bytes. */
  function Symbols(keys: seq<seq<byte>>): (x: Decoded)
    ensures x.DList? && |x.items| == |keys|
    ensures forall i :: 0 <= i < |keys| ==> Index(x, i) == Ok(DText(keys[i]))
  {
    DList(seq(|keys|, i requires 0 <= i < |keys| => DText(keys[i])))
  }

  /** The values the loop reads from a value list for `n` keys: missing
      ones are undefined, extra ones are never read. */
  function Padded(vals: seq<Decoded>, n: nat): (r: seq<Decoded>)
    ensures |r| == n
    ensures forall i :: 0 <= i < n ==> r[i] == if i < |vals| then vals[i] else DUndefined
  {
    seq(n, i requires 0 <= i < n => if i < |vals| then vals[i] else DUndefined)
  }

  /** Symbol keys against a value list: the loop runs over the keys alone. */
  lemma SymbolKeys(keys: seq<seq<byte>>, vals: seq<Decoded>)
    requires NoPrototypeChange(keys, Padded(vals, |keys|))
    ensures Reads(Symbols(keys), DList(vals), keys, Padded(vals, |keys|))
  {
  }

  /** Key `i` of an ASCII char list as the key list is the one-character
      text of byte `i`. */
  lemma CharKeys(t: seq<byte>, i: nat)
    requires Utf8.IsAscii(t) && i < |t|
    ensures Length(DText(t)) == Ok(|t|)
    ensures Index(DText(t), i).Ok? && KeyText(Index(DText(t), i).value) == Ok([t[i]])
  {
    Utf8.AsciiEncodesToItself([t[i]]);
  }

  /** A whole number as a key is its decimal text, an index key exactly
      when it lies in 0..2^32-2. */
  lemma NumberKey(i: nat)
    requires i < 1000000000000000000000
    ensures KeyText(DNum(OfInt(i))) == Ok(Digits(i))
    ensures IsIndexKey(Digits(i)) <==> i <= MAX_INDEX
  {
    assert (i as real).Floor == i;
    IndexKeyOfNumber(i);
  }

  /** A `__proto__` key with a primitive value creates no property. */
  lemma PrototypeKeyIgnored(v: Decoded)
    requires !IsObject(v) && !v.DNull?
    ensures Fill([], Symbols([PROTO]), DList([v]), 0, 1) == Ok([])
  {
    assert Index(Symbols([PROTO]), 0) == Ok(DText(PROTO));
  }

  /** Keys `b` then `1`: the index key `1` comes first. */
  lemma IndexKeyFirst(v0: Decoded, v1: Decoded)
    ensures Fill([], Symbols([[98], [49]]), DList([v0, v1]), 0, 2) == Ok([Prop([49], v1), Prop([98], v0)])
  {
    hide Fill, Latest, Created, Symbols, Index, KeyText, Length, Assign, Get, NamedKeys, Keys;
    var keys: seq<seq<byte>> := [[98], [49]];
    var vals := [v0, v1];
    var q := [Prop([49], v1), Prop([98], v0)];
    assert Padded(vals, 2) == vals;
    SymbolKeys(keys, vals);
    LastAssignmentWins(Symbols(keys), DList(vals), keys, vals);
    ExampleShape(v0, v1);
    var o := Fill([], Symbols(keys), DList(vals), 0, 2).value;
    forall k ensures Get(o, k) == Get(q, k) {
      assert Get(o, k) == Latest(keys, vals, 2, k);
    }
    PropsLaws.Determined(o, q);
  }

  /** The facts about the keys `b` then `1` the example needs. */
  lemma ExampleShape(v0: Decoded, v1: Decoded)
    ensures Wellformed([Prop([49], v1), Prop([98], v0)])
    ensures NamedKeys(Keys([Prop([49], v1), Prop([98], v0)])) == Created([[98], [49]], 2) == [[98]]
    ensures forall k :: Latest([[98], [49]], [v0, v1], 2, k) == Get([Prop([49], v1), Prop([98], v0)], k)
  {
    var keys: seq<seq<byte>> := [[98], [49]];
    var vals := [v0, v1];
    assert IsIndexKey([49]) && !IsIndexKey([98]);
    assert |PROTO| == 9;
    assert keys[..0] == [];
    assert Created(keys, 1) == [[98]];
    assert Created(keys, 2) == Created(keys, 1);
    var ks: seq<seq<byte>> := Keys([Prop([49], v1), Prop([98], v0)]);
    assert ks == [[49], [98]];
    assert ks[1..] == [[98]] && ks[1..][1..] == [];
    assert NamedKeys(ks[1..][1..]) == [];
    assert NamedKeys(ks[1..]) == [[98]];
    assert NamedKeys(ks) == [[98]];
    forall k ensures Latest(keys, vals, 2, k) == Get([Prop([49], v1), Prop([98], v0)], k) {
      assert Latest(keys, vals, 0, k) == None;
      assert Latest(keys, vals, 1, k) == if k == [98] then Some(v0) else None;
    }
  }
}
