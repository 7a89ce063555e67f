/** The own string-keyed properties of an ordinary JavaScript object (`{}`),
    as `o[key] = value` creates and updates them. A key is the UTF-8 bytes of
    the property name. `Object.keys` does not list keys in creation order:
    array-index keys ("0" up to "4294967294", in canonical decimal) come
    first, in ascending numeric order, and the other keys follow in the order
    they were created. Assigning `__proto__` goes to the prototype setter and
    creates no own property. */
module Props {
  import opened JsNum

  datatype Prop<V> = Prop(key: seq<byte>, val: V)

  /** "__proto__". */
  const PROTO: seq<byte> := [95, 95, 112, 114, 111, 116, 111, 95, 95]

  /** The largest array index, 2^32 - 2. */
  const MAX_INDEX: int := 0xFFFF_FFFE

  predicate IsDigits(s: seq<byte>) {
    forall k :: 0 <= k < |s| ==> 48 <= s[k] <= 57
  }

  /** The number a run of decimal digits spells. */
  function DigitsValue(s: seq<byte>): int {
    if |s| == 0 then 0 else DigitsValue(s[..|s| - 1]) * 10 + (s[|s| - 1] as int - 48)
  }

  /** Digits without a superfluous leading zero. */
  predicate IsCanonical(s: seq<byte>) {
    |s| >= 1 && IsDigits(s) && (s[0] == 48 ==> |s| == 1)
  }

  /** `String(n)` for a natural number: its canonical decimal digits. */
  function Digits(n: nat): (s: seq<byte>)
    ensures IsCanonical(s) && DigitsValue(s) == n
  {
    if n < 10 then [48 + n]
    else
      var p := Digits(n / 10);
      var s := p + [48 + n % 10];
      assert s[..|s| - 1] == p;
      s
  }

  /** An array index: the canonical decimal text of a number up to 2^32 - 2. */
  predicate IsIndexKey(k: seq<byte>) {
    IsCanonical(k) && DigitsValue(k) <= MAX_INDEX
  }

  /** Digits whose first one is not zero spell a positive number. */
  lemma {:induction false} LeadingDigitPositive(s: seq<byte>)
    requires IsCanonical(s) && s[0] != 48
    ensures DigitsValue(s) >= 1
    decreases |s|
  {
    CanonicalSplit(s);
    if |s| > 1 {
      LeadingDigitPositive(s[..|s| - 1]);
    }
  }

  /** Canonical digits are their last digit after a shorter canonical run,
      unless there is only one. */
  lemma CanonicalSplit(k: seq<byte>)
    requires IsCanonical(k)
    ensures |k| >= 1 && 0 <= k[|k| - 1] as int - 48 < 10
    ensures |k| == 1 ==> DigitsValue(k) == k[0] as int - 48 && Digits(DigitsValue(k)) == k
    ensures |k| > 1 ==> IsCanonical(k[..|k| - 1]) && k[0] != 48 && k[..|k| - 1][0] == k[0]
    ensures |k| > 1 ==> DigitsValue(k) == DigitsValue(k[..|k| - 1]) * 10 + (k[|k| - 1] as int - 48)
  {
    if |k| == 1 {
      assert k[..0] == [] && k == [k[0]];
    }
  }

  /** Canonical digits are the text of the number they spell. */
  lemma {:induction false} CanonicalDigits(k: seq<byte>)
    requires IsCanonical(k)
    ensures DigitsValue(k) >= 0
    ensures Digits(DigitsValue(k)) == k
    decreases |k|
  {
    hide Digits, DigitsValue, IsCanonical, IsDigits;
    CanonicalSplit(k);
    if |k| > 1 {
      var p := k[..|k| - 1];
      CanonicalDigits(p);
      LeadingDigitPositive(p);
      var d := k[|k| - 1] as int - 48;
      var q := DigitsValue(p);
      DivMod10(q, d);
      DigitsStep(q * 10 + d);
      assert k == p + [k[|k| - 1]];
    }
  }

  lemma DigitsStep(n: nat)
    requires n >= 10
    ensures Digits(n) == Digits(n / 10) + [48 + n % 10]
  {
  }

  lemma DivMod10(q: int, d: int)
    requires q >= 1 && 0 <= d < 10
    ensures (q * 10 + d) / 10 == q && (q * 10 + d) % 10 == d && q * 10 + d >= 10
  {
  }

  /** Two index keys with the same value are the same key. */
  lemma IndexKeysEqual(a: seq<byte>, b: seq<byte>)
    requires IsIndexKey(a) && IsIndexKey(b) && DigitsValue(a) == DigitsValue(b)
    ensures a == b
  {
    CanonicalDigits(a);
    CanonicalDigits(b);
  }

  lemma IndexKeysDiffer(a: seq<byte>, b: seq<byte>)
    requires IsIndexKey(a) && IsIndexKey(b) && a != b
    ensures DigitsValue(a) != DigitsValue(b)
  {
    if DigitsValue(a) == DigitsValue(b) {
      IndexKeysEqual(a, b);
    }
  }

  /** The text of `n` is an array index exactly when `n` is at most 2^32 - 2. */
  lemma IndexKeyOfNumber(n: nat)
    ensures IsIndexKey(Digits(n)) <==> n <= MAX_INDEX
  {
  }

  function Keys<V>(ps: seq<Prop<V>>): (ks: seq<seq<byte>>)
    ensures |ks| == |ps|
    ensures forall k :: 0 <= k < |ps| ==> ks[k] == ps[k].key
  {
    if |ps| == 0 then [] else [ps[0].key] + Keys(ps[1..])
  }

  /** No key twice. */
  predicate Distinct(ks: seq<seq<byte>>) {
    forall i, j :: 0 <= i < j < |ks| ==> ks[i] != ks[j]
  }

  /** The `Object.keys` order: an index key is preceded only by index keys
      of smaller value. */
  predicate IndexOrder(ks: seq<seq<byte>>) {
    forall i, j :: 0 <= i < j < |ks| && IsIndexKey(ks[j]) ==>
      IsIndexKey(ks[i]) && DigitsValue(ks[i]) < DigitsValue(ks[j])
  }

  /** What the own properties of an object built by assignment always are. */
  predicate Wellformed<V>(ps: seq<Prop<V>>) {
    Distinct(Keys(ps)) && IndexOrder(Keys(ps)) && PROTO !in Keys(ps)
  }

  /** `o[k]` as an own property: its value, if `k` is one. */
  function Get<V>(ps: seq<Prop<V>>, k: seq<byte>): (r: Option<V>)
    ensures r.Some? <==> k in Keys(ps)
  {
    if |ps| == 0 then None
    else if ps[0].key == k then Some(ps[0].val)
    else
      assert Keys(ps) == [ps[0].key] + Keys(ps[1..]);
      Get(ps[1..], k)
  }

  /** The keys that are not array indices, in order. */
  function NamedKeys(ks: seq<seq<byte>>): seq<seq<byte>>
  {
    if |ks| == 0 then []
    else (if IsIndexKey(ks[0]) then [] else [ks[0]]) + NamedKeys(ks[1..])
  }

  /** `o[key] = val`: `__proto__` creates nothing; an existing key keeps its
      place and takes the new value; a new index key goes among the index
      keys by value; any other new key goes last. */
  function Assign<V>(ps: seq<Prop<V>>, key: seq<byte>, val: V): (r: seq<Prop<V>>)
    requires Wellformed(ps)
    ensures Wellformed(r)
    ensures forall k :: Get(r, k) == if k == key && key != PROTO then Some(val) else Get(ps, k)
    ensures NamedKeys(Keys(r)) == NamedKeys(Keys(ps))
              + (if key == PROTO || IsIndexKey(key) || key in Keys(ps) then [] else [key])
  {
    if key == PROTO then ps
    else if key in Keys(ps) then Update(ps, key, val)
    else if IsIndexKey(key) then
      var r := Insert(ps, key, val);
      assert Get(r, PROTO) == Get(ps, PROTO);
      r
    else Append(ps, key, val)
  }

  /** Replaces the value of the first property named `key`. */
  function Update<V>(ps: seq<Prop<V>>, key: seq<byte>, val: V): (r: seq<Prop<V>>)
    ensures Keys(r) == Keys(ps)
    ensures forall k :: Get(r, k) == if k == key && key in Keys(ps) then Some(val) else Get(ps, k)
  {
    if |ps| == 0 then []
    else if ps[0].key == key then [Prop(key, val)] + ps[1..]
    else
      var rest := Update(ps[1..], key, val);
      var r := [ps[0]] + rest;
      assert r[1..] == rest;
      assert Keys(r) == [ps[0].key] + Keys(ps[1..]) == Keys(ps);
      r
  }

  /** A new named key goes last. */
  function Append<V>(ps: seq<Prop<V>>, key: seq<byte>, val: V): (r: seq<Prop<V>>)
    requires Wellformed(ps) && !IsIndexKey(key) && key != PROTO && key !in Keys(ps)
    ensures Wellformed(r)
    ensures forall k :: Get(r, k) == if k == key then Some(val) else Get(ps, k)
    ensures NamedKeys(Keys(r)) == NamedKeys(Keys(ps)) + [key]
  {
    var r := ps + [Prop(key, val)];
    assert Keys(r) == Keys(ps) + [key];
    NamedKeysAppend(Keys(ps), key);
    GetAppend(ps, key, val);
    r
  }

  lemma {:induction false} NamedKeysAppend(ks: seq<seq<byte>>, key: seq<byte>)
    ensures NamedKeys(ks + [key]) == NamedKeys(ks) + (if IsIndexKey(key) then [] else [key])
    decreases |ks|
  {
    var t := ks + [key];
    if |ks| > 0 {
      assert t[0] == ks[0] && t[1..] == ks[1..] + [key];
      NamedKeysAppend(ks[1..], key);
    } else {
      assert t[1..] == [];
    }
  }

  lemma {:induction false} GetAppend<V>(ps: seq<Prop<V>>, key: seq<byte>, val: V)
    requires key !in Keys(ps)
    ensures forall k :: Get(ps + [Prop(key, val)], k) == if k == key then Some(val) else Get(ps, k)
    decreases |ps|
  {
    if |ps| > 0 {
      assert (ps + [Prop(key, val)])[1..] == ps[1..] + [Prop(key, val)];
      assert Keys(ps) == [ps[0].key] + Keys(ps[1..]);
      GetAppend(ps[1..], key, val);
    }
  }

  /** `x` put in at position `p`. */
  function Splice<T>(s: seq<T>, p: nat, x: T): (r: seq<T>)
    requires p <= |s|
    ensures |r| == |s| + 1
    ensures forall i :: 0 <= i < |r| ==> r[i] == if i < p then s[i] else if i == p then x else s[i - 1]
  {
    s[..p] + [x] + s[p..]
  }

  /** Where a new index key goes: after the index keys of smaller value. */
  function InsertPos(ks: seq<seq<byte>>, key: seq<byte>): (p: nat)
    requires IsIndexKey(key)
    ensures p <= |ks|
    ensures forall i :: 0 <= i < p ==> IsIndexKey(ks[i]) && DigitsValue(ks[i]) < DigitsValue(key)
    ensures p < |ks| ==> !IsIndexKey(ks[p]) || DigitsValue(key) <= DigitsValue(ks[p])
  {
    if |ks| == 0 || !IsIndexKey(ks[0]) || DigitsValue(key) <= DigitsValue(ks[0]) then 0
    else 1 + InsertPos(ks[1..], key)
  }

  /** A new index key goes before the first key that is not an index or has
      a larger value. */
  function Insert<V>(ps: seq<Prop<V>>, key: seq<byte>, val: V): (r: seq<Prop<V>>)
    requires IsIndexKey(key) && key !in Keys(ps) && IndexOrder(Keys(ps)) && Distinct(Keys(ps))
    ensures IndexOrder(Keys(r)) && Distinct(Keys(r))
    ensures forall k :: Get(r, k) == if k == key then Some(val) else Get(ps, k)
    ensures NamedKeys(Keys(r)) == NamedKeys(Keys(ps))
  {
    var ks := Keys(ps);
    var p := InsertPos(ks, key);
    var r := Splice(ps, p, Prop(key, val));
    assert Keys(r) == Splice(ks, p, key);
    InsertOrdered(ks, key, p);
    SpliceDistinct(ks, key, p);
    InsertNamed(ks, key, p);
    GetSplice(ps, p, key, val);
    r
  }

  /** Splicing the new key in at its place keeps the keys in order. */
  lemma InsertOrdered(ks: seq<seq<byte>>, key: seq<byte>, p: nat)
    requires IsIndexKey(key) && key !in ks && IndexOrder(ks)
    requires p == InsertPos(ks, key)
    ensures IndexOrder(Splice(ks, p, key))
  {
    hide IsIndexKey, DigitsValue;
    var r := Splice(ks, p, key);
    if p < |ks| && IsIndexKey(ks[p]) {
      IndexKeysDiffer(ks[p], key);
    }
    forall i, j | 0 <= i < j < |r| && IsIndexKey(r[j])
      ensures IsIndexKey(r[i]) && DigitsValue(r[i]) < DigitsValue(r[j])
    {
      if j < p {
        assert r[i] == ks[i] && r[j] == ks[j];
      } else if j == p {
        assert r[i] == ks[i];
      } else if i < p {
        assert r[i] == ks[i] && r[j] == ks[j - 1];
      } else if i == p {
        assert r[j] == ks[j - 1];
        if j > p + 1 {
          assert IsIndexKey(ks[p]) && DigitsValue(ks[p]) < DigitsValue(ks[j - 1]);
        }
      } else {
        assert r[i] == ks[i - 1] && r[j] == ks[j - 1];
      }
    }
  }

  /** Splicing a key the keys do not hold keeps them distinct. */
  lemma SpliceDistinct(ks: seq<seq<byte>>, key: seq<byte>, p: nat)
    requires key !in ks && Distinct(ks) && p <= |ks|
    ensures Distinct(Splice(ks, p, key))
  {
    var r := Splice(ks, p, key);
    forall i, j | 0 <= i < j < |r| ensures r[i] != r[j] {
      if j < p {
        assert r[i] == ks[i] && r[j] == ks[j];
      } else if j == p {
        assert r[i] == ks[i];
      } else if i < p {
        assert r[i] == ks[i] && r[j] == ks[j - 1];
      } else if i == p {
        assert r[j] == ks[j - 1];
      } else {
        assert r[i] == ks[i - 1] && r[j] == ks[j - 1];
      }
    }
  }

  /** The keys before the splice point are all indices, so the named keys
      stay as they were. */
  lemma InsertNamed(ks: seq<seq<byte>>, key: seq<byte>, p: nat)
    requires IsIndexKey(key) && p == InsertPos(ks, key)
    ensures NamedKeys(Splice(ks, p, key)) == NamedKeys(ks)
  {
    NoNamedKeys(ks[..p] + [key]);
    NamedKeysConcat(ks[..p] + [key], ks[p..]);
    NoNamedKeys(ks[..p]);
    NamedKeysConcat(ks[..p], ks[p..]);
    assert ks == ks[..p] + ks[p..];
  }

  lemma {:induction false} NoNamedKeys(ks: seq<seq<byte>>)
    requires forall i :: 0 <= i < |ks| ==> IsIndexKey(ks[i])
    ensures NamedKeys(ks) == []
    decreases |ks|
  {
    if |ks| > 0 {
      NoNamedKeys(ks[1..]);
    }
  }

  lemma {:induction false} NamedKeysConcat(a: seq<seq<byte>>, b: seq<seq<byte>>)
    ensures NamedKeys(a + b) == NamedKeys(a) + NamedKeys(b)
    decreases |a|
  {
    if |a| > 0 {
      assert (a + b)[0] == a[0] && (a + b)[1..] == a[1..] + b;
      NamedKeysConcat(a[1..], b);
    } else {
      assert a + b == b;
    }
  }

  /** Looking up in a concatenation: the first part wins. */
  lemma {:induction false} GetConcat<V>(a: seq<Prop<V>>, b: seq<Prop<V>>, k: seq<byte>)
    ensures Get(a + b, k) == if k in Keys(a) then Get(a, k) else Get(b, k)
    decreases |a|
  {
    if |a| > 0 {
      assert (a + b)[0] == a[0] && (a + b)[1..] == a[1..] + b;
      assert Keys(a) == [a[0].key] + Keys(a[1..]);
      GetConcat(a[1..], b, k);
    } else {
      assert a + b == b;
    }
  }

  lemma {:induction false} KeysConcat<V>(a: seq<Prop<V>>, b: seq<Prop<V>>)
    ensures Keys(a + b) == Keys(a) + Keys(b)
  {
    assert forall i :: 0 <= i < |a| ==> (a + b)[i] == a[i];
    assert forall i :: |a| <= i < |a| + |b| ==> (a + b)[i] == b[i - |a|];
  }

  lemma GetSplice<V>(ps: seq<Prop<V>>, p: nat, key: seq<byte>, val: V)
    requires p <= |ps| && key !in Keys(ps)
    ensures forall k :: Get(Splice(ps, p, Prop(key, val)), k) == if k == key then Some(val) else Get(ps, k)
  {
    forall k ensures Get(Splice(ps, p, Prop(key, val)), k) == if k == key then Some(val) else Get(ps, k) {
      GetSpliceAt(ps, p, key, val, k);
    }
  }

  lemma GetSpliceAt<V>(ps: seq<Prop<V>>, p: nat, key: seq<byte>, val: V, k: seq<byte>)
    requires p <= |ps| && key !in Keys(ps)
    ensures Get(Splice(ps, p, Prop(key, val)), k) == if k == key then Some(val) else Get(ps, k)
  {
    var a, b, e := ps[..p], ps[p..], [Prop(key, val)];
    assert ps == a + b;
    KeysConcat(a, b);
    assert Keys(e) == [key];
    assert Splice(ps, p, Prop(key, val)) == a + (e + b);
    GetConcat(a, e + b, k);
    GetConcat(a, b, k);
    GetConcat(e, b, k);
  }
}

/** The contract of `Props.Assign` pins its result down: the values of the
    keys and the order of the named keys decide the whole property list. */
module PropsLaws {
  import opened JsNum
  import opened Props

  /** Two property lists built by assignment that agree on every key and on
      the order of their named keys are the same list. */
  lemma {:induction false} Determined<V>(ps: seq<Prop<V>>, qs: seq<Prop<V>>)
    requires Wellformed(ps) && Wellformed(qs)
    requires forall k :: Get(ps, k) == Get(qs, k)
    requires NamedKeys(Keys(ps)) == NamedKeys(Keys(qs))
    ensures ps == qs
    decreases |ps|
  {
    FirstFound(ps);
    FirstFound(qs);
    assert |ps| == 0 <==> |qs| == 0;
    if |ps| > 0 {
      SameHeadKey(ps, qs);
      var h := ps[0].key;
      HeadGet(ps);
      HeadGet(qs);
      assert ps[0] == qs[0];
      var ps', qs' := ps[1..], qs[1..];
      TailWellformed(ps);
      TailWellformed(qs);
      forall k ensures Get(ps', k) == Get(qs', k) {
        if k != h {
          assert Get(ps, k) == Get(qs, k);
        }
      }
      NamedKeysHead(Keys(ps));
      NamedKeysHead(Keys(qs));
      var n := if IsIndexKey(h) then 0 else 1;
      assert NamedKeys(Keys(ps')) == NamedKeys(Keys(ps))[n..];
      assert NamedKeys(Keys(qs')) == NamedKeys(Keys(qs))[n..];
      Determined(ps', qs');
      assert ps == [ps[0]] + ps' && qs == [qs[0]] + qs';
    }
  }

  /** Two such lists start with the same key: the smallest index key if
      there is one, else the first named key. */
  lemma SameHeadKey<V>(ps: seq<Prop<V>>, qs: seq<Prop<V>>)
    requires |ps| > 0 && |qs| > 0 && Wellformed(ps) && Wellformed(qs)
    requires forall k :: Get(ps, k) == Get(qs, k)
    requires NamedKeys(Keys(ps)) == NamedKeys(Keys(qs))
    ensures ps[0].key == qs[0].key
  {
    var a, b := ps[0].key, qs[0].key;
    FirstFound(ps);
    FirstFound(qs);
    assert Get(qs, a).Some? && Get(ps, b).Some?;
    if IsIndexKey(a) {
      FirstIndex(qs, a);
      FirstIndex(ps, b);
      IndexKeysEqual(a, b);
    } else if IsIndexKey(b) {
      FirstIndex(ps, b);
      FirstIndex(qs, a);
      IndexKeysEqual(a, b);
    } else {
      assert Keys(ps)[0] == a && Keys(qs)[0] == b;
      AllNamed(Keys(ps));
      AllNamed(Keys(qs));
    }
  }

  /** Where a key stands. */
  lemma Position(ks: seq<seq<byte>>, k: seq<byte>) returns (j: nat)
    requires k in ks
    ensures j < |ks| && ks[j] == k
  {
    j :| 0 <= j < |ks| && ks[j] == k;
  }

  /** Keys in order whose first is named are all named. */
  lemma {:induction false} AllNamed(ks: seq<seq<byte>>)
    requires |ks| > 0 && IndexOrder(ks) && !IsIndexKey(ks[0])
    ensures NamedKeys(ks) == ks
    decreases |ks|
  {
    if |ks| > 1 {
      assert !IsIndexKey(ks[1]);
      TailOrdered(ks);
      AllNamed(ks[1..]);
    }
    assert ks == [ks[0]] + ks[1..];
  }

  lemma TailOrdered(ks: seq<seq<byte>>)
    requires |ks| > 0 && IndexOrder(ks)
    ensures IndexOrder(ks[1..])
  {
    forall i, j | 0 <= i < j < |ks| - 1 ensures ks[1..][i] == ks[i + 1] && ks[1..][j] == ks[j + 1] { }
  }

  /** The first property answers for its key, which no later property has. */
  lemma HeadGet<V>(ps: seq<Prop<V>>)
    requires |ps| > 0 && Distinct(Keys(ps))
    ensures Get(ps, ps[0].key) == Some(ps[0].val)
    ensures Get(ps[1..], ps[0].key) == None
    ensures forall k :: k != ps[0].key ==> Get(ps, k) == Get(ps[1..], k)
  {
    hide Keys, Distinct;
    HeadGone(ps);
    GetPastHead(ps);
  }

  lemma HeadGone<V>(ps: seq<Prop<V>>)
    requires |ps| > 0 && Distinct(Keys(ps))
    ensures ps[0].key !in Keys(ps[1..])
  {
    hide Keys;
    var ks, ts := Keys(ps), Keys(ps[1..]);
    forall i | 0 <= i < |ts| ensures ts[i] != ps[0].key {
      assert ts[i] == ps[i + 1].key == ks[i + 1];
      assert ks[0] == ps[0].key;
    }
  }

  lemma GetPastHead<V>(ps: seq<Prop<V>>)
    requires |ps| > 0
    ensures forall k :: k != ps[0].key ==> Get(ps, k) == Get(ps[1..], k)
  {
  }

  /** The first key of a list built by assignment is its smallest index key,
      if it has any. */
  lemma FirstIndex<V>(ps: seq<Prop<V>>, k: seq<byte>)
    requires Wellformed(ps) && IsIndexKey(k) && k in Keys(ps)
    ensures |ps| > 0 && IsIndexKey(ps[0].key) && DigitsValue(ps[0].key) <= DigitsValue(k)
  {
    var m := Position(Keys(ps), k);
    assert Keys(ps)[0] == ps[0].key;
  }

  /** A non-empty list answers for its first key. */
  lemma FirstFound<V>(ps: seq<Prop<V>>)
    ensures |ps| > 0 ==> Get(ps, ps[0].key).Some?
  {
  }

  lemma TailWellformed<V>(ps: seq<Prop<V>>)
    requires |ps| > 0 && Wellformed(ps)
    ensures Wellformed(ps[1..]) && Keys(ps[1..]) == Keys(ps)[1..]
  {
    var ks := Keys(ps);
    assert ks == [ps[0].key] + Keys(ps[1..]);
    TailOrdered(ks);
    assert Keys(ps[1..]) == ks[1..];
  }

  lemma NamedKeysHead(ks: seq<seq<byte>>)
    requires |ks| > 0
    ensures NamedKeys(ks) == (if IsIndexKey(ks[0]) then [] else [ks[0]]) + NamedKeys(ks[1..])
  {
  }
}
